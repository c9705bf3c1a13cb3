/**
 The whole way of a firmware image: app_crc, app_container, the printed container, the
 bootloader's parser and external flash, the check, the copy, and the check before the start.
 */
module ImageChain {
  import opened Machine
  import opened Layout
  import opened Ihex
  import opened IhexRoundTrip
  import opened IhexStream
  import opened AppCrcTool
  import opened ContainerTool
  import Bootloader
  import Checksums

  // ---- text to records ----

  lemma EofParses(hiWord: U32, fl: Flavour)
    ensures Meaning(hiWord, EOF_LINE, fl) == Parsed(0, EndOfData)
  {
    var b: seq<U8> := [0, 0, 0, 1] + [] + [255];
    HexOfFour(0, 0, 0, 1);
    HexOfParts([0, 0, 0, 1], [255]);
    assert HexAll([255]) == Hex2(255);
    assert b == [0, 0, 0, 1] + [255];
    assert EOF_LINE == [COLON] + HexAll(b);
    SumOfFour(0, 0, 0, 1);
    SumMore([0, 0, 0, 1], 255);
    BytesParse(hiWord, EOF_LINE, b, fl);
    RecordOf(hiWord, EOF_LINE, 0, 0, 0, 1, [], 255, fl);
  }

  ghost predicate ReadsEnd(parse: Reader)
  {
    forall hiWord: U32 :: parse(hiWord, EOF_LINE) == Parsed(0, EndOfData)
  }

  lemma {:induction false} ClosedReceived(parse: Reader, ops: seq<Chunk>)
    requires Faithful(parse) && ReadsEnd(parse)
    ensures Receive(parse, 0, PrintedAll(0, ops) + [EOF_LINE]) == Some(Received(0, ChunksOf(ops)))
  {
    AllReceived(parse, 0, ops);
    var hiWord := BaseOf(HiAfterAll(0, ops));
    ReceiveOne(parse, hiWord, EOF_LINE);
    ReceiveParts(parse, 0, PrintedAll(0, ops), [EOF_LINE]);
    assert ChunksOf(ops) + [] == ChunksOf(ops);
  }

  /** A complete file, closed by its end record, gives back the flushed data. */
  lemma {:induction false} FileReceived(ops: seq<Chunk>, fl: Flavour)
    ensures Receive(LineReader(fl), 0, PrintedAll(0, ops) + [EOF_LINE]) == Some(Received(0, ChunksOf(ops)))
  {
    BothFaithful(fl);
    forall hiWord: U32 ensures LineReader(fl)(hiWord, EOF_LINE) == Parsed(0, EndOfData) {
      EofParses(hiWord, fl);
    }
    ClosedReceived(LineReader(fl), ops);
  }

  // ---- app_crc to app_container ----

  lemma {:induction false} ImageShifted(page: seq<U8>, img: seq<U8>, ds: seq<Chunk>)
    requires |page| == PAGE && Ascending(START + |img|, ds)
    ensures Ascending(INFO + |page + img|, ds)
    ensures ImageOf(INFO, page + img, ds) == page + ImageOf(START, img, ds)
    decreases |ds|
  {
    if ds != [] {
      assert Extend(INFO, page + img, ds[0]) == page + Extend(START, img, ds[0]);
      ImageShifted(page, Extend(START, img, ds[0]), ds[1..]);
    }
  }

  /**
   The container tool fills the rest of the info page and the gaps with the same 0xFF the CRC was
   taken over: what it loads is the patched page and the application.
   */
  lemma {:induction false} PageThenApp(page: seq<U8>, used: nat, datas: seq<Chunk>)
    requires |page| == PAGE && 0 < used <= PAGE && (forall k :: used <= k < PAGE ==> page[k] == 0xFF)
    requires Ascending(START, datas) && datas != [] && datas[0].addr == START
    ensures var ops := [Chunk(INFO, page[..used])] + datas;
            Ascending(INFO, ops) && ImageOf(INFO, [], ops) == page + AppOf(datas)
  {
    var first := Chunk(INFO, page[..used]);
    var ops := [first] + datas;
    assert ops[1..] == datas;
    assert Extend(INFO, [], first) == page[..used];
    var d := datas[0];
    assert page == page[..used] + Erased(PAGE - used);
    assert Extend(INFO, page[..used], d) == page + Extend(START, [], d);
    ImageShifted(page, Extend(START, [], d), datas[1..]);
  }

  lemma {:induction false} PatchedFields(p: Pass)
    requires AppCrcTool.Clean(p) && 9 <= p.infoSize && p.size <= APP_MAX
    ensures var page := Patched(p);
            && U32At(page, 0) == p.size && U32At(page, 4) == Checksums.Finish(p.crc)
            && forall k :: p.infoSize <= k < PAGE ==> page[k] == 0xFF
  {
    var page := Patched(p);
    assert page[0..4] == Le4(p.size);
    assert page[4..8] == Le4(Checksums.Finish(p.crc));
    assert page[8..] == p.page[8..];
    forall k | p.infoSize <= k < PAGE ensures page[k] == 0xFF {
      assert page[k] == page[8..][k - 8];
    }
    FieldRead(p.size, page, 0);
    FieldRead(Checksums.Finish(p.crc), page, 4);
  }

  // ---- the stages ----

  /** The records of a text for a tool that starts with this base and these characters held. */
  ghost function Records(base: U32, held: Text, text: Text): seq<Chunk>
  {
    Heard(LineReader(Tools), base, Lines(held, text))
  }

  /** The base the parser is left with; the tool does not reset it between its two passes. */
  ghost function BaseLeft(text: Text): U32 { BaseAfter(LineReader(Tools), 0, Lines([], text)) }

  /** app_crc: the text of the linker's file, read twice, to the text of the checked file. */
  ghost function CrcFile(text: Text, nl: Text): Ended<Text>
  {
    match TakeAll(Begin(), Records(0, [], text))
    case Fatal => Fatal
    case Overrun => Overrun
    case Fine(p) =>
      if p.infoSize > PAGE || p.size > APP_MAX then Fatal
      else
        var again := Records(BaseLeft(text), BufAfter([], text), text);
        Fine(FileText(PrintedAll(0, AppCrcTool.Output(p, again)) + [EOF_LINE], nl))
  }

  /** The second pass reads what the first one read. */
  ghost predicate ReadsTwice(text: Text)
  {
    Records(BaseLeft(text), BufAfter([], text), text) == Records(0, [], text)
  }

  /**
   With the last line complete the second pass reads the same records exactly when the base was left at zero,
   as an end record leaves it, or no data record stands before the first record that sets it.
   */
  lemma ReadsTwiceExact(text: Text)
    requires BufAfter([], text) == []
    ensures ReadsTwice(text) <==> BaseLeft(text) == 0 || !Exposed(LineReader(Tools), Lines([], text))
  {
    BothMovable(Tools);
    ReadAgainExact(LineReader(Tools), BaseLeft(text), Lines([], text));
  }

  /** app_container: the text of that file to the lines of the container. Refused lines are only reported. */
  ghost function ContainerFile(text: Text, name: seq<U8>): Ended<seq<Text>>
  {
    match LoadAll(Loaded(Erased(APP_MAX), 0), Heard(LineReader(Tools), 0, Lines([], text)))
    case Fatal => Fatal
    case Overrun => Overrun
    case Fine(l) =>
      match Packed(l, name)
      case None => Fatal
      case Some(ops) => Fine(PrintedAll(0, ops) + [EOF_LINE])
  }

  /** The bootloader's terminal: what the flash holds after some lines, and the answer to each of them. */
  datatype Session = Session(mem: seq<U8>, hiWord: U32, answers: seq<bool>)

  function TypeLine(s: Session, line: Text): (t: Session)
    requires |s.mem| == FW_MAX
    ensures |t.mem| == FW_MAX
  {
    var p := Meaning(s.hiWord, line, Bootloader);
    match p.out
    case Rejected => Session(s.mem, p.hiWord, s.answers + [false])
    case Data(addr, data) =>
      (match Bootloader.Write(s.mem, Chunk(addr, data))
       case None => Session(s.mem, p.hiWord, s.answers + [false])
       case Some(m) => Session(m, p.hiWord, s.answers + [true]))
    case _ => Session(s.mem, p.hiWord, s.answers + [true])
  }

  /**
   One typed line: yes unless it is refused as a line or carries data whose address fails the test; the flash changes
   only by data inside its window, which then stands there and nothing else is touched.
   */
  lemma TypedExact(s: Session, line: Text)
    requires |s.mem| == FW_MAX
    ensures var t, p := TypeLine(s, line), Meaning(s.hiWord, line, Bootloader);
            && t.hiWord == p.hiWord
            && t.answers == s.answers
                            + [p.out != Rejected && (p.out.Data? ==> Bootloader.Passes(p.out.addr, |p.out.data|))]
            && forall k :: 0 <= k < FW_MAX ==>
                 t.mem[k] == if p.out.Data? && Bootloader.InWindow(p.out.addr, |p.out.data|)
                                && 0 <= FW_ADDR + k - p.out.addr < |p.out.data|
                             then p.out.data[FW_ADDR + k - p.out.addr] else s.mem[k]
  {
  }

  function TypeLines(s: Session, lines: seq<Text>): (t: Session)
    requires |s.mem| == FW_MAX
    ensures |t.mem| == FW_MAX
    decreases |lines|
  {
    if lines == [] then s else TypeLines(TypeLine(s, lines[0]), lines[1..])
  }

  lemma {:induction false} TypeTwo(s: Session, a: Text, b: Text)
    requires |s.mem| == FW_MAX
    ensures TypeLines(s, [a, b]) == TypeLine(TypeLine(s, a), b)
  {
    var all: seq<Text>, rest: seq<Text> := [a, b], [b];
    assert all[0] == a && all[1..] == rest && rest[1..] == [];
    var t := TypeLine(s, a);
    assert TypeLines(t, rest) == TypeLines(TypeLine(t, b), rest[1..]) == TypeLine(t, b);
  }

  lemma StrayTyped(s: Session, line: Text, c: Chunk)
    requires |s.mem| == FW_MAX && Meaning(s.hiWord, line, Bootloader) == Parsed(s.hiWord, Data(c.addr, c.data))
    requires Bootloader.Strays(c)
    ensures TypeLine(s, line) == s.(answers := s.answers + [true])
  {
  }

  lemma BaseTyped(s: Session, line: Text, hi: U32)
    requires |s.mem| == FW_MAX && Meaning(s.hiWord, line, Bootloader) == Parsed(hi, Base)
    ensures TypeLine(s, line) == s.(hiWord := hi, answers := s.answers + [true])
  {
  }

  /** A base record and a data record can hand the bootloader an address whose end wraps; it answers yes. */
  lemma WrappingLineTyped(mem: seq<U8>, d: seq<U8>)
    requires |mem| == FW_MAX && |d| == LINE_SIZE
    ensures TypeLines(Session(mem, 0, []), [BaseLine(0xFFFF), DataLine(0xFFF8, d)]) == Session(mem, 0xFFFF_0000, [true, true])
    ensures Bootloader.Strays(Chunk(0xFFFF_FFF8, d))
  {
    BaseLineParses(0, 0xFFFF, Bootloader);
    DataLineParses(0xFFFF_0000, 0xFFF8, d, Bootloader);
    Bootloader.EndWraps(d);
    TwoTyped(mem, BaseLine(0xFFFF), DataLine(0xFFF8, d), Chunk(0xFFFF_FFF8, d));
  }

  lemma TwoTyped(mem: seq<U8>, a: Text, b: Text, c: Chunk)
    requires |mem| == FW_MAX && Meaning(0, a, Bootloader) == Parsed(0xFFFF_0000, Base)
    requires Meaning(0xFFFF_0000, b, Bootloader) == Parsed(0xFFFF_0000, Data(c.addr, c.data)) && Bootloader.Strays(c)
    ensures TypeLines(Session(mem, 0, []), [a, b]) == Session(mem, 0xFFFF_0000, [true, true])
  {
    TypeTwo(Session(mem, 0, []), a, b);
    BaseTyped(Session(mem, 0, []), a, 0xFFFF_0000);
    StrayTyped(Session(mem, 0xFFFF_0000, [true]), b, c);
  }

  function Yes(n: nat): seq<bool> { seq(n, _ => true) }

  /** Lines that are all read and written get a yes each. */
  lemma {:induction false} TypedIsWritten(s: Session, lines: seq<Text>)
    requires |s.mem| == FW_MAX && Receive(LineReader(Bootloader), s.hiWord, lines).Some?
    requires Bootloader.WriteAll(s.mem, Receive(LineReader(Bootloader), s.hiWord, lines).value.chunks).Some?
    ensures var r := Receive(LineReader(Bootloader), s.hiWord, lines).value;
            TypeLines(s, lines) ==
            Session(Bootloader.WriteAll(s.mem, r.chunks).value, r.hiWord, s.answers + Yes(|lines|))
    decreases |lines|
  {
    if lines == [] {
      assert s.answers + Yes(0) == s.answers;
    } else {
      var t, p := TypeLine(s, lines[0]), LineReader(Bootloader)(s.hiWord, lines[0]);
      var rest := Receive(LineReader(Bootloader), p.hiWord, lines[1..]).value.chunks;
      assert p == Meaning(s.hiWord, lines[0], Bootloader);
      if p.out.Data? {
        var c := Chunk(p.out.addr, p.out.data);
        assert ([c] + rest)[0] == c && ([c] + rest)[1..] == rest;
      } else {
        assert Payload(p.out) + rest == rest;
      }
      assert t.hiWord == p.hiWord && t.answers == s.answers + [true];
      TypedIsWritten(t, lines[1..]);
      assert s.answers + [true] + Yes(|lines| - 1) == s.answers + Yes(|lines|);
    }
  }

  /** A good input with an application that fits the container. */
  ghost predicate Buildable(infos: seq<Chunk>, datas: seq<Chunk>)
  {
    Good(infos, datas) && APP_MIN <= |AppOf(datas)| <= FW_MAX - 2 * PAGE
  }

  /** The lines of a flush in the application are application records that ascend to its data. */
  lemma {:induction false} PiecesInApp(addr: U32, d: seq<U8>)
    requires START <= addr && NoWrap(addr, |d|) && addr + |d| <= START + APP_MAX
    ensures forall k :: 0 <= k < |Chunks(addr, d)| ==> AppRecord(Chunks(addr, d)[k])
    decreases |d|
  {
    if d != [] {
      var l := First(d);
      var c, rest := Chunk(addr, d[..l]), Chunks(Add32(addr, l), d[l..]);
      PiecesInApp(Add32(addr, l), d[l..]);
      assert Chunks(addr, d) == [c] + rest && AppRecord(c);
    }
  }

  /** A record that goes on where the image ends, in front of others. */
  lemma PieceInFront(img: seq<U8>, c: Chunk, rest: seq<Chunk>)
    requires c.addr == START + |img| && c.data != [] && Ascending(c.addr + |c.data|, rest)
    ensures Ascending(c.addr, [c] + rest) && ImageOf(START, img, [c] + rest) == ImageOf(START, img + c.data, rest)
  {
    assert ([c] + rest)[1..] == rest && Erased(0) == [];
    assert Extend(START, img, c) == img + c.data;
  }

  lemma {:induction false} PiecesAscend(img: seq<U8>, addr: U32, d: seq<U8>)
    requires START + |img| == addr && NoWrap(addr, |d|) && addr + |d| <= START + APP_MAX
    ensures Ascending(addr, Chunks(addr, d)) && ImageOf(START, img, Chunks(addr, d)) == img + d
    decreases |d|
  {
    if d == [] {
      assert img + d == img;
    } else {
      var l := First(d);
      var more := img + d[..l];
      PiecesAscend(more, Add32(addr, l), d[l..]);
      PieceInFront(img, Chunk(addr, d[..l]), Chunks(Add32(addr, l), d[l..]));
      assert more + d[l..] == img + d;
    }
  }

  /** A printed text with an end record is read the same twice. */
  lemma {:induction false} PrintedReadsTwice(ops: seq<Chunk>, nl: Text)
    requires Newline(nl)
    ensures var text := FileText(PrintedAll(0, ops) + [EOF_LINE], nl);
            Records(0, [], text) == ChunksOf(ops) && ReadsTwice(text)
  {
    var text, lines := FileText(PrintedAll(0, ops) + [EOF_LINE], nl), PrintedAll(0, ops) + [EOF_LINE];
    PrintedFileSplits(ops, nl);
    FileReceived(ops, Tools);
    HeardIsReceived(LineReader(Tools), 0, lines);
    ReadsTwiceExact(text);
  }

  lemma {:induction false} SmallestIsBuildable(i: Chunk, info: U8)
    requires info != 0xFF && i == Chunk(INFO + 8, [info])
    ensures Buildable([i], Chunks(START, Erased(APP_MIN)))
  {
    var d := Erased(APP_MIN);
    OneRecord(i, info);
    PiecesAscend([], START, d);
    PiecesInApp(START, d);
    assert [] + d == d;
    assert Chunks(START, d)[0].addr == START;
  }

  /** Such inputs exist as text: a device id alone in the info page, and 1 KiB of application. */
  lemma {:induction false} SomethingIsBuildable(info: U8, nl: Text) returns (text: Text, infos: seq<Chunk>, datas: seq<Chunk>)
    requires info != 0xFF && Newline(nl)
    ensures Buildable(infos, datas) && Records(0, [], text) == infos + datas && ReadsTwice(text)
  {
    var i, d := Chunk(INFO + 8, [info]), Chunk(START, Erased(APP_MIN));
    infos, datas := [i], Chunks(START, Erased(APP_MIN));
    SmallestIsBuildable(i, info);
    OneRecord(i, info);
    text := FileText(PrintedAll(0, [i, d]) + [EOF_LINE], nl);
    PrintedReadsTwice([i, d], nl);
    ChunksOfTwo(i, d);
  }

  lemma {:induction false} OneRecord(i: Chunk, info: U8)
    requires info != 0xFF && i == Chunk(INFO + 8, [info])
    ensures Chunks(i.addr, i.data) == [i] && InfoRecord(i) && HasDevice([i])
  {
    assert First([info]) == 1 && [info][..1] == [info] && [info][1..] == [];
    var p := Take(Begin(), i).value;
    assert p.page[8] == info;
    var rest: seq<Chunk> := [i][1..];
    assert rest == [] && TakeAll(Begin(), [i]) == TakeAll(p, rest) == Fine(p);
  }

  /** The image every stage is to carry: the info page with size and CRC, then the application. */
  ghost function Image(infos: seq<Chunk>, datas: seq<Chunk>): (image: seq<U8>)
    requires Buildable(infos, datas)
    ensures |image| == PAGE + |AppOf(datas)|
  {
    FirstPass(infos, datas);
    Patched(TakeAll(Begin(), infos + datas).value) + AppOf(datas)
  }

  /** The size and the CRC in the image are those of the application behind them. */
  lemma {:induction false} ImageIsSigned(infos: seq<Chunk>, datas: seq<Chunk>)
    requires Buildable(infos, datas)
    ensures var image := Image(infos, datas);
            && U32At(image, 0) == |image| - PAGE
            && U32At(image, 4) == Checksums.AppCrc(image[PAGE..])
  {
    FirstPass(infos, datas);
    var p, image := TakeAll(Begin(), infos + datas).value, Image(infos, datas);
    PatchedFields(p);
    assert image[..PAGE] == Patched(p) && image[PAGE..] == AppOf(datas);
    assert U32At(image, 0) == U32At(Patched(p), 0) && U32At(image, 4) == U32At(Patched(p), 4);
  }

  /** The records of the container: a header and the image. */
  function ContainerOps(image: seq<U8>, name: seq<U8>): seq<Chunk>
    requires 16 <= |image| < 0x1_0000_0000
  {
    [Chunk(FW_ADDR, Header(image, Ids(image), name)), Chunk(FW_ADDR + PAGE, image)]
  }

  lemma {:induction false} CrcToContainer(text: Text, infos: seq<Chunk>, datas: seq<Chunk>, name: seq<U8>, nl: Text)
    requires Buildable(infos, datas) && Newline(nl) && Records(0, [], text) == infos + datas && ReadsTwice(text)
    ensures var a := CrcFile(text, nl);
            a.Fine? && ContainerFile(a.value, name) ==
                       Fine(PrintedAll(0, ContainerOps(Image(infos, datas), name)) + [EOF_LINE])
  {
    FirstPass(infos, datas);
    var p := TakeAll(Begin(), infos + datas).value;
    PatchedFields(p);
    PageThenApp(Patched(p), p.infoSize, datas);
    ImageIsSigned(infos, datas);
    ContainerOfImage(AppCrcTool.Output(p, infos + datas), Image(infos, datas), name, nl);
  }

  /** The file of ascending flushes that lay out a signed image is packed into its container. */
  lemma {:induction false} ContainerOfImage(ops: seq<Chunk>, image: seq<U8>, name: seq<U8>, nl: Text)
    requires Ascending(INFO, ops) && ImageOf(INFO, [], ops) == image && PAGE <= |image| <= APP_MAX
    requires U32At(image, 0) + PAGE == |image| && Newline(nl)
    ensures ContainerFile(FileText(PrintedAll(0, ops) + [EOF_LINE], nl), name) ==
            Fine(PrintedAll(0, ContainerOps(image, name)) + [EOF_LINE])
  {
    PrintedFileSplits(ops, nl);
    FileReceived(ops, Tools);
    HeardIsReceived(LineReader(Tools), 0, PrintedAll(0, ops) + [EOF_LINE]);
    LoadImage(ops, image, name);
  }

  /** The records of an image load to the image, and a signed image is packed. */
  lemma {:induction false} LoadImage(ops: seq<Chunk>, image: seq<U8>, name: seq<U8>)
    requires Ascending(INFO, ops) && ImageOf(INFO, [], ops) == image && PAGE <= |image| <= APP_MAX
    requires U32At(image, 0) + PAGE == |image|
    ensures var cs := ChunksOf(ops);
            var l := LoadAll(Loaded(Erased(APP_MAX), 0), cs);
            l.Fine? && Packed(l.value, name) == Some(ContainerOps(image, name))
  {
    var l0 := Loaded(Erased(APP_MAX), 0);
    LoadOps(l0, [], ops);
    var l := LoadAll(l0, ChunksOf(ops)).value;
    HeadKept(l.fw, image);
  }

  lemma {:induction false} HeadKept(fw: seq<U8>, image: seq<U8>)
    requires 16 <= |image| <= |fw| && fw[..|image|] == image
    ensures U32At(fw, 0) == U32At(image, 0) && Ids(fw) == Ids(image)
  {
    assert forall k :: 0 <= k < |image| ==> fw[k] == fw[..|image|][k];
  }

  /** The container of an image, as one run of bytes. */
  function Container(image: seq<U8>, name: seq<U8>): (c: seq<U8>)
    requires 16 <= |image| < 0x1_0000_0000
    ensures |c| == PAGE + |image|
  {
    Header(image, Ids(image), name) + image
  }

  /** Sent to the bootloader, every line is answered with yes and the container lies in the flash byte for byte. */
  lemma {:induction false} ContainerStored(mem: seq<U8>, image: seq<U8>, name: seq<U8>)
    requires |mem| == FW_MAX && PAGE <= |image| <= FW_MAX - PAGE
    ensures var lines := PrintedAll(0, ContainerOps(image, name)) + [EOF_LINE];
            TypeLines(Session(mem, 0, []), lines) ==
            Session(Overwrite(mem, 0, Container(image, name)), 0, Yes(|lines|))
  {
    FileReceived(ContainerOps(image, name), Bootloader);
    TwoStored(mem, Header(image, Ids(image), name), image);
    TypedIsWritten(Session(mem, 0, []), PrintedAll(0, ContainerOps(image, name)) + [EOF_LINE]);
  }

  lemma {:induction false} TwoStored(mem: seq<U8>, h: seq<U8>, image: seq<U8>)
    requires |mem| == FW_MAX && |h| == PAGE && |image| <= FW_MAX - PAGE
    ensures Bootloader.WriteAll(mem, ChunksOf([Chunk(FW_ADDR, h), Chunk(FW_ADDR + PAGE, image)])) ==
            Some(Overwrite(mem, 0, h + image))
  {
    ChunksOfTwo(Chunk(FW_ADDR, h), Chunk(FW_ADDR + PAGE, image));
    Bootloader.WriteParts(mem, Chunks(FW_ADDR, h), Chunks(FW_ADDR + PAGE, image));
    Bootloader.WritePieces(mem, FW_ADDR, h);
    Bootloader.WritePieces(Overwrite(mem, 0, h), FW_ADDR + PAGE, image);
    OverwriteTwice(mem, 0, h, image);
  }

  lemma {:induction false} ChunksOfTwo(a: Chunk, b: Chunk)
    ensures ChunksOf([a, b]) == Chunks(a.addr, a.data) + Chunks(b.addr, b.data)
  {
    assert [a, b][1..] == [b] && [b][1..] == [];
    assert Chunks(b.addr, b.data) + [] == Chunks(b.addr, b.data);
    assert ChunksOf([b]) == Chunks(b.addr, b.data);
  }

  lemma {:induction false} SealedIsValid(body: seq<U8>)
    requires |body| == PAGE - 4
    ensures Bootloader.ContainerValid(Sealed(body))
  {
    var h, seal := Sealed(body), Checksums.Chsum(Checksums.CHSUM_START, body);
    assert h[..PAGE - 4] == body && h[PAGE - 4..PAGE - 4 + 4] == Le4(seal);
    FieldRead(seal, h, PAGE - 4);
  }

  lemma {:induction false} TwoFields(a: U32, b: U32, rest: seq<U8>)
    ensures var h := Le4(a) + Le4(b) + rest; U32At(h, 0) == a && U32At(h, 4) == b
  {
    var h := Le4(a) + Le4(b) + rest;
    assert h[0..4] == Le4(a) && h[4..8] == Le4(b);
    FieldRead(a, h, 0);
    FieldRead(b, h, 4);
  }

  lemma {:induction false} HeaderFields(image: seq<U8>, ids: seq<U8>, name: seq<U8>)
    requires |image| < 0x1_0000_0000 && |ids| == 6
    ensures var h := Header(image, ids, name);
            && Bootloader.ContainerValid(h) && U32At(h, 0) == |image|
            && U32At(h, 4) == Checksums.Chsum(Checksums.CHSUM_START, image)
  {
    var body, sum := HeaderBody(image, ids, name), Checksums.Chsum(Checksums.CHSUM_START, image);
    SealedIsValid(body);
    SealedKeeps(body, 0);
    SealedKeeps(body, 4);
    TwoFields(|image|, sum, HeaderRest(ids, name));
  }

  lemma {:induction false} SealedKeeps(body: seq<U8>, k: nat)
    requires k + 4 <= |body|
    ensures U32At(Sealed(body), k) == U32At(body, k)
  {
  }

  /**
   The check accepts a flash that holds the container of an image of allowed size; every field of the header stands
   at its offset in the flash, the ids being those of the info page, and the image follows.
   */
  lemma {:induction false} StoredIsAccepted(mem: seq<U8>, image: seq<U8>, name: seq<U8>)
    requires |mem| == FW_MAX && APP_MIN + PAGE <= |image| <= FW_MAX - PAGE
    ensures var m := Overwrite(mem, 0, Container(image, name));
            && Bootloader.Accepts(m) && Bootloader.DataSize(m) == |image|
            && m[PAGE..PAGE + |image|] == image
            && HeaderAt(m, image, image[8..14], name)
  {
    var h := Header(image, Ids(image), name);
    var m := Overwrite(mem, 0, h + image);
    HeaderFields(image, Ids(image), name);
    HeaderLayout(image, Ids(image), name);
    HeaderInFront(h, m, image, Ids(image), name);
    assert m[..Bootloader.SECTOR] == h;
    assert U32At(m, 0) == U32At(h, 0) && U32At(m, 4) == U32At(h, 4);
    assert m[PAGE..PAGE + |image|] == image;
    SectorsFit(|image|);
  }

  lemma {:induction false} SectorsFit(n: nat)
    requires n <= FW_MAX - PAGE
    ensures Bootloader.SECTOR + Bootloader.Sectors(n) * Bootloader.SECTOR <= FW_MAX
  {
  }

  /** An image with its own size and CRC in front is started once it has been copied. */
  lemma {:induction false} CopiedIsOk(flash: seq<U8>, mem: seq<U8>, image: seq<U8>)
    requires |flash| == Bootloader.FLASH_SIZE && |mem| == FW_MAX && Bootloader.Accepts(mem)
    requires Bootloader.DataSize(mem) == |image| && mem[PAGE..PAGE + |image|] == image
    requires |image| >= APP_MIN + PAGE
    requires U32At(image, 0) == |image| - PAGE && U32At(image, 4) == Checksums.AppCrc(image[PAGE..])
    ensures var f := Bootloader.Flashed(flash, mem);
            f[..|image|] == image && Bootloader.AppOk(f)
  {
    var f, n := Bootloader.Flashed(flash, mem), Bootloader.Sectors(|image|) * Bootloader.SECTOR;
    assert f[..|image|] == mem[PAGE..PAGE + n][..|image|] == image;
    assert U32At(f, 0) == U32At(image, 0) && U32At(f, 4) == U32At(image, 4);
    assert f[PAGE..|image|] == image[PAGE..];
  }

  /** Typed into the terminal, these lines bring the image to the internal flash, ready to run. */
  ghost predicate Installs(mem: seq<U8>, flash: seq<U8>, lines: seq<Text>, image: seq<U8>)
    requires |mem| == FW_MAX && |flash| == Bootloader.FLASH_SIZE && |image| <= Bootloader.FLASH_SIZE
  {
    var s := TypeLines(Session(mem, 0, []), lines);
    && s.answers == Yes(|lines|) && Bootloader.Accepts(s.mem)
    && var f := Bootloader.Flashed(flash, s.mem);
    f[..|image|] == image && Bootloader.AppOk(f)
  }

  /** From the printed container on: sent, accepted, copied and found whole. */
  lemma {:induction false} SentAndFlashed(infos: seq<Chunk>, datas: seq<Chunk>, name: seq<U8>, mem: seq<U8>, flash: seq<U8>)
    requires Buildable(infos, datas) && |mem| == FW_MAX && |flash| == Bootloader.FLASH_SIZE
    ensures Installs(mem, flash, PrintedAll(0, ContainerOps(Image(infos, datas), name)) + [EOF_LINE], Image(infos, datas))
  {
    var image := Image(infos, datas);
    ContainerStored(mem, image, name);
    StoredIsAccepted(mem, image, name);
    ImageIsSigned(infos, datas);
    CopiedIsOk(flash, Overwrite(mem, 0, Container(image, name)), image);
  }

  /**
   End to end: for every text of a buildable input that is read the same twice the two tools succeed, the bootloader accepts every line
   and the stored container, copies the image byte for byte whatever both flashes held before, and
   finds the application whole.
   */
  lemma {:induction false} EndToEnd(text: Text, infos: seq<Chunk>, datas: seq<Chunk>, name: seq<U8>, nl: Text,
                                   mem: seq<U8>, flash: seq<U8>)
    requires Buildable(infos, datas) && Newline(nl) && Records(0, [], text) == infos + datas && ReadsTwice(text)
    requires |mem| == FW_MAX && |flash| == Bootloader.FLASH_SIZE
    ensures var a := CrcFile(text, nl);
            && a.Fine?
            && var b := ContainerFile(a.value, name);
            && b.Fine? && Installs(mem, flash, b.value, Image(infos, datas))
  {
    CrcToContainer(text, infos, datas, name, nl);
    SentAndFlashed(infos, datas, name, mem, flash);
  }

  lemma {:induction false} FieldKept(mem: seq<U8>, k: nat, b: U8, at: nat)
    requires at + 4 <= k < |mem|
    ensures U32At(mem[k := b], at) == U32At(mem, at)
  {
  }

  lemma {:induction false} OneByteChsum(s: seq<U8>, k: nat, b: U8)
    requires k < |s| && s[k] != b
    ensures Checksums.Chsum(Checksums.CHSUM_START, s[k := b]) != Checksums.Chsum(Checksums.CHSUM_START, s)
  {
    var p, q := s[..k], s[k + 1..];
    assert s == p + [s[k]] + q && s[k := b] == p + [b] + q;
    if Checksums.Chsum(Checksums.CHSUM_START, s[k := b]) == Checksums.Chsum(Checksums.CHSUM_START, s) {
      Checksums.OneByteDetected(Checksums.CHSUM_START, p, s[k], b, q);
    }
  }

  /** A single wrong byte of the stored image is noticed by the check. */
  lemma {:induction false} FlippedByteRefused(mem: seq<U8>, k: nat, b: U8)
    requires |mem| == FW_MAX && Bootloader.Accepts(mem)
    requires PAGE <= k < PAGE + Bootloader.DataSize(mem) && mem[k] != b
    ensures !Bootloader.Accepts(mem[k := b])
  {
    var n := Bootloader.DataSize(mem);
    FieldKept(mem, k, b, 0);
    FieldKept(mem, k, b, 4);
    OneByteChsum(mem[PAGE..PAGE + n], k - PAGE, b);
    assert mem[k := b][PAGE..PAGE + n] == mem[PAGE..PAGE + n][k - PAGE := b];
  }

  lemma FieldChanges(mem: seq<U8>, k: nat, b: U8, at: nat)
    requires at <= k < at + 4 <= |mem| && mem[k] != b
    ensures U32At(mem[k := b], at) != U32At(mem, at)
  {
  }

  lemma FieldBehind(mem: seq<U8>, k: nat, b: U8, at: nat)
    requires k < at && at + 4 <= |mem|
    ensures U32At(mem[k := b], at) == U32At(mem, at)
  {
  }

  /** A single wrong byte anywhere in the stored header is noticed as well. */
  lemma {:induction false} FlippedHeaderRefused(mem: seq<U8>, k: nat, b: U8)
    requires |mem| == FW_MAX && Bootloader.Accepts(mem) && k < 512 && mem[k] != b
    ensures !Bootloader.Accepts(mem[k := b])
  {
    var h := mem[..512];
    assert mem[k := b][..512] == h[k := b];
    if k < 508 {
      OneByteChsum(h[..508], k, b);
      FieldBehind(h, k, b, 508);
      assert h[k := b][..508] == h[..508][k := b];
    } else {
      FieldChanges(h, k, b, 508);
      assert h[k := b][..508] == h[..508];
    }
  }

  /** The sizes the two checks let through. */
  lemma SizesAccepted(mem: seq<U8>, flash: seq<U8>)
    requires |mem| == FW_MAX && |flash| == Bootloader.FLASH_SIZE
    ensures Bootloader.Accepts(mem) ==> 1024 <= U32At(mem, 0) <= 256 * 1024 - 512
    ensures Bootloader.AppOk(flash) ==> 1024 <= U32At(flash, 0) <= (512 - 32) * 1024 - 512
  {
  }

  lemma {:induction false} OneByteCrc(s: seq<U8>, k: nat, b: U8)
    requires k < |s| && s[k] != b
    ensures Checksums.AppCrc(s[k := b]) != Checksums.AppCrc(s)
  {
    var p, q := s[..k], s[k + 1..];
    assert s == p + [s[k]] + q && s[k := b] == p + [b] + q;
    if Checksums.AppCrc(s[k := b]) == Checksums.AppCrc(s) {
      Checksums.FinishTells(Checksums.Crc(Checksums.CRC_START, s[k := b]), Checksums.Crc(Checksums.CRC_START, s));
      Checksums.CrcOneByteDetected(Checksums.CRC_START, p, b, s[k], q);
    }
  }

  /**
   A single wrong byte behind the size of a whole application: it is still started exactly when the byte lies in the
   rest of the info page or behind the application.
   */
  lemma {:induction false} FlippedAppExact(flash: seq<U8>, k: nat, b: U8)
    requires |flash| == Bootloader.FLASH_SIZE && Bootloader.AppOk(flash)
    requires 4 <= k < |flash| && flash[k] != b
    ensures Bootloader.AppOk(flash[k := b]) <==> 8 <= k < 512 || k >= 512 + U32At(flash, 0) as int
  {
    var n := U32At(flash, 0);
    var app := flash[512..512 + n];
    FieldKept(flash, k, b, 0);
    if k < 8 {
      FieldChanges(flash, k, b, 4);
      assert flash[k := b][512..512 + n] == app;
    } else {
      FieldKept(flash, k, b, 4);
      if 512 <= k < 512 + n {
        OneByteCrc(app, k - 512, b);
        assert flash[k := b][512..512 + n] == app[k - 512 := b];
      } else {
        assert flash[k := b][512..512 + n] == app;
      }
    }
  }
}
