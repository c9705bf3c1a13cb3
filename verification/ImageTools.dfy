/**
 The programs of the image chain put together: app_container from characters to the printed
 container, the bootloader's terminal, and the whole way from records to a started application.
 */
module ImageTools {
  import opened Machine
  import opened Layout
  import opened Ihex
  import opened IhexRoundTrip
  import opened IhexStream
  import opened AppCrcTool
  import opened ContainerTool
  import opened ImageChain
  import Boot = Bootloader

  /** The parser run on a line that stands in a buffer with a NUL behind it. */
  method ParseIn(parser: Parser, buf: array<U8>, line: Text) returns (out: Outcome)
    requires |line| < buf.Length && buf[..|line|] == line && buf[|line|] == 0 && 0 !in line
    modifies parser, buf
    ensures Parsed(parser.addrHiWord, out) == Meaning(old(parser.addrHiWord), line, parser.flavour)
  {
    CStringIs(buf[..], |line|);
    assert 0 in buf[..] by { assert buf[..][|line|] == 0; }
    out := parser.ParseLine(buf);
  }

  // ---- app_container ----

  /** One character: nothing complete, or one line read, which hands on at most one record. */
  lemma {:induction false} RecordsStep(hiWord: U32, held: Text, text: Text)
    requires text != []
    ensures var f := Next(held, text[0]);
            Records(hiWord, held, text) ==
            match f.line
            case None => Records(hiWord, f.buf, text[1..])
            case Some(line) =>
              var p := Meaning(hiWord, line, Tools);
              Payload(p.out) + Records(p.hiWord, f.buf, text[1..])
  {
    var f := Next(held, text[0]);
    var rest := Lines(f.buf, text[1..]);
    match f.line {
      case None => assert [] + rest == rest;
      case Some(line) =>
        assert ([line] + rest)[0] == line && ([line] + rest)[1..] == rest;
        assert LineReader(Tools)(hiWord, line) == Meaning(hiWord, line, Tools);
    }
  }

  lemma {:induction false} LoadOne(l: Loaded, c: Chunk)
    requires |l.fw| == APP_MAX && l.size <= APP_MAX
    ensures LoadAll(l, [c]) == Load(l, c)
  {
    var rest := [c][1..];
    assert rest == [];
  }

  /** The objects behind the static variables of the tool. */
  class Container {
    const feed: LineFeed
    const parser: Parser
    const packer: Packer

    ghost predicate Valid()
      reads this, feed, feed.buf, parser, packer
    {
      && feed.Valid() && packer.Valid() && parser.flavour == Tools && feed.buf != packer.fwData
      && 0 !in feed.Held()
    }

    constructor ()
      ensures Valid() && feed.Held() == [] && parser.addrHiWord == 0 && packer.View() == Loaded(Erased(APP_MAX), 0)
      ensures fresh(feed) && fresh(feed.buf) && fresh(parser) && fresh(packer) && fresh(packer.fwData)
    {
      feed := new LineFeed();
      parser := new Parser(Tools);
      packer := new Packer();
    }

    /** _rx_feed with the calls below it. */
    method FeedChar(ch: U8) returns (r: Ended<()>)
      requires Valid()
      modifies feed`rxLen, feed.buf, parser, packer, packer.fwData
      ensures r.Fine? ==> Valid()
      ensures ghost var f := Next(old(feed.Held()), ch);
              match f.line
              case None => r.Fine? && feed.Held() == f.buf && parser.addrHiWord == old(parser.addrHiWord)
                           && packer.View() == old(packer.View())
              case Some(line) =>
                var p := Meaning(old(parser.addrHiWord), line, Tools);
                && parser.addrHiWord == p.hiWord
                && (match LoadAll(old(packer.View()), Payload(p.out))
                    case Fatal => r == Fatal
                    case Overrun => r == Overrun
                    case Fine(l) => r.Fine? && feed.Held() == f.buf && packer.View() == l)
    {
      ghost var held := feed.Held();
      var line := feed.Feed(ch);
      if line.None? {
        return Fine(());
      }
      var out := ParseIn(parser, feed.buf, line.value);
      assert feed.Held() == [];
      match out
      case Data(addr, data) =>
        var c := Chunk(addr, data);
        assert Payload(out) == [c] && Payload(out)[0] == c;
        LoadOne(packer.View(), c);
        r := packer.LoadBin(c);
      case _ =>
        r := Fine(());
    }

    /** What the rest of a text will load, from here. */
    ghost function Outlook(text: Text): Ended<Loaded>
      requires Valid()
      reads this, feed, feed.buf, parser, packer, packer.fwData
    {
      LoadAll(packer.View(), Records(parser.addrHiWord, feed.Held(), text))
    }

    /** One character of a text. */
    method FeedNext(ghost text: Text, ch: U8) returns (r: Ended<()>)
      requires text != [] && text[0] == ch && Valid()
      modifies feed`rxLen, feed.buf, parser, packer, packer.fwData
      ensures r.Fine? ==> Valid()
      ensures match r
              case Fine(_) => Outlook(text[1..]) == old(Outlook(text))
              case Fatal => old(Outlook(text)) == Fatal
              case Overrun => old(Outlook(text)) == Overrun
    {
      RecordsStep(parser.addrHiWord, feed.Held(), text);
      SplitLoad(parser.addrHiWord, feed.Held(), text, packer.View());
      r := FeedChar(ch);
    }

    /** The loop of main over its input. */
    method FeedAll(text: Text) returns (r: Ended<()>)
      requires Valid()
      modifies feed`rxLen, feed.buf, parser, packer, packer.fwData
      ensures match old(Outlook(text))
              case Fine(l) => r.Fine? && Valid() && packer.View() == l
              case Fatal => r == Fatal
              case Overrun => r == Overrun
    {
      var i := 0;
      r := Fine(());
      assert text[0..] == text;
      while i < |text|
        invariant 0 <= i <= |text| && Valid() && r.Fine?
        invariant Outlook(text[i..]) == old(Outlook(text))
      {
        assert text[i..][1..] == text[i + 1..];
        r := FeedNext(text[i..], text[i]);
        if !r.Fine? {
          return;
        }
        i := i + 1;
      }
      assert Lines(feed.Held(), text[i..]) == [];
    }
  }

  /** The record of the line that a character completes, if any, is loaded before the rest. */
  lemma {:induction false} SplitLoad(hiWord: U32, held: Text, text: Text, l: Loaded)
    requires text != [] && ContainerTool.Wf(l)
    ensures var f := Next(held, text[0]);
            f.line.Some? ==>
              (var p := Meaning(hiWord, f.line.value, Tools);
               LoadAll(l, Records(hiWord, held, text)) ==
               match LoadAll(l, Payload(p.out)) case Fine(m) => LoadAll(m, Records(p.hiWord, f.buf, text[1..])) case stop => stop)
  {
    RecordsStep(hiWord, held, text);
    var f := Next(held, text[0]);
    if f.line.Some? {
      var p := Meaning(hiWord, f.line.value, Tools);
      LoadParts(l, Payload(p.out), Records(p.hiWord, f.buf, text[1..]));
    }
  }

  /** app_container on the text of its input. */
  method PackFile(text: Text, name: seq<U8>) returns (lines: Ended<seq<Text>>)
    ensures lines == ContainerFile(text, name)
  {
    var tool := new Container();
    var r := tool.FeedAll(text);
    match r {
      case Fatal => return Fatal;
      case Overrun => return Overrun;
      case Fine(_) =>
        var printed := tool.packer.Print(name);
        lines := if printed.Some? then Fine(printed.value) else Fatal;
    }
  }

  // ---- the bootloader's terminal ----

  /** What the terminal hands over: a line of the file format without a NUL, within its buffer. */
  ghost predicate Typed(line: Text)
  {
    0 < |line| < BUFFER && line[0] == COLON && 0 !in line
  }

  method PutLine(buf: array<U8>, line: Text)
    requires |line| < buf.Length
    modifies buf
    ensures buf[..|line|] == line && buf[|line|] == 0
  {
    CopyInto(buf, 0, line);
    buf[|line|] := 0;
  }

  /** _tty_rx_parser on one line of a file. */
  method TypeOne(ext: Boot.ExtStorage, parser: Parser, buf: array<U8>, line: Text) returns (answer: bool)
    requires ext.Valid() && ext.ready && parser.flavour == Bootloader && buf.Length == BUFFER && Typed(line)
    modifies ext`mem, ext`stray, parser, buf
    ensures ext.Valid()
    ensures ghost var s := Session(old(ext.mem), old(parser.addrHiWord), []);
            TypeLine(s, line) == Session(ext.mem, parser.addrHiWord, [answer])
  {
    PutLine(buf, line);
    var out := ParseIn(parser, buf, line);
    match out
    case Rejected => answer := false;
    case Data(addr, data) => answer := ext.WriteData(Chunk(addr, data));
    case _ => answer := true;
  }

  /** A whole file typed line by line. */
  method TypeFile(ext: Boot.ExtStorage, lines: seq<Text>) returns (answers: seq<bool>)
    requires ext.Valid() && ext.ready && forall k :: 0 <= k < |lines| ==> Typed(lines[k])
    modifies ext`mem, ext`stray
    ensures ext.Valid()
    ensures ghost var s := TypeLines(Session(old(ext.mem), 0, []), lines);
            ext.mem == s.mem && answers == s.answers
  {
    var parser := new Parser(Bootloader);
    var buf := new U8[BUFFER](_ => 0);
    ghost var goal := TypeLines(Session(ext.mem, 0, []), lines);
    answers := [];
    var i := 0;
    assert lines[0..] == lines;
    while i < |lines|
      invariant 0 <= i <= |lines| && ext.Valid() && ext.ready
      invariant TypeLines(Session(ext.mem, parser.addrHiWord, answers), lines[i..]) == goal
    {
      assert lines[i..][0] == lines[i] && lines[i..][1..] == lines[i + 1..];
      ghost var s := Session(ext.mem, parser.addrHiWord, answers);
      AnswersAppend(s, lines[i]);
      var answer := TypeOne(ext, parser, buf, lines[i]);
      answers := answers + [answer];
      i := i + 1;
    }
  }

  lemma {:induction false} AnswersAppend(s: Session, line: Text)
    requires |s.mem| == FW_MAX
    ensures TypeLine(s, line) ==
            (var t := TypeLine(s.(answers := []), line); t.(answers := s.answers + t.answers))
  {
  }

  lemma {:induction false} FileIsTyped(ops: seq<Chunk>)
    ensures var lines := PrintedAll(0, ops) + [EOF_LINE]; forall k :: 0 <= k < |lines| ==> Typed(lines[k])
  {
    var lines := PrintedAll(0, ops) + [EOF_LINE];
    AllProper(0, ops);
    assert Proper(EOF_LINE);
    forall k | 0 <= k < |lines| ensures Typed(lines[k]) {
      assert Proper(lines[k]);
      assert lines[k] == [COLON] + lines[k][1..];
    }
  }

  // ---- the whole way ----

  /** One character of app_crc: the record it hands to the callback, if it completes one. */
  method ReadNext(feed: LineFeed, parser: Parser, ghost text: Text, ch: U8) returns (got: seq<Chunk>)
    requires feed.Valid() && parser.flavour == Tools && 0 !in feed.Held() && text != [] && text[0] == ch
    modifies feed`rxLen, feed.buf, parser
    ensures feed.Valid() && 0 !in feed.Held() && BufAfter(feed.Held(), text[1..]) == BufAfter(old(feed.Held()), text)
    ensures got + Records(parser.addrHiWord, feed.Held(), text[1..]) == Records(old(parser.addrHiWord), old(feed.Held()), text)
    ensures BaseAfter(LineReader(Tools), parser.addrHiWord, Lines(feed.Held(), text[1..]))
            == BaseAfter(LineReader(Tools), old(parser.addrHiWord), Lines(old(feed.Held()), text))
  {
    RecordsStep(parser.addrHiWord, feed.Held(), text);
    BaseStep(parser.addrHiWord, feed.Held(), text);
    var line := feed.Feed(ch);
    got := [];
    if line.Some? {
      var out := ParseIn(parser, feed.buf, line.value);
      if out.Data? {
        got := [Chunk(out.addr, out.data)];
      }
    }
  }

  /** _rx_feed over a text: the records the callback gets, before the fatal errors of the callback. */
  method ReadRecords(feed: LineFeed, parser: Parser, text: Text) returns (rs: seq<Chunk>)
    requires feed.Valid() && parser.flavour == Tools && 0 !in feed.Held()
    modifies feed`rxLen, feed.buf, parser
    ensures feed.Valid() && 0 !in feed.Held() && feed.Held() == BufAfter(old(feed.Held()), text)
    ensures rs == Records(old(parser.addrHiWord), old(feed.Held()), text)
    ensures parser.addrHiWord == BaseAfter(LineReader(Tools), old(parser.addrHiWord), Lines(old(feed.Held()), text))
  {
    rs := [];
    var i := 0;
    assert text[0..] == text;
    while i < |text|
      invariant 0 <= i <= |text| && feed.Valid() && 0 !in feed.Held()
      invariant BufAfter(feed.Held(), text[i..]) == BufAfter(old(feed.Held()), text)
      invariant rs + Records(parser.addrHiWord, feed.Held(), text[i..]) == Records(old(parser.addrHiWord), old(feed.Held()), text)
      invariant BaseAfter(LineReader(Tools), parser.addrHiWord, Lines(feed.Held(), text[i..]))
                == BaseAfter(LineReader(Tools), old(parser.addrHiWord), Lines(old(feed.Held()), text))
    {
      assert text[i..][1..] == text[i + 1..];
      var got := ReadNext(feed, parser, text[i..], text[i]);
      JoinMore(rs, got, Records(parser.addrHiWord, feed.Held(), text[i + 1..]));
      rs := rs + got;
      i := i + 1;
    }
    assert text[i..] == [];
  }

  lemma {:induction false} JoinMore(a: seq<Chunk>, b: seq<Chunk>, c: seq<Chunk>)
    ensures a + b + c == a + (b + c)
  {
  }

  lemma {:induction false} BaseStep(hiWord: U32, held: Text, text: Text)
    requires text != []
    ensures var f := Next(held, text[0]);
            BaseAfter(LineReader(Tools), hiWord, Lines(held, text)) ==
            match f.line
            case None => BaseAfter(LineReader(Tools), hiWord, Lines(f.buf, text[1..]))
            case Some(line) => BaseAfter(LineReader(Tools), Meaning(hiWord, line, Tools).hiWord, Lines(f.buf, text[1..]))
  {
    var f := Next(held, text[0]);
    var rest := Lines(f.buf, text[1..]);
    match f.line {
      case None => assert [] + rest == rest;
      case Some(line) =>
        assert ([line] + rest)[0] == line && ([line] + rest)[1..] == rest;
        assert LineReader(Tools)(hiWord, line) == Meaning(hiWord, line, Tools);
    }
  }

  /** app_crc on the text of its input: two passes with the same parser. */
  method SignFile(text: Text, nl: Text) returns (out: Ended<Text>)
    ensures out == CrcFile(text, nl)
  {
    var feed := new LineFeed();
    var parser := new Parser(Tools);
    var tool := new CrcTool();
    var rs := ReadRecords(feed, parser, text);
    var again := ReadRecords(feed, parser, text);
    var lines := tool.Run(rs, again);
    match lines {
      case Fatal => out := Fatal;
      case Overrun => out := Overrun;
      case Fine(ls) => out := Fine(FileText(ls, nl));
    }
  }

  /** app_crc, then app_container. */
  method BuildContainer(text: Text, ghost infos: seq<Chunk>, ghost datas: seq<Chunk>, name: seq<U8>, nl: Text)
    returns (lines: seq<Text>)
    requires Buildable(infos, datas) && Newline(nl) && Records(0, [], text) == infos + datas && ReadsTwice(text)
    ensures lines == PrintedAll(0, ContainerOps(Image(infos, datas), name)) + [EOF_LINE]
  {
    CrcToContainer(text, infos, datas, name, nl);
    var signed := SignFile(text, nl);
    var packed := PackFile(signed.value, name);
    lines := packed.value;
  }

  /** The container typed into the terminal, then the command that asks for the flash, then the boot. */
  method Install(board: Boot.Board, lines: seq<Text>, ghost image: seq<U8>) returns (run: bool)
    requires board.ext.Valid() && board.ext.ready && |image| <= |board.flash| == Boot.FLASH_SIZE
    requires forall k :: 0 <= k < |lines| ==> Typed(lines[k])
    requires Installs(board.ext.mem, board.flash, lines, image)
    modifies board`flash, board`boot, board`bootloop, board.ext, board.ext.buf
    ensures |board.flash| == Boot.FLASH_SIZE && board.flash[..|image|] == image && Boot.AppOk(board.flash)
    ensures run <==> Boot.Starts(old(board.bootloop)) <= Boot.LOOP_MAX
  {
    var answers := TypeFile(board.ext, lines);
    board.boot := Boot.FlashRequest;
    run := board.Boot(Boot.UserRequest);
  }

  /**
   From the text of a good input to the running application: built, sent, checked and copied,
   whatever the flashes held before.
   */
  method BuildAndFlash(text: Text, ghost infos: seq<Chunk>, ghost datas: seq<Chunk>, name: seq<U8>, nl: Text,
                       board: Boot.Board)
    returns (run: bool)
    requires Buildable(infos, datas) && Newline(nl) && Records(0, [], text) == infos + datas && ReadsTwice(text)
    requires board.ext.Valid() && board.ext.ready && |board.flash| == Boot.FLASH_SIZE
    modifies board`flash, board`boot, board`bootloop, board.ext, board.ext.buf
    ensures |board.flash| == Boot.FLASH_SIZE && Boot.AppOk(board.flash)
    ensures run <==> Boot.Starts(old(board.bootloop)) <= Boot.LOOP_MAX
    ensures board.flash[..PAGE + |AppOf(datas)|] == Image(infos, datas)
  {
    SentAndFlashed(infos, datas, name, board.ext.mem, board.flash);
    FileIsTyped(ContainerOps(Image(infos, datas), name));
    var lines := BuildContainer(text, infos, datas, name, nl);
    run := Install(board, lines, Image(infos, datas));
  }
}
