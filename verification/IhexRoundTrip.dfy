/**
 The Intel HEX printer of ut/common/ihex.c, and the proof that the parser gives back exactly
 what was printed.
 */
module IhexRoundTrip {
  import opened Machine
  import opened Ihex

  // ---- what is printed ----

  /** (0x100 - sum) & 0xFF */
  function Check(sum: U8): U8 { if sum == 0 then 0 else 0x100 - sum as int }

  /** The part of an address the base record carries, and the rest. */
  function Page(addr: U32): U16 { addr / 0x1_0000 }

  function Offset(addr: U32): U16 { addr % 0x1_0000 }

  function BaseOf(page: U16): U32 { (page as int) * 0x1_0000 }

  lemma PageAndOffset(addr: U32)
    ensures Add32(BaseOf(Page(addr)), Offset(addr)) == addr
  {
  }

  /** ":02000004%04X%02X" */
  function BaseLine(hi: U16): Text
  {
    [COLON] + Hex2(2) + Hex4(0) + Hex2(4) + Hex4(hi) + Hex2(Check(Add8(Add8(6, hi % 256), hi / 256)))
  }

  /** ":00000001FF" */
  const EOF_LINE: Text := [58, 48, 48, 48, 48, 48, 48, 48, 49, 70, 70]

  function SumFrom(sum: U8, d: seq<U8>): U8
  {
    if d == [] then sum else Add8(SumFrom(sum, d[..|d| - 1]), d[|d| - 1])
  }

  function HeadSum(addr: U16, l: U8): U8 { Add8(Add8(l, addr % 256), addr / 256) }

  /** ":%02X%04X00", the data, the checksum. */
  function DataLine(addr: U16, d: seq<U8>): Text
    requires |d| < 256
  {
    [COLON] + Hex2(|d|) + Hex4(addr) + Hex2(0) + HexAll(d) + Hex2(Check(SumFrom(HeadSum(addr, |d|), d)))
  }

  function BaseLines(hi: U16, page: U16): seq<Text>
  {
    if page == hi then [] else [BaseLine(page)]
  }

  function First(d: seq<U8>): (l: nat)
    ensures l <= |d| && l <= LINE_SIZE && (d != [] ==> l > 0)
  {
    if |d| > LINE_SIZE then LINE_SIZE else |d|
  }

  /** The lines of one ihex_flush, when the last base printed is hi. */
  function Printed(hi: U16, addr: U32, d: seq<U8>): seq<Text>
    decreases |d|
  {
    if d == [] then []
    else
      var l := First(d);
      BaseLines(hi, Page(addr)) + [DataLine(Offset(addr), d[..l])]
      + Printed(Page(addr), Add32(addr, l), d[l..])
  }

  function HiAfter(hi: U16, addr: U32, d: seq<U8>): U16
    decreases |d|
  {
    if d == [] then hi else HiAfter(Page(addr), Add32(addr, First(d)), d[First(d)..])
  }

  lemma {:induction false} PrintedStep(before: seq<Text>, hi: U16, addr: U32, d: seq<U8>)
    requires d != []
    ensures before + Printed(hi, addr, d) ==
            before + (BaseLines(hi, Page(addr)) + [DataLine(Offset(addr), d[..First(d)])])
            + Printed(Page(addr), Add32(addr, First(d)), d[First(d)..])
  {
  }

  // ---- the printer ----

  class Printer {
    var hiWord: U16
    var out: seq<Text>

    constructor ()
      ensures hiWord == 0 && out == []
    {
      hiWord, out := 0, [];
    }

    method UpdateAddr(addr: U32)
      modifies this
      ensures hiWord == Page(addr)
      ensures out == old(out) + BaseLines(old(hiWord), Page(addr))
    {
      if Page(addr) == hiWord {
        return;
      }
      hiWord := Page(addr);
      var sum: U8 := 0x02 + 0x04;
      sum := Add8(sum, hiWord % 256);
      sum := Add8(sum, hiWord / 256);
      out := out + [[COLON] + Hex2(2) + Hex4(0) + Hex2(4) + Hex4(hiWord) + Hex2(Check(sum))];
    }

    /** One data line, byte by byte. */
    static method LineText(addr: U16, d: seq<U8>) returns (line: Text)
      requires |d| <= LINE_SIZE
      ensures line == DataLine(addr, d)
    {
      line := [COLON] + Hex2(|d|) + Hex4(addr) + Hex2(0);
      ghost var head := line;
      var sum: U8 := |d|;
      sum := Add8(sum, addr % 256);
      sum := Add8(sum, addr / 256);
      ghost var start := HeadSum(addr, |d|);
      var i := 0;
      while i < |d|
        invariant 0 <= i <= |d|
        invariant line == head + HexAll(d[..i]) && sum == SumFrom(start, d[..i])
      {
        assert d[..i + 1] == d[..i] + [d[i]] && d[..i + 1][..i] == d[..i];
        HexOfParts(d[..i], [d[i]]);
        assert HexAll([d[i]]) == Hex2(d[i]);
        line := line + Hex2(d[i]);
        sum := Add8(sum, d[i]);
        i := i + 1;
      }
      assert d[..i] == d;
      line := line + Hex2(Check(sum));
    }

    method FlushLine(addr: U32, d: seq<U8>)
      requires |d| <= LINE_SIZE
      modifies this
      ensures hiWord == Page(addr)
      ensures out == old(out) + (BaseLines(old(hiWord), Page(addr)) + [DataLine(Offset(addr), d)])
    {
      UpdateAddr(addr);
      var line := LineText(Offset(addr), d);
      out := out + [line];
    }

    /** ihex_flush */
    method Flush(addr: U32, data: seq<U8>)
      modifies this
      ensures out == old(out) + Printed(old(hiWord), addr, data)
      ensures hiWord == HiAfter(old(hiWord), addr, data)
    {
      var a: U32, rest: seq<U8> := addr, data;
      ghost var start, total := hiWord, out + Printed(hiWord, addr, data);
      while rest != []
        invariant out + Printed(hiWord, a, rest) == total
        invariant HiAfter(hiWord, a, rest) == HiAfter(start, addr, data)
        decreases |rest|
      {
        var l := if |rest| > LINE_SIZE then LINE_SIZE else |rest|;
        PrintedStep(out, hiWord, a, rest);
        FlushLine(a, rest[..l]);
        a := Add32(a, l);
        rest := rest[l..];
      }
    }
  }

  // ---- what the parser makes of it ----

  datatype Chunk = Chunk(addr: U32, data: seq<U8>)

  datatype Received = Received(hiWord: U32, chunks: seq<Chunk>)

  /** A parser as a function of its state and a line. */
  type Reader = (U32, Text) -> Parsed

  function LineReader(fl: Flavour): Reader
  {
    (hiWord: U32, line: Text) => Meaning(hiWord, line, fl)
  }

  /** A run of a parser over lines: what the data callback got, or None when a line was refused. */
  function Receive(parse: Reader, hiWord: U32, lines: seq<Text>): Option<Received>
    decreases |lines|
  {
    if lines == [] then Some(Received(hiWord, []))
    else
      var p := parse(hiWord, lines[0]);
      if p.out == Rejected then None
      else
        match Receive(parse, p.hiWord, lines[1..])
        case None => None
        case Some(r) => Some(Received(r.hiWord, Payload(p.out) + r.chunks))
  }

  function Payload(out: Outcome): seq<Chunk>
  {
    match out
    case Data(addr, data) => [Chunk(addr, data)]
    case _ => []
  }

  /** The same run for a reader that goes on after a refused line: all data the callback gets. */
  function Heard(parse: Reader, hiWord: U32, lines: seq<Text>): seq<Chunk>
    decreases |lines|
  {
    if lines == [] then []
    else var p := parse(hiWord, lines[0]); Payload(p.out) + Heard(parse, p.hiWord, lines[1..])
  }

  /** The base address such a run leaves. */
  function BaseAfter(parse: Reader, hiWord: U32, lines: seq<Text>): U32
    decreases |lines|
  {
    if lines == [] then hiWord else BaseAfter(parse, parse(hiWord, lines[0]).hiWord, lines[1..])
  }

  /** How a base shows in what a line means from base zero. */
  function Moved(base: U32, p: Parsed): Parsed
  {
    match p.out
    case Data(addr, data) => Parsed(base, Data(Add32(base, addr), data))
    case EndOfData => p
    case Base => p
    case _ => Parsed(base, p.out)
  }

  ghost predicate Movable(parse: Reader)
  {
    forall base: U32, line: Text :: parse(base, line) == Moved(base, parse(0, line))
  }

  lemma MeaningMoves(base: U32, line: Text, fl: Flavour)
    ensures Meaning(base, line, fl) == Moved(base, Meaning(0, line, fl))
  {
  }

  lemma BothMovable(fl: Flavour)
    ensures Movable(LineReader(fl))
  {
    forall base: U32, line: Text ensures LineReader(fl)(base, line) == Moved(base, LineReader(fl)(0, line)) {
      MeaningMoves(base, line, fl);
    }
  }

  /** A data record stands before the first record that sets the base. */
  predicate Exposed(parse: Reader, lines: seq<Text>)
    decreases |lines|
  {
    lines != [] &&
    match parse(0, lines[0]).out
    case Data(_, _) => true
    case EndOfData => false
    case Base => false
    case _ => Exposed(parse, lines[1..])
  }

  /** Reading the lines again from another base gives the same records exactly when no record is exposed to it. */
  lemma {:induction false} ReadAgainExact(parse: Reader, base: U32, lines: seq<Text>)
    requires Movable(parse)
    ensures Heard(parse, base, lines) == Heard(parse, 0, lines) <==> base == 0 || !Exposed(parse, lines)
    decreases |lines|
  {
    if lines != [] {
      var p, q := parse(0, lines[0]), parse(base, lines[0]);
      assert q == Moved(base, p);
      var a, b := Heard(parse, 0, lines), Heard(parse, base, lines);
      if p.out.Data? {
        assert a[0] == Chunk(p.out.addr, p.out.data) && b[0] == Chunk(Add32(base, p.out.addr), p.out.data);
        assert base == 0 ==> q == p by {
          assert p == Moved(0, p);
        }
      } else {
        assert a == Heard(parse, p.hiWord, lines[1..]) && b == Heard(parse, q.hiWord, lines[1..]);
        ReadAgainExact(parse, base, lines[1..]);
      }
    }
  }

  lemma {:induction false} HeardIsReceived(parse: Reader, hiWord: U32, lines: seq<Text>)
    requires Receive(parse, hiWord, lines).Some?
    ensures Heard(parse, hiWord, lines) == Receive(parse, hiWord, lines).value.chunks
    ensures BaseAfter(parse, hiWord, lines) == Receive(parse, hiWord, lines).value.hiWord
    decreases |lines|
  {
    if lines != [] {
      HeardIsReceived(parse, parse(hiWord, lines[0]).hiWord, lines[1..]);
    }
  }

  /** A parser that reads the printer's two kinds of lines for what they are. */
  ghost predicate Faithful(parse: Reader)
  {
    && (forall hiWord: U32, addr: U16, d: seq<U8> :: |d| <= LINE_SIZE ==>
          parse(hiWord, DataLine(addr, d)) == Parsed(hiWord, Data(Add32(hiWord, addr), d)))
    && (forall hiWord: U32, hi: U16 :: parse(hiWord, BaseLine(hi)) == Parsed(BaseOf(hi), Base))
  }

  /** The data of a flush, cut into lines. */
  function Chunks(addr: U32, d: seq<U8>): seq<Chunk>
    decreases |d|
  {
    if d == [] then []
    else var l := First(d); [Chunk(addr, d[..l])] + Chunks(Add32(addr, l), d[l..])
  }

  lemma CheckZeroes(sum: U8)
    ensures Add8(sum, Check(sum)) == 0
  {
  }

  lemma {:induction false} FirstDecoded(s: Text, p: nat, n: nat)
    requires n > 0
    ensures Decode(s, p, n)[0] == GetHex(s, p).byte
  {
  }

  lemma {:induction false} LongEnough(hiWord: U32, s: Text, llen: nat, fl: Flavour)
    requires 9 <= |s| <= 256 && s[0] == COLON
    requires llen == GetHex(s, 1).byte as int && |s| - 9 >= 2 * llen
    ensures Meaning(hiWord, s, fl) == Record(hiWord, s, Decode(s, 1, 5 + llen), fl)
  {
  }

  lemma {:induction false} TailOf(t: Text)
    ensures ([COLON] + t)[1..1 + |t|] == t
  {
  }

  lemma {:induction false} HexDecodes(s: Text, bytes: seq<U8>)
    requires s == [COLON] + HexAll(bytes)
    ensures Decode(s, 1, |bytes|) == bytes && |s| == 1 + 2 * |bytes|
  {
    TailOf(HexAll(bytes));
    DecodeOfHex(s, 1, bytes);
  }

  /** A line of hexadecimal bytes is read back byte for byte. */
  lemma {:induction false} BytesParse(hiWord: U32, s: Text, bytes: seq<U8>, fl: Flavour)
    requires s == [COLON] + HexAll(bytes)
    requires 5 <= |bytes| <= 127 && bytes[0] as int == |bytes| - 5
    ensures Meaning(hiWord, s, fl) == Record(hiWord, s, bytes, fl)
  {
    HexDecodes(s, bytes);
    FirstDecoded(s, 1, |bytes|);
    LongEnough(hiWord, s, |bytes| - 5, fl);
  }

  /**
   What a well-formed line of bytes b means: refused with a wrong sum; else data at its offset from the base, the end,
   a segment or an upper half for the base, an entry point that only the tools accept, and nothing else.
   */
  lemma {:induction false} LineMeans(hiWord: U32, s: Text, b: seq<U8>, fl: Flavour)
    requires s == [COLON] + HexAll(b)
    requires 5 <= |b| <= 127 && b[0] as int == |b| - 5
    ensures var p := Meaning(hiWord, s, fl); var d := b[4..|b| - 1];
            && (Sum(b) != 0 ==> p == Parsed(hiWord, Rejected))
            && (Sum(b) == 0 ==>
                  && (b[3] == 0 ==> p == Parsed(hiWord, Data(Add32(hiWord, b[1] as int * 0x100 + b[2] as int), d)))
                  && (b[3] == 1 ==> p == Parsed(0, EndOfData))
                  && (b[3] == 2 && |d| >= 2 ==> p == Parsed((d[0] as int * 0x100 + d[1] as int) * 0x10, Base))
                  && (b[3] == 4 && |d| >= 2 ==> p == Parsed((d[0] as int * 0x100 + d[1] as int) * 0x1_0000, Base))
                  && (b[3] == 5 ==> p == Parsed(hiWord, if fl == Tools then Ignored else Rejected))
                  && (b[3] == 3 || b[3] > 5 ==> p == Parsed(hiWord, Rejected)))
  {
    BytesParse(hiWord, s, b, fl);
  }

  lemma AddDiffers(a: U8, b: U8, x: U8, y: U8)
    requires a != b || x != y
    ensures a == b || x == y ==> Add8(a, x) != Add8(b, y)
  {
  }

  /** One changed byte changes the sum. */
  lemma {:induction false} SumChanges(b: seq<U8>, k: nat, x: U8)
    requires k < |b| && x != b[k]
    ensures Sum(b[k := x]) != Sum(b)
  {
    var n := |b| - 1;
    if k < n {
      SumChanges(b[..n], k, x);
      assert b[k := x][..n] == b[..n][k := x];
      AddDiffers(Sum(b[..n][k := x]), Sum(b[..n]), b[n], b[n]);
    } else {
      assert b[k := x][..n] == b[..n];
      AddDiffers(Sum(b[..n]), Sum(b[..n]), x, b[n]);
    }
  }

  /** An accepted line with one byte other than its length changed is refused. */
  lemma {:induction false} DamagedLineRefused(hiWord: U32, b: seq<U8>, k: nat, x: U8, fl: Flavour)
    requires 5 <= |b| <= 127 && b[0] as int == |b| - 5 && Sum(b) == 0
    requires 0 < k < |b| && x != b[k]
    ensures Meaning(hiWord, [COLON] + HexAll(b[k := x]), fl) == Parsed(hiWord, Rejected)
  {
    SumChanges(b, k, x);
    LineMeans(hiWord, [COLON] + HexAll(b[k := x]), b[k := x], fl);
  }

  lemma {:induction false} SumFromIs(h: seq<U8>, d: seq<U8>)
    ensures SumFrom(Sum(h), d) == Sum(h + d)
  {
    if d == [] {
      assert h + d == h;
    } else {
      SumFromIs(h, d[..|d| - 1]);
      assert h + d == h + d[..|d| - 1] + [d[|d| - 1]];
      SumMore(h + d[..|d| - 1], d[|d| - 1]);
    }
  }

  lemma HeadOrder(l: U8, hi: U8, lo: U8)
    ensures Add8(Add8(l, lo), hi) == Add8(Add8(Add8(Add8(0, l), hi), lo), 0)
  {
    assert Add8(0, l) == l;
    AddThree(l, hi, lo);
    AddThree(l, lo, hi);
  }

  lemma AddThree(a: U8, b: U8, c: U8)
    ensures Add8(Add8(a, b), c) == (a as int + b as int + c as int) % 256
  {
  }

  lemma HexOfFour(a: U8, b: U8, c: U8, d: U8)
    ensures HexAll([a, b, c, d]) == Hex2(a) + Hex2(b) + Hex2(c) + Hex2(d)
  {
    HexOfParts([a, b], [c, d]);
    HexOfParts([a], [b]);
    HexOfParts([c], [d]);
    assert [a, b, c, d] == [a, b] + [c, d] && [a, b] == [a] + [b] && [c, d] == [c] + [d];
  }

  /** The bytes a data line stands for. */
  function DataBytes(addr: U16, d: seq<U8>): (b: seq<U8>)
    requires |d| <= LINE_SIZE
    ensures |b| == |d| + 5
  {
    [|d|, addr / 256, addr % 256, 0] + d + [Check(SumFrom(HeadSum(addr, |d|), d))]
  }

  lemma {:induction false} DataLineIsHex(addr: U16, d: seq<U8>)
    requires |d| <= LINE_SIZE
    ensures DataLine(addr, d) == [COLON] + HexAll(DataBytes(addr, d)) && Sum(DataBytes(addr, d)) == 0
  {
    var l: U8 := |d|;
    var head, sum := [l, addr / 256, addr % 256, 0], SumFrom(HeadSum(addr, l), d);
    HexOfFour(l, addr / 256, addr % 256, 0);
    HexOfParts(head, d);
    HexOfParts(head + d, [Check(sum)]);
    assert HexAll([Check(sum)]) == Hex2(Check(sum));
    SumOfFour(l, addr / 256, addr % 256, 0);
    HeadOrder(l, addr / 256, addr % 256);
    SumFromIs(head, d);
    SumMore(head + d, Check(sum));
    CheckZeroes(sum);
  }

  /** A data line is read back with its data, at its offset from the current base. */
  lemma {:induction false} DataLineParses(hiWord: U32, addr: U16, d: seq<U8>, fl: Flavour)
    requires |d| <= LINE_SIZE
    ensures Meaning(hiWord, DataLine(addr, d), fl) == Parsed(hiWord, Data(Add32(hiWord, addr), d))
  {
    var l: U8, c := |d|, Check(SumFrom(HeadSum(addr, |d|), d));
    DataLineIsHex(addr, d);
    BytesParse(hiWord, DataLine(addr, d), DataBytes(addr, d), fl);
    RecordOf(hiWord, DataLine(addr, d), l, addr / 256, addr % 256, 0, d, c, fl);
    assert Word(addr / 256, addr % 256) == addr;
  }

  lemma {:induction false} ExampleHex(a: seq<U8>, b: seq<U8>, c: seq<U8>)
    requires a == [2] && b == [0x33] && c == [0x7A]
    ensures HexAll(a + b + c) == [48, 50, 51, 51, 55, 65]
  {
    HexOfParts(a + b, c);
    HexOfParts(a, b);
    HexOfOne(2);
    HexOfOne(0x33);
    HexOfOne(0x7A);
  }

  lemma {:induction false} ExampleSum(d: seq<U8>)
    requires d == [2] + [0x33] + [0x7A]
    ensures SumFrom(0x33, d) == 0xE2
  {
    SumFromMore(0x33, [], 2);
    SumFromMore(0x33, [2], 0x33);
    SumFromMore(0x33, [2] + [0x33], 0x7A);
    assert [] + [2] == [2];
  }

  lemma ExampleHead()
    ensures [COLON] + Hex2(3) + Hex4(0x30) + Hex2(0) == [58, 48, 51, 48, 48, 51, 48, 48, 48]
    ensures Hex2(0x1E) == [49, 69]
  {
  }

  /** The text of a data line, character by character: ":0300300002337A1E". */
  lemma {:induction false} ExampleLine(d: seq<U8>)
    requires d == [2, 0x33, 0x7A]
    ensures DataLine(0x30, d) == [58, 48, 51, 48, 48, 51, 48, 48, 48, 48, 50, 51, 51, 55, 65, 49, 69]
  {
    assert d == [2] + [0x33] + [0x7A];
    ExampleHex([2], [0x33], [0x7A]);
    ExampleSum(d);
    ExampleHead();
    assert HeadSum(0x30, 3) == 0x33 && Check(0xE2) == 0x1E;
  }

  lemma SumFromMore(sum: U8, d: seq<U8>, b: U8)
    ensures SumFrom(sum, d + [b]) == Add8(SumFrom(sum, d), b)
  {
    assert (d + [b])[..|d|] == d;
  }

  lemma {:induction false} RecordOf(hiWord: U32, s: Text, l: U8, hi: U8, lo: U8, kind: U8, d: seq<U8>, c: U8, fl: Flavour)
    requires |s| >= 2 && Sum([l, hi, lo, kind] + d + [c]) == 0
    ensures Record(hiWord, s, [l, hi, lo, kind] + d + [c], fl) ==
            Dispatch(hiWord, Cell(s, d, 0), Cell(s, d, 1), kind, Word(hi, lo), d, fl)
  {
    var b := [l, hi, lo, kind] + d + [c];
    assert b[4..|b| - 1] == d;
  }

  function BaseBytes(hi: U16): seq<U8>
  {
    [2, 0, 0, 4, hi / 256, hi % 256, Check(Add8(Add8(6, hi % 256), hi / 256))]
  }

  lemma BaseLineIsHex(hi: U16)
    ensures BaseLine(hi) == [COLON] + HexAll(BaseBytes(hi)) && Sum(BaseBytes(hi)) == 0
  {
    var h, l := hi / 256, hi % 256;
    var c := Check(Add8(Add8(6, l), h));
    assert BaseBytes(hi) == [2, 0, 0, 4] + [h] + [l] + [c];
    BaseHex(h, l, c);
    SumOfFour(2, 0, 0, 4);
    SumMore([2, 0, 0, 4], h);
    SumMore([2, 0, 0, 4] + [h], l);
    SumMore([2, 0, 0, 4] + [h] + [l], c);
    BaseOrder(h, l);
    CheckZeroes(Add8(Add8(6, l), h));
  }

  lemma BaseHex(h: U8, l: U8, c: U8)
    ensures HexAll([2, 0, 0, 4] + [h] + [l] + [c]) == Hex2(2) + (Hex2(0) + Hex2(0)) + Hex2(4) + (Hex2(h) + Hex2(l)) + Hex2(c)
  {
    HexOfFour(2, 0, 0, 4);
    HexOfParts([2, 0, 0, 4], [h]);
    HexOfParts([2, 0, 0, 4] + [h], [l]);
    HexOfParts([2, 0, 0, 4] + [h] + [l], [c]);
    HexOfOne(h);
    HexOfOne(l);
    HexOfOne(c);
  }

  lemma HexOfOne(b: U8)
    ensures HexAll([b]) == Hex2(b)
  {
    assert [b][1..] == [];
  }

  lemma BaseOrder(h: U8, l: U8)
    ensures Add8(Add8(Add8(Add8(Add8(Add8(0, 2), 0), 0), 4), h), l) == Add8(Add8(6, l), h)
  {
  }

  /** An extended linear address line sets the base. */
  lemma BaseLineParses(hiWord: U32, hi: U16, fl: Flavour)
    ensures Meaning(hiWord, BaseLine(hi), fl) == Parsed(BaseOf(hi), Base)
  {
    var h, l := hi / 256, hi % 256;
    var c := Check(Add8(Add8(6, l), h));
    BaseLineIsHex(hi);
    BytesParse(hiWord, BaseLine(hi), BaseBytes(hi), fl);
    assert BaseBytes(hi) == [2, 0, 0, 4] + [h, l] + [c];
    RecordOf(hiWord, BaseLine(hi), 2, 0, 0, 4, [h, l], c, fl);
    assert Word(h, l) == hi;
  }

  lemma BothFaithful(fl: Flavour)
    ensures Faithful(LineReader(fl))
  {
    forall hiWord: U32, addr: U16, d: seq<U8> | |d| <= LINE_SIZE
      ensures LineReader(fl)(hiWord, DataLine(addr, d)) == Parsed(hiWord, Data(Add32(hiWord, addr), d))
    {
      DataLineParses(hiWord, addr, d, fl);
    }
    forall hiWord: U32, hi: U16 ensures LineReader(fl)(hiWord, BaseLine(hi)) == Parsed(BaseOf(hi), Base) {
      BaseLineParses(hiWord, hi, fl);
    }
  }

  lemma {:induction false} ReceiveParts(parse: Reader, hiWord: U32, a: seq<Text>, b: seq<Text>)
    requires Receive(parse, hiWord, a).Some?
    ensures var ra := Receive(parse, hiWord, a).value;
            Receive(parse, hiWord, a + b) ==
            match Receive(parse, ra.hiWord, b)
            case None => None
            case Some(rb) => Some(Received(rb.hiWord, ra.chunks + rb.chunks))
    decreases |a|
  {
    if a == [] {
      assert a + b == b;
      match Receive(parse, hiWord, b) {
        case None =>
        case Some(rb) => assert [] + rb.chunks == rb.chunks;
      }
    } else {
      assert (a + b)[0] == a[0] && (a + b)[1..] == a[1..] + b;
      var p := parse(hiWord, a[0]);
      ReceiveParts(parse, p.hiWord, a[1..], b);
      var ra := Receive(parse, p.hiWord, a[1..]).value;
      match Receive(parse, ra.hiWord, b) {
        case None =>
        case Some(rb) => assert Payload(p.out) + (ra.chunks + rb.chunks) == (Payload(p.out) + ra.chunks) + rb.chunks;
      }
    }
  }

  lemma {:induction false} ReceiveOne(parse: Reader, hiWord: U32, line: Text)
    ensures var p := parse(hiWord, line);
            Receive(parse, hiWord, [line]) ==
            if p.out == Rejected then None else Some(Received(p.hiWord, Payload(p.out)))
  {
    var p, rest := parse(hiWord, line), [line][1..];
    assert rest == [] && Receive(parse, p.hiWord, rest) == Some(Received(p.hiWord, []));
    assert Payload(p.out) + [] == Payload(p.out);
  }

  lemma {:induction false} DataReceived(parse: Reader, page: U16, off: U16, d: seq<U8>)
    requires Faithful(parse) && |d| <= LINE_SIZE
    ensures Receive(parse, BaseOf(page), [DataLine(off, d)]) ==
            Some(Received(BaseOf(page), [Chunk(Add32(BaseOf(page), off), d)]))
  {
    ReceiveOne(parse, BaseOf(page), DataLine(off, d));
  }

  lemma BaseReceived(parse: Reader, hi: U16, page: U16)
    requires Faithful(parse)
    ensures Receive(parse, BaseOf(hi), [BaseLine(page)]) == Some(Received(BaseOf(page), []))
  {
    ReceiveOne(parse, BaseOf(hi), BaseLine(page));
  }

  /** The parser's base follows the printer's. */
  lemma {:induction false} OneLineReceived(parse: Reader, hi: U16, page: U16, off: U16, d: seq<U8>)
    requires Faithful(parse) && |d| <= LINE_SIZE
    ensures Receive(parse, BaseOf(hi), BaseLines(hi, page) + [DataLine(off, d)]) ==
            Some(Received(BaseOf(page), [Chunk(Add32(BaseOf(page), off), d)]))
  {
    var line := DataLine(off, d);
    DataReceived(parse, page, off, d);
    if page != hi {
      BaseReceived(parse, hi, page);
      ReceiveParts(parse, BaseOf(hi), [BaseLine(page)], [line]);
      assert [] + [Chunk(Add32(BaseOf(page), off), d)] == [Chunk(Add32(BaseOf(page), off), d)];
    } else {
      assert [] + [line] == [line];
    }
  }

  /** One ihex_flush: every line is accepted and the chunks of the data arrive in order. */
  lemma {:induction false} FlushReceived(parse: Reader, hi: U16, addr: U32, d: seq<U8>)
    requires Faithful(parse)
    ensures Receive(parse, BaseOf(hi), Printed(hi, addr, d)) ==
            Some(Received(BaseOf(HiAfter(hi, addr, d)), Chunks(addr, d)))
    decreases |d|
  {
    if d != [] {
      var l := First(d);
      var page, off, next := Page(addr), Offset(addr), Add32(addr, l);
      var lines := BaseLines(hi, page) + [DataLine(off, d[..l])];
      PageAndOffset(addr);
      OneLineReceived(parse, hi, page, off, d[..l]);
      FlushReceived(parse, page, next, d[l..]);
      ReceiveParts(parse, BaseOf(hi), lines, Printed(page, next, d[l..]));
    }
  }

  // ---- any sequence of flushes ----

  function PrintedAll(hi: U16, ops: seq<Chunk>): seq<Text>
    decreases |ops|
  {
    if ops == [] then []
    else Printed(hi, ops[0].addr, ops[0].data)
         + PrintedAll(HiAfter(hi, ops[0].addr, ops[0].data), ops[1..])
  }

  function HiAfterAll(hi: U16, ops: seq<Chunk>): U16
    decreases |ops|
  {
    if ops == [] then hi else HiAfterAll(HiAfter(hi, ops[0].addr, ops[0].data), ops[1..])
  }

  function ChunksOf(ops: seq<Chunk>): seq<Chunk>
  {
    if ops == [] then [] else Chunks(ops[0].addr, ops[0].data) + ChunksOf(ops[1..])
  }

  lemma {:induction false} AllReceived(parse: Reader, hi: U16, ops: seq<Chunk>)
    requires Faithful(parse)
    ensures Receive(parse, BaseOf(hi), PrintedAll(hi, ops)) ==
            Some(Received(BaseOf(HiAfterAll(hi, ops)), ChunksOf(ops)))
    decreases |ops|
  {
    if ops != [] {
      var addr, d := ops[0].addr, ops[0].data;
      FlushReceived(parse, hi, addr, d);
      AllReceived(parse, HiAfter(hi, addr, d), ops[1..]);
      ReceiveParts(parse, BaseOf(hi), Printed(hi, addr, d), PrintedAll(HiAfter(hi, addr, d), ops[1..]));
    }
  }

  /**
   The round trip: whatever is flushed, at whatever addresses, the printed lines read back as the
   same data in the same order, and the parser's base stays the printer's.
   */
  lemma {:induction false} RoundTrip(hi: U16, ops: seq<Chunk>, fl: Flavour)
    ensures Receive(LineReader(fl), BaseOf(hi), PrintedAll(hi, ops)) ==
            Some(Received(BaseOf(HiAfterAll(hi, ops)), ChunksOf(ops)))
  {
    BothFaithful(fl);
    AllReceived(LineReader(fl), hi, ops);
  }

  function Joined(cs: seq<Chunk>): seq<U8>
  {
    if cs == [] then [] else cs[0].data + Joined(cs[1..])
  }

  /** Non-empty chunks of at most 16 bytes, each starting where the one before ends. */
  ghost predicate Consecutive(addr: U32, cs: seq<Chunk>)
    decreases |cs|
  {
    cs == [] ||
    (cs[0].addr == addr && 0 < |cs[0].data| <= LINE_SIZE
     && Consecutive(Add32(addr, |cs[0].data|), cs[1..]))
  }

  /** Cutting into lines loses nothing. */
  lemma {:induction false} ChunksRejoin(addr: U32, d: seq<U8>)
    ensures Joined(Chunks(addr, d)) == d && Consecutive(addr, Chunks(addr, d))
    decreases |d|
  {
    if d != [] {
      var l := First(d);
      ChunksRejoin(Add32(addr, l), d[l..]);
      assert Chunks(addr, d)[1..] == Chunks(Add32(addr, l), d[l..]);
      assert d == d[..l] + d[l..];
    }
  }
}
