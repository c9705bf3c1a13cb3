/**
 From characters to lines: _rx_feed of ut/app_crc/main.c and ut/app_container/main.c. A colon
 starts a line, CR, LF or NUL ends it, and what lies between two lines is skipped.
 */
module IhexStream {
  import opened Machine
  import opened Ihex
  import opened IhexRoundTrip

  const BUFFER: nat := 256

  predicate Ends(ch: U8) { ch == 13 || ch == 10 || ch == 0 }

  datatype Fed = Fed(buf: Text, line: Option<Text>)

  /** One character: the buffer afterwards and the line that is complete with it, if any. */
  function Next(buf: Text, ch: U8): Fed
  {
    if ch == COLON then Fed([COLON], None)
    else if |buf| >= BUFFER || buf == [] then Fed(buf, None)
    else if Ends(ch) then Fed([], Some(buf))
    else Fed(buf + [ch], None)
  }

  /** The lines handed to the parser while a text is fed. */
  function Lines(buf: Text, text: Text): seq<Text>
    decreases |text|
  {
    if text == [] then []
    else
      var f := Next(buf, text[0]);
      if f.line.Some? then [f.line.value] + Lines(f.buf, text[1..]) else Lines(f.buf, text[1..])
  }

  function BufAfter(buf: Text, text: Text): Text
    decreases |text|
  {
    if text == [] then buf else BufAfter(Next(buf, text[0]).buf, text[1..])
  }

  class LineFeed {
    const buf: array<U8>
    var rxLen: nat

    ghost predicate Valid()
      reads this
    {
      buf.Length == BUFFER && rxLen <= BUFFER
    }

    ghost function Held(): Text
      requires Valid()
      reads this, buf
    {
      buf[..rxLen]
    }

    constructor ()
      ensures Valid() && Held() == [] && fresh(buf)
    {
      buf := new U8[BUFFER](_ => 0);
      rxLen := 0;
    }

    /** _rx_feed; a complete line stands in the buffer with its NUL when it is handed on. */
    method Feed(ch: U8) returns (line: Option<Text>)
      requires Valid()
      modifies this`rxLen, buf
      ensures Valid() && Fed(Held(), line) == Next(old(Held()), ch)
      ensures line.Some? ==> |line.value| < BUFFER && buf[..|line.value|] == line.value && buf[|line.value|] == 0
    {
      line := None;
      if ch == COLON {
        buf[0] := ch;
        rxLen := 1;
        return;
      }
      if rxLen >= buf.Length || rxLen == 0 {
        return;
      }
      var c := if ch == 13 || ch == 10 then 0 else ch;
      buf[rxLen] := c;
      if c == 0 {
        line := Some(buf[..rxLen]);
        rxLen := 0;
        return;
      }
      rxLen := rxLen + 1;
    }
  }

  // ---- what is skipped ----

  ghost predicate NoColon(t: Text) { forall k :: 0 <= k < |t| ==> t[k] != 58 }

  /** Between two lines everything is skipped up to the next colon. */
  lemma {:induction false} BetweenLines(t: Text)
    requires NoColon(t)
    ensures Lines([], t) == [] && BufAfter([], t) == []
    decreases |t|
  {
    if t != [] {
      BetweenLines(t[1..]);
    }
  }

  /** A line of 256 characters is never handed on, whatever ends it. */
  lemma {:induction false} TooLong(buf: Text, t: Text)
    requires |buf| >= 256 && NoColon(t)
    ensures Lines(buf, t) == [] && BufAfter(buf, t) == buf
    decreases |t|
  {
    if t != [] {
      TooLong(buf, t[1..]);
    }
  }

  /** A colon starts a line whatever was held before; what was is dropped. */
  lemma ColonRestarts(buf: Text, t: Text)
    ensures Lines(buf, [58] + t) == Lines([58], t) && BufAfter(buf, [58] + t) == BufAfter([58], t)
  {
    assert ([58] + t)[1..] == t;
  }

  /** CR, LF and NUL end a line with room in the buffer, and nothing else does. */
  lemma EndsExact(buf: Text, ch: U8)
    requires 0 < |buf| < 256 && ch != 58
    ensures Lines(buf, [ch]) == (if ch in {0, 10, 13} then [buf] else [])
    ensures BufAfter(buf, [ch]) == (if ch in {0, 10, 13} then [] else buf + [ch])
  {
    assert [ch][1..] == [];
    var f := Next(buf, ch);
    assert Lines(f.buf, []) == [] && BufAfter(f.buf, []) == f.buf;
  }

  // ---- printed files ----

  predicate Newline(nl: Text) { nl == [10] || nl == [13, 10] }

  /** Lines as they are printed, each with its line end. */
  function FileText(lines: seq<Text>, nl: Text): Text
  {
    if lines == [] then [] else lines[0] + nl + FileText(lines[1..], nl)
  }

  ghost predicate Plain(t: Text)
  {
    forall k :: 0 <= k < |t| ==> t[k] != COLON && !Ends(t[k])
  }

  /** A line of the file format that fits the buffer. */
  ghost predicate Proper(line: Text)
  {
    0 < |line| < BUFFER && line[0] == COLON && Plain(line[1..])
  }

  lemma {:induction false} LinesOfParts(buf: Text, a: Text, b: Text)
    ensures Lines(buf, a + b) == Lines(buf, a) + Lines(BufAfter(buf, a), b)
    ensures BufAfter(buf, a + b) == BufAfter(BufAfter(buf, a), b)
    decreases |a|
  {
    if a == [] {
      assert a + b == b;
    } else {
      assert (a + b)[0] == a[0] && (a + b)[1..] == a[1..] + b;
      LinesOfParts(Next(buf, a[0]).buf, a[1..], b);
    }
  }

  lemma {:induction false} PlainCollects(buf: Text, t: Text)
    requires Plain(t) && buf != [] && |buf| + |t| <= BUFFER
    ensures Lines(buf, t) == [] && BufAfter(buf, t) == buf + t
    decreases |t|
  {
    if t != [] {
      assert buf + t == buf + [t[0]] + t[1..];
      PlainCollects(buf + [t[0]], t[1..]);
    }
  }

  lemma {:induction false} LineCollects(line: Text)
    requires Proper(line)
    ensures Lines([], line) == [] && BufAfter([], line) == line
  {
    assert line == [COLON] + line[1..];
    PlainCollects([COLON], line[1..]);
  }

  lemma {:induction false} NewlineHandsOn(line: Text, nl: Text)
    requires Proper(line) && Newline(nl)
    ensures Lines(line, nl) == [line] && BufAfter(line, nl) == []
  {
    var rest := nl[1..];
    if rest != [] {
      assert rest == [10] && rest[1..] == [] && Next([], 10) == Fed([], None);
      assert Lines([], []) == [] && BufAfter([], []) == [];
    }
  }

  /** A printed file is split into exactly its lines. */
  lemma {:induction false} FileSplits(lines: seq<Text>, nl: Text)
    requires Newline(nl) && forall k :: 0 <= k < |lines| ==> Proper(lines[k])
    ensures Lines([], FileText(lines, nl)) == lines && BufAfter([], FileText(lines, nl)) == []
    decreases |lines|
  {
    if lines != [] {
      var line, rest := lines[0], FileText(lines[1..], nl);
      LineCollects(line);
      NewlineHandsOn(line, nl);
      LinesOfParts([], line, nl);
      LinesOfParts([], line + nl, rest);
      FileSplits(lines[1..], nl);
      assert lines == [line] + lines[1..];
    }
  }

  // ---- what the printer prints is proper ----

  lemma {:induction false} HexIsPlain(d: seq<U8>)
    ensures Plain(HexAll(d))
  {
    if d != [] {
      HexIsPlain(d[1..]);
    }
  }

  lemma {:induction false} HexLineProper(b: seq<U8>)
    requires |b| <= 127
    ensures Proper([COLON] + HexAll(b))
  {
    HexIsPlain(b);
    assert ([COLON] + HexAll(b))[1..] == HexAll(b);
  }

  lemma {:induction false} FlushProper(hi: U16, addr: U32, d: seq<U8>)
    ensures forall k :: 0 <= k < |Printed(hi, addr, d)| ==> Proper(Printed(hi, addr, d)[k])
    decreases |d|
  {
    if d != [] {
      var l := First(d);
      DataLineIsHex(Offset(addr), d[..l]);
      HexLineProper(DataBytes(Offset(addr), d[..l]));
      BaseLineIsHex(Page(addr));
      HexLineProper(BaseBytes(Page(addr)));
      FlushProper(Page(addr), Add32(addr, l), d[l..]);
    }
  }

  lemma {:induction false} AllProper(hi: U16, ops: seq<Chunk>)
    ensures forall k :: 0 <= k < |PrintedAll(hi, ops)| ==> Proper(PrintedAll(hi, ops)[k])
    decreases |ops|
  {
    if ops != [] {
      FlushProper(hi, ops[0].addr, ops[0].data);
      AllProper(HiAfter(hi, ops[0].addr, ops[0].data), ops[1..]);
    }
  }

  /** A file of flushes and the end record, as text: the tools read back every line of it. */
  lemma {:induction false} PrintedFileSplits(ops: seq<Chunk>, nl: Text)
    requires Newline(nl)
    ensures Lines([], FileText(PrintedAll(0, ops) + [EOF_LINE], nl)) == PrintedAll(0, ops) + [EOF_LINE]
    ensures BufAfter([], FileText(PrintedAll(0, ops) + [EOF_LINE], nl)) == []
  {
    AllProper(0, ops);
    assert Proper(EOF_LINE);
    FileSplits(PrintedAll(0, ops) + [EOF_LINE], nl);
  }
}
