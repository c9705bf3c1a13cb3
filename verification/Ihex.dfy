/**
 Intel HEX text: the printer of ut/common/ihex.c and the parser that ut/common/ihex.c and
 bootloader/ihex.c share.
 */
module Ihex {
  import opened Machine

  type Text = seq<U8>

  const COLON: U8 := 58
  const LINE_SIZE: nat := 16

  // ---- hexadecimal bytes ----

  function HexDigit(n: nat): U8
    requires n < 16
  {
    if n < 10 then 48 + n else 55 + n
  }

  function HexValue(ch: U8): (v: Option<nat>)
    ensures v.Some? ==> v.value < 16
  {
    if 48 <= ch <= 57 then Some(ch - 48)
    else if 65 <= ch <= 70 then Some(ch - 55)
    else if 97 <= ch <= 102 then Some(ch - 87)
    else None
  }

  /** "%02X" */
  function Hex2(b: U8): (t: Text)
    ensures |t| == 2
  {
    [HexDigit(b / 16), HexDigit(b % 16)]
  }

  /** "%04X" of a number below 2^16. */
  function Hex4(v: U16): (t: Text)
    ensures |t| == 4
  {
    Hex2(v / 256) + Hex2(v % 256)
  }

  function HexAll(d: seq<U8>): (t: Text)
    ensures |t| == 2 * |d|
  {
    if d == [] then [] else Hex2(d[0]) + HexAll(d[1..])
  }

  /** The u8 sum of bytes, added up from the left. */
  function Sum(d: seq<U8>): U8
  {
    if d == [] then 0 else Add8(Sum(d[..|d| - 1]), d[|d| - 1])
  }

  lemma {:induction false} SumMore(d: seq<U8>, b: U8)
    ensures Sum(d + [b]) == Add8(Sum(d), b)
  {
    assert (d + [b])[..|d + [b]| - 1] == d;
  }

  lemma {:induction false} HexOfParts(a: seq<U8>, b: seq<U8>)
    ensures HexAll(a + b) == HexAll(a) + HexAll(b)
  {
    if a == [] {
      assert a + b == b;
    } else {
      assert (a + b)[1..] == a[1..] + b;
      HexOfParts(a[1..], b);
    }
  }

  // ---- reading ----

  datatype Got = Got(byte: U8, pos: nat)

  /** The value of the character at a position; the terminating NUL and anything past it has none. */
  function CharAt(s: Text, p: nat): (v: Option<nat>)
    ensures v.Some? ==> v.value < 16
  {
    if p < |s| then HexValue(s[p]) else None
  }

  /** gethex: a character that is no digit yields 0 and is not passed over. */
  function GetHex(s: Text, p: nat): (g: Got)
    ensures g.pos == p + 2 || (g.byte == 0 && CharAt(s, g.pos) == None && p <= g.pos <= p + 1)
  {
    match CharAt(s, p)
    case None => Got(0, p)
    case Some(h) =>
      match CharAt(s, p + 1)
      case None => Got(0, p + 1)
      case Some(l) => Got(h * 16 + l, p + 2)
  }

  function Decode(s: Text, p: nat, n: nat): (d: seq<U8>)
    ensures |d| == n
    decreases n, s
  {
    if n == 0 then [] else var g := GetHex(s, p); [g.byte] + Decode(s, g.pos, n - 1)
  }

  function PosAfter(s: Text, p: nat, n: nat): nat
    decreases n, s
  {
    if n == 0 then p else PosAfter(s, GetHex(s, p).pos, n - 1)
  }

  lemma {:induction false} DecodeMore(s: Text, p: nat, n: nat)
    ensures Decode(s, p, n + 1) == Decode(s, p, n) + [GetHex(s, PosAfter(s, p, n)).byte]
    ensures PosAfter(s, p, n + 1) == GetHex(s, PosAfter(s, p, n)).pos
    decreases n
  {
    if n > 0 {
      DecodeMore(s, GetHex(s, p).pos, n - 1);
    }
  }

  lemma {:induction false} HexRoundTrip(b: U8, s: Text, p: nat)
    requires p + 2 <= |s| && s[p] == HexDigit(b / 16) && s[p + 1] == HexDigit(b % 16)
    ensures GetHex(s, p) == Got(b, p + 2)
  {
  }

  lemma {:induction false} DecodeOfHex(s: Text, p: nat, d: seq<U8>)
    requires p + 2 * |d| <= |s| && s[p..p + 2 * |d|] == HexAll(d)
    ensures Decode(s, p, |d|) == d
    decreases |d|
  {
    if d != [] {
      var t := s[p..p + 2 * |d|];
      assert t[0] == s[p] && t[1] == s[p + 1];
      assert t[2..] == s[p + 2..p + 2 + 2 * |d[1..]|];
      HexRoundTrip(d[0], s, p);
      DecodeOfHex(s, p + 2, d[1..]);
    }
  }

  // ---- one line ----

  function Word(hi: U8, lo: U8): U16 { (hi as int) * 256 + lo as int }

  datatype Outcome =
    | Rejected
    | Data(addr: U32, data: seq<U8>)
    | EndOfData
    | Base
    | Ignored

  datatype Parsed = Parsed(hiWord: U32, out: Outcome)

  /** Which of the two parsers: only the tools know record type 5. */
  datatype Flavour = Tools | Bootloader

  /** What the buffer holds at a small index once the data is decoded over the text. */
  function Cell(s: Text, data: seq<U8>, k: nat): U8
    requires k < |s|
  {
    if k < |data| then data[k] else s[k]
  }

  /** ihex_parse on the characters before the NUL; the length lives in a u8. */
  function Meaning(hiWord: U32, s: Text, fl: Flavour): Parsed
  {
    if s == [] || s[0] != COLON then Parsed(hiWord, Rejected)
    else
      var l := (|s| - 1) % 256;
      var llen := GetHex(s, 1).byte;
      if l < 8 || l - 8 < 2 * (llen as int) then Parsed(hiWord, Rejected)
      else
        Record(hiWord, s, Decode(s, 1, 5 + llen), fl)
  }

  /** The bytes of a line: header, data and checksum. */
  function Record(hiWord: U32, s: Text, all: seq<U8>, fl: Flavour): Parsed
    requires |s| >= 2 && |all| >= 5
  {
    if Sum(all) != 0 then Parsed(hiWord, Rejected)
    else
      var data := all[4..|all| - 1];
      Dispatch(hiWord, Cell(s, data, 0), Cell(s, data, 1), all[3], Word(all[1], all[2]), data, fl)
  }

  /** The switch over the record type; an address record reads the first two cells of the buffer. */
  function Dispatch(hiWord: U32, cell0: U8, cell1: U8, kind: U8, addr: U16, data: seq<U8>, fl: Flavour): Parsed
  {
    if kind == 0 then Parsed(hiWord, Data(Add32(hiWord, addr), data))
    else if kind == 1 then Parsed(0, EndOfData)
    else if kind == 2 then Parsed(Word(cell0, cell1) * 16, Base)
    else if kind == 4 then Parsed(Word(cell0, cell1) * 0x1_0000, Base)
    else if kind == 5 && fl == Tools then Parsed(hiWord, Ignored)
    else Parsed(hiWord, Rejected)
  }

  // ---- the parser, decoding in place ----

  /** The C string at the start of a buffer. */
  function CString(a: seq<U8>): (s: Text)
    ensures s <= a && (|s| < |a| ==> a[|s|] == 0)
    ensures 0 in a ==> |s| < |a|
  {
    if a == [] || a[0] == 0 then [] else [a[0]] + CString(a[1..])
  }

  lemma {:induction false} CStringIs(a: seq<U8>, n: nat)
    requires n < |a| && a[n] == 0 && (forall k :: 0 <= k < n ==> a[k] != 0)
    ensures CString(a) == a[..n]
  {
    if n > 0 {
      CStringIs(a[1..], n - 1);
    }
  }

  /**
   The buffer while the data bytes are written over it: k bytes are in place, the rest is the
   text, and the reading position is ahead of the writing or stuck on a character that is no digit.
   */
  ghost predicate Decoding(a: seq<U8>, s: Text, k: nat, pos: nat)
  {
    && k <= |s| < |a| && pos <= |s| && a[|s|] == 0
    && (forall j :: k <= j < |s| ==> a[j] == s[j])
    && (pos == 9 + 2 * k || (CharAt(s, pos) == None && forall j :: pos <= j < k ==> a[j] == 0))
  }

  /** Decoding in place reads what it would read from an untouched text. */
  lemma {:induction false} ReadsText(a: seq<U8>, s: Text, k: nat, pos: nat)
    requires Decoding(a, s, k, pos)
    ensures GetHex(a, pos) == GetHex(s, pos) && GetHex(s, pos).pos <= |s|
  {
  }

  lemma {:induction false} WriteKeeps(a: seq<U8>, b: seq<U8>, s: Text, k: nat, pos: nat)
    requires Decoding(a, s, k, pos) && k < |s|
    requires b == a[k := GetHex(s, pos).byte]
    ensures Decoding(b, s, k + 1, GetHex(s, pos).pos)
  {
    ReadsText(a, s, k, pos);
  }

  lemma {:induction false} ReadsString(a: seq<U8>, s: Text, p: nat)
    requires |s| < |a| && s <= a && a[|s|] == 0 && p <= |s|
    ensures GetHex(a, p) == GetHex(s, p) && GetHex(s, p).pos <= |s|
  {
  }

  /** The four bytes of the header, read one after the other from the buffer. */
  lemma {:induction false} HeaderBytes(a: seq<U8>, s: Text)
    requires 9 <= |s| < |a| && s <= a && a[|s|] == 0
    ensures var g0 := GetHex(a, 1); var g1 := GetHex(a, g0.pos);
            var g2 := GetHex(a, g1.pos); var g3 := GetHex(a, g2.pos);
            && Decode(s, 1, 4) == [g0.byte, g1.byte, g2.byte, g3.byte]
            && Sum(Decode(s, 1, 4)) == Add8(Add8(Add8(Add8(0, g0.byte), g1.byte), g2.byte), g3.byte)
            && PosAfter(s, 1, 4) == g3.pos && g0 == GetHex(s, 1)
            && g0.pos <= |s| && g1.pos <= |s| && g2.pos <= |s|
            && Decoding(a, s, 0, g3.pos)
  {
    var g0 := GetHex(s, 1);
    var g1 := GetHex(s, g0.pos);
    var g2 := GetHex(s, g1.pos);
    var g3 := GetHex(s, g2.pos);
    ReadsString(a, s, 1);
    ReadsString(a, s, g0.pos);
    ReadsString(a, s, g1.pos);
    ReadsString(a, s, g2.pos);
    DecodeMore(s, 1, 0);
    DecodeMore(s, 1, 1);
    DecodeMore(s, 1, 2);
    DecodeMore(s, 1, 3);
    SumOfFour(g0.byte, g1.byte, g2.byte, g3.byte);
  }

  lemma SumOfFour(a: U8, b: U8, c: U8, d: U8)
    ensures Sum([a, b, c, d]) == Add8(Add8(Add8(Add8(0, a), b), c), d)
  {
    assert [a, b, c, d] == [] + [a] + [b] + [c] + [d];
    SumMore([], a);
    SumMore([] + [a], b);
    SumMore([] + [a] + [b], c);
    SumMore([] + [a] + [b] + [c], d);
  }

  lemma {:induction false} SumDecoded(head: seq<U8>, s: Text, p: nat, k: nat)
    ensures Sum(head + Decode(s, p, k + 1)) == Add8(Sum(head + Decode(s, p, k)), GetHex(s, PosAfter(s, p, k)).byte)
  {
    var b := GetHex(s, PosAfter(s, p, k)).byte;
    DecodeMore(s, p, k);
    assert head + Decode(s, p, k + 1) == head + Decode(s, p, k) + [b];
    SumMore(head + Decode(s, p, k), b);
  }

  class Parser {
    var addrHiWord: U32
    const flavour: Flavour

    constructor (flavour: Flavour)
      ensures addrHiWord == 0 && this.flavour == flavour
    {
      addrHiWord := 0;
      this.flavour := flavour;
    }

    /** strlen of the string at an index. */
    static method Strlen(buf: array<U8>, from: nat) returns (n: nat)
      requires from < buf.Length && 0 in buf[from..]
      ensures from + n < buf.Length && buf[from + n] == 0
      ensures forall k :: from <= k < from + n ==> buf[k] != 0
    {
      n := 0;
      ghost var nul :| 0 <= nul < |buf[from..]| && buf[from..][nul] == 0;
      while buf[from + n] != 0
        invariant n <= nul
        invariant forall k :: from <= k < from + n ==> buf[k] != 0
        decreases nul - n
      {
        n := n + 1;
        assert buf[from..][nul] == buf[from + nul];
      }
    }

    static method ReadByte(buf: array<U8>, p: nat, sum: U8) returns (byte: U8, pos: nat, sum': U8)
      requires p + 1 < buf.Length || (p < buf.Length && CharAt(buf[..], p) == None)
      ensures Got(byte, pos) == GetHex(buf[..], p)
      ensures sum' == Add8(sum, byte)
    {
      var d: U8 := 0;
      pos := p;
      var i := 0;
      while i < 2
        invariant 0 <= i <= 2 && pos == p + i
        invariant i == 0 ==> d == 0
        invariant i == 1 ==> CharAt(buf[..], p) == Some(d)
        invariant i == 2 ==> Got(d, pos) == GetHex(buf[..], p)
      {
        d := d * 16 % 256;
        var ch := buf[pos];
        if 97 <= ch <= 102 {
          ch := ch - 32;
        }
        if 48 <= ch <= 57 {
          d := d + (ch - 48);
        } else if 65 <= ch <= 70 {
          d := d + (ch - 65 + 10);
        } else {
          return 0, pos, sum;
        }
        pos := pos + 1;
        i := i + 1;
      }
      byte := d;
      sum' := Add8(sum, d);
    }

    static method DecodeByte(buf: array<U8>, k: nat, pos: nat, sum: U8, ghost s: Text) returns (pos': nat, sum': U8)
      requires Decoding(buf[..], s, k, pos) && k < |s|
      modifies buf
      ensures Decoding(buf[..], s, k + 1, pos')
      ensures buf[..k + 1] == old(buf[..k]) + [GetHex(s, pos).byte] && pos' == GetHex(s, pos).pos
      ensures sum' == Add8(sum, GetHex(s, pos).byte)
    {
      ghost var a := buf[..];
      ReadsText(a, s, k, pos);
      var byte;
      byte, pos', sum' := ReadByte(buf, pos, sum);
      buf[k] := byte;
      WriteKeeps(a, buf[..], s, k, pos);
      assert buf[..k + 1] == a[..k] + [byte];
    }

    /** The loop that decodes the data bytes over the text they come from. */
    static method DecodeOver(buf: array<U8>, llen: U8, p: nat, sum: U8, ghost s: Text, ghost head: seq<U8>) returns (pos: nat, sum': U8)
      requires Decoding(buf[..], s, 0, p) && llen < |s| && sum == Sum(head)
      modifies buf
      ensures Decoding(buf[..], s, llen, pos)
      ensures buf[..llen] == Decode(s, p, llen) && pos == PosAfter(s, p, llen)
      ensures sum' == Sum(head + Decode(s, p, llen))
    {
      pos, sum' := p, sum;
      assert head + Decode(s, p, 0) == head;
      var k: nat := 0;
      var l := llen;
      while l > 0
        invariant k + l == llen && l >= 0
        invariant Decoding(buf[..], s, k, pos)
        invariant buf[..k] == Decode(s, p, k) && pos == PosAfter(s, p, k)
        invariant sum' == Sum(head + Decode(s, p, k))
      {
        l := l - 1;
        DecodeMore(s, p, k);
        SumDecoded(head, s, p, k);
        pos, sum' := DecodeByte(buf, k, pos, sum', s);
        k := k + 1;
      }
    }

    /** ihex_parse. */
    method ParseLine(buf: array<U8>) returns (out: Outcome)
      requires 0 in buf[..]
      modifies this`addrHiWord, buf
      ensures Parsed(addrHiWord, out) == Meaning(old(addrHiWord), CString(old(buf[..])), flavour)
    {
      ghost var s := CString(buf[..]);
      if buf[0] != COLON {
        return Rejected;
      }
      assert buf[1..] == buf[..][1..];
      var n := Strlen(buf, 1);
      CStringIs(buf[..], n + 1);
      var l := n % 256;
      if l < 8 {
        return Rejected;
      }
      var llen, addr, kind, pos, sum := ReadHeader(buf, s);
      if l - 8 < 2 * (llen as int) {
        return Rejected;
      }
      out := ParseData(buf, llen, addr, kind, pos, sum, s);
    }

    /** The rest of a line: data, checksum and what the record type asks for. */
    method ParseData(buf: array<U8>, llen: U8, addr: U16, kind: U8, p: nat, sum: U8, ghost s: Text) returns (out: Outcome)
      requires Decoding(buf[..], s, 0, p) && |s| >= 9 && llen < |s|
      requires ghost var h := Decode(s, 1, 4);
               && p == PosAfter(s, 1, 4) && sum == Sum(h)
               && addr == Word(h[1], h[2]) && kind == h[3]
      modifies this`addrHiWord, buf
      ensures Parsed(addrHiWord, out) == Record(old(addrHiWord), s, Decode(s, 1, 5 + llen), flavour)
    {
      ghost var head := Decode(s, 1, 4);
      var pos, partial := DecodeOver(buf, llen, p, sum, s, head);
      ReadsText(buf[..], s, llen, pos);
      var last, _, total := ReadByte(buf, pos, partial);
      WholeLine(s, llen);
      SumMore(head + Decode(s, p, llen), last);
      if total != 0 {
        return Rejected;
      }
      ghost var all := Decode(s, 1, 5 + llen);
      assert all[4..|all| - 1] == Decode(s, p, llen) == buf[..llen];
      assert all[1] == head[1] && all[2] == head[2] && all[3] == head[3];
      out := Act(buf, llen, addr, kind);
    }

    /** The four header bytes: length, address and record type. */
    static method ReadHeader(buf: array<U8>, ghost s: Text)
      returns (llen: U8, addr: U16, kind: U8, pos: nat, sum: U8)
      requires Decoding(buf[..], s, 0, 9) && |s| >= 9
      ensures llen == GetHex(s, 1).byte
      ensures addr == Word(Decode(s, 1, 4)[1], Decode(s, 1, 4)[2]) && kind == Decode(s, 1, 4)[3]
      ensures pos == PosAfter(s, 1, 4) && sum == Sum(Decode(s, 1, 4))
      ensures Decoding(buf[..], s, 0, pos)
    {
      HeaderBytes(buf[..], s);
      llen, pos, sum := ReadByte(buf, 1, 0);
      var hi, lo;
      hi, pos, sum := ReadByte(buf, pos, sum);
      lo, pos, sum := ReadByte(buf, pos, sum);
      addr := Word(hi, lo);
      kind, pos, sum := ReadByte(buf, pos, sum);
    }

    /** The switch over the record type; the data stands at the start of the buffer. */
    method Act(buf: array<U8>, llen: U8, addr: U16, kind: U8) returns (out: Outcome)
      requires 2 <= buf.Length && llen <= buf.Length
      modifies this`addrHiWord
      ensures Parsed(addrHiWord, out) == Dispatch(old(addrHiWord), buf[0], buf[1], kind, addr, buf[..llen], flavour)
    {
      if kind == 0 {
        out := Data(Add32(addrHiWord, addr), buf[..llen]);
      } else if kind == 1 {
        addrHiWord := 0;
        out := EndOfData;
      } else if kind == 2 {
        addrHiWord := Word(buf[0], buf[1]) * 16;
        out := Base;
      } else if kind == 4 {
        addrHiWord := Word(buf[0], buf[1]) * 0x1_0000;
        out := Base;
      } else if kind == 5 && flavour == Tools {
        out := Ignored;
      } else {
        out := Rejected;
      }
    }
  }

  /** A line's bytes: header, data, checksum. */
  lemma {:induction false} WholeLine(s: Text, llen: nat)
    ensures var p := PosAfter(s, 1, 4);
            Decode(s, 1, 5 + llen) ==
            Decode(s, 1, 4) + Decode(s, p, llen) + [GetHex(s, PosAfter(s, p, llen)).byte]
    ensures Decode(s, 1, 5 + llen)[0] == GetHex(s, 1).byte
  {
    var p := PosAfter(s, 1, 4);
    DecodeParts(s, 1, 4, llen);
    DecodeMore(s, 1, 4 + llen);
    assert Decode(s, 1, 5 + llen) == Decode(s, 1, 4 + llen) + [GetHex(s, PosAfter(s, 1, 4 + llen)).byte];
  }

  lemma {:induction false} DecodeParts(s: Text, p: nat, m: nat, n: nat)
    ensures Decode(s, p, m + n) == Decode(s, p, m) + Decode(s, PosAfter(s, p, m), n)
    ensures PosAfter(s, p, m + n) == PosAfter(s, PosAfter(s, p, m), n)
    decreases m
  {
    if m > 0 {
      DecodeParts(s, GetHex(s, p).pos, m - 1, n);
    }
  }
}
