/**
 The SIA-DC-09 frame of app/cms/cms_sia_ip.c: what cms_sia_ip_build_msg writes into the packet
 buffer and what cms_sia_ip_rx accepts.
 */
module SiaFrame {
  import opened Machine
  import opened SiaCrc

  const IDX_CRC: nat := 1
  const IDX_LEN: nat := 5
  const IDX_DATA: nat := 9
  const MIN_FRAME: nat := 20

  const NUL: bv8 := 0
  const LF: bv8 := 0x0A
  const CR: bv8 := 0x0D
  const QUOTE: bv8 := 0x22
  const ZERO: bv8 := 0x30

  type Bytes = seq<bv8>

  // ---- hexadecimal text ----

  /** The digits "%X" prints. */
  function Digit(n: nat): bv8
    requires n < 16
  {
    match n
    case 0 => 0x30 case 1 => 0x31 case 2 => 0x32 case 3 => 0x33 case 4 => 0x34
    case 5 => 0x35 case 6 => 0x36 case 7 => 0x37 case 8 => 0x38 case 9 => 0x39
    case 10 => 0x41 case 11 => 0x42 case 12 => 0x43
    case 13 => 0x44 case 14 => 0x45 case _ => 0x46
  }

  /** The value sscanf gives to a hexadecimal digit; lower case is accepted. */
  function Value(ch: bv8): Option<nat>
  {
    match ch
    case 0x30 => Some(0) case 0x31 => Some(1) case 0x32 => Some(2) case 0x33 => Some(3)
    case 0x34 => Some(4) case 0x35 => Some(5) case 0x36 => Some(6) case 0x37 => Some(7)
    case 0x38 => Some(8) case 0x39 => Some(9)
    case 0x41 => Some(10) case 0x42 => Some(11) case 0x43 => Some(12)
    case 0x44 => Some(13) case 0x45 => Some(14) case 0x46 => Some(15)
    case 0x61 => Some(10) case 0x62 => Some(11) case 0x63 => Some(12)
    case 0x64 => Some(13) case 0x65 => Some(14) case 0x66 => Some(15)
    case _ => None
  }

  lemma {:induction false} ValueOfDigit(n: nat)
    requires n < 16
    ensures Value(Digit(n)) == Some(n)
  {
  }

  /** The k-th hexadecimal digit of a number, from the right. */
  function Nib(v: nat, k: nat): (n: nat)
    ensures n < 16
    decreases k, v
  {
    if k == 0 then v % 16 else Nib(v / 16, k - 1)
  }

  /** "%04X" of a u16. */
  function Hex4(v: U16): (r: Bytes)
    ensures |r| == 4
  {
    [Digit(Nib(v, 3)), Digit(Nib(v, 2)), Digit(Nib(v, 1)), Digit(Nib(v, 0))]
  }

  /** "0%03X" of a length below 4096. */
  function Len4(v: nat): (r: Bytes)
    requires v < 0x1000
    ensures |r| == 4
  {
    [ZERO, Digit(Nib(v, 2)), Digit(Nib(v, 1)), Digit(Nib(v, 0))]
  }

  // ---- sscanf with "%4hx" ----

  predicate IsSpace(ch: bv8) { 0x09 <= ch <= 0x0D || ch == 0x20 }

  function SkipSpace(s: Bytes): Bytes
  {
    if s != [] && IsSpace(s[0]) then SkipSpace(s[1..]) else s
  }

  /** The longest run of digits within the field width; None when there is none. */
  function ScanDigits(s: Bytes, width: nat): Option<nat>
  {
    if s == [] || width == 0 || Value(s[0]) == None then None else Some(RunValue(s, width, 0))
  }

  function RunValue(s: Bytes, width: nat, acc: nat): nat
    decreases width, s
  {
    if s == [] || width == 0 || Value(s[0]) == None then acc
    else RunValue(s[1..], width - 1, acc * 16 + Value(s[0]).value)
  }

  function ScanPrefixed(s: Bytes, width: nat): Option<nat>
  {
    if width >= 2 && |s| >= 2 && s[0] == ZERO && s[1] in {0x78, 0x58} then ScanDigits(s[2..], width - 2)
    else ScanDigits(s, width)
  }

  /** One conversion: white space, a sign, an 0x prefix and digits, four characters at most. */
  function ScanHex(s: Bytes): Option<nat>
  {
    var t := SkipSpace(s);
    if t != [] && t[0] == 0x2D then
      match ScanPrefixed(t[1..], 3)
      case Some(v) => Some((0x1_0000 - v % 0x1_0000) % 0x1_0000)
      case None => None
    else if t != [] && t[0] == 0x2B then ScanPrefixed(t[1..], 3)
    else ScanPrefixed(t, 4)
  }

  lemma {:induction false} RunStep(s: Bytes, width: nat, acc: nat, n: nat)
    requires n < 16 && width > 0 && s != [] && s[0] == Digit(n)
    ensures RunValue(s, width, acc) == RunValue(s[1..], width - 1, acc * 16 + n)
  {
    ValueOfDigit(n);
  }

  lemma {:induction false} RunOfTwo(s: Bytes, width: nat, acc: nat, a: nat, b: nat)
    requires a < 16 && b < 16 && width >= 2 && |s| >= 2 && s[0] == Digit(a) && s[1] == Digit(b)
    ensures RunValue(s, width, acc) == RunValue(s[2..], width - 2, acc * 256 + a * 16 + b)
  {
    var t := s[1..];
    RunStep(s, width, acc, a);
    RunStep(t, width - 1, acc * 16 + a, b);
    assert t[1..] == s[2..];
    assert (acc * 16 + a) * 16 + b == acc * 256 + a * 16 + b;
  }

  lemma {:induction false} RunOfFour(s: Bytes, a: nat, b: nat, c: nat, d: nat, width: nat)
    requires a < 16 && b < 16 && c < 16 && d < 16 && |s| >= 4 && width == 4
    requires s[0] == Digit(a) && s[1] == Digit(b) && s[2] == Digit(c) && s[3] == Digit(d)
    ensures RunValue(s, width, 0) == a * 0x1000 + b * 0x100 + c * 0x10 + d
  {
    RunOfTwo(s, width, 0, a, b);
    RunOfTwo(s[2..], width - 2, a * 16 + b, c, d);
  }

  /** A digit is no white space, no sign and no x. */
  lemma {:induction false} DigitIsPlain(n: nat)
    requires n < 16
    ensures var ch := Digit(n); !IsSpace(ch) && ch != 0x2D && ch != 0x2B && ch != 0x78 && ch != 0x58
  {
  }

  /** Four digits scan to their number, whatever follows them. */
  lemma {:induction false} ScanOfDigits(s: Bytes, a: nat, b: nat, c: nat, d: nat)
    requires a < 16 && b < 16 && c < 16 && d < 16 && |s| >= 4
    requires s[0] == Digit(a) && s[1] == Digit(b) && s[2] == Digit(c) && s[3] == Digit(d)
    ensures ScanHex(s) == Some(a * 0x1000 + b * 0x100 + c * 0x10 + d)
  {
    DigitIsPlain(a);
    DigitIsPlain(b);
    ValueOfDigit(a);
    RunOfFour(s, a, b, c, d, 4);
  }

  lemma Nibbles(v: U16)
    ensures Nib(v, 3) * 0x1000 + Nib(v, 2) * 0x100 + Nib(v, 1) * 0x10 + Nib(v, 0) == v
    ensures v < 0x1000 ==> Nib(v, 3) == 0
  {
    var v1 := v / 16;
    var v2 := v1 / 16;
    var v3 := v2 / 16;
    assert Nib(v, 1) == Nib(v1, 0) == v1 % 16;
    assert Nib(v, 2) == Nib(v1, 1) == Nib(v2, 0) == v2 % 16;
    assert Nib(v, 3) == Nib(v1, 2) == Nib(v2, 1) == Nib(v3, 0) == v3 % 16;
  }

  /** "%04X" read back by "%4hx". */
  lemma {:induction false} ScanOfHex4(v: U16, rest: Bytes)
    ensures ScanHex(Hex4(v) + rest) == Some(v)
  {
    var s, h := Hex4(v) + rest, Hex4(v);
    assert s[0] == h[0] && s[1] == h[1] && s[2] == h[2] && s[3] == h[3];
    Nibbles(v);
    ScanOfDigits(s, Nib(v, 3), Nib(v, 2), Nib(v, 1), Nib(v, 0));
  }

  /** "0%03X" read back by "%4hx". */
  lemma {:induction false} ScanOfLen4(v: nat, rest: Bytes)
    requires v < 0x1000
    ensures ScanHex(Len4(v) + rest) == Some(v)
  {
    var s, h := Len4(v) + rest, Len4(v);
    assert s[0] == h[0] && s[1] == h[1] && s[2] == h[2] && s[3] == h[3];
    Nibbles(v);
    ScanOfDigits(s, 0, Nib(v, 2), Nib(v, 1), Nib(v, 0));
  }

  // ---- the frame ----

  function Num(c: bv16): U16 { c as int }

  lemma NumInjective(c: bv16, d: bv16)
    requires Num(c) == Num(d)
    ensures c == d
  {
    assert (c as int) as bv16 == c;
    assert (d as int) as bv16 == d;
  }

  /** _crc_calc of a data region. */
  function DataCrc(data: Bytes): U16 { Num(Crc(0, Body(data, MAX_MSG_LEN))) }

  /** The check value of this CRC: what it is of the digits 1 to 9. */
  lemma {:induction false} CheckValue(data: Bytes)
    requires data == [0x31, 0x32, 0x33, 0x34, 0x35, 0x36, 0x37, 0x38, 0x39]
    ensures DataCrc(data) == 0xBB3D
  {
    BodyIs(data, MAX_MSG_LEN, |data|);
    assert data[..|data|] == data;
    DigitsToNine(0);
  }

  predicate Fits(data: Bytes) { IDX_DATA + |data| < MAX_MSG_LEN }

  /** <LF><crc><0LLL><data><CR> */
  function Frame(data: Bytes): (f: Bytes)
    requires Fits(data)
    ensures |f| == IDX_DATA + |data| + 1
  {
    Headed(DataCrc(data), |data|, data)
  }

  /** A frame whose header carries the given CRC and length. */
  function Headed(crc: U16, len: nat, data: Bytes): (f: Bytes)
    requires len < 0x1000
    ensures |f| == IDX_DATA + |data| + 1
  {
    [LF] + Hex4(crc) + Len4(len) + data + [CR]
  }

  /** cms_sia_ip_rx on the bytes of a datagram. */
  predicate Accepts(f: Bytes)
  {
    && MIN_FRAME <= |f| <= MAX_MSG_LEN
    && f[0] == LF
    && (match (ScanHex(f[IDX_CRC..] + [NUL]), ScanHex(f[IDX_LEN..] + [NUL]))
        case (Some(crc), Some(len)) =>
          len < 0x1000 && crc == DataCrc(f[IDX_DATA..] + [NUL]) && |f| - IDX_DATA - 1 == len
        case _ => false)
  }

  lemma {:induction false} BodyOfTail(data: Bytes, tail: Bytes, limit: nat)
    requires |data| <= limit && tail != [] && Stops(tail[0])
    ensures Body(data + tail, limit) == Body(data, limit)
  {
    var s := data + tail;
    if data == [] {
      assert s == tail;
    } else {
      assert s[0] == data[0] && s[1..] == data[1..] + tail;
      BodyOfTail(data[1..], tail, limit - 1);
    }
  }

  /** A frame with any CRC and length in its header is accepted exactly when both are the right ones. */
  lemma {:induction false} AcceptsHeaded(crc: U16, len: nat, data: Bytes)
    requires len < 0x1000
    ensures Accepts(Headed(crc, len, data)) <==>
            MIN_FRAME <= IDX_DATA + |data| + 1 && Fits(data) && crc == DataCrc(data) && len == |data|
  {
    var f := Headed(crc, len, data);
    var tail := [CR, NUL];
    assert f[IDX_CRC..] + [NUL] == Hex4(crc) + (Len4(len) + data + tail);
    assert f[IDX_LEN..] + [NUL] == Len4(len) + (data + tail);
    assert f[IDX_DATA..] + [NUL] == data + tail;
    ScanOfHex4(crc, Len4(len) + data + tail);
    ScanOfLen4(len, data + tail);
    if Fits(data) {
      BodyOfTail(data, tail, MAX_MSG_LEN);
    }
  }

  /** What the builder sends the receiver accepts; the receiver's minimum length is the only limit. */
  lemma {:induction false} RoundTrip(data: Bytes)
    requires Fits(data)
    ensures Accepts(Frame(data)) <==> |data| >= 10
  {
    AcceptsHeaded(DataCrc(data), |data|, data);
  }

  predicate Plain(s: Bytes) { forall k :: 0 <= k < |s| ==> !Stops(s[k]) }

  /** A frame whose data was changed within two neighbouring bytes is refused. */
  lemma {:induction false} CorruptionRefused(p: Bytes, x: Bytes, y: Bytes, q: Bytes)
    requires |x| == |y| <= 2 && x != y
    requires Plain(p + x + q) && Plain(p + y + q) && Fits(p + x + q)
    ensures !Accepts(Headed(DataCrc(p + x + q), |p + x + q|, p + y + q))
  {
    var a, b := p + x + q, p + y + q;
    AcceptsHeaded(DataCrc(a), |a|, b);
    BodyIs(a, MAX_MSG_LEN, |a|);
    BodyIs(b, MAX_MSG_LEN, |b|);
    assert a[..|a|] == a && b[..|b|] == b;
    if DataCrc(a) == DataCrc(b) {
      NumInjective(Crc(0, a), Crc(0, b));
      ErrorDetected(p, x, y, q);
    }
  }

  // ---- the data region ----

  /**
   What the region is made of: the counters of cms_sia_ip_state_t, the two-letter code of the
   event (None for an event that is not reported), its zone, and the texts looked up or printed
   by the calls around; a text that is switched off or missing is empty.
   */
  datatype Report = Report(cnt: nat, prefix: nat, account: nat, code: Option<Bytes>, zone: nat,
                           source: Bytes, name: Bytes, extra: Bytes, time: Bytes, stamp: Bytes)

  predicate Sendable(r: Report) { r.cnt < 10000 && r.zone < 16 }

  /** "%X" */
  function Hex(n: nat): (t: Bytes)
    ensures |t| >= 1
  {
    if n < 16 then [Digit(n)] else Hex(n / 16) + [Digit(n % 16)]
  }

  /** The last width decimal digits of a number, zeros in front: "%04d" below 10000 is Decimal(n, 4). */
  function Decimal(n: nat, width: nat): (t: Bytes)
    ensures |t| == width
    decreases width, n
  {
    if width == 0 then [] else Decimal(n / 10, width - 1) + [Digit(n % 10)]
  }

  /** The opening "SIA-DCS" with its quotes. */
  const OPENING: Bytes := [QUOTE, 0x53, 0x49, 0x41, 0x2D, 0x44, 0x43, 0x53, QUOTE]

  /** "|Nri01/" */
  const EVENT_MARK: Bytes := [0x7C, 0x4E, 0x72, 0x69, 0x30, 0x31, 0x2F]

  /** What stands behind the bracket: the event and its zone, the source, and the texts behind the closing bracket. */
  function EventPart(r: Report, code: Bytes): Bytes
    requires Sendable(r)
  {
    EVENT_MARK + (code + [Digit(r.zone)] + ([0x5E] + (r.source + ([0x5E]
    + ([0x5D] + r.name + r.extra + r.time + r.stamp)))))
  }

  /** Everything between the header and the CR, or nothing for an event without a code. */
  function Region(r: Report): (d: Option<Bytes>)
    requires Sendable(r)
    ensures d.Some? <==> r.code.Some?
    ensures d.Some? ==> |d.value| >= 10 && d.value[0] == QUOTE
  {
    match r.code
    case None => None
    case Some(code) =>
      Some(OPENING + (Decimal(r.cnt, 4) + ([0x4C] + (Hex(r.prefix) + ([0x23] + (Hex(r.account) + ([0x5B]
           + EventPart(r, code))))))))
  }

  /** A reported event gives a frame the receiver accepts; an event without a code gives none. */
  lemma BuiltIsAccepted(r: Report)
    requires Sendable(r)
    ensures match Region(r)
            case Some(data) => Fits(data) ==> Accepts(Frame(data))
            case None => r.code.None?
  {
    match Region(r) {
      case Some(data) => if Fits(data) { RoundTrip(data); }
      case None =>
    }
  }

  // ---- the packet buffer ----

  /** A buffer after sprintf of four characters: the terminating NUL lands on the fifth. */
  function Printed4(o: Bytes, at: nat, text: Bytes): (r: Bytes)
    requires |text| == 4 && at + 5 <= |o|
    ensures |r| == |o|
  {
    o[..at] + text + [NUL] + o[at + 5..]
  }

  method Sprintf4(out: array<bv8>, at: nat, text: Bytes)
    requires |text| == 4 && at + 5 <= out.Length
    modifies out
    ensures out[..] == Printed4(old(out[..]), at, text)
  {
    out[at] := text[0];
    out[at + 1] := text[1];
    out[at + 2] := text[2];
    out[at + 3] := text[3];
    out[at + 4] := NUL;
  }

  /** After both prints the header stands in front; behind its NUL the buffer is as it was. */
  lemma PrintedTwice(o: Bytes, crc: Bytes, len: Bytes)
    requires |crc| == 4 && |len| == 4 && IDX_DATA < |o| && o[0] == LF
    ensures var p := Printed4(Printed4(o, IDX_CRC, crc), IDX_LEN, len);
            p[..IDX_DATA] == [LF] + crc + len && p[IDX_DATA + 1..] == o[IDX_DATA + 1..]
  {
    var q := Printed4(o, IDX_CRC, crc);
    assert q[..IDX_LEN] == [LF] + crc && q[IDX_DATA + 1..] == o[IDX_DATA + 1..];
    var p := Printed4(q, IDX_LEN, len);
    assert p[..IDX_DATA] == q[..IDX_LEN] + len;
  }

  /** The region with its opening quote put back. */
  lemma RegionAfter(o: Bytes, p: Bytes, data: Bytes)
    requires data != [] && data[0] == QUOTE && IDX_DATA + |data| < |o| == |p|
    requires o[IDX_DATA..IDX_DATA + |data|] == data && p[IDX_DATA + 1..] == o[IDX_DATA + 1..]
    ensures p[IDX_DATA := QUOTE][..IDX_DATA] == p[..IDX_DATA]
    ensures p[IDX_DATA := QUOTE][IDX_DATA..IDX_DATA + |data|] == data
  {
    var q := p[IDX_DATA := QUOTE];
    forall i | 0 <= i < |data| ensures q[IDX_DATA + i] == data[i] {
      if 0 < i {
        assert p[IDX_DATA + 1..][i - 1] == o[IDX_DATA + 1..][i - 1];
        assert o[IDX_DATA..IDX_DATA + |data|][i] == data[i];
      }
    }
  }

  /** The appends to the output buffer: the region at its place, a NUL behind it. */
  method PutRegion(out: array<bv8>, data: Bytes)
    requires IDX_DATA + |data| < out.Length
    modifies out
    ensures out[IDX_DATA..IDX_DATA + |data|] == data
    ensures out[IDX_DATA + |data|] == NUL
  {
    forall i | 0 <= i < |data| {
      out[IDX_DATA + i] := data[i];
    }
    out[IDX_DATA + |data|] := NUL;
  }

  /** The checksum of a region that stands in the buffer with a NUL behind it. */
  method RegionCrc(out: array<bv8>, data: Bytes) returns (crc: bv16)
    requires Fits(data) && IDX_DATA + |data| < out.Length
    requires out[IDX_DATA..IDX_DATA + |data|] == data && out[IDX_DATA + |data|] == NUL
    ensures Num(crc) == DataCrc(data)
  {
    crc := CrcCalc(out, IDX_DATA);
    var end := IDX_DATA + |data|;
    assert out[IDX_DATA..] == data + out[end..];
    BodyOfTail(data, out[end..], MAX_MSG_LEN);
  }

  /**
   The header, written back over the two sprintf calls whose terminating NULs land on the first
   length digit and on the opening quote of the region.
   */
  method PutHeader(out: array<bv8>, crc: U16, data: Bytes)
    requires data != [] && data[0] == QUOTE && Fits(data) && IDX_DATA + |data| < out.Length
    requires out[IDX_DATA..IDX_DATA + |data|] == data
    modifies out
    ensures out[..IDX_DATA + |data|] == [LF] + Hex4(crc) + Len4(|data|) + data
  {
    ghost var end, o := IDX_DATA + |data|, out[..][0 := LF];
    out[0] := LF;
    Sprintf4(out, IDX_CRC, Hex4(crc));
    Sprintf4(out, IDX_LEN, Len4(|data|));
    ghost var p := out[..];
    PrintedTwice(o, Hex4(crc), Len4(|data|));
    out[IDX_DATA] := QUOTE;
    RegionAfter(o, p, data);
    assert out[..] == p[IDX_DATA := QUOTE];
    assert out[..end] == out[..][..IDX_DATA] + out[..][IDX_DATA..end];
  }

  /**
   cms_sia_ip_build_msg: the whole frame in the packet buffer, or 0 for an event without a code.
   A region that does not fit stops the program at the source's assertion, so it is required to.
   */
  method BuildMsg(out: array<bv8>, r: Report) returns (len: nat)
    requires Sendable(r) && out.Length == MAX_MSG_LEN + IDX_DATA
    requires Region(r).Some? ==> Fits(Region(r).value)
    modifies out
    ensures match Region(r)
            case None => len == 0
            case Some(data) => len == IDX_DATA + |data| + 1 && out[..len] == Frame(data)
  {
    var region := Region(r);
    if region.None? {
      return 0;
    }
    var data := region.value;
    var end := IDX_DATA + |data|;
    PutRegion(out, data);
    var crc := RegionCrc(out, data);
    PutHeader(out, Num(crc), data);
    out[end] := CR;
    len := end + 1;
    assert out[..len] == out[..end] + [CR];
  }

  lemma TerminatedBody(b: Bytes, f: Bytes)
    requires IDX_DATA <= |f| < |b| && |f| <= MAX_MSG_LEN && b[..|f|] == f && b[|f|] == NUL
    ensures Body(b[IDX_DATA..], MAX_MSG_LEN) == Body(f[IDX_DATA..] + [NUL], MAX_MSG_LEN)
  {
    var data, tail := f[IDX_DATA..], b[|f|..];
    assert b[IDX_DATA..] == data + tail;
    BodyOfTail(data, tail, MAX_MSG_LEN);
    BodyOfTail(data, [NUL], MAX_MSG_LEN);
  }

  method TerminatedCrc(buf: array<bv8>, len: nat, ghost f: Bytes) returns (sum: bv16)
    requires IDX_DATA <= len < buf.Length && len <= MAX_MSG_LEN && buf[..len] == f && buf[len] == NUL
    ensures Num(sum) == DataCrc(f[IDX_DATA..] + [NUL])
  {
    sum := CrcCalc(buf, IDX_DATA);
    TerminatedBody(buf[..], f);
    assert buf[..][IDX_DATA..] == buf[IDX_DATA..];
  }

  /** cms_sia_ip_rx: terminates the datagram in place, then checks it. */
  method Rx(buf: array<bv8>, len: nat) returns (ok: bool)
    requires len < buf.Length
    modifies buf
    ensures ok == Accepts(old(buf[..len]))
    ensures buf[..len] == old(buf[..len])
  {
    ghost var f := buf[..len];
    if len < MIN_FRAME || buf[0] != LF || len > MAX_MSG_LEN {
      return false;
    }
    buf[len] := NUL;
    assert buf[..len] == f;
    assert buf[..len + 1] == f + [NUL];
    assert buf[IDX_CRC..len + 1] == f[IDX_CRC..] + [NUL];
    assert buf[IDX_LEN..len + 1] == f[IDX_LEN..] + [NUL];
    var crc := ScanHex(buf[IDX_CRC..len + 1]);
    if crc.None? {
      return false;
    }
    var msgLen := ScanHex(buf[IDX_LEN..len + 1]);
    if msgLen.None? || msgLen.value >= 0x1000 {
      return false;
    }
    var sum := TerminatedCrc(buf, len, f);
    if crc.value != Num(sum) {
      return false;
    }
    ok := len - IDX_DATA - 1 == msgLen.value;
  }
}
