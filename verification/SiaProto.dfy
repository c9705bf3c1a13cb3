/**
 Answers to SIA frames and the protocol object around the codec (app/cms/cms_sia_ip.c): the sscanf of
 an ACK or NAK, and the counter that ties an answer to the packet it answers.
 */
module SiaProto {
  import opened Machine
  import opened SiaCrc
  import opened SiaFrame

  const CNT_MAX: nat := 9999

  // ---- sscanf with "%u" and "%x", no field width ----

  predicate IsDigit(ch: bv8, base: nat) { match Value(ch) case Some(v) => v < base case None => false }

  function RunLength(s: Bytes, base: nat): (n: nat)
    ensures n <= |s|
  {
    if s == [] || !IsDigit(s[0], base) then 0 else 1 + RunLength(s[1..], base)
  }

  predicate AllDigits(s: Bytes, base: nat) { forall k :: 0 <= k < |s| ==> IsDigit(s[k], base) }

  function NumberOf(s: Bytes, base: nat): nat
    requires AllDigits(s, base)
  {
    if s == [] then 0
    else
      assert AllDigits(s[..|s| - 1], base) && IsDigit(s[|s| - 1], base);
      NumberOf(s[..|s| - 1], base) * base + Value(s[|s| - 1]).value
  }

  lemma {:induction false} RunIsDigits(s: Bytes, base: nat)
    ensures AllDigits(s[..RunLength(s, base)], base)
  {
    if s != [] && IsDigit(s[0], base) {
      RunIsDigits(s[1..], base);
      var n := RunLength(s[1..], base);
      assert s[..1 + n] == [s[0]] + s[1..][..n];
    }
  }

  /** What a conversion yields: the number, and the text behind it. */
  datatype Scan = Scan(value: U32, rest: Bytes)

  /** strtoul saturates. */
  function Clamp(v: nat): U32 { if v < 0x1_0000_0000 then v else 0xFFFF_FFFF }

  function Negated(v: U32): U32 { if v == 0 then 0 else 0x1_0000_0000 - v as int }

  function ScanDigitRun(s: Bytes, base: nat): Option<Scan>
  {
    RunIsDigits(s, base);
    var n := RunLength(s, base);
    if n == 0 then None else Some(Scan(Clamp(NumberOf(s[..n], base)), s[n..]))
  }

  function ScanPrefix(s: Bytes, base: nat): Option<Scan>
  {
    if base == 16 && |s| >= 2 && s[0] == ZERO && s[1] in {0x78, 0x58} then ScanDigitRun(s[2..], base)
    else ScanDigitRun(s, base)
  }

  /** White space, a sign, for "%x" an 0x prefix, and the digits. */
  function ScanNumber(s: Bytes, base: nat): Option<Scan>
  {
    var t := SkipSpace(s);
    if t != [] && t[0] == 0x2D then
      match ScanPrefix(t[1..], base)
      case Some(r) => Some(r.(value := Negated(r.value)))
      case None => None
    else if t != [] && t[0] == 0x2B then ScanPrefix(t[1..], base)
    else ScanPrefix(t, base)
  }

  lemma {:induction false} RunOfDigits(d: Bytes, rest: Bytes, base: nat)
    requires AllDigits(d, base) && (rest == [] || !IsDigit(rest[0], base))
    ensures RunLength(d + rest, base) == |d|
    decreases |d|
  {
    if d == [] {
      assert d + rest == rest;
    } else {
      assert (d + rest)[0] == d[0] && (d + rest)[1..] == d[1..] + rest;
      RunOfDigits(d[1..], rest, base);
    }
  }

  lemma DigitIsNoSpace(ch: bv8, base: nat)
    requires IsDigit(ch, base)
    ensures !IsSpace(ch) && ch != 0x2D && ch != 0x2B && ch != 0x78 && ch != 0x58
  {
  }

  /**
   Digits followed by something else scan to their number, or to the largest number when that does not fit, and
   stop there.
   */
  lemma {:induction false} ScanOfRun(d: Bytes, rest: Bytes, base: nat)
    requires d != [] && AllDigits(d, base)
    requires rest != [] && !IsDigit(rest[0], base) && rest[0] != 0x78 && rest[0] != 0x58
    ensures var n := NumberOf(d, base);
            && ScanPrefix(d + rest, base) == Some(Scan(if n < 0x1_0000_0000 then n else 0xFFFF_FFFF, rest))
            && ScanNumber(d + rest, base) == ScanPrefix(d + rest, base)
  {
    var s := d + rest;
    RunOfDigits(d, rest, base);
    assert s[..|d|] == d && s[|d|..] == rest;
    assert s[0] == d[0];
    DigitIsNoSpace(d[0], base);
    if |d| >= 2 {
      assert s[1] == d[1];
      DigitIsNoSpace(d[1], base);
    } else {
      assert s[1] == rest[0];
    }
  }

  /** A plus sign and white space in front change nothing; a minus sign gives the complement to 2^32. */
  lemma {:induction false} PlusIs(s: Bytes, base: nat)
    ensures ScanNumber([0x2B] + s, base) == ScanPrefix(s, base)
  {
    assert ([0x2B] + s)[1..] == s;
  }

  lemma {:induction false} MinusIs(s: Bytes, base: nat)
    ensures ScanNumber([0x2D] + s, base) ==
            match ScanPrefix(s, base)
            case None => None
            case Some(r) => Some(Scan(if r.value == 0 then 0 else 0x1_0000_0000 - r.value as int, r.rest))
  {
    assert ([0x2D] + s)[1..] == s;
  }

  lemma {:induction false} SpaceIs(s: Bytes, ch: bv8, base: nat)
    requires IsSpace(ch)
    ensures ScanNumber([ch] + s, base) == ScanNumber(s, base)
  {
    assert ([ch] + s)[1..] == s;
    assert SkipSpace([ch] + s) == SkipSpace(s);
  }

  // ---- the numbers the formats print ----

  lemma {:induction false} HexScans(n: nat)
    ensures AllDigits(Hex(n), 16) && NumberOf(Hex(n), 16) == n
  {
    if n < 16 {
      ValueOfDigit(n);
      assert Hex(n)[..0] == [];
    } else {
      HexScans(n / 16);
      ValueOfDigit(n % 16);
      var h := Hex(n);
      assert h[..|h| - 1] == Hex(n / 16);
    }
  }

  function TenTo(k: nat): nat { if k == 0 then 1 else 10 * TenTo(k - 1) }

  lemma {:induction false} DecimalScans(n: nat, width: nat)
    requires n < TenTo(width)
    ensures AllDigits(Decimal(n, width), 10) && NumberOf(Decimal(n, width), 10) == n
    decreases width
  {
    if width > 0 {
      DecimalScans(n / 10, width - 1);
      ValueOfDigit(n % 10);
      var t := Decimal(n, width);
      assert t[..|t| - 1] == Decimal(n / 10, width - 1);
    }
  }

  // ---- answers ----

  const LETTER_L: bv8 := 0x4C
  const HASH: bv8 := 0x23
  const OPEN: bv8 := 0x5B
  const CLOSE: bv8 := 0x5D

  /** "ACK" and "NAK" with their quotes. */
  const ACK_TAG: Bytes := [QUOTE, 0x41, 0x43, 0x4B, QUOTE]
  const NAK_TAG: Bytes := [QUOTE, 0x4E, 0x41, 0x4B, QUOTE]

  /** a & 0xFFFF */
  function Low16(v: U32): U16 { v % 0x1_0000 }

  lemma Low16OfSmall(v: U32)
    requires v < 0x1_0000
    ensures Low16(v) == v
  {
  }

  /** A conversion that has to be followed by a character of the format. */
  function ScanUpTo(s: Bytes, base: nat, ch: bv8): Option<Scan>
  {
    match ScanNumber(s, base)
    case Some(r) => if r.rest != [] && r.rest[0] == ch then Some(Scan(r.value, r.rest[1..])) else None
    case None => None
  }

  /** The sequence number of an ACK for this unit; what follows the account is not looked at. */
  function AckSeq(s: Bytes, prefix: U16, account: U32): Option<U16>
  {
    match ScanUpTo(s, 10, LETTER_L)
    case None => None
    case Some(a) =>
      match ScanUpTo(a.rest, 16, HASH)
      case None => None
      case Some(b) =>
        match ScanNumber(b.rest, 16)
        case None => None
        case Some(c) => if b.value == prefix && c.value == account then Some(Low16(a.value)) else None
  }

  function NakSeq(s: Bytes, prefix: U16): Option<U16>
  {
    match ScanUpTo(s, 10, LETTER_L)
    case None => None
    case Some(a) =>
      match ScanNumber(a.rest, 16)
      case None => None
      case Some(b) => if b.value == prefix then Some(Low16(a.value)) else None
  }

  datatype Answer = Silence | Ack(nr: U16) | Nak(nr: U16)

  /** cms_sia_ip_rx_ack on a datagram. */
  function Read(f: Bytes, prefix: U16, account: U32): Answer
  {
    if !Accepts(f) then Silence
    else
      var d := f[IDX_DATA..] + [NUL];
      if ACK_TAG <= d then
        match AckSeq(d[5..], prefix, account)
        case Some(nr) => Ack(nr)
        case None => Silence
      else if NAK_TAG <= d then
        match NakSeq(d[5..], prefix)
        case Some(nr) => Nak(nr)
        case None => Silence
      else Silence
  }

  /** <nr>L<prefix>#<account>[ */
  function AckNumbers(nr: nat, prefix: U16, account: U32, tail: Bytes): Bytes
    requires nr < 10000
  {
    Decimal(nr, 4) + ([LETTER_L] + (Hex(prefix) + ([HASH] + (Hex(account) + ([OPEN] + tail)))))
  }

  /** <nr>L<prefix>[ */
  function NakNumbers(nr: nat, prefix: U16, tail: Bytes): Bytes
    requires nr < 10000
  {
    Decimal(nr, 4) + ([LETTER_L] + (Hex(prefix) + ([OPEN] + tail)))
  }

  /** What a receiver of the standard answers: "ACK"<nr>L<prefix>#<account>[] */
  function AckData(nr: nat, prefix: U16, account: U32): Bytes
    requires nr < 10000
  {
    ACK_TAG + AckNumbers(nr, prefix, account, [CLOSE])
  }

  /** "NAK"<nr>L<prefix>[] */
  function NakData(nr: nat, prefix: U16): Bytes
    requires nr < 10000
  {
    NAK_TAG + NakNumbers(nr, prefix, [CLOSE])
  }

  lemma {:induction false} ScanUpToOf(d: Bytes, base: nat, ch: bv8, more: Bytes)
    requires d != [] && AllDigits(d, base) && NumberOf(d, base) < 0x1_0000_0000
    requires !IsDigit(ch, base) && ch != 0x78 && ch != 0x58
    ensures ScanUpTo(d + ([ch] + more), base, ch) == Some(Scan(NumberOf(d, base), more))
  {
    var rest := [ch] + more;
    ScanOfRun(d, rest, base);
    assert rest[1..] == more;
  }

  lemma AckSeqFrom(s: Bytes, p: U16, a: U32, x: Scan, y: Scan, z: Scan)
    requires ScanUpTo(s, 10, LETTER_L) == Some(x) && ScanUpTo(x.rest, 16, HASH) == Some(y)
    requires ScanNumber(y.rest, 16) == Some(z)
    ensures AckSeq(s, p, a) == if y.value == p && z.value == a then Some(Low16(x.value)) else None
  {
  }

  lemma NakSeqFrom(s: Bytes, p: U16, x: Scan, y: Scan)
    requires ScanUpTo(s, 10, LETTER_L) == Some(x) && ScanNumber(x.rest, 16) == Some(y)
    ensures NakSeq(s, p) == if y.value == p then Some(Low16(x.value)) else None
  {
  }

  lemma {:induction false} HexUpTo(n: U32, ch: bv8, more: Bytes)
    requires ch == HASH || ch == OPEN
    ensures ScanUpTo(Hex(n) + ([ch] + more), 16, ch) == Some(Scan(n, more))
    ensures ScanNumber(Hex(n) + ([ch] + more), 16) == Some(Scan(n, [ch] + more))
  {
    HexScans(n);
    ScanUpToOf(Hex(n), 16, ch, more);
    ScanOfRun(Hex(n), [ch] + more, 16);
  }

  lemma {:induction false} SeqUpTo(nr: nat, more: Bytes)
    requires nr < 10000
    ensures ScanUpTo(Decimal(nr, 4) + ([LETTER_L] + more), 10, LETTER_L) == Some(Scan(nr, more))
  {
    assert TenTo(4) == 10000;
    DecimalScans(nr, 4);
    ScanUpToOf(Decimal(nr, 4), 10, LETTER_L, more);
  }

  lemma {:induction false} AckSeqOf(s: Bytes, nr: nat, prefix: U16, account: U32, p: U16, a: U32, tail: Bytes)
    requires nr < 10000 && s == AckNumbers(nr, prefix, account, tail)
    ensures AckSeq(s, p, a) == if prefix == p && account == a then Some(Low16(nr)) else None
  {
    var r2 := Hex(account) + ([OPEN] + tail);
    var r1 := Hex(prefix) + ([HASH] + r2);
    SeqUpTo(nr, r1);
    HexUpTo(prefix, HASH, r2);
    HexUpTo(account, OPEN, tail);
    AckSeqFrom(s, p, a, Scan(nr, r1), Scan(prefix, r2), Scan(account, [OPEN] + tail));
  }

  lemma {:induction false} NakSeqOf(s: Bytes, nr: nat, prefix: U16, p: U16, tail: Bytes)
    requires nr < 10000 && s == NakNumbers(nr, prefix, tail)
    ensures NakSeq(s, p) == if prefix == p then Some(Low16(nr)) else None
  {
    var r1 := Hex(prefix) + ([OPEN] + tail);
    SeqUpTo(nr, r1);
    HexUpTo(prefix, OPEN, tail);
    NakSeqFrom(s, p, Scan(nr, r1), Scan(prefix, [OPEN] + tail));
  }

  lemma {:induction false} FrameAround(data: Bytes, tag: Bytes, body: Bytes)
    requires Fits(data) && |data| >= 10 && data == tag + body
    ensures var f := Frame(data); var d := f[IDX_DATA..] + [NUL];
            Accepts(f) && tag <= d && d[|tag|..] == body + [CR, NUL]
  {
    RoundTrip(data);
    DataPart(data);
    var d := Frame(data)[IDX_DATA..] + [NUL];
    assert d == tag + (body + [CR, NUL]);
  }

  lemma {:induction false} DataPart(data: Bytes)
    requires Fits(data)
    ensures Frame(data)[IDX_DATA..] == data + [CR]
  {
    var head := [LF] + Hex4(DataCrc(data)) + Len4(|data|);
    assert |head| == IDX_DATA && Frame(data) == head + (data + [CR]);
  }

  lemma {:induction false} DataInside(data: Bytes)
    requires Fits(data)
    ensures Frame(data)[IDX_DATA..|Frame(data)| - 1] == data
  {
    var f := Frame(data);
    DataPart(data);
    assert f[IDX_DATA..|f| - 1] == f[IDX_DATA..][..|data|];
    assert (data + [CR])[..|data|] == data;
  }

  lemma Regroup(a: Bytes, b: Bytes, more: Bytes)
    ensures (a + b) + more == a + (b + more)
  {
  }

  lemma {:induction false} AckTail(nr: nat, prefix: U16, account: U32)
    requires nr < 10000
    ensures AckNumbers(nr, prefix, account, [CLOSE]) + [CR, NUL] == AckNumbers(nr, prefix, account, [CLOSE, CR, NUL])
  {
    var more: Bytes := [CR, NUL];
    var t4: Bytes := [OPEN] + [CLOSE];
    var t3 := Hex(account) + t4;
    var t2 := [HASH] + t3;
    var t1 := Hex(prefix) + t2;
    assert t4 + more == [OPEN] + [CLOSE, CR, NUL];
    Regroup(Hex(account), t4, more);
    Regroup([HASH], t3, more);
    Regroup(Hex(prefix), t2, more);
    Regroup([LETTER_L], t1, more);
    Regroup(Decimal(nr, 4), [LETTER_L] + t1, more);
  }

  lemma {:induction false} AckRead(nr: nat, prefix: U16, account: U32, p: U16, a: U32)
    requires nr < 10000 && Fits(AckData(nr, prefix, account))
    ensures Read(Frame(AckData(nr, prefix, account)), p, a) == if prefix == p && account == a then Ack(nr) else Silence
  {
    var data, body := AckData(nr, prefix, account), AckNumbers(nr, prefix, account, [CLOSE]);
    FrameAround(data, ACK_TAG, body);
    AckTail(nr, prefix, account);
    AckSeqOf(body + [CR, NUL], nr, prefix, account, p, a, [CLOSE, CR, NUL]);
    Low16OfSmall(nr);
    ReadAck(Frame(data), p, a);
  }

  lemma ReadAck(f: Bytes, p: U16, a: U32)
    requires Accepts(f) && ACK_TAG <= f[IDX_DATA..] + [NUL]
    ensures Read(f, p, a) ==
            match AckSeq((f[IDX_DATA..] + [NUL])[5..], p, a) case Some(nr) => Ack(nr) case None => Silence
  {
  }

  lemma {:induction false} NakRead(nr: nat, prefix: U16, p: U16, a: U32)
    requires nr < 10000 && Fits(NakData(nr, prefix))
    ensures Read(Frame(NakData(nr, prefix)), p, a) == if prefix == p then Nak(nr) else Silence
  {
    var data, body := NakData(nr, prefix), NakNumbers(nr, prefix, [CLOSE]);
    FrameAround(data, NAK_TAG, body);
    assert body + [CR, NUL] == NakNumbers(nr, prefix, [CLOSE, CR, NUL]);
    NakSeqOf(body + [CR, NUL], nr, prefix, p, [CLOSE, CR, NUL]);
    Low16OfSmall(nr);
    TagsDiffer(Frame(data)[IDX_DATA..] + [NUL]);
    ReadNak(Frame(data), p, a);
  }

  lemma TagsDiffer(d: Bytes)
    requires NAK_TAG <= d
    ensures !(ACK_TAG <= d)
  {
    assert d[1] == NAK_TAG[1] != ACK_TAG[1];
  }

  lemma ReadNak(f: Bytes, p: U16, a: U32)
    requires Accepts(f) && !(ACK_TAG <= f[IDX_DATA..] + [NUL]) && NAK_TAG <= f[IDX_DATA..] + [NUL]
    ensures Read(f, p, a) ==
            match NakSeq((f[IDX_DATA..] + [NUL])[5..], p) case Some(nr) => Nak(nr) case None => Silence
  {
  }

  function SixteenTo(k: nat): nat { if k == 0 then 1 else 16 * SixteenTo(k - 1) }

  lemma {:induction false} HexLength(n: nat, k: nat)
    requires 0 < k && n < SixteenTo(k)
    ensures |Hex(n)| <= k
    decreases k
  {
    if n >= 16 {
      assert k > 1;
      HexLength(n / 16, k - 1);
    }
  }

  /** Every answer fits a frame. */
  lemma {:induction false} AnswersFit(nr: nat, prefix: U16, account: U32)
    requires nr < 10000
    ensures Fits(AckData(nr, prefix, account)) && Fits(NakData(nr, prefix))
  {
    assert SixteenTo(4) == 0x1_0000 && SixteenTo(8) == 0x1_0000_0000;
    HexLength(prefix, 4);
    HexLength(account, 8);
  }

  // ---- what a receiver reads in a frame ----

  /** The numbers of a data region, and what stands behind its opening bracket. */
  datatype Message = Message(cnt: U32, prefix: U32, account: U32, rest: Bytes)

  /** "SIA-DCS"<cnt>L<prefix>#<account>[<rest> */
  function ReadMessage(d: Bytes): Option<Message>
  {
    if |d| < 9 || d[..9] != [0x22, 0x53, 0x49, 0x41, 0x2D, 0x44, 0x43, 0x53, 0x22] then None
    else
      match ScanUpTo(d[9..], 10, 0x4C)
      case None => None
      case Some(a) =>
        match ScanUpTo(a.rest, 16, 0x23)
        case None => None
        case Some(b) =>
          match ScanUpTo(b.rest, 16, 0x5B)
          case None => None
          case Some(c) => Some(Message(a.value, b.value, c.value, c.rest))
  }

  /** |Nri01/<code><zone>^<source>^]<texts>, where the digit z is the zone. */
  predicate Tells(rest: Bytes, r: Report, code: Bytes, z: bv8)
  {
    && Value(z) == Some(r.zone)
    && rest == [0x7C, 0x4E, 0x72, 0x69, 0x30, 0x31, 0x2F]
               + (code + [z] + ([0x5E] + (r.source + ([0x5E] + ([0x5D] + r.name + r.extra + r.time + r.stamp)))))
  }

  /** Every region reads back: its numbers in their places, and behind the bracket the event and the texts. */
  lemma {:induction false} RegionReads(r: Report, prefix: U16, account: U32, code: Bytes)
    requires Sendable(r) && r.prefix == prefix && r.account == account && r.code == Some(code)
    ensures ReadMessage(Region(r).value) == Some(Message(r.cnt, prefix, account, EventPart(r, code)))
    ensures Tells(EventPart(r, code), r, code, Digit(r.zone))
  {
    var tail := EventPart(r, code);
    var r2 := Hex(account) + ([OPEN] + tail);
    var r1 := Hex(prefix) + ([HASH] + r2);
    var numbers := Decimal(r.cnt, 4) + ([LETTER_L] + r1);
    var d := OPENING + numbers;
    assert d[..9] == OPENING && d[9..] == numbers;
    SeqUpTo(r.cnt, r1);
    HexUpTo(prefix, HASH, r2);
    HexUpTo(account, OPEN, tail);
    ValueOfDigit(r.zone);
  }

  /** The text in front of the first of these characters, the whole text without one. */
  function InFront(s: Bytes, ch: bv8): Bytes
  {
    if s == [] || s[0] == ch then [] else [s[0]] + InFront(s[1..], ch)
  }

  /** A text is read back up to the character behind it exactly when it does not contain that itself. */
  lemma {:induction false} InFrontExact(text: Bytes, ch: bv8, more: Bytes)
    ensures InFront(text + ([ch] + more), ch) == text <==> ch !in text
    ensures |InFront(text + ([ch] + more), ch)| <= |text|
  {
    var s := text + ([ch] + more);
    if text == [] {
      assert s == [ch] + more;
    } else {
      assert s[0] == text[0] && s[1..] == text[1..] + ([ch] + more);
      InFrontExact(text[1..], ch, more);
      assert text == [text[0]] + text[1..];
    }
  }

  lemma Behind(a: Bytes, b: Bytes)
    ensures (a + b)[|a|..] == b
  {
  }

  lemma DigitIsNoCaret(n: nat)
    requires n < 16
    ensures Digit(n) != 0x5E
  {
  }

  /** The two fields of the event: each is read back up to its '^' exactly when it contains none. */
  lemma {:induction false} FieldsReadExact(r: Report, code: Bytes)
    requires Sendable(r)
    ensures var fields := EventPart(r, code)[7..];
            && (InFront(fields, 0x5E) == code + [Digit(r.zone)] <==> 0x5E !in code)
            && |code| + 2 <= |fields|
            && (InFront(fields[|code| + 2..], 0x5E) == r.source <==> 0x5E !in r.source)
  {
    var first := code + [Digit(r.zone)];
    var texts := [0x5D] + r.name + r.extra + r.time + r.stamp;
    var rest := r.source + ([0x5E] + texts);
    var fields := first + ([0x5E] + rest);
    Behind(EVENT_MARK, fields);
    Behind(first + [0x5E], rest);
    assert fields == first + [0x5E] + rest;
    DigitIsNoCaret(r.zone);
    InFrontExact(first, 0x5E, rest);
    InFrontExact(r.source, 0x5E, texts);
  }

  // ---- the protocol object ----

  /** _sia and the packet buffer: counter, line prefix, account, and the packet that waits for its answer. */
  datatype Proto = Proto(cnt: U16, prefix: U16, account: U32, packet: Option<Bytes>)

  datatype Verdict = NoReply | AckReply | NakReply

  function NextCnt(c: U16): U16 { if c + 1 > CNT_MAX then 1 else c + 1 }

  /** The report of an event under the counter of the object. */
  function Reported(p: Proto, r: Report): Report { r.(cnt := p.cnt, prefix := p.prefix, account := p.account) }

  /** _sia_proto_new_event; the counter moves on even for an event that cannot be reported. */
  function NewEvent(p: Proto, r: Report): (Proto, bool)
    requires p.cnt <= CNT_MAX && r.zone < 16
    requires var d := Region(Reported(p.(cnt := NextCnt(p.cnt)), r)); d.Some? ==> Fits(d.value)
  {
    if p.packet.Some? then (p, false)
    else
      var q := p.(cnt := NextCnt(p.cnt));
      match Region(Reported(q, r))
      case None => (q, false)
      case Some(data) => (q.(packet := Some(Frame(data))), true)
  }

  /** _sia_proto_packet_reply */
  function Reply(p: Proto, f: Bytes): Verdict
  {
    match Read(f, p.prefix, p.account)
    case Silence => NoReply
    case Ack(nr) => if nr == p.cnt then AckReply else NoReply
    case Nak(nr) => if nr == p.cnt then NakReply else NoReply
  }

  /** The right answers are taken for what they are, and for the packet they answer only. */
  lemma {:induction false} ReplyExact(p: Proto, nr: nat, prefix: U16, account: U32)
    requires nr < 10000
    ensures Fits(AckData(nr, prefix, account)) && Fits(NakData(nr, prefix))
    ensures Reply(p, Frame(AckData(nr, prefix, account))) ==
            if nr == p.cnt && prefix == p.prefix && account == p.account then AckReply else NoReply
    ensures Reply(p, Frame(NakData(nr, prefix))) == if nr == p.cnt && prefix == p.prefix then NakReply else NoReply
  {
    AnswersFit(nr, prefix, account);
    AckRead(nr, prefix, account, p.prefix, p.account);
    NakRead(nr, prefix, p.prefix, p.account);
  }

  /**
   A new event: without a packet pending and with a code it gives a frame that is accepted and whose region carries
   the next counter value, the line prefix and the account of the object, and the event.
   */
  lemma {:induction false} NewEventReads(p: Proto, r: Report, code: Bytes)
    requires p.cnt <= CNT_MAX && r.zone < 16 && p.packet == None && r.code == Some(code)
    requires Fits(Region(Reported(p.(cnt := NextCnt(p.cnt)), r)).value)
    ensures var (q, ok) := NewEvent(p, r);
            && ok && q.packet.Some? && q.cnt == (if p.cnt == 9999 then 1 else p.cnt + 1)
            && q.prefix == p.prefix && q.account == p.account
            && var f := q.packet.value;
            && Accepts(f) && f[0] == 0x0A && f[|f| - 1] == 0x0D
            && var rest := EventPart(Reported(q, r), code);
            && ReadMessage(f[IDX_DATA..|f| - 1]) == Some(Message(q.cnt, p.prefix, p.account, rest))
            && Tells(rest, r, code, Digit(r.zone))
  {
    var q := p.(cnt := NextCnt(p.cnt));
    var data := Region(Reported(q, r)).value;
    RegionReads(Reported(q, r), p.prefix, p.account, code);
    RoundTrip(data);
    DataInside(data);
  }

  /** A receiver that echoes the numbers it read in the frame is understood, and so is one that refuses it. */
  lemma {:induction false} EchoIsTaken(p: Proto, r: Report, code: Bytes)
    requires p.cnt <= CNT_MAX && r.zone < 16 && p.packet == None && r.code == Some(code)
    requires Fits(Region(Reported(p.(cnt := NextCnt(p.cnt)), r)).value)
    ensures var q := NewEvent(p, r).0;
            && q.packet.Some?
            && var m := ReadMessage(q.packet.value[IDX_DATA..|q.packet.value| - 1]);
            && m.Some? && m.value.cnt < 10000 && m.value.prefix < 0x1_0000
            && Fits(AckData(m.value.cnt, m.value.prefix, m.value.account)) && Fits(NakData(m.value.cnt, m.value.prefix))
            && Reply(q, Frame(AckData(m.value.cnt, m.value.prefix, m.value.account))) == AckReply
            && Reply(q, Frame(NakData(m.value.cnt, m.value.prefix))) == NakReply
  {
    NewEventReads(p, r, code);
    var q := NewEvent(p, r).0;
    ReplyExact(q, q.cnt, p.prefix, p.account);
  }

  /** The counter after k more events. */
  function CntAfter(c: U16, k: nat): U16
    decreases k, c
  {
    if k == 0 then c else NextCnt(CntAfter(c, k - 1))
  }

  lemma {:induction false} CntAfterIs(c: U16, k: nat)
    requires 1 <= c <= CNT_MAX
    ensures 1 <= CntAfter(c, k) <= CNT_MAX && (CntAfter(c, k) - c - k) % CNT_MAX == 0
    decreases k
  {
    if k > 0 {
      CntAfterIs(c, k - 1);
    }
  }

  /** k events bring the counter all the way round. */
  predicate IsRound(k: nat) { k % CNT_MAX == 0 }

  lemma {:induction false} CntComesBack(c: U16, k: nat)
    requires 1 <= c <= CNT_MAX
    ensures CntAfter(c, k) == c <==> IsRound(k)
  {
    CntAfterIs(c, k);
    SameCnt(c, CntAfter(c, k), k);
  }

  /**
   A late answer: one that was right for the packet of some event is taken again only for the packet
   9999 events later, or a multiple of that.
   */
  lemma {:induction false} LateAnswerExact(p: Proto, f: Bytes, k: nat, packet: Option<Bytes>)
    requires 1 <= p.cnt <= CNT_MAX
    ensures var q := p.(cnt := CntAfter(p.cnt, k), packet := packet);
            Reply(p, f) != NoReply ==> Reply(q, f) == if IsRound(k) then Reply(p, f) else NoReply
  {
    CntComesBack(p.cnt, k);
    ReplyFollowsCnt(p, CntAfter(p.cnt, k), packet, f);
  }

  lemma ReplyFollowsCnt(p: Proto, cnt: U16, packet: Option<Bytes>, f: Bytes)
    ensures Reply(p, f) != NoReply ==>
              Reply(p.(cnt := cnt, packet := packet), f) == if cnt == p.cnt then Reply(p, f) else NoReply
  {
  }

  lemma SameCnt(c: int, d: int, k: nat)
    requires 1 <= c <= CNT_MAX && 1 <= d <= CNT_MAX && (d - c - k) % CNT_MAX == 0
    ensures c == d <==> k % CNT_MAX == 0
  {
    var q := (d - c - k) / CNT_MAX;
    assert d - c == k + q * CNT_MAX;
    if c == d {
      assert k == (-q) * CNT_MAX;
    }
    if k % CNT_MAX == 0 {
      var m := k / CNT_MAX;
      assert d - c == (m + q) * CNT_MAX;
    }
  }

  // ---- the program ----

  /** cms_sia_ip_rx_ack */
  method RxAck(buf: array<bv8>, len: nat, prefix: U16, account: U32) returns (a: Answer)
    requires len < buf.Length
    modifies buf
    ensures a == Read(old(buf[..len]), prefix, account) && buf[..len] == old(buf[..len])
  {
    var ok := Rx(buf, len);
    if !ok {
      return Silence;
    }
    var d := buf[IDX_DATA..len] + [NUL];
    assert d == buf[..len][IDX_DATA..] + [NUL];
    if ACK_TAG <= d {
      var nr := AckSeq(d[5..], prefix, account);
      return if nr.Some? then Ack(nr.value) else Silence;
    }
    if NAK_TAG <= d {
      var nr := NakSeq(d[5..], prefix);
      return if nr.Some? then Nak(nr.value) else Silence;
    }
    a := Silence;
  }

  class SiaUnit {
    var cnt: U16
    var prefix: U16
    var account: U32
    var packetOk: bool
    var len: nat
    const packet: array<bv8>

    ghost predicate Valid()
      reads this
    {
      packet.Length == MAX_MSG_LEN + IDX_DATA && len <= packet.Length && cnt <= CNT_MAX
    }

    ghost function View(): Proto
      requires Valid()
      reads this, packet
    {
      Proto(cnt, prefix, account, if packetOk then Some(packet[..len]) else None)
    }

    constructor ()
      ensures Valid() && View() == Proto(0, 0, 0, None) && fresh(packet)
    {
      packet := new bv8[MAX_MSG_LEN + IDX_DATA](_ => 0);
      cnt, prefix, account, packetOk, len := 0, 0, 0, false, 0;
    }

    /** _sia_proto_reinit */
    method Reinit(account: U32)
      requires Valid()
      modifies this
      ensures Valid() && View() == Proto(0, 0, account, None)
    {
      cnt, prefix, this.account := 0, 0, account;
      packetOk := false;
    }

    /** _sia_proto_new_event */
    method NewPacket(r: Report) returns (ok: bool)
      requires Valid() && r.zone < 16
      requires var d := Region(Reported(View().(cnt := NextCnt(cnt)), r)); d.Some? ==> Fits(d.value)
      modifies this, packet
      ensures Valid() && (View(), ok) == NewEvent(old(View()), r)
    {
      if packetOk {
        return false;
      }
      cnt := if cnt + 1 > CNT_MAX then 1 else cnt + 1;
      len := BuildMsg(packet, r.(cnt := cnt, prefix := prefix, account := account));
      if len == 0 {
        return false;
      }
      packetOk := true;
      ok := true;
    }

    /** _sia_proto_packet_reply on a received datagram. */
    method PacketReply(buf: array<bv8>, n: nat) returns (v: Verdict)
      requires Valid() && n < buf.Length && buf != packet
      modifies buf
      ensures Valid() && v == Reply(old(View()), old(buf[..n]))
    {
      var a := RxAck(buf, n, prefix, account);
      match a
      case Silence => v := NoReply;
      case Ack(nr) => v := if nr == cnt then AckReply else NoReply;
      case Nak(nr) => v := if nr == cnt then NakReply else NoReply;
    }

    /** _sia_proto_packet_done */
    method PacketDone()
      requires Valid()
      modifies this`packetOk
      ensures Valid() && View() == old(View()).(packet := None)
    {
      packetOk := false;
    }
  }
}
