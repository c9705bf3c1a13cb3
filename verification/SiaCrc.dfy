/**
 The CRC of the SIA frames (app/cms/cms_sia_ip.c): the table loop is the bit-by-bit reflected
 CRC-16 with polynomial 0xA001, and no error inside two neighbouring bytes escapes it.
 */
module SiaCrc {
  const MAX_MSG_LEN: nat := 240

  // ---- one bit, one byte ----

  function Bit(c: bv16): bv16 { if c & 1 != 0 then (c >> 1) ^ 0xA001 else c >> 1 }

  function Eight(c: bv16): bv16 { Bit(Bit(Bit(Bit(Bit(Bit(Bit(Bit(c)))))))) }

  function Pick(b: bv8, t0: bv16, t1: bv16, t2: bv16, t3: bv16, t4: bv16, t5: bv16, t6: bv16, t7: bv16): bv16
  {
    if b & 4 == 0 then
      if b & 2 == 0 then (if b & 1 == 0 then t0 else t1) else (if b & 1 == 0 then t2 else t3)
    else
      if b & 2 == 0 then (if b & 1 == 0 then t4 else t5) else (if b & 1 == 0 then t6 else t7)
  }

  /** SIA_IP_CRC_TABLE, row by row. */
  function Table(b: bv8): bv16
  {
    if b < 0x08 then Pick(b, 0x0000, 0xc0c1, 0xc181, 0x0140, 0xc301, 0x03c0, 0x0280, 0xc241)
    else if b < 0x10 then Pick(b, 0xc601, 0x06c0, 0x0780, 0xc741, 0x0500, 0xc5c1, 0xc481, 0x0440)
    else if b < 0x18 then Pick(b, 0xcc01, 0x0cc0, 0x0d80, 0xcd41, 0x0f00, 0xcfc1, 0xce81, 0x0e40)
    else if b < 0x20 then Pick(b, 0x0a00, 0xcac1, 0xcb81, 0x0b40, 0xc901, 0x09c0, 0x0880, 0xc841)
    else if b < 0x28 then Pick(b, 0xd801, 0x18c0, 0x1980, 0xd941, 0x1b00, 0xdbc1, 0xda81, 0x1a40)
    else if b < 0x30 then Pick(b, 0x1e00, 0xdec1, 0xdf81, 0x1f40, 0xdd01, 0x1dc0, 0x1c80, 0xdc41)
    else if b < 0x38 then Pick(b, 0x1400, 0xd4c1, 0xd581, 0x1540, 0xd701, 0x17c0, 0x1680, 0xd641)
    else if b < 0x40 then Pick(b, 0xd201, 0x12c0, 0x1380, 0xd341, 0x1100, 0xd1c1, 0xd081, 0x1040)
    else if b < 0x48 then Pick(b, 0xf001, 0x30c0, 0x3180, 0xf141, 0x3300, 0xf3c1, 0xf281, 0x3240)
    else if b < 0x50 then Pick(b, 0x3600, 0xf6c1, 0xf781, 0x3740, 0xf501, 0x35c0, 0x3480, 0xf441)
    else if b < 0x58 then Pick(b, 0x3c00, 0xfcc1, 0xfd81, 0x3d40, 0xff01, 0x3fc0, 0x3e80, 0xfe41)
    else if b < 0x60 then Pick(b, 0xfa01, 0x3ac0, 0x3b80, 0xfb41, 0x3900, 0xf9c1, 0xf881, 0x3840)
    else if b < 0x68 then Pick(b, 0x2800, 0xe8c1, 0xe981, 0x2940, 0xeb01, 0x2bc0, 0x2a80, 0xea41)
    else if b < 0x70 then Pick(b, 0xee01, 0x2ec0, 0x2f80, 0xef41, 0x2d00, 0xedc1, 0xec81, 0x2c40)
    else if b < 0x78 then Pick(b, 0xe401, 0x24c0, 0x2580, 0xe541, 0x2700, 0xe7c1, 0xe681, 0x2640)
    else if b < 0x80 then Pick(b, 0x2200, 0xe2c1, 0xe381, 0x2340, 0xe101, 0x21c0, 0x2080, 0xe041)
    else if b < 0x88 then Pick(b, 0xa001, 0x60c0, 0x6180, 0xa141, 0x6300, 0xa3c1, 0xa281, 0x6240)
    else if b < 0x90 then Pick(b, 0x6600, 0xa6c1, 0xa781, 0x6740, 0xa501, 0x65c0, 0x6480, 0xa441)
    else if b < 0x98 then Pick(b, 0x6c00, 0xacc1, 0xad81, 0x6d40, 0xaf01, 0x6fc0, 0x6e80, 0xae41)
    else if b < 0xA0 then Pick(b, 0xaa01, 0x6ac0, 0x6b80, 0xab41, 0x6900, 0xa9c1, 0xa881, 0x6840)
    else if b < 0xA8 then Pick(b, 0x7800, 0xb8c1, 0xb981, 0x7940, 0xbb01, 0x7bc0, 0x7a80, 0xba41)
    else if b < 0xB0 then Pick(b, 0xbe01, 0x7ec0, 0x7f80, 0xbf41, 0x7d00, 0xbdc1, 0xbc81, 0x7c40)
    else if b < 0xB8 then Pick(b, 0xb401, 0x74c0, 0x7580, 0xb541, 0x7700, 0xb7c1, 0xb681, 0x7640)
    else if b < 0xC0 then Pick(b, 0x7200, 0xb2c1, 0xb381, 0x7340, 0xb101, 0x71c0, 0x7080, 0xb041)
    else if b < 0xC8 then Pick(b, 0x5000, 0x90c1, 0x9181, 0x5140, 0x9301, 0x53c0, 0x5280, 0x9241)
    else if b < 0xD0 then Pick(b, 0x9601, 0x56c0, 0x5780, 0x9741, 0x5500, 0x95c1, 0x9481, 0x5440)
    else if b < 0xD8 then Pick(b, 0x9c01, 0x5cc0, 0x5d80, 0x9d41, 0x5f00, 0x9fc1, 0x9e81, 0x5e40)
    else if b < 0xE0 then Pick(b, 0x5a00, 0x9ac1, 0x9b81, 0x5b40, 0x9901, 0x59c0, 0x5880, 0x9841)
    else if b < 0xE8 then Pick(b, 0x8801, 0x48c0, 0x4980, 0x8941, 0x4b00, 0x8bc1, 0x8a81, 0x4a40)
    else if b < 0xF0 then Pick(b, 0x4e00, 0x8ec1, 0x8f81, 0x4f40, 0x8d01, 0x4dc0, 0x4c80, 0x8c41)
    else if b < 0xF8 then Pick(b, 0x4400, 0x84c1, 0x8581, 0x4540, 0x8701, 0x47c0, 0x4680, 0x8641)
    else Pick(b, 0x8201, 0x42c0, 0x4380, 0x8341, 0x4100, 0x81c1, 0x8081, 0x4040)
  }

  // ---- the two forms of the byte step ----

  function Xor(x: bv16, y: bv16): bv16 { x ^ y }

  function Wide(ch: bv8): bv16 { ch as bv16 }

  function Low(c: bv16): bv8 { (c & 0xFF) as bv8 }

  /** The register after n more bits. */
  function Shift(c: bv16, n: nat): bv16
    decreases n, c
  {
    if n == 0 then c else Bit(Shift(c, n - 1))
  }

  /** The bit-by-bit step for one byte. */
  function StepBits(c: bv16, ch: bv8): bv16 { Shift(Xor(c, Wide(ch)), 8) }

  /** The step the code makes. */
  function StepTable(c: bv16, ch: bv8): bv16 { Xor(c >> 8, Table(ch ^ Low(c))) }

  lemma {:induction false} Table0(b: bv8) requires 0x00 <= b < 0x20 ensures Table(b) == Eight(Wide(b)) {}
  lemma {:induction false} Table1(b: bv8) requires 0x20 <= b < 0x40 ensures Table(b) == Eight(Wide(b)) {}
  lemma {:induction false} Table2(b: bv8) requires 0x40 <= b < 0x60 ensures Table(b) == Eight(Wide(b)) {}
  lemma {:induction false} Table3(b: bv8) requires 0x60 <= b < 0x80 ensures Table(b) == Eight(Wide(b)) {}
  lemma {:induction false} Table4(b: bv8) requires 0x80 <= b < 0xA0 ensures Table(b) == Eight(Wide(b)) {}
  lemma {:induction false} Table5(b: bv8) requires 0xA0 <= b < 0xC0 ensures Table(b) == Eight(Wide(b)) {}
  lemma {:induction false} Table6(b: bv8) requires 0xC0 <= b < 0xE0 ensures Table(b) == Eight(Wide(b)) {}
  lemma {:induction false} Table7(b: bv8) requires 0xE0 <= b ensures Table(b) == Eight(Wide(b)) {}

  lemma TableIsEight(b: bv8)
    ensures Table(b) == Eight(Wide(b))
  {
    if b < 0x20 { Table0(b); }
    else if b < 0x40 { Table1(b); }
    else if b < 0x60 { Table2(b); }
    else if b < 0x80 { Table3(b); }
    else if b < 0xA0 { Table4(b); }
    else if b < 0xC0 { Table5(b); }
    else if b < 0xE0 { Table6(b); }
    else { Table7(b); }
  }

  lemma EightIsShift(c: bv16)
    ensures Shift(c, 8) == Eight(c)
  {
    assert Shift(c, 1) == Bit(c);
    assert Shift(c, 2) == Bit(Shift(c, 1));
    assert Shift(c, 3) == Bit(Shift(c, 2));
    assert Shift(c, 4) == Bit(Shift(c, 3));
    assert Shift(c, 5) == Bit(Shift(c, 4));
    assert Shift(c, 6) == Bit(Shift(c, 5));
    assert Shift(c, 7) == Bit(Shift(c, 6));
  }

  lemma XorEvenEven(x: bv16, y: bv16)
    requires x & 1 == 0 && y & 1 == 0
    ensures Bit(Xor(x, y)) == Xor(Bit(x), Bit(y))
  {
  }

  lemma XorOddEven(x: bv16, y: bv16)
    requires x & 1 != 0 && y & 1 == 0
    ensures Bit(Xor(x, y)) == Xor(Bit(x), Bit(y))
  {
  }

  lemma XorEvenOdd(x: bv16, y: bv16)
    requires x & 1 == 0 && y & 1 != 0
    ensures Bit(Xor(x, y)) == Xor(Bit(x), Bit(y))
  {
  }

  lemma XorOddOdd(x: bv16, y: bv16)
    requires x & 1 != 0 && y & 1 != 0
    ensures Bit(Xor(x, y)) == Xor(Bit(x), Bit(y))
  {
  }

  lemma BitXor(x: bv16, y: bv16)
    ensures Bit(Xor(x, y)) == Xor(Bit(x), Bit(y))
  {
    if x & 1 == 0 {
      if y & 1 == 0 { XorEvenEven(x, y); } else { XorEvenOdd(x, y); }
    } else {
      if y & 1 == 0 { XorOddEven(x, y); } else { XorOddOdd(x, y); }
    }
  }

  /** The register is linear over GF(2). */
  lemma {:induction false} ShiftXor(x: bv16, y: bv16, n: nat)
    ensures Shift(Xor(x, y), n) == Xor(Shift(x, n), Shift(y, n))
    decreases n
  {
    if n > 0 {
      ShiftXor(x, y, n - 1);
      BitXor(Shift(x, n - 1), Shift(y, n - 1));
    }
  }

  lemma BitInjective(c: bv16, d: bv16)
    requires Bit(c) == Bit(d)
    ensures c == d
  {
  }

  /** No two register values ever meet. */
  lemma {:induction false} ShiftInjective(c: bv16, d: bv16, n: nat)
    requires Shift(c, n) == Shift(d, n)
    ensures c == d
    decreases n
  {
    if n > 0 {
      BitInjective(Shift(c, n - 1), Shift(d, n - 1));
      ShiftInjective(c, d, n - 1);
    }
  }

  lemma FourOfHigh(x: bv16)
    requires x & 0xF == 0
    ensures Bit(Bit(Bit(Bit(x)))) == x >> 4
  {
  }

  lemma EightOfHigh(x: bv16)
    requires x & 0xFF == 0
    ensures Eight(x) == x >> 8
  {
    FourOfHigh(x);
    FourOfHigh(x >> 4);
  }

  lemma ShiftOfHigh(x: bv16)
    requires x & 0xFF == 0
    ensures Shift(x, 8) == x >> 8
  {
    EightIsShift(x);
    EightOfHigh(x);
  }

  lemma ShiftOfLow(b: bv8)
    ensures Shift(Wide(b), 8) == Table(b)
  {
    EightIsShift(Wide(b));
    TableIsEight(b);
  }

  lemma Halves(c: bv16)
    ensures c == Xor(c & 0xFF00, Wide(Low(c)))
  {
  }

  lemma XorLow(h: bv16, l: bv8, ch: bv8)
    ensures Xor(Xor(h, Wide(l)), Wide(ch)) == Xor(h, Wide(ch ^ l))
  {
  }

  lemma SplitState(c: bv16, ch: bv8)
    ensures Xor(c, Wide(ch)) == Xor(c & 0xFF00, Wide(ch ^ Low(c)))
  {
    Halves(c);
    XorLow(c & 0xFF00, Low(c), ch);
  }

  lemma HighByte(c: bv16)
    ensures (c & 0xFF00) & 0xFF == 0 && (c & 0xFF00) >> 8 == c >> 8
  {
  }

  lemma ShiftOfHighByte(c: bv16)
    ensures Shift(c & 0xFF00, 8) == c >> 8
  {
    HighByte(c);
    ShiftOfHigh(c & 0xFF00);
  }

  /** The table step is the bit-by-bit step. */
  lemma StepsAgree(c: bv16, ch: bv8)
    ensures StepTable(c, ch) == StepBits(c, ch)
  {
    SplitState(c, ch);
    ShiftXor(c & 0xFF00, Wide(ch ^ Low(c)), 8);
    ShiftOfHighByte(c);
    ShiftOfLow(ch ^ Low(c));
  }

  // ---- whole messages ----

  /** The reference: bit by bit over every byte. */
  function Crc(c: bv16, s: seq<bv8>): bv16
  {
    if s == [] then c else StepBits(Crc(c, s[..|s| - 1]), s[|s| - 1])
  }

  /** One byte more on a register. */
  lemma NextRegister(start: bv16, s: seq<bv8>, ch: bv8, c: bv16, d: bv16)
    requires Crc(start, s) == c && Eight(Xor(c, Wide(ch))) == d
    ensures Crc(start, s + [ch]) == d
  {
    EightIsShift(Xor(c, Wide(ch)));
    assert (s + [ch])[..|s|] == s;
  }

  lemma {:induction false} DigitsToThree(start: bv16)
    requires start == 0
    ensures Crc(start, [0x31, 0x32, 0x33]) == 0xBA04
  {
    var a: seq<bv8>, b: seq<bv8>, c: seq<bv8> := [], [0x31], [0x31, 0x32];
    var e: seq<bv8> := [0x31, 0x32, 0x33];
    assert b == a + [0x31] && c == b + [0x32] && e == c + [0x33];
    NextRegister(start, a, 0x31, 0, 0xD4C1);
    NextRegister(start, b, 0x32, 0xD4C1, 0x4594);
    NextRegister(start, c, 0x33, 0x4594, 0xBA04);
  }

  lemma {:induction false} DigitsToSix(start: bv16)
    requires start == 0
    ensures Crc(start, [0x31, 0x32, 0x33, 0x34, 0x35, 0x36]) == 0x29E4
  {
    DigitsToThree(start);
    var a: seq<bv8>, b: seq<bv8>, c: seq<bv8> := [0x31, 0x32, 0x33], [0x31, 0x32, 0x33, 0x34], [0x31, 0x32, 0x33, 0x34, 0x35];
    var e: seq<bv8> := [0x31, 0x32, 0x33, 0x34, 0x35, 0x36];
    assert b == a + [0x34] && c == b + [0x35] && e == c + [0x36];
    NextRegister(start, a, 0x34, 0xBA04, 0x14BA);
    NextRegister(start, b, 0x35, 0x14BA, 0xA455);
    NextRegister(start, c, 0x36, 0xA455, 0x29E4);
  }

  lemma {:induction false} DigitsToNine(start: bv16)
    requires start == 0
    ensures Crc(start, [0x31, 0x32, 0x33, 0x34, 0x35, 0x36, 0x37, 0x38, 0x39]) == 0xBB3D
  {
    DigitsToSix(start);
    var a: seq<bv8>, b: seq<bv8>, c: seq<bv8> := [0x31, 0x32, 0x33, 0x34, 0x35, 0x36], [0x31, 0x32, 0x33, 0x34, 0x35, 0x36, 0x37], [0x31, 0x32, 0x33, 0x34, 0x35, 0x36, 0x37, 0x38];
    var e: seq<bv8> := [0x31, 0x32, 0x33, 0x34, 0x35, 0x36, 0x37, 0x38, 0x39];
    assert b == a + [0x37] && c == b + [0x38] && e == c + [0x39];
    NextRegister(start, a, 0x37, 0x29E4, 0x9D68);
    NextRegister(start, b, 0x38, 0x9D68, 0x3C9D);
    NextRegister(start, c, 0x39, 0x3C9D, 0xBB3D);
  }

  predicate Stops(ch: bv8) { ch == 0 || ch == 0x0D }

  /** What _crc_calc runs over: up to the first NUL or CR, at most 240 bytes; a NUL follows the buffer. */
  function Body(s: seq<bv8>, limit: nat): (b: seq<bv8>)
    ensures |b| <= limit && b <= s
  {
    if s == [] || limit == 0 || Stops(s[0]) then [] else [s[0]] + Body(s[1..], limit - 1)
  }

  /** _crc_calc on the bytes of a buffer from an offset on. */
  method CrcCalc(buf: array<bv8>, off: nat) returns (crc: bv16)
    requires off <= buf.Length
    ensures crc == Crc(0, Body(buf[off..], MAX_MSG_LEN))
  {
    ghost var s := buf[off..];
    crc := 0;
    var i := 0;
    while i < MAX_MSG_LEN && off + i < buf.Length
      invariant i <= MAX_MSG_LEN && i <= |s|
      invariant crc == Crc(0, s[..i])
      invariant forall k :: 0 <= k < i ==> !Stops(s[k])
    {
      var ch := buf[off + i];
      if Stops(ch) {
        break;
      }
      StepsAgree(crc, ch);
      assert s[..i + 1][..i] == s[..i];
      crc := StepTable(crc, ch);
      i := i + 1;
    }
    BodyIs(s, MAX_MSG_LEN, i);
  }

  lemma {:induction false} BodyIs(s: seq<bv8>, limit: nat, i: nat)
    requires i <= |s| && i <= limit && (forall k :: 0 <= k < i ==> !Stops(s[k]))
    requires i == |s| || i == limit || Stops(s[i])
    ensures Body(s, limit) == s[..i]
  {
    if i > 0 {
      BodyIs(s[1..], limit - 1, i - 1);
    }
  }

  lemma {:induction false} CrcOfParts(c: bv16, a: seq<bv8>, b: seq<bv8>)
    ensures Crc(c, a + b) == Crc(Crc(c, a), b)
  {
    if b == [] {
      assert a + b == a;
    } else {
      assert (a + b)[..|a + b| - 1] == a + b[..|b| - 1];
      CrcOfParts(c, a, b[..|b| - 1]);
    }
  }

  lemma XorCancel(c: bv16, x: bv8, y: bv8)
    requires Xor(c, Wide(x)) == Xor(c, Wide(y))
    ensures x == y
  {
  }

  lemma ByteInjective(c: bv16, x: bv8, y: bv8)
    requires StepBits(c, x) == StepBits(c, y)
    ensures x == y
  {
    ShiftInjective(Xor(c, Wide(x)), Xor(c, Wide(y)), 8);
    XorCancel(c, x, y);
  }

  lemma XorTwice(c: bv16, x: bv16)
    ensures Xor(Xor(c, x), x) == c
  {
  }

  lemma StateInjective(c: bv16, d: bv16, x: bv8)
    requires StepBits(c, x) == StepBits(d, x)
    ensures c == d
  {
    ShiftInjective(Xor(c, Wide(x)), Xor(d, Wide(x)), 8);
    XorTwice(c, Wide(x));
    XorTwice(d, Wide(x));
  }

  lemma {:induction false} CrcInjective(c: bv16, d: bv16, s: seq<bv8>)
    requires Crc(c, s) == Crc(d, s)
    ensures c == d
  {
    if s != [] {
      StateInjective(Crc(c, s[..|s| - 1]), Crc(d, s[..|s| - 1]), s[|s| - 1]);
      CrcInjective(c, d, s[..|s| - 1]);
    }
  }

  lemma EightReachesHigh(d: bv8)
    requires Eight(Wide(d)) <= 0xFF
    ensures d == 0
  {
  }

  /** A byte that is not zero always reaches the high byte of the register. */
  lemma ByteReachesHigh(d: bv8)
    requires Shift(Wide(d), 8) <= 0xFF
    ensures d == 0
  {
    EightIsShift(Wide(d));
    EightReachesHigh(d);
  }

  lemma Regroup(f: bv16, g: bv16, x: bv8, y: bv8)
    requires Xor(f, Wide(x)) == Xor(g, Wide(y))
    ensures Xor(f, g) <= 0xFF
  {
  }

  lemma XorOfBytes(c: bv16, x: bv8, y: bv8)
    ensures Xor(Xor(c, Wide(x)), Xor(c, Wide(y))) == Wide(x ^ y)
  {
  }

  lemma SameByte(x: bv8, y: bv8)
    requires x ^ y == 0
    ensures x == y
  {
  }

  lemma FirstByteInjective(c: bv16, x: bv8, y: bv8)
    requires Xor(StepBits(c, x), StepBits(c, y)) <= 0xFF
    ensures x == y
  {
    ShiftXor(Xor(c, Wide(x)), Xor(c, Wide(y)), 8);
    XorOfBytes(c, x, y);
    ByteReachesHigh(x ^ y);
    SameByte(x, y);
  }

  lemma TwoBytesInjective(c: bv16, x0: bv8, x1: bv8, y0: bv8, y1: bv8)
    requires StepBits(StepBits(c, x0), x1) == StepBits(StepBits(c, y0), y1)
    ensures x0 == y0 && x1 == y1
  {
    var f, g := StepBits(c, x0), StepBits(c, y0);
    ShiftInjective(Xor(f, Wide(x1)), Xor(g, Wide(y1)), 8);
    Regroup(f, g, x1, y1);
    FirstByteInjective(c, x0, y0);
    ByteInjective(f, x1, y1);
  }

  lemma CrcOfOne(c: bv16, x: bv8)
    ensures Crc(c, [x]) == StepBits(c, x)
  {
    assert [x][..0] == [];
  }

  lemma CrcOfTwo(c: bv16, x: bv8, y: bv8)
    ensures Crc(c, [x, y]) == StepBits(StepBits(c, x), y)
  {
    assert [x, y][..1] == [x];
    CrcOfOne(c, x);
  }

  lemma {:induction false} WindowInjective(c: bv16, x: seq<bv8>, y: seq<bv8>)
    requires |x| == |y| <= 2 && Crc(c, x) == Crc(c, y)
    ensures x == y
  {
    if |x| == 1 {
      assert x == [x[0]] && y == [y[0]];
      CrcOfOne(c, x[0]);
      CrcOfOne(c, y[0]);
      ByteInjective(c, x[0], y[0]);
    } else if |x| == 2 {
      assert x == [x[0], x[1]] && y == [y[0], y[1]];
      CrcOfTwo(c, x[0], x[1]);
      CrcOfTwo(c, y[0], y[1]);
      TwoBytesInjective(c, x[0], x[1], y[0], y[1]);
    }
  }

  /**
   Two messages of equal length that differ only inside a window of at most two bytes have
   different CRCs.
   */
  lemma {:induction false} ErrorDetected(p: seq<bv8>, x: seq<bv8>, y: seq<bv8>, q: seq<bv8>)
    requires |x| == |y| <= 2 && Crc(0, p + x + q) == Crc(0, p + y + q)
    ensures x == y
  {
    var c := Crc(0, p);
    CrcOfParts(0, p + x, q);
    CrcOfParts(0, p + y, q);
    CrcOfParts(0, p, x);
    CrcOfParts(0, p, y);
    CrcInjective(Crc(c, x), Crc(c, y), q);
    WindowInjective(c, x, y);
  }
}
