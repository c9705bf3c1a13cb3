/**
 The two checksums of the firmware image: the bitwise CRC-32 of section 3.2.9 of IEEE 802.3
 (bootloader/app_info.c, ut/app_crc/main.c) and chsum32 (ut/app_container/main.c).
 */
module Checksums {
  import opened Machine

  // ---- CRC-32 ----

  const CRC_START: bv32 := 0xFFFFFFFF

  /** One bit of the reflected division by the polynomial. */
  function Bit(c: bv32): bv32 { if c & 1 != 0 then (c >> 1) ^ 0xEDB88320 else c >> 1 }

  /** The branch-free form in the code. */
  function MaskedBit(c: bv32): bv32
  {
    var mask: bv32 := 0 - (c & 1);
    (c >> 1) ^ (0xEDB88320 & mask)
  }

  lemma OddBit(c: bv32)
    requires c & 1 != 0
    ensures MaskedBit(c) == Bit(c)
  {
    assert c & 1 == 1;
  }

  lemma EvenBit(c: bv32)
    requires c & 1 == 0
    ensures MaskedBit(c) == Bit(c)
  {
  }

  lemma MaskIsBranch(c: bv32)
    ensures MaskedBit(c) == Bit(c)
  {
    if c & 1 == 0 { EvenBit(c); } else { OddBit(c); }
  }

  function Bits(c: bv32, n: nat): bv32
    decreases n, c
  {
    if n == 0 then c else Bit(Bits(c, n - 1))
  }

  /** A byte as the low bits of a word. */
  function Wide(b: U8): bv32 { (b as bv8) as bv32 }

  function Mix(c: bv32, b: U8): bv32 { c ^ Wide(b) }

  function CrcByte(c: bv32, b: U8): bv32 { Bits(Mix(c, b), 8) }

  /** The register after a message. */
  function Crc(c: bv32, s: seq<U8>): bv32
  {
    if s == [] then c else CrcByte(Crc(c, s[..|s| - 1]), s[|s| - 1])
  }

  function Number(c: bv32): U32 { c as int }

  function Flipped(c: bv32): bv32 { c ^ 0xFFFFFFFF }

  /** The final complement, as a number. */
  function Finish(c: bv32): U32 { Number(Flipped(c)) }

  /** app_crc of a memory area. */
  function AppCrc(s: seq<U8>): U32 { Finish(Crc(CRC_START, s)) }

  /** Feeding a message in two parts is feeding it whole. */
  lemma {:induction false} CrcOfParts(c: bv32, a: seq<U8>, b: seq<U8>)
    ensures Crc(c, a + b) == Crc(Crc(c, a), b)
  {
    if b == [] {
      assert a + b == a;
    } else {
      assert (a + b)[..|a + b| - 1] == a + b[..|b| - 1];
      CrcOfParts(c, a, b[..|b| - 1]);
    }
  }

  lemma BitInjective(c: bv32, d: bv32)
    requires Bit(c) == Bit(d)
    ensures c == d
  {
  }

  lemma {:induction false} BitsInjective(c: bv32, d: bv32, n: nat)
    requires Bits(c, n) == Bits(d, n)
    ensures c == d
    decreases n
  {
    if n > 0 {
      BitInjective(Bits(c, n - 1), Bits(d, n - 1));
      BitsInjective(c, d, n - 1);
    }
  }

  lemma MixInjective(c: bv32, d: bv32, b: U8)
    requires Mix(c, b) == Mix(d, b)
    ensures c == d
  {
    UnMix(c, Wide(b));
    UnMix(d, Wide(b));
  }

  lemma UnMix(c: bv32, x: bv32)
    ensures (c ^ x) ^ x == c
  {
  }

  /** No two registers ever meet: whatever is fed, different starts end differently. */
  lemma {:induction false} CrcStateInjective(c: bv32, d: bv32, s: seq<U8>)
    requires Crc(c, s) == Crc(d, s)
    ensures c == d
  {
    if s != [] {
      var front, b := s[..|s| - 1], s[|s| - 1];
      BitsInjective(Mix(Crc(c, front), b), Mix(Crc(d, front), b), 8);
      MixInjective(Crc(c, front), Crc(d, front), b);
      CrcStateInjective(c, d, front);
    }
  }

  function OfByte(x: bv8): int { x as int }

  lemma NextByte(x: bv8)
    requires x != 0xFF
    ensures OfByte(x + 1) == OfByte(x) + 1
  {
  }

  /** Every small number is a byte. */
  lemma {:induction false} AByte(b: U8) returns (x: bv8)
    ensures OfByte(x) == b
    decreases b as int
  {
    if b == 0 {
      x := 0;
    } else {
      var y := AByte(b - 1);
      NextByte(y);
      x := y + 1;
    }
  }

  lemma ByteOf(x: bv8)
    ensures 0 <= OfByte(x) < 0x100 && OfByte(x) as bv8 == x
  {
  }

  lemma ByteBack(b: U8)
    ensures OfByte(b as bv8) == b
  {
    var x := AByte(b);
    ByteOf(x);
  }

  lemma Narrow(x: bv8, y: bv8)
    requires x as bv32 == y as bv32
    ensures x == y
  {
  }

  lemma MixTells(c: bv32, x: U8, y: U8)
    requires Mix(c, x) == Mix(c, y)
    ensures x == y
  {
    SameMix(c, Wide(x), Wide(y));
    Narrow(x as bv8, y as bv8);
    ByteBack(x);
    ByteBack(y);
  }

  lemma SameMix(c: bv32, x: bv32, y: bv32)
    requires c ^ x == c ^ y
    ensures x == y
  {
  }

  lemma CrcLast(c: bv32, p: seq<U8>, x: U8)
    ensures Crc(c, p + [x]) == CrcByte(Crc(c, p), x)
  {
    assert (p + [x])[..|p|] == p;
  }

  /** Two messages of equal length that differ in exactly one byte never have the same CRC. */
  lemma {:induction false} CrcOneByteDetected(c: bv32, p: seq<U8>, x: U8, y: U8, q: seq<U8>)
    requires Crc(c, p + [x] + q) == Crc(c, p + [y] + q)
    ensures x == y
  {
    CrcOfParts(c, p + [x], q);
    CrcOfParts(c, p + [y], q);
    CrcStateInjective(Crc(c, p + [x]), Crc(c, p + [y]), q);
    CrcLast(c, p, x);
    CrcLast(c, p, y);
    BitsInjective(Mix(Crc(c, p), x), Mix(Crc(c, p), y), 8);
    MixTells(Crc(c, p), x, y);
  }

  lemma NumberTells(c: bv32, d: bv32)
    requires Number(c) == Number(d)
    ensures c == d
  {
    assert (c as int) as bv32 == c;
    assert (d as int) as bv32 == d;
  }

  lemma FlippedTells(c: bv32, d: bv32)
    requires Flipped(c) == Flipped(d)
    ensures c == d
  {
  }

  lemma FinishTells(c: bv32, d: bv32)
    requires Finish(c) == Finish(d)
    ensures c == d
  {
    NumberTells(Flipped(c), Flipped(d));
    FlippedTells(c, d);
  }

  /** The inner loop: eight bits. */
  method CrcEight(start: bv32) returns (c: bv32)
    ensures c == Bits(start, 8)
  {
    c := start;
    var i := 7;
    while i >= 0
      invariant -1 <= i <= 7
      invariant c == Bits(start, 7 - i)
    {
      MaskIsBranch(c);
      c := MaskedBit(c);
      i := i - 1;
    }
  }

  /** The byte loop that the tool and the bootloader share, on the register. */
  method CrcUpdate(start: bv32, data: seq<U8>) returns (c: bv32)
    ensures c == Crc(start, data)
  {
    c := start;
    var k := 0;
    while k < |data|
      invariant 0 <= k <= |data|
      invariant c == Crc(start, data[..k])
    {
      assert data[..k + 1][..k] == data[..k];
      c := CrcEight(Mix(c, data[k]));
      k := k + 1;
    }
    assert data[..k] == data;
  }

  /** One byte more on a register. */
  lemma NextRegister(s: seq<U8>, b: U8, c: bv32, d: bv32)
    requires Crc(CRC_START, s) == c && CrcByte(c, b) == d
    ensures Crc(CRC_START, s + [b]) == d
  {
    assert (s + [b])[..|s|] == s;
  }

  lemma {:induction false} DigitsToThree()
    ensures Crc(CRC_START, [0x31, 0x32, 0x33]) == 0x77B79C2D
  {
    NextRegister([], 0x31, 0xFFFFFFFF, 0x7C231048);
    assert [] + [0x31] == [0x31];
    NextRegister([0x31], 0x32, 0x7C231048, 0xB0ACBB32);
    assert [0x31] + [0x32] == [0x31, 0x32];
    NextRegister([0x31, 0x32], 0x33, 0xB0ACBB32, 0x77B79C2D);
    assert [0x31, 0x32] + [0x33] == [0x31, 0x32, 0x33];
  }

  lemma {:induction false} DigitsToSix()
    ensures Crc(CRC_START, [0x31, 0x32, 0x33, 0x34, 0x35, 0x36]) == 0xF68D2C9E
  {
    DigitsToThree();
    NextRegister([0x31, 0x32, 0x33], 0x34, 0x77B79C2D, 0x641C1F5C);
    assert [0x31, 0x32, 0x33] + [0x34] == [0x31, 0x32, 0x33, 0x34];
    NextRegister([0x31, 0x32, 0x33, 0x34], 0x35, 0x641C1F5C, 0x340AC5E3);
    assert [0x31, 0x32, 0x33, 0x34] + [0x35] == [0x31, 0x32, 0x33, 0x34, 0x35];
    NextRegister([0x31, 0x32, 0x33, 0x34, 0x35], 0x36, 0x340AC5E3, 0xF68D2C9E);
    assert [0x31, 0x32, 0x33, 0x34, 0x35] + [0x36] == [0x31, 0x32, 0x33, 0x34, 0x35, 0x36];
  }

  lemma {:induction false} DigitsToNine()
    ensures Crc(CRC_START, [0x31, 0x32, 0x33, 0x34, 0x35, 0x36, 0x37, 0x38, 0x39]) == 0x340BC6D9
  {
    DigitsToSix();
    NextRegister([0x31, 0x32, 0x33, 0x34, 0x35, 0x36], 0x37, 0xF68D2C9E, 0xAFFC9660);
    assert [0x31, 0x32, 0x33, 0x34, 0x35, 0x36] + [0x37] == [0x31, 0x32, 0x33, 0x34, 0x35, 0x36, 0x37];
    NextRegister([0x31, 0x32, 0x33, 0x34, 0x35, 0x36, 0x37], 0x38, 0xAFFC9660, 0x651F2550);
    assert [0x31, 0x32, 0x33, 0x34, 0x35, 0x36, 0x37] + [0x38] == [0x31, 0x32, 0x33, 0x34, 0x35, 0x36, 0x37, 0x38];
    NextRegister([0x31, 0x32, 0x33, 0x34, 0x35, 0x36, 0x37, 0x38], 0x39, 0x651F2550, 0x340BC6D9);
    assert [0x31, 0x32, 0x33, 0x34, 0x35, 0x36, 0x37, 0x38] + [0x39]
           == [0x31, 0x32, 0x33, 0x34, 0x35, 0x36, 0x37, 0x38, 0x39];
  }

  /** The check value of this CRC: what it is of the digits 1 to 9. */
  lemma CheckValue()
    ensures AppCrc([0x31, 0x32, 0x33, 0x34, 0x35, 0x36, 0x37, 0x38, 0x39]) == 0xCBF43926
  {
    DigitsToNine();
  }

  // ---- chsum32 ----

  const CHSUM_START: U32 := 0x6b13ff7d

  /** (v << 1) + msb */
  function Rotate(v: U32): U32
  {
    if v >= 0x8000_0000 then 2 * (v as int) - 0x1_0000_0000 + 1 else 2 * (v as int)
  }

  function Chsum(v: U32, s: seq<U8>): U32
  {
    if s == [] then v else Add32(Rotate(Chsum(v, s[..|s| - 1])), s[|s| - 1])
  }

  lemma {:induction false} ChsumOfParts(v: U32, a: seq<U8>, b: seq<U8>)
    ensures Chsum(v, a + b) == Chsum(Chsum(v, a), b)
  {
    if b == [] {
      assert a + b == a;
    } else {
      assert (a + b)[..|a + b| - 1] == a + b[..|b| - 1];
      ChsumOfParts(v, a, b[..|b| - 1]);
    }
  }

  method Chsum32(data: seq<U8>, start: U32) returns (v: U32)
    ensures v == Chsum(start, data)
  {
    v := start;
    var k := 0;
    while k < |data|
      invariant 0 <= k <= |data|
      invariant v == Chsum(start, data[..k])
    {
      assert data[..k + 1][..k] == data[..k];
      v := Add32(Rotate(v), data[k]);
      k := k + 1;
    }
    assert data[..k] == data;
  }

  /** What chsum32 is of three bytes from the start value of the tools. */
  lemma {:induction false} ChsumOfThree(a: seq<U8>, b: seq<U8>, c: seq<U8>)
    requires a == [1] && b == [2] && c == [3]
    ensures Chsum(0x6b13ff7d, a + b + c) == 0x589ffbf6
  {
    ChsumOfParts(0x6b13ff7d, a + b, c);
    ChsumOfParts(0x6b13ff7d, a, b);
    assert a[..0] == [] && b[..0] == [] && c[..0] == [];
    assert Chsum(0x6b13ff7d, a) == 0xd627fefb;
    assert Chsum(0xd627fefb, b) == 0xac4ffdf9;
  }

  /** Rotating left is a bijection, so chsum32 notices every change of a single byte. */
  lemma ChsumInjective(v: U32, w: U32, b: U8)
    requires Add32(Rotate(v), b) == Add32(Rotate(w), b)
    ensures v == w
  {
  }

  lemma {:induction false} ChsumStateInjective(v: U32, w: U32, s: seq<U8>)
    requires Chsum(v, s) == Chsum(w, s)
    ensures v == w
  {
    if s != [] {
      ChsumInjective(Chsum(v, s[..|s| - 1]), Chsum(w, s[..|s| - 1]), s[|s| - 1]);
      ChsumStateInjective(v, w, s[..|s| - 1]);
    }
  }

  /** Two images of equal length that differ in exactly one byte never have the same chsum32. */
  lemma {:induction false} OneByteDetected(v: U32, p: seq<U8>, x: U8, y: U8, q: seq<U8>)
    requires Chsum(v, p + [x] + q) == Chsum(v, p + [y] + q)
    ensures x == y
  {
    ChsumOfParts(v, p + [x], q);
    ChsumOfParts(v, p + [y], q);
    ChsumStateInjective(Chsum(v, p + [x]), Chsum(v, p + [y]), q);
    assert (p + [x])[..|p|] == p && (p + [y])[..|p|] == p;
  }
}
