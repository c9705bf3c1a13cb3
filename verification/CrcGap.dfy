/**
 How many bytes of ones lead the CRC register from its start back to it: none, up to the size of an application.
 A step of the register is multiplication by x in the field of 2^32 elements, where x has the order
 2^32 - 1 = 65535 * 65537. A number of bytes that led the start back would have a divisor in common with that
 order that leads it back as well; none does.
 */
module CrcGap {
  import opened Machine
  import opened Checksums
  import opened Layout

  const ONE: bv32 := 0x8000_0000         // the polynomial 1 in the reflected register

  // ---- a step is linear ----

  function Plus(x: bv32, y: bv32): bv32 { x ^ y }

  lemma EvenBits(x: bv32, y: bv32)
    requires x & 1 == 0 && y & 1 == 0
    ensures Bit(Plus(x, y)) == Plus(Bit(x), Bit(y))
  {
  }

  lemma OneOddBit(x: bv32, y: bv32)
    requires x & 1 != 0 && y & 1 == 0
    ensures Bit(Plus(x, y)) == Plus(Bit(x), Bit(y)) && Bit(Plus(y, x)) == Plus(Bit(y), Bit(x))
  {
  }

  lemma OddBits(x: bv32, y: bv32)
    requires x & 1 != 0 && y & 1 != 0
    ensures Bit(Plus(x, y)) == Plus(Bit(x), Bit(y))
  {
  }

  lemma BitOfPlus(x: bv32, y: bv32)
    ensures Bit(Plus(x, y)) == Plus(Bit(x), Bit(y))
  {
    if x & 1 == 0 {
      if y & 1 == 0 { EvenBits(x, y); } else { OneOddBit(y, x); }
    } else {
      if y & 1 == 0 { OneOddBit(x, y); } else { OddBits(x, y); }
    }
  }

  lemma {:induction false} BitsOfPlus(x: bv32, y: bv32, n: nat)
    ensures Bits(Plus(x, y), n) == Plus(Bits(x, n), Bits(y, n))
    decreases n
  {
    if n > 0 {
      BitsOfPlus(x, y, n - 1);
      BitOfPlus(Bits(x, n - 1), Bits(y, n - 1));
    }
  }

  lemma {:induction false} BitsOfSum(c: bv32, m: nat, n: nat)
    ensures Bits(c, m + n) == Bits(Bits(c, m), n)
    decreases n
  {
    if n > 0 {
      BitsOfSum(c, m, n - 1);
    }
  }

  // ---- products of polynomials ----

  /** b is added to the rest when a has the bit m. */
  function Pick(a: bv32, m: bv32, b: bv32, rest: bv32): bv32 { if a & m != 0 then Plus(b, rest) else rest }

  /** The sum of b, x b, x^2 b and so on, for the n bits of a from m down. */
  function MulFrom(a: bv32, b: bv32, m: bv32, n: nat): bv32
    decreases n, a
  {
    if n == 0 then 0 else Pick(a, m, b, MulFrom(a, Bit(b), m >> 1, n - 1))
  }

  lemma PickOfBit(a: bv32, m: bv32, b: bv32, rest: bv32)
    ensures Pick(a, m, Bit(b), Bit(rest)) == Bit(Pick(a, m, b, rest))
  {
    BitOfPlus(b, rest);
  }

  lemma {:induction false} MulFromStep(a: bv32, b: bv32, m: bv32, n: nat)
    ensures MulFrom(a, Bit(b), m, n) == Bit(MulFrom(a, b, m, n))
    decreases n
  {
    if n > 0 {
      MulFromStep(a, Bit(b), m >> 1, n - 1);
      PickOfBit(a, m, b, MulFrom(a, Bit(b), m >> 1, n - 1));
    }
  }

  /** Four bits of a at a time. */
  function Four(a: bv32, b: bv32, m: bv32, rest: bv32): bv32
  {
    var c := Bit(b);
    var d := Bit(c);
    var e := Bit(d);
    Pick(a, m, b, Pick(a, m >> 1, c, Pick(a, (m >> 1) >> 1, d, Pick(a, ((m >> 1) >> 1) >> 1, e, rest))))
  }

  function FourBits(b: bv32): bv32 { Bit(Bit(Bit(Bit(b)))) }

  lemma FourIs(a: bv32, b: bv32, m: bv32, n: nat)
    ensures MulFrom(a, b, m, n + 4) == Four(a, b, m, MulFrom(a, FourBits(b), (((m >> 1) >> 1) >> 1) >> 1, n))
  {
    var c := Bit(b);
    var d := Bit(c);
    var e := Bit(d);
    assert MulFrom(a, e, ((m >> 1) >> 1) >> 1, n + 1)
        == Pick(a, ((m >> 1) >> 1) >> 1, e, MulFrom(a, Bit(e), (((m >> 1) >> 1) >> 1) >> 1, n));
    assert MulFrom(a, d, (m >> 1) >> 1, n + 2) == Pick(a, (m >> 1) >> 1, d, MulFrom(a, e, ((m >> 1) >> 1) >> 1, n + 1));
    assert MulFrom(a, c, m >> 1, n + 3) == Pick(a, m >> 1, c, MulFrom(a, d, (m >> 1) >> 1, n + 2));
  }

  // The sums for the last bits of a, four more at a time.

  function Last4(a: bv32, b: bv32): bv32 { Four(a, b, 0x00000008, 0) }

  function Last8(a: bv32, b: bv32): bv32 { Four(a, b, 0x00000080, Last4(a, FourBits(b))) }

  function Last12(a: bv32, b: bv32): bv32 { Four(a, b, 0x00000800, Last8(a, FourBits(b))) }

  function Last16(a: bv32, b: bv32): bv32 { Four(a, b, 0x00008000, Last12(a, FourBits(b))) }

  function Last20(a: bv32, b: bv32): bv32 { Four(a, b, 0x00080000, Last16(a, FourBits(b))) }

  function Last24(a: bv32, b: bv32): bv32 { Four(a, b, 0x00800000, Last20(a, FourBits(b))) }

  function Last28(a: bv32, b: bv32): bv32 { Four(a, b, 0x08000000, Last24(a, FourBits(b))) }

  function Last32(a: bv32, b: bv32): bv32 { Four(a, b, 0x80000000, Last28(a, FourBits(b))) }

  /** The product. */
  function Mul(a: bv32, b: bv32): bv32 { Last32(a, b) }

  lemma Last4Is(a: bv32, b: bv32, k: nat)
    requires k == 4
    ensures Last4(a, b) == MulFrom(a, b, 0x00000008, k)
  {
    FourIs(a, b, 0x00000008, k - 4);
  }

  lemma Last8Is(a: bv32, b: bv32, k: nat)
    requires k == 8
    ensures Last8(a, b) == MulFrom(a, b, 0x00000080, k)
  {
    Last4Is(a, FourBits(b), k - 4);
    FourIs(a, b, 0x00000080, k - 4);
  }

  lemma Last12Is(a: bv32, b: bv32, k: nat)
    requires k == 12
    ensures Last12(a, b) == MulFrom(a, b, 0x00000800, k)
  {
    Last8Is(a, FourBits(b), k - 4);
    FourIs(a, b, 0x00000800, k - 4);
  }

  lemma Last16Is(a: bv32, b: bv32, k: nat)
    requires k == 16
    ensures Last16(a, b) == MulFrom(a, b, 0x00008000, k)
  {
    Last12Is(a, FourBits(b), k - 4);
    FourIs(a, b, 0x00008000, k - 4);
  }

  lemma Last20Is(a: bv32, b: bv32, k: nat)
    requires k == 20
    ensures Last20(a, b) == MulFrom(a, b, 0x00080000, k)
  {
    Last16Is(a, FourBits(b), k - 4);
    FourIs(a, b, 0x00080000, k - 4);
  }

  lemma Last24Is(a: bv32, b: bv32, k: nat)
    requires k == 24
    ensures Last24(a, b) == MulFrom(a, b, 0x00800000, k)
  {
    Last20Is(a, FourBits(b), k - 4);
    FourIs(a, b, 0x00800000, k - 4);
  }

  lemma Last28Is(a: bv32, b: bv32, k: nat)
    requires k == 28
    ensures Last28(a, b) == MulFrom(a, b, 0x08000000, k)
  {
    Last24Is(a, FourBits(b), k - 4);
    FourIs(a, b, 0x08000000, k - 4);
  }

  lemma Last32Is(a: bv32, b: bv32, k: nat)
    requires k == 32
    ensures Last32(a, b) == MulFrom(a, b, 0x80000000, k)
  {
    Last28Is(a, FourBits(b), k - 4);
    FourIs(a, b, 0x80000000, k - 4);
  }

  lemma MulIs(a: bv32, b: bv32, k: nat)
    requires k == 32
    ensures Mul(a, b) == MulFrom(a, b, ONE, k)
  {
    Last32Is(a, b, k);
  }

  lemma {:induction false} FromOfBits(a: bv32, b: bv32, n: nat, m: bv32, k: nat)
    ensures MulFrom(a, Bits(b, n), m, k) == Bits(MulFrom(a, b, m, k), n)
    decreases n
  {
    if n > 0 {
      FromOfBits(a, b, n - 1, m, k);
      MulFromStep(a, Bits(b, n - 1), m, k);
    }
  }

  lemma MulOfBits(a: bv32, b: bv32, n: nat, k: nat)
    requires k == 32
    ensures Mul(a, Bits(b, n)) == Bits(Mul(a, b), n)
  {
    MulIs(a, b, k);
    MulIs(a, Bits(b, n), k);
    FromOfBits(a, b, n, ONE, k);
  }

  /** a has all of m or nothing of it, as it does when m is a single bit. */
  predicate Whole(a: bv32, m: bv32) { a & m == 0 || a & m == m }

  lemma WithBit(a: bv32, m: bv32, low: bv32)
    requires m & low == 0 && a & m == m
    ensures Plus(m, a & low) == a & (m | low)
  {
  }

  lemma WithoutBit(a: bv32, m: bv32, low: bv32)
    requires a & m == 0
    ensures a & low == a & (m | low)
  {
  }

  lemma OneMore(a: bv32, m: bv32, low: bv32)
    requires m & low == 0 && Whole(a, m)
    ensures Pick(a, m, m, a & low) == a & (m | low)
  {
    if a & m == 0 {
      WithoutBit(a, m, low);
    } else {
      WithBit(a, m, low);
    }
  }

  /** m and the bits of l below it make up low. */
  predicate OnTop(m: bv32, l: bv32, low: bv32) { m & l == 0 && m | l == low }

  lemma TopMore(a: bv32, m: bv32, l: bv32, low: bv32, rest: bv32)
    requires Whole(a, m) && OnTop(m, l, low) && rest == a & l
    ensures Pick(a, m, m, rest) == a & low
  {
    OneMore(a, m, l);
  }

  /** m and the n - 1 bits below it make up low. */
  predicate Units(a: bv32, m: bv32, low: bv32, n: nat)
    decreases n
  {
    if n == 0 then low == 0
    else Whole(a, m) && OnTop(m, low ^ m, low) && (n == 1 || Bit(m) == m >> 1) && Units(a, m >> 1, low ^ m, n - 1)
  }

  lemma NoneOf(a: bv32)
    ensures a & 0 == 0
  {
  }

  lemma {:induction false} PartOfOne(a: bv32, m: bv32, low: bv32, n: nat)
    requires Units(a, m, low, n)
    ensures MulFrom(a, m, m, n) == a & low
    decreases n
  {
    NoneOf(a);
    if n == 1 {
      TopMore(a, m, low ^ m, low, 0);
    } else if n > 1 {
      PartOfOne(a, m >> 1, low ^ m, n - 1);
      TopMore(a, m, low ^ m, low, MulFrom(a, Bit(m), m >> 1, n - 1));
    }
  }

  lemma UnitsLow(a: bv32)
    ensures Units(a, 0x0000_8000, 0x0000_FFFF, 16)
  {
    assert Units(a, 0x0000_0008, 0x0000_000F, 4);
    assert Units(a, 0x0000_0080, 0x0000_00FF, 8);
    assert Units(a, 0x0000_0800, 0x0000_0FFF, 12);
  }

  lemma UnitsAll(a: bv32)
    ensures Units(a, ONE, 0xFFFF_FFFF, 32)
  {
    UnitsLow(a);
    assert Units(a, 0x0008_0000, 0x000F_FFFF, 20);
    assert Units(a, 0x0080_0000, 0x00FF_FFFF, 24);
    assert Units(a, 0x0800_0000, 0x0FFF_FFFF, 28);
  }

  lemma MulOne(a: bv32, k: nat)
    requires k == 32
    ensures Mul(a, ONE) == a
  {
    MulIs(a, ONE, k);
    UnitsAll(a);
    PartOfOne(a, ONE, 0xFFFF_FFFF, k);
  }

  // ---- powers of x ----

  // ONE, the register and some numbers are handed on as parameters, so that no power is computed step by step.

  /** q is x^n. */
  ghost predicate Power(one: bv32, n: nat, q: bv32) { Bits(one, n) == q }

  /** n steps multiply by x^n. */
  lemma StepsAre(one: bv32, a: bv32, n: nat, q: bv32)
    requires one == ONE && Power(one, n, q)
    ensures Bits(a, n) == Mul(a, q)
  {
    MulOne(a, 32);
    MulOfBits(a, one, n, 32);
  }

  lemma Product(one: bv32, m: nat, p: bv32, n: nat, q: bv32, r: bv32)
    requires one == ONE && Power(one, m, p) && Power(one, n, q) && r == Mul(p, q)
    ensures Power(one, m + n, r)
  {
    BitsOfSum(one, m, n);
    StepsAre(one, p, n, q);
  }

  lemma Square(one: bv32, n: nat, q: bv32, r: bv32)
    requires one == ONE && Power(one, n, q) && r == Mul(q, q)
    ensures Power(one, 2 * n, r)
  {
    Product(one, n, q, n, q, r);
  }

  lemma OneStep(one: bv32, n: nat, q: bv32, r: bv32)
    requires Power(one, n, q) && r == Bit(q)
    ensures Power(one, n + 1, r)
  {
  }

  lemma SquareAndStep(one: bv32, n: nat, q: bv32, r: bv32)
    requires one == ONE && Power(one, n, q) && r == Bit(Mul(q, q))
    ensures Power(one, 2 * n + 1, r)
  {
    Square(one, n, q, Mul(q, q));
  }

  // ---- the powers that matter, each from a smaller one by squaring ----

  lemma To15(one: bv32)
    requires one == ONE && Power(one, 1, 0x40000000)
    ensures Power(one, 15, 0x00010000)
  {
    SquareAndStep(one, 1, 0x40000000, 0x10000000);
    SquareAndStep(one, 3, 0x10000000, 0x01000000);
    SquareAndStep(one, 7, 0x01000000, 0x00010000);
  }

  lemma To127(one: bv32)
    requires one == ONE && Power(one, 15, 0x00010000)
    ensures Power(one, 127, 0x9BA54C6F)
  {
    SquareAndStep(one, 15, 0x00010000, 0x00000001);
    SquareAndStep(one, 31, 0x00000001, 0xB8BC6765);
    SquareAndStep(one, 63, 0xB8BC6765, 0x9BA54C6F);
  }

  lemma To1023(one: bv32)
    requires one == ONE && Power(one, 127, 0x9BA54C6F)
    ensures Power(one, 1023, 0x7406FA95)
  {
    SquareAndStep(one, 127, 0x9BA54C6F, 0x01B5FD1D);
    SquareAndStep(one, 255, 0x01B5FD1D, 0xCAD38E8F);
    SquareAndStep(one, 511, 0xCAD38E8F, 0x7406FA95);
  }

  lemma To8191(one: bv32)
    requires one == ONE && Power(one, 1023, 0x7406FA95)
    ensures Power(one, 8191, 0xC84F001C)
  {
    SquareAndStep(one, 1023, 0x7406FA95, 0x03F9F863);
    SquareAndStep(one, 2047, 0x03F9F863, 0xC78C44A1);
    SquareAndStep(one, 4095, 0xC78C44A1, 0xC84F001C);
  }

  lemma To65535(one: bv32)
    requires one == ONE && Power(one, 8191, 0xC84F001C)
    ensures Power(one, 65535, 0xDC7B5C5F)
  {
    SquareAndStep(one, 8191, 0xC84F001C, 0x9A8F75C0);
    SquareAndStep(one, 16383, 0x9A8F75C0, 0x13FCA91E);
    SquareAndStep(one, 32767, 0x13FCA91E, 0xDC7B5C5F);
  }

  lemma To524287(one: bv32)
    requires one == ONE && Power(one, 65535, 0xDC7B5C5F)
    ensures Power(one, 524287, 0x63FD82D2)
  {
    SquareAndStep(one, 65535, 0xDC7B5C5F, 0x606C5E34);
    SquareAndStep(one, 131071, 0x606C5E34, 0xF6B53986);
    SquareAndStep(one, 262143, 0xF6B53986, 0x63FD82D2);
  }

  lemma To4194303(one: bv32)
    requires one == ONE && Power(one, 524287, 0x63FD82D2)
    ensures Power(one, 4194303, 0x2BAD0E9A)
  {
    SquareAndStep(one, 524287, 0x63FD82D2, 0xE4A90215);
    SquareAndStep(one, 1048575, 0xE4A90215, 0xD91BDB88);
    SquareAndStep(one, 2097151, 0xD91BDB88, 0x2BAD0E9A);
  }

  lemma To33554431(one: bv32)
    requires one == ONE && Power(one, 4194303, 0x2BAD0E9A)
    ensures Power(one, 33554431, 0x5C9CBDDE)
  {
    SquareAndStep(one, 4194303, 0x2BAD0E9A, 0xBFBCF49C);
    SquareAndStep(one, 8388607, 0xBFBCF49C, 0xAEC31A2F);
    SquareAndStep(one, 16777215, 0xAEC31A2F, 0x5C9CBDDE);
  }

  lemma To268435455(one: bv32)
    requires one == ONE && Power(one, 33554431, 0x5C9CBDDE)
    ensures Power(one, 268435455, 0x85352D3C)
  {
    SquareAndStep(one, 33554431, 0x5C9CBDDE, 0x9D574428);
    SquareAndStep(one, 67108863, 0x9D574428, 0x8A39E3C1);
    SquareAndStep(one, 134217727, 0x8A39E3C1, 0x85352D3C);
  }

  lemma To2147483647(one: bv32)
    requires one == ONE && Power(one, 268435455, 0x85352D3C)
    ensures Power(one, 2147483647, 0x52B55E39)
  {
    SquareAndStep(one, 268435455, 0x85352D3C, 0x291A6054);
    SquareAndStep(one, 536870911, 0x291A6054, 0x53664BE1);
    SquareAndStep(one, 1073741823, 0x53664BE1, 0x52B55E39);
  }

  lemma To4294967295(one: bv32)
    requires one == ONE && Power(one, 2147483647, 0x52B55E39)
    ensures Power(one, 4294967295, 0x80000000)
  {
    SquareAndStep(one, 2147483647, 0x52B55E39, 0x80000000);
  }

  lemma To524280(one: bv32)
    requires one == ONE && Power(one, 65535, 0xDC7B5C5F)
    ensures Power(one, 524280, 0x904F86AE)
  {
    Square(one, 65535, 0xDC7B5C5F, 0xC0D8BC68);
    Square(one, 131070, 0xC0D8BC68, 0xD86DD534);
    Square(one, 262140, 0xD86DD534, 0x904F86AE);
  }

  lemma To120(one: bv32)
    requires one == ONE && Power(one, 15, 0x00010000)
    ensures Power(one, 120, 0x60C76FE0)
  {
    Square(one, 15, 0x00010000, 0x00000002);
    Square(one, 30, 0x00000002, 0xC5B428EF);
    Square(one, 60, 0xC5B428EF, 0x60C76FE0);
  }

  lemma To960(one: bv32)
    requires one == ONE && Power(one, 120, 0x60C76FE0)
    ensures Power(one, 960, 0x00CC3374)
  {
    Square(one, 120, 0x60C76FE0, 0x9E36506B);
    Square(one, 240, 0x9E36506B, 0xE3720ACB);
    Square(one, 480, 0xE3720ACB, 0x00CC3374);
  }

  lemma To7680(one: bv32)
    requires one == ONE && Power(one, 960, 0x00CC3374)
    ensures Power(one, 7680, 0x979966F5)
  {
    Square(one, 960, 0x00CC3374, 0x8FD2CD3C);
    Square(one, 1920, 0x8FD2CD3C, 0x8AB14358);
    Square(one, 3840, 0x8AB14358, 0x979966F5);
  }

  lemma To61440(one: bv32)
    requires one == ONE && Power(one, 7680, 0x979966F5)
    ensures Power(one, 61440, 0x196613FE)
  {
    Square(one, 7680, 0x979966F5, 0x34163BD1);
    Square(one, 15360, 0x34163BD1, 0x5B6CDA72);
    Square(one, 30720, 0x5B6CDA72, 0x196613FE);
  }

  lemma To491520(one: bv32)
    requires one == ONE && Power(one, 61440, 0x196613FE)
    ensures Power(one, 491520, 0xF014301E)
  {
    Square(one, 61440, 0x196613FE, 0x4A5348D2);
    Square(one, 122880, 0x4A5348D2, 0x3F2D3B68);
    Square(one, 245760, 0x3F2D3B68, 0xF014301E);
  }

  lemma To983040(one: bv32)
    requires one == ONE && Power(one, 491520, 0xF014301E)
    ensures Power(one, 983040, 0xC18E0EBA)
  {
    Square(one, 491520, 0xF014301E, 0xC18E0EBA);
  }

  lemma To7864440(one: bv32)
    requires one == ONE && Power(one, 983055, 0x28545337)
    ensures Power(one, 7864440, 0x3878D0AF)
  {
    Square(one, 983055, 0x28545337, 0xE51741C2);
    Square(one, 1966110, 0xE51741C2, 0xBDB635EF);
    Square(one, 3932220, 0xBDB635EF, 0x3878D0AF);
  }

  // ---- periods ----

  /** k times n steps lead v back to itself. */
  ghost predicate Period(v: bv32, n: nat, k: nat) { Bits(v, n * k) == v }

  lemma {:induction false} PeriodTimes(v: bv32, n: nat, k: nat, j: nat)
    requires Period(v, n, k)
    ensures Period(v, n, k * j)
    decreases j
  {
    if j > 0 {
      PeriodTimes(v, n, k, j - 1);
      assert n * (k * j) == n * k + n * (k * (j - 1));
      BitsOfSum(v, n * k, n * (k * (j - 1)));
    }
  }

  lemma PeriodRest(v: bv32, n: nat, k: nat, j: nat)
    requires Period(v, n, k) && Period(v, n, k + j)
    ensures Period(v, n, j)
  {
    assert n * (k + j) == n * k + n * j;
    BitsOfSum(v, n * k, n * j);
  }

  /** A common divisor of two periods is one. */
  lemma {:induction false} CommonPeriod(v: bv32, n: nat, a: nat, b: nat) returns (g: nat, x: nat, y: nat)
    requires Period(v, n, a) && Period(v, n, b) && b > 0
    ensures Period(v, n, g) && a == g * x && b == g * y
    decreases b
  {
    var q, r := a / b, a % b;
    assert a == b * q + r;
    if r == 0 {
      g, x, y := b, q, 1;
    } else {
      PeriodTimes(v, n, b, q);
      PeriodRest(v, n, b * q, r);
      var z;
      g, y, z := CommonPeriod(v, n, b, r);
      x := y * q + z;
      assert g * x == (g * y) * q + g * z;
    }
  }

  /** No number from 2 up to n divides d. */
  predicate NoDivisor(d: nat, n: nat)
    decreases n
  {
    n < 2 || (d % n != 0 && NoDivisor(d, n - 1))
  }

  lemma {:induction false} NoneDivides(d: nat, n: nat, g: nat)
    requires NoDivisor(d, n) && 2 <= g <= n
    ensures d % g != 0
    decreases n
  {
    if g < n {
      NoneDivides(d, n - 1, g);
    }
  }

  lemma AtLeast(g: nat, k: int)
    ensures k >= 1 ==> g * k >= g
    ensures k <= -1 ==> g * k + g <= 0
  {
    assert g * k == g * (k - 1) + g == g * (k + 1) - g;
    if k >= 1 {
      assert g * (k - 1) >= 0;
    } else if k <= -1 {
      assert g * (k + 1) <= 0;
    }
  }

  lemma NoRest(d: nat, g: nat, x: nat)
    requires g > 0 && d == g * x
    ensures d % g == 0
  {
    var q, r := d / g, d % g;
    assert d == g * q + r;
    assert g * (x - q) == g * x - g * q == r;
    AtLeast(g, x - q);
  }

  lemma Grows(g: nat, x: nat, h: nat, y: nat)
    requires g >= h && x >= y
    ensures g * x >= h * y
  {
    assert g * x == h * y + (g - h) * x + h * (x - y);
    assert (g - h) * x >= 0 && h * (x - y) >= 0;
  }

  lemma NoDivisorTo64()
    ensures NoDivisor(65537, 64)
  {
    assert NoDivisor(65537, 16);
    assert NoDivisor(65537, 32);
    assert NoDivisor(65537, 48);
  }

  lemma NoDivisorTo128()
    ensures NoDivisor(65537, 128)
  {
    NoDivisorTo64();
    assert NoDivisor(65537, 80);
    assert NoDivisor(65537, 96);
    assert NoDivisor(65537, 112);
  }

  lemma NoDivisorTo192()
    ensures NoDivisor(65537, 192)
  {
    NoDivisorTo128();
    assert NoDivisor(65537, 144);
    assert NoDivisor(65537, 160);
    assert NoDivisor(65537, 176);
  }

  lemma NoSmallDivisor()
    ensures NoDivisor(65537, 256)
  {
    NoDivisorTo192();
    assert NoDivisor(65537, 208);
    assert NoDivisor(65537, 224);
    assert NoDivisor(65537, 240);
  }

  /** 65537 is a prime. */
  lemma Prime(g: nat, x: nat)
    requires g * x == 65537
    ensures g == 1 || g == 65537
  {
    NoSmallDivisor();
    if 2 <= g <= 256 {
      NoneDivides(65537, 256, g);
      NoRest(65537, g, x);
    } else if g > 256 {
      if x >= 256 {
        Grows(g, x, 257, 256);
      } else if x >= 2 {
        NoneDivides(65537, 256, x);
        NoRest(65537, x, g);
      }
    }
  }

  // ---- the register under bytes of ones ----

  const FIXED: bv32 := 0xB6D0_FDC0       // the one register that a byte of ones leaves as it is
  const OFFSET: bv32 := 0x492F_023F      // the start, seen from there

  lemma FixedStays()
    ensures Bits(0xB6D0_FD3F, 8) == FIXED
  {
  }

  lemma SeenFrom(c: bv32)
    ensures Plus(Mix(c, 0xFF), 0xB6D0_FD3F) == Plus(c, FIXED)
  {
  }

  /** Seen from the fixed register, a byte of ones is eight plain steps. */
  lemma OnesStep(c: bv32)
    ensures Plus(CrcByte(c, 0xFF), FIXED) == Bits(Plus(c, FIXED), 8)
  {
    FixedStays();
    SeenFrom(c);
    BitsOfPlus(Mix(c, 0xFF), 0xB6D0_FD3F, 8);
  }

  lemma {:induction false} OnesAre(start: bv32, s: seq<U8>)
    requires forall k :: 0 <= k < |s| ==> s[k] == 0xFF
    ensures Plus(Crc(start, s), FIXED) == Bits(Plus(start, FIXED), 8 * |s|)
    decreases |s|
  {
    if s != [] {
      var t := s[..|s| - 1];
      OnesAre(start, t);
      OnesStep(Crc(start, t));
      BitsOfSum(Plus(start, FIXED), 8 * |t|, 8);
    }
  }

  // ---- the periods of the start ----

  lemma FirstPowers(one: bv32)
    requires one == ONE
    ensures Power(one, 15, 0x00010000) && Power(one, 65535, 0xDC7B5C5F)
  {
    OneStep(one, 0, ONE, 0x40000000);
    To15(one);
    To127(one);
    To1023(one);
    To8191(one);
    To65535(one);
  }

  lemma PowerOrder(one: bv32)
    requires one == ONE
    ensures Power(one, 4294967295, ONE)
  {
    FirstPowers(one);
    To524287(one);
    To4194303(one);
    To33554431(one);
    To268435455(one);
    To2147483647(one);
    To4294967295(one);
  }

  lemma Power524280(one: bv32)
    requires one == ONE
    ensures Power(one, 524280, 0x904F86AE)
  {
    FirstPowers(one);
    To524280(one);
  }

  lemma Power983055(one: bv32)
    requires one == ONE
    ensures Power(one, 983055, 0x28545337)
  {
    FirstPowers(one);
    To120(one);
    To960(one);
    To7680(one);
    To61440(one);
    To491520(one);
    To983040(one);
    Product(one, 983040, 0xC18E0EBA, 15, 0x00010000, 0x28545337);
  }

  lemma Power7864440(one: bv32)
    requires one == ONE
    ensures Power(one, 7864440, 0x3878D0AF)
  {
    Power983055(one);
    To7864440(one);
  }

  /** The order of x leads every register back. */
  lemma BackAfterOrder(one: bv32, v: bv32)
    requires one == ONE
    ensures Bits(v, 4294967295) == v
  {
    PowerOrder(one);
    StepsAre(one, v, 4294967295, ONE);
    MulOne(v, 32);
  }

  /** These two powers do not lead the start back. */
  lemma NotBackAfter(one: bv32, v: bv32)
    requires one == ONE && v == OFFSET
    ensures Bits(v, 524280) != v && Bits(v, 7864440) != v
  {
    Power524280(one);
    Power7864440(one);
    StepsAre(one, v, 524280, 0x904F86AE);
    StepsAre(one, v, 7864440, 0x3878D0AF);
    assert Mul(0x492F_023F, 0x904F86AE) == 0x56A5F90B;
    assert Mul(0x492F_023F, 0x3878D0AF) == 0x2FAF60CA;
  }

  lemma WholeOrder(v: bv32, n: nat, k: nat)
    requires Bits(v, 4294967295) == v && n * k == 8 * 4294967295
    ensures Period(v, n, k)
  {
    assert Period(v, 4294967295, 1);
    PeriodTimes(v, 4294967295, 1, 8);
  }

  lemma Regrouped(v: bv32, n: nat, a: nat, b: nat)
    requires Period(v, 8, n) && 8 * (n * b) == a * n
    ensures Period(v, a, n)
  {
    PeriodTimes(v, 8, n, b);
  }

  lemma NotThese(x: nat)
    ensures 2 * x != 65535 && 4 * x != 65535 && 6 * x != 65535 && 7 * x != 65535
  {
  }

  /** What 65535 has in common with a number up to seven divides fifteen. */
  lemma SmallCommon(g: nat, x: nat, y: nat, z: nat)
    requires g * x == 65535 && g * z == y && 1 <= y <= 7
    ensures g == 1 || g == 3 || g == 5
  {
    if g > 7 {
      AtLeast(g, z);
    }
    NotThese(x);
    assert (g == 2 ==> g * x == 2 * x) && (g == 4 ==> g * x == 4 * x) && (g == 6 ==> g * x == 6 * x)
           && (g == 7 ==> g * x == 7 * x);
  }

  /** Up to seven times 65537 bytes. */
  lemma NoMultiple(one: bv32, v: bv32, y: nat)
    requires one == ONE && v == OFFSET && 1 <= y <= 7
    ensures !Period(v, 524296, y)
  {
    if Period(v, 524296, y) {
      BackAfterOrder(one, v);
      WholeOrder(v, 524296, 65535);
      var g, x, z := CommonPeriod(v, 524296, 65535, y);
      SmallCommon(g, x, y, z);
      PeriodTimes(v, 524296, g, if g == 1 then 15 else if g == 3 then 5 else 3);
      NotBackAfter(one, v);
    }
  }

  lemma NoPeriod(one: bv32, v: bv32, n: nat)
    requires one == ONE && v == OFFSET && 1 <= n <= APP_MAX
    ensures !Period(v, 8, n)
  {
    if Period(v, 8, n) {
      Regrouped(v, n, 524280, 65535);
      BackAfterOrder(one, v);
      WholeOrder(v, 524280, 65537);
      var g, x, y := CommonPeriod(v, 524280, 65537, n);
      Prime(g, x);
      if g == 65537 {
        assert 1 <= y <= 7 && 8 * n == 524296 * y;
        NoMultiple(one, v, y);
      } else {
        NotBackAfter(one, v);
      }
    }
  }

  /** No number of bytes of ones up to the size of the application area leads the register back to its start. */
  lemma NeverBack(s: seq<U8>)
    requires 1 <= |s| <= APP_MAX && forall k :: 0 <= k < |s| ==> s[k] == 0xFF
    ensures Crc(CRC_START, s) != CRC_START
  {
    OnesAre(CRC_START, s);
    NoPeriod(ONE, Plus(CRC_START, FIXED), |s|);
  }
}
