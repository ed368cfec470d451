/** Polynomials over GF(2) modulo the CRC-32 polynomial, in the reflected form of the code: the
    lowest power in bit 31, so that multiplying by x shifts to the right. */
module Gf2 {

  const POLY: bv64 := 0xedb8_8320
  const ONE: bv64 := 0x8000_0000

  /** A polynomial of degree less than 32. */
  predicate Is32(a: bv64) { a < 0x1_0000_0000 }

  /** The sum of polynomials. */
  function Xor(a: bv64, b: bv64): (r: bv64) { a ^ b }

  function Half(m: bv64): (r: bv64) { m >> 1 }

  predicate Odd(a: bv64) { a & 1 == 1 }

  /** x times a. */
  function Times(a: bv64): (r: bv64) { if Odd(a) then Xor(Half(a), POLY) else Half(a) }

  /** x^n times a. */
  function TimesN(a: bv64, n: nat): (r: bv64)
    decreases n
  {
    if n == 0 then a else Times(TimesN(a, n - 1))
  }

  // ----- sums -----

  lemma {:induction false} XorZero(a: bv64)
    ensures Xor(a, 0) == a == Xor(0, a) && Xor(a, a) == 0
  {
  }

  lemma {:induction false} XorCommutes(a: bv64, b: bv64)
    ensures Xor(a, b) == Xor(b, a)
  {
  }

  lemma {:induction false} XorAssociates(a: bv64, b: bv64, c: bv64)
    ensures Xor(Xor(a, b), c) == Xor(a, Xor(b, c))
  {
    assert (a ^ b) ^ c == a ^ (b ^ c);
  }

  lemma {:induction false} XorSwap(a: bv64, b: bv64, c: bv64, d: bv64)
    ensures Xor(Xor(a, b), Xor(c, d)) == Xor(Xor(a, c), Xor(b, d))
  {
    hide Xor;
    XorAssociates(a, b, Xor(c, d));
    XorAssociates(b, c, d);
    XorCommutes(b, c);
    XorAssociates(c, b, d);
    XorAssociates(a, c, Xor(b, d));
  }

  lemma {:induction false} HalfXor(a: bv64, b: bv64)
    ensures Half(Xor(a, b)) == Xor(Half(a), Half(b))
  {
    assert (a ^ b) >> 1 == (a >> 1) ^ (b >> 1);
  }

  lemma {:induction false} OddXor(a: bv64, b: bv64)
    ensures Odd(Xor(a, b)) <==> Odd(a) != Odd(b)
  {
  }

  lemma {:induction false} TimesXor(a: bv64, b: bv64)
    ensures Times(Xor(a, b)) == Xor(Times(a), Times(b))
  {
    hide Xor, Half, Odd;
    var p := POLY;
    HalfXor(a, b);
    OddXor(a, b);
    var x, y := Half(a), Half(b);
    XorSwap(x, p, y, p);
    XorZero(p);
    XorZero(Xor(x, y));
    XorAssociates(x, y, p);
    XorAssociates(x, p, y);
    XorCommutes(p, y);
  }

  lemma {:induction false} TimesNXor(a: bv64, b: bv64, n: nat)
    ensures TimesN(Xor(a, b), n) == Xor(TimesN(a, n), TimesN(b, n))
  {
    hide Times, Xor;
    if n > 0 {
      TimesNXor(a, b, n - 1);
      TimesXor(TimesN(a, n - 1), TimesN(b, n - 1));
    }
  }

  lemma {:induction false} TimesNAdd(a: bv64, m: nat, n: nat)
    ensures TimesN(TimesN(a, m), n) == TimesN(a, m + n)
    decreases n
  {
    hide Times;
    if n > 0 { TimesNAdd(a, m, n - 1); }
  }

  lemma {:induction false} TimesNZero(n: nat)
    ensures TimesN(0, n) == 0
  {
    if n > 0 { TimesNZero(n - 1); }
  }

  /** Small polynomials stay small, and stay different from zero. */
  lemma {:induction false} TimesSmall(a: bv64)
    requires Is32(a)
    ensures Is32(Times(a)) && (a != 0 ==> Times(a) != 0)
  {
  }

  lemma {:induction false} TimesNSmall(a: bv64, n: nat)
    requires Is32(a)
    ensures Is32(TimesN(a, n)) && (a != 0 ==> TimesN(a, n) != 0)
  {
    hide Times, Is32;
    if n > 0 {
      TimesNSmall(a, n - 1);
      TimesSmall(TimesN(a, n - 1));
    }
  }

  // ----- products -----

  predicate Has(a: bv64, m: bv64) { a & m != 0 }

  /** b, if the coefficient of a under the mask is 1. */
  function Pick(a: bv64, b: bv64, m: bv64): (r: bv64) { if Has(a, m) then b else 0 }

  /** The coefficients of a, from the one under the mask m down, times b. */
  function MulFrom(a: bv64, b: bv64, m: bv64, n: nat): (r: bv64)
    decreases n
  {
    if n == 0 then 0 else Xor(Pick(a, b, m), MulFrom(a, Times(b), Half(m), n - 1))
  }

  function Mul(a: bv64, b: bv64): (r: bv64) { MulFrom(a, b, ONE, 32) }

  /** One bit. */
  predicate Single(m: bv64) { m != 0 && m & (m - 1) == 0 }

  /** m is the mask of the n-th bit from below. */
  predicate Mask(m: bv64, n: nat)
    decreases n
  {
    if n == 0 then m == 0 else Single(m) && Mask(Half(m), n - 1)
  }

  lemma {:induction false} MaskUp(m: bv64, n: nat)
    requires Mask(m, n) && Single(m) && m < 0x1000_0000_0000_0000
    ensures Mask(m << 1, n + 1) && Single(m << 1)
  {
    assert Half(m << 1) == m;
    assert (m << 1) & ((m << 1) - 1) == 0;
  }

  lemma {:induction false} MaskOne()
    ensures Mask(ONE, 32)
  {
    assert Mask(1, 1);
    MaskUp4(1, 1);
    MaskUp4(0x10, 5);
    MaskUp4(0x100, 9);
    MaskUp4(0x1000, 13);
    MaskUp4(0x1_0000, 17);
    MaskUp4(0x10_0000, 21);
    MaskUp4(0x100_0000, 25);
    MaskUp(0x1000_0000, 29);
    MaskUp(0x2000_0000, 30);
    MaskUp(0x4000_0000, 31);
  }

  lemma {:induction false} MaskUp4(m: bv64, n: nat)
    requires Mask(m, n) && Single(m) && m < 0x100_0000_0000_0000
    ensures Mask(m << 4, n + 4) && Single(m << 4)
  {
    hide Mask, Single;
    MaskUp(m, n);
    MaskUp(m << 1, n + 1);
    assert (m << 1) << 1 == m << 2;
    MaskUp(m << 2, n + 2);
    assert (m << 2) << 1 == m << 3;
    MaskUp(m << 3, n + 3);
    assert (m << 3) << 1 == m << 4;
  }

  lemma {:induction false} MulFromXor(a: bv64, b: bv64, c: bv64, m: bv64, n: nat)
    ensures MulFrom(a, Xor(b, c), m, n) == Xor(MulFrom(a, b, m, n), MulFrom(a, c, m, n))
    decreases n
  {
    hide Times, Xor, Has, Half;
    XorZero(0);
    if n > 0 {
      var u, v := MulFrom(a, Times(b), Half(m), n - 1), MulFrom(a, Times(c), Half(m), n - 1);
      TimesXor(b, c);
      MulFromXor(a, Times(b), Times(c), Half(m), n - 1);
      XorSwap(b, c, u, v);
      XorSwap(0, 0, u, v);
    }
  }

  lemma {:induction false} TimesZero()
    ensures Times(0) == 0
  {
  }

  lemma {:induction false} MulFromTimes(a: bv64, b: bv64, m: bv64, n: nat)
    ensures MulFrom(a, Times(b), m, n) == Times(MulFrom(a, b, m, n))
    decreases n
  {
    hide Times, Xor, Has, Half;
    TimesZero();
    if n > 0 {
      MulFromTimes(a, Times(b), Half(m), n - 1);
      TimesXor(Pick(a, b, m), MulFrom(a, Times(b), Half(m), n - 1));
    }
  }

  function And(a: bv64, m: bv64): (r: bv64) { a & m }

  lemma {:induction false} BitXor(a: bv64, c: bv64, m: bv64)
    requires m & (m - 1) == 0
    ensures (a ^ c) & m != 0 <==> (a & m != 0) != (c & m != 0)
  {
  }

  lemma {:induction false} AndSingle(a: bv64, m: bv64)
    requires Single(m)
    ensures And(a, m) == if Has(a, m) then m else 0
  {
  }

  lemma {:induction false} PickXor(a: bv64, c: bv64, b: bv64, m: bv64)
    requires Single(m)
    ensures Pick(Xor(a, c), b, m) == Xor(Pick(a, b, m), Pick(c, b, m))
  {
    hide Xor, Has, Single;
    HasXor(a, c, m);
    XorZero(b);
    XorZero(0);
  }

  lemma {:induction false} HasXor(a: bv64, c: bv64, m: bv64)
    requires Single(m)
    ensures Has(Xor(a, c), m) <==> Has(a, m) != Has(c, m)
  {
    BitXor(a, c, m);
  }

  lemma {:induction false} MulFromXorLeft(a: bv64, c: bv64, b: bv64, m: bv64, n: nat)
    requires Mask(m, n)
    ensures MulFrom(Xor(a, c), b, m, n) == Xor(MulFrom(a, b, m, n), MulFrom(c, b, m, n))
    decreases n
  {
    hide Times, Xor, Pick, Half, Single;
    if n == 0 {
      XorZero(0);
    } else {
      var u, v := MulFrom(a, Times(b), Half(m), n - 1), MulFrom(c, Times(b), Half(m), n - 1);
      MulFromXorLeft(a, c, Times(b), Half(m), n - 1);
      PickXor(a, c, b, m);
      XorSwap(Pick(a, b, m), Pick(c, b, m), u, v);
    }
  }

  /** The bits of a under m and below. */
  function Below(a: bv64, m: bv64): (r: bv64) { a & (m | (m - 1)) }

  /** a times 1 is a. */
  lemma {:induction false} MulFromMask(a: bv64, m: bv64, n: nat)
    requires Mask(m, n) && n > 0
    ensures MulFrom(a, m, m, n) == Below(a, m)
    decreases n
  {
    hide Times, Xor, Has, Half, Single, Below;
    if n == 1 {
      OneMask(a, m);
      XorZero(m);
      XorZero(0);
    } else {
      EvenMask(a, m);
      MulFromMask(a, Half(m), n - 1);
    }
  }

  lemma {:induction false} OneMask(a: bv64, m: bv64)
    requires Single(m) && Half(m) == 0
    ensures Below(a, m) == if Has(a, m) then m else 0
  {
    assert m == 1;
    assert a & 1 == 1 || a & 1 == 0;
  }

  lemma {:induction false} EvenMask(a: bv64, m: bv64)
    requires Single(m) && Single(Half(m))
    ensures Times(m) == Half(m)
    ensures Xor(if Has(a, m) then m else 0, Below(a, Half(m))) == Below(a, m)
  {
    hide Xor;
    assert !Odd(m) by { EvenBit(m); }
    MaskBelow(m);
    AndSingle(a, m);
    assert Below(a, m) == Xor(And(a, m), And(a, m - 1)) by { MaskSplit(a, m); }
  }

  lemma {:induction false} EvenBit(m: bv64)
    requires m & (m - 1) == 0 && m >> 1 != 0
    ensures m & 1 == 0
  {
  }

  lemma {:induction false} MaskBelow(m: bv64)
    requires m & (m - 1) == 0 && m >> 1 != 0
    ensures (m >> 1) | ((m >> 1) - 1) == m - 1
  {
  }

  lemma {:induction false} MaskSplit(a: bv64, m: bv64)
    requires m & (m - 1) == 0
    ensures Xor(And(a, m), And(a, m - 1)) == a & (m | (m - 1))
  {
  }

  lemma {:induction false} MulOne(a: bv64)
    requires Is32(a)
    ensures Mul(a, ONE) == a
  {
    hide MulFrom, Mask;
    MaskOne();
    MulFromMask(a, ONE, 32);
  }

  /** Multiplying by a goes through sums and powers of x. */
  lemma {:induction false} MulThrough(a: bv64, b: bv64, c: bv64, m: bv64, n: nat)
    ensures Mul(a, MulFrom(b, c, m, n)) == MulFrom(b, Mul(a, c), m, n)
    decreases n
  {
    hide Times, Xor, Has, Half;
    if n == 0 {
      MulNothing(a, ONE, 32);
    } else {
      var t, u := Pick(b, c, m), MulFrom(b, Times(c), Half(m), n - 1);
      MulThrough(a, b, Times(c), Half(m), n - 1);
      MulFromTimes(a, c, ONE, 32);
      MulFromXor(a, t, u, ONE, 32);
      MulNothing(a, ONE, 32);
    }
  }

  lemma {:induction false} MulNothing(a: bv64, m: bv64, n: nat)
    ensures MulFrom(a, 0, m, n) == 0
    decreases n
  {
    hide Times, Xor, Has, Half;
    TimesZero();
    XorZero(0);
    if n > 0 { MulNothing(a, Half(m), n - 1); }
  }

  /** Products commute. */
  lemma {:induction false} MulCommutes(a: bv64, b: bv64)
    requires Is32(a) && Is32(b)
    ensures Mul(a, b) == Mul(b, a)
  {
    hide MulFrom;
    MulOne(a);
    MulOne(b);
    MulThrough(a, b, ONE, ONE, 32);
  }

  /** Products associate. */
  lemma {:induction false} MulAssociates(a: bv64, b: bv64, c: bv64)
    requires Is32(a) && Is32(b) && Is32(c)
    ensures Mul(a, Mul(b, c)) == Mul(Mul(a, b), c)
  {
    hide MulFrom;
    MulThrough(a, c, b, ONE, 32);
    MulCommutes(b, c);
    MulSmall(a, b);
    MulCommutes(Mul(a, b), c);
  }

  lemma {:induction false} MulFromSmall(a: bv64, b: bv64, m: bv64, n: nat)
    requires Is32(b)
    ensures Is32(MulFrom(a, b, m, n))
    decreases n
  {
    hide Times, Xor, Has, Half;
    if n > 0 {
      TimesSmall(b);
      MulFromSmall(a, Times(b), Half(m), n - 1);
      XorSmall(Pick(a, b, m), MulFrom(a, Times(b), Half(m), n - 1));
    }
  }

  lemma {:induction false} XorSmall(a: bv64, b: bv64)
    requires Is32(a) && Is32(b)
    ensures Is32(Xor(a, b))
  {
  }

  lemma {:induction false} MulSmall(a: bv64, b: bv64)
    requires Is32(b)
    ensures Is32(Mul(a, b))
  {
    hide MulFrom, Is32;
    MulFromSmall(a, b, ONE, 32);
  }

  // ----- powers of x -----

  function XPow(n: nat): (r: bv64) { TimesN(ONE, n) }

  lemma {:induction false} MulTimesN(a: bv64, b: bv64, n: nat)
    ensures Mul(a, TimesN(b, n)) == TimesN(Mul(a, b), n)
  {
    hide Times, MulFrom;
    if n > 0 {
      MulTimesN(a, b, n - 1);
      MulFromTimes(a, TimesN(b, n - 1), ONE, 32);
    }
  }

  /** Multiplying by x^n is n steps. */
  lemma {:induction false} MulPower(n: nat, b: bv64)
    requires Is32(b)
    ensures Is32(XPow(n)) && XPow(n) != 0 && Mul(XPow(n), b) == TimesN(b, n)
  {
    hide TimesN, Mul;
    TimesNSmall(ONE, n);
    MulCommutes(XPow(n), b);
    MulTimesN(b, ONE, n);
    MulOne(b);
  }

  /** Exponents add. */
  lemma {:induction false} PowerAdd(m: nat, n: nat)
    ensures Mul(XPow(m), XPow(n)) == XPow(m + n)
  {
    hide TimesN, Mul;
    TimesNSmall(ONE, n);
    MulPower(m, XPow(n));
    TimesNAdd(ONE, n, m);
  }
}
