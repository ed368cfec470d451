/** Products and powers of x modulo the CRC polynomial as the code computes them, and the CRC of
    two parts from the CRCs of the parts. */
module CrcCombine {
  import opened Bits
  import opened Gf2
  import opened Gf2Powers
  import opened Crc

  type crc32 = x: bv64 | x < 0x1_0000_0000

  // ----- multmodp -----

  /** Coefficients that are all zero add nothing. */
  lemma {:induction false} MulRest(a: bv64, b: bv64, m: bv64, n: nat)
    requires Mask(m, n) && n > 0 && Below(a, m) == 0
    ensures MulFrom(a, b, m, n) == 0
    decreases n
  {
    hide Times, Xor, Pick, Half, Single, Below, Has;
    PickIs(a, b, m);
    NoBits(a, m);
    XorZero(0);
    if n > 1 {
      MulRest(a, Times(b), Half(m), n - 1);
    }
  }

  lemma {:induction false} TwoParts(a: bv64, m: bv64)
    ensures a & (m | (m - 1)) == 0 ==> a & m == 0 && a & (m - 1) == 0
    ensures a & (m | (m - 1)) != 0 ==> a & m != 0 || a & (m - 1) != 0
  {
  }

  /** The bits below m. */
  lemma {:induction false} HalfBelow(a: bv64, m: bv64)
    requires Single(m) && Single(Half(m))
    ensures Below(a, Half(m)) == a & (m - 1)
  {
    MaskBelow(m);
  }

  lemma {:induction false} NoBits(a: bv64, m: bv64)
    requires Single(m) && Below(a, m) == 0
    ensures !Has(a, m) && (Single(Half(m)) ==> Below(a, Half(m)) == 0)
  {
    hide Single, Half;
    TwoParts(a, m);
    if Single(Half(m)) {
      HalfBelow(a, m);
    }
  }

  /** What is left of a when the bit under m has been dealt with. */
  lemma {:induction false} BitsLeft(a: bv64, m: bv64, n: nat)
    requires Mask(m, n) && n > 0 && Below(a, m) != 0 && (!Has(a, m) || a & (m - 1) != 0)
    ensures n > 1 && Below(a, Half(m)) != 0
  {
    hide Single;
    TwoParts(a, m);
    assert a & (m - 1) != 0;
    if n == 1 {
      assert m == 1 by { LoneMask(m); }
      assert false;
    } else {
      assert Single(Half(m));
      HalfBelow(a, m);
    }
  }

  lemma {:induction false} LoneMask(m: bv64)
    requires Single(m) && Half(m) == 0
    ensures m == 1
  {
  }

  lemma {:induction false} LastBit(a: bv64, m: bv64, n: nat)
    requires Mask(m, n) && n > 1 && a & (m - 1) == 0
    ensures Below(a, Half(m)) == 0
  {
    assert Single(Half(m));
    MaskBelow(m);
  }

  lemma {:induction false} NonZero(a: crc32)
    requires a != 0
    ensures Below(a, ONE) != 0
  {
  }

  /** a times b; a must not be zero. */
  method MultModP(a: crc32, b: bv64) returns (p: bv64)
    requires a != 0
    ensures p == Mul(a, b)
  {
    hide MulFrom, Mask, Times, Xor, Pick, Half, Below, Has;
    MaskOne();
    NonZero(a);
    var m, c := ONE, b;
    p := 0;
    XorZero(Mul(a, b));
    ghost var n := 32;
    while true
      invariant n > 0 && Mask(m, n) && Below(a, m) != 0 && Xor(p, MulFrom(a, c, m, n)) == Mul(a, b)
      decreases n
    {
      MulStep(a, c, m, n, p);
      if Has(a, m) {
        p := Xor(p, c);
        if a & (m - 1) == 0 {
          MulLast(a, Times(c), m, n, p);
          break;
        }
      }
      BitsLeft(a, m, n);
      MaskHalf(m, n);
      m := Half(m);
      c := Times(c);
      n := n - 1;
    }
  }

  lemma {:induction false} MulStep(a: bv64, c: bv64, m: bv64, n: nat, p: bv64)
    requires n > 0
    ensures Xor(p, MulFrom(a, c, m, n)) == Xor(if Has(a, m) then Xor(p, c) else p, MulFrom(a, Times(c), Half(m), n - 1))
  {
    hide Times, Xor, Half, Has;
    var r := MulFrom(a, Times(c), Half(m), n - 1);
    XorAssociates(p, Pick(a, c, m), r);
    XorZero(p);
  }

  lemma {:induction false} MulLast(a: bv64, c: bv64, m: bv64, n: nat, p: bv64)
    requires Mask(m, n) && n > 0 && a & (m - 1) == 0
    ensures Xor(p, MulFrom(a, c, Half(m), n - 1)) == p
  {
    hide Times, Xor, Pick, Below;
    XorZero(p);
    if n > 1 {
      LastBit(a, m, n);
      MaskHalf(m, n);
      MulRest(a, c, Half(m), n - 1);
    } else {
      MulNone(a, c, Half(m));
    }
  }

  lemma {:induction false} MulNone(a: bv64, c: bv64, m: bv64)
    ensures MulFrom(a, c, m, 0) == 0
  {
  }

  lemma {:induction false} MaskHalf(m: bv64, n: nat)
    requires Mask(m, n) && n > 0
    ensures Mask(Half(m), n - 1)
  {
  }

  // ----- x2nmodp -----

  ghost predicate X2nTable(table: array<bv64>)
    reads table
  {
    table.Length == 32 && forall k :: 0 <= k < 32 ==> table[k] == X2n(k)
  }

  /** x2n_table by squaring. */
  method MakeX2n() returns (table: array<bv64>)
    ensures fresh(table) && X2nTable(table)
  {
    hide X2n, Mul;
    table := new bv64[32];
    var p: bv64 := 0x4000_0000;
    X2nFirst();
    table[0] := p;
    for n := 1 to 32
      invariant p == X2n(n - 1) && forall k :: 0 <= k < n ==> table[k] == X2n(k)
    {
      X2nNext(n - 1);
      p := MultModP(p, p);
      table[n] := p;
    }
  }

  /** The static table is the one that squaring makes. */
  method StaticX2n() returns (table: array<bv64>)
    ensures fresh(table) && X2nTable(table)
  {
    hide X2n, Entry;
    table := new bv64[32];
    for k := 0 to 32
      invariant forall i :: 0 <= i < k ==> table[i] == X2n(i)
    {
      TableIs(k);
      table[k] := Entry(k);
    }
  }

  lemma {:induction false} PowerStep(k: nat, e: nat)
    ensures Mul(X2n(k), XPow(e)) == XPow(e + Pow2(k)) && Is32(X2n(k)) && X2n(k) != 0
  {
    hide Mul, XPow, Pow2;
    PowerAdd(Pow2(k), e);
    X2nNext(k);
  }

  lemma {:induction false} ShlHalf(n: nat, k: nat)
    ensures Shl(n, k) == Shl(n / 2, k + 1) + (if n % 2 == 1 then Pow2(k) else 0)
  {
    hide Shl, Pow2;
    ShlAdd(2 * (n / 2), n % 2, k);
    ShlOne(k);
    assert n == 2 * (n / 2) + n % 2;
    assert Shl(2 * (n / 2), k) == Shl(n / 2, k + 1) by { ShlTwice(n / 2, k); }
  }

  lemma {:induction false} ShlTwice(v: nat, k: nat)
    ensures Shl(2 * v, k) == Shl(v, k + 1)
  {
    ShlShl(v, 1, k);
    assert Shl(v, 1) == 2 * Shl(v, 0);
  }

  /** x to the power n * 2^k. */
  method X2nModP(n: nat, k: nat, table: array<bv64>) returns (p: crc32)
    requires X2nTable(table)
    ensures p == XPow(Shl(n, k)) && p != 0
  {
    hide X2n, XPow, Shl, Mul, Pow2, Entry;
    ghost var e: nat := 0;
    var i, j := n, k;
    XPowFacts(0);
    p := ONE;
    while i > 0
      invariant i >= 0 && j >= 0 && p == XPow(e) && e + Shl(i, j) == Shl(n, k)
    {
      ShlHalf(i, j);
      if i % 2 == 1 {
        PowerStep(j, e);
        TableMod(j);
        TableIs(j % 32);
        e := e + Pow2(j);
        XPowFacts(e);
        p := MultModP(table[j % 32], p);
      }
      i := i / 2;
      j := j + 1;
    }
    ShlNothing(j);
    XPowFacts(e);
  }

  lemma {:induction false} ShlNothing(k: nat)
    ensures Shl(0, k) == 0
  {
    if k > 0 { ShlNothing(k - 1); }
  }

  lemma {:induction false} XPowFacts(n: nat)
    ensures Is32(XPow(n)) && XPow(n) != 0 && XPow(0) == ONE
  {
    hide Times;
    TimesNSmall(ONE, n);
  }

  // ----- crc32_combine64 -----

  /** The register after len2 zero bytes, plus the second CRC. */
  function Joined(crc1: bv64, crc2: bv64, len2: nat): (r: bv64)
  {
    Xor(TimesN(crc1, 8 * len2), crc2)
  }

  method Combine(crc1: crc32, crc2: crc32, len2: nat, table: array<bv64>) returns (r: bv64)
    requires X2nTable(table)
    ensures r == Joined(crc1, crc2, len2)
  {
    hide XPow, Mul, TimesN, Xor, Shl;
    var op := X2nModP(len2, 3, table);
    assert Shl(len2, 3) == 8 * len2 by { EightTimes(len2); }
    MulPower(8 * len2, crc1);
    var q := MultModP(op, crc1);
    r := Xor(q, crc2);
  }

  lemma {:induction false} EightTimes(n: nat)
    ensures Shl(n, 3) == 8 * n
  {
    assert Shl(n, 1) == 2 * n;
  }

  /** Combining the CRCs of two parts gives the CRC of the whole, for every length. */
  lemma {:induction false} CombineConcat(crc: bv64, x: seq<octet>, y: seq<octet>)
    ensures Joined(Crc.Checksum(crc, x), Crc.Checksum(0, y), |y|) == Crc.Checksum(crc, x + y)
  {
    hide Xor, TimesN, Reg;
    var ones := ONES;
    var r := Reg(Xor(crc, ones), x);
    var crc1, z := Xor(r, ones), TimesN(Xor(r, ones), 8 * |y|);
    RegConcat(Xor(crc, ones), x, y);
    XorZero(ones);
    XorCommutes(ones, crc1);
    XorAssociates(r, ones, ones);
    XorZero(r);
    RegXor(ones, crc1, y);
    var s := Reg(ones, y);
    XorAssociates(z, s, ones);
    XorCommutes(z, s);
  }
}
