/** Powers x^(2^k): squaring as a sum of constants, the table of these powers, and the
    return to x after 32 squarings. */
module Gf2Powers {
  import opened Bits
  import opened Gf2

  // ----- squares -----

  /** The coefficients of a, from the one under the mask m down, times even powers from b on. */
  function SquareFrom(a: bv64, b: bv64, m: bv64, n: nat): (r: bv64)
    decreases n
  {
    if n == 0 then 0 else Xor(Pick(a, b, m), SquareFrom(a, Times(Times(b)), Half(m), n - 1))
  }

  /** Squaring a sum squares its terms. */
  lemma {:induction false} SquareXor(a: bv64, b: bv64)
    requires Is32(a) && Is32(b)
    ensures Mul(Xor(a, b), Xor(a, b)) == Xor(Mul(a, a), Mul(b, b))
  {
    hide MulFrom, Xor, Mask;
    MaskOne();
    MulFromXorLeft(a, b, Xor(a, b), ONE, 32);
    MulFromXor(a, a, b, ONE, 32);
    MulFromXor(b, a, b, ONE, 32);
    MulCommutes(a, b);
    var c := Mul(a, b);
    XorSwap(Mul(a, a), c, c, Mul(b, b));
    XorCommutes(c, Mul(b, b));
    XorSwap(Mul(a, a), c, Mul(b, b), c);
    XorZero(c);
    XorZero(Xor(Mul(a, a), Mul(b, b)));
  }

  lemma {:induction false} SquarePick(a: bv64, b: bv64, m: bv64)
    ensures Mul(Pick(a, b, m), Pick(a, b, m)) == Pick(a, Mul(b, b), m)
  {
    hide MulFrom;
    MulNothing(0, ONE, 32);
  }

  lemma {:induction false} SquareTimes(b: bv64)
    requires Is32(b)
    ensures Mul(Times(b), Times(b)) == Times(Times(Mul(b, b)))
  {
    hide MulFrom, Times;
    TimesSmall(b);
    MulFromTimes(Times(b), b, ONE, 32);
    MulCommutes(Times(b), b);
    MulFromTimes(b, b, ONE, 32);
  }

  lemma {:induction false} HalfSmall(m: bv64)
    requires Is32(m)
    ensures Is32(Half(m))
  {
  }

  lemma {:induction false} PickSmall(a: bv64, m: bv64)
    requires Is32(m) && Single(Half(m))
    ensures Is32(Pick(a, m, m)) && Is32(Below(a, Half(m))) && Is32(Below(a, m))
  {
  }

  lemma {:induction false} SquareIs(a: bv64, m: bv64, n: nat)
    requires Mask(m, n) && n > 0 && Is32(m)
    ensures Mul(Below(a, m), Below(a, m)) == SquareFrom(a, Mul(m, m), m, n)
    decreases n
  {
    hide Mul, Times, Xor, Pick, Half, Single, Below, Is32;
    if n == 1 {
      OneMask(a, m);
      assert Below(a, m) == Pick(a, m, m) by { PickIs(a, m, m); }
      SquarePick(a, m, m);
      XorZero(Pick(a, Mul(m, m), m));
    } else {
      EvenMask(a, m);
      HalfSmall(m);
      PickSmall(a, m);
      PickIs(a, m, m);
      SquareIs(a, Half(m), n - 1);
      SquareXor(Pick(a, m, m), Below(a, Half(m)));
      SquarePick(a, m, m);
      SquareTimes(m);
    }
  }

  lemma {:induction false} PickIs(a: bv64, b: bv64, m: bv64)
    ensures Pick(a, b, m) == if Has(a, m) then b else 0
  {
  }

  lemma {:induction false} Square(a: bv64)
    requires Is32(a)
    ensures Mul(a, a) == SquareFrom(a, ONE, ONE, 32)
  {
    hide MulFrom, Mask, SquareFrom;
    MaskOne();
    SquareIs(a, ONE, 32);
    MulOne(ONE);
  }

  // ----- squares by constants -----

  lemma {:induction false} SquareStep(a: bv64, b: bv64, m: bv64, n: nat, b': bv64, m': bv64)
    requires n > 0 && Times(Times(b)) == b' && m >> 1 == m'
    ensures SquareFrom(a, b, m, n) == (if a & m != 0 then b else 0) ^ SquareFrom(a, b', m', n - 1)
  {
    hide Times;
  }

  lemma {:induction false} OneStep(b: bv64, b': bv64)
    requires b' == if b & 1 == 1 then (b >> 1) ^ POLY else b >> 1
    ensures Times(b) == b'
  {
  }

  lemma {:induction false} TwoSteps(b: bv64, b': bv64, b'': bv64)
    requires b' == (if b & 1 == 1 then (b >> 1) ^ POLY else b >> 1) && b'' == (if b' & 1 == 1 then (b' >> 1) ^ POLY else b' >> 1)
    ensures Times(Times(b)) == b''
  {
    hide Times;
    OneStep(b, b');
    OneStep(b', b'');
  }

  lemma {:induction false} SquareBits0(a: bv64, rest: bv64)
    requires rest == SquareFrom(a, 0x00800000, 0x08000000, 28)
    ensures SquareFrom(a, 0x80000000, 0x80000000, 32) ==
      (if a & 0x80000000 != 0 then 0x80000000 else 0) ^
      ((if a & 0x40000000 != 0 then 0x20000000 else 0) ^
      ((if a & 0x20000000 != 0 then 0x08000000 else 0) ^
      ((if a & 0x10000000 != 0 then 0x02000000 else 0) ^ rest)))
  {
    hide Times, SquareFrom;
    TwoSteps(0x80000000, 0x40000000, 0x20000000);
    SquareStep(a, 0x80000000, 0x80000000, 32, 0x20000000, 0x40000000);
    TwoSteps(0x20000000, 0x10000000, 0x08000000);
    SquareStep(a, 0x20000000, 0x40000000, 31, 0x08000000, 0x20000000);
    TwoSteps(0x08000000, 0x04000000, 0x02000000);
    SquareStep(a, 0x08000000, 0x20000000, 30, 0x02000000, 0x10000000);
    TwoSteps(0x02000000, 0x01000000, 0x00800000);
    SquareStep(a, 0x02000000, 0x10000000, 29, 0x00800000, 0x08000000);
  }

  lemma {:induction false} SquareBits1(a: bv64, rest: bv64)
    requires rest == SquareFrom(a, 0x00008000, 0x00800000, 24)
    ensures SquareFrom(a, 0x00800000, 0x08000000, 28) ==
      (if a & 0x08000000 != 0 then 0x00800000 else 0) ^
      ((if a & 0x04000000 != 0 then 0x00200000 else 0) ^
      ((if a & 0x02000000 != 0 then 0x00080000 else 0) ^
      ((if a & 0x01000000 != 0 then 0x00020000 else 0) ^ rest)))
  {
    hide Times, SquareFrom;
    TwoSteps(0x00800000, 0x00400000, 0x00200000);
    SquareStep(a, 0x00800000, 0x08000000, 28, 0x00200000, 0x04000000);
    TwoSteps(0x00200000, 0x00100000, 0x00080000);
    SquareStep(a, 0x00200000, 0x04000000, 27, 0x00080000, 0x02000000);
    TwoSteps(0x00080000, 0x00040000, 0x00020000);
    SquareStep(a, 0x00080000, 0x02000000, 26, 0x00020000, 0x01000000);
    TwoSteps(0x00020000, 0x00010000, 0x00008000);
    SquareStep(a, 0x00020000, 0x01000000, 25, 0x00008000, 0x00800000);
  }

  lemma {:induction false} SquareBits2(a: bv64, rest: bv64)
    requires rest == SquareFrom(a, 0x00000080, 0x00080000, 20)
    ensures SquareFrom(a, 0x00008000, 0x00800000, 24) ==
      (if a & 0x00800000 != 0 then 0x00008000 else 0) ^
      ((if a & 0x00400000 != 0 then 0x00002000 else 0) ^
      ((if a & 0x00200000 != 0 then 0x00000800 else 0) ^
      ((if a & 0x00100000 != 0 then 0x00000200 else 0) ^ rest)))
  {
    hide Times, SquareFrom;
    TwoSteps(0x00008000, 0x00004000, 0x00002000);
    SquareStep(a, 0x00008000, 0x00800000, 24, 0x00002000, 0x00400000);
    TwoSteps(0x00002000, 0x00001000, 0x00000800);
    SquareStep(a, 0x00002000, 0x00400000, 23, 0x00000800, 0x00200000);
    TwoSteps(0x00000800, 0x00000400, 0x00000200);
    SquareStep(a, 0x00000800, 0x00200000, 22, 0x00000200, 0x00100000);
    TwoSteps(0x00000200, 0x00000100, 0x00000080);
    SquareStep(a, 0x00000200, 0x00100000, 21, 0x00000080, 0x00080000);
  }

  lemma {:induction false} SquareBits3(a: bv64, rest: bv64)
    requires rest == SquareFrom(a, 0xedb88320, 0x00008000, 16)
    ensures SquareFrom(a, 0x00000080, 0x00080000, 20) ==
      (if a & 0x00080000 != 0 then 0x00000080 else 0) ^
      ((if a & 0x00040000 != 0 then 0x00000020 else 0) ^
      ((if a & 0x00020000 != 0 then 0x00000008 else 0) ^
      ((if a & 0x00010000 != 0 then 0x00000002 else 0) ^ rest)))
  {
    hide Times, SquareFrom;
    TwoSteps(0x00000080, 0x00000040, 0x00000020);
    SquareStep(a, 0x00000080, 0x00080000, 20, 0x00000020, 0x00040000);
    TwoSteps(0x00000020, 0x00000010, 0x00000008);
    SquareStep(a, 0x00000020, 0x00040000, 19, 0x00000008, 0x00020000);
    TwoSteps(0x00000008, 0x00000004, 0x00000002);
    SquareStep(a, 0x00000008, 0x00020000, 18, 0x00000002, 0x00010000);
    TwoSteps(0x00000002, 0x00000001, 0xedb88320);
    SquareStep(a, 0x00000002, 0x00010000, 17, 0xedb88320, 0x00008000);
  }

  lemma {:induction false} SquareBits4(a: bv64, rest: bv64)
    requires rest == SquareFrom(a, 0x3b83984b, 0x00000800, 12)
    ensures SquareFrom(a, 0xedb88320, 0x00008000, 16) ==
      (if a & 0x00008000 != 0 then 0xedb88320 else 0) ^
      ((if a & 0x00004000 != 0 then 0x3b6e20c8 else 0) ^
      ((if a & 0x00002000 != 0 then 0x0edb8832 else 0) ^
      ((if a & 0x00001000 != 0 then 0xee0e612c else 0) ^ rest)))
  {
    hide Times, SquareFrom;
    TwoSteps(0xedb88320, 0x76dc4190, 0x3b6e20c8);
    SquareStep(a, 0xedb88320, 0x00008000, 16, 0x3b6e20c8, 0x00004000);
    TwoSteps(0x3b6e20c8, 0x1db71064, 0x0edb8832);
    SquareStep(a, 0x3b6e20c8, 0x00004000, 15, 0x0edb8832, 0x00002000);
    TwoSteps(0x0edb8832, 0x076dc419, 0xee0e612c);
    SquareStep(a, 0x0edb8832, 0x00002000, 14, 0xee0e612c, 0x00001000);
    TwoSteps(0xee0e612c, 0x77073096, 0x3b83984b);
    SquareStep(a, 0xee0e612c, 0x00001000, 13, 0x3b83984b, 0x00000800);
  }

  lemma {:induction false} SquareBits5(a: bv64, rest: bv64)
    requires rest == SquareFrom(a, 0xe1351b80, 0x00000080, 8)
    ensures SquareFrom(a, 0x3b83984b, 0x00000800, 12) ==
      (if a & 0x00000800 != 0 then 0x3b83984b else 0) ^
      ((if a & 0x00000400 != 0 then 0x958424a2 else 0) ^
      ((if a & 0x00000200 != 0 then 0xc8d98a08 else 0) ^
      ((if a & 0x00000100 != 0 then 0x32366282 else 0) ^ rest)))
  {
    hide Times, SquareFrom;
    TwoSteps(0x3b83984b, 0xf0794f05, 0x958424a2);
    SquareStep(a, 0x3b83984b, 0x00000800, 12, 0x958424a2, 0x00000400);
    TwoSteps(0x958424a2, 0x4ac21251, 0xc8d98a08);
    SquareStep(a, 0x958424a2, 0x00000400, 11, 0xc8d98a08, 0x00000200);
    TwoSteps(0xc8d98a08, 0x646cc504, 0x32366282);
    SquareStep(a, 0xc8d98a08, 0x00000200, 10, 0x32366282, 0x00000100);
    TwoSteps(0x32366282, 0x191b3141, 0xe1351b80);
    SquareStep(a, 0x32366282, 0x00000100, 9, 0xe1351b80, 0x00000080);
  }

  lemma {:induction false} SquareBits6(a: bv64, rest: bv64)
    requires rest == SquareFrom(a, 0xed59b63b, 0x00000008, 4)
    ensures SquareFrom(a, 0xe1351b80, 0x00000080, 8) ==
      (if a & 0x00000080 != 0 then 0xe1351b80 else 0) ^
      ((if a & 0x00000040 != 0 then 0x384d46e0 else 0) ^
      ((if a & 0x00000020 != 0 then 0x0e1351b8 else 0) ^
      ((if a & 0x00000010 != 0 then 0x0384d46e else 0) ^ rest)))
  {
    hide Times, SquareFrom;
    TwoSteps(0xe1351b80, 0x709a8dc0, 0x384d46e0);
    SquareStep(a, 0xe1351b80, 0x00000080, 8, 0x384d46e0, 0x00000040);
    TwoSteps(0x384d46e0, 0x1c26a370, 0x0e1351b8);
    SquareStep(a, 0x384d46e0, 0x00000040, 7, 0x0e1351b8, 0x00000020);
    TwoSteps(0x0e1351b8, 0x0709a8dc, 0x0384d46e);
    SquareStep(a, 0x0e1351b8, 0x00000020, 6, 0x0384d46e, 0x00000010);
    TwoSteps(0x0384d46e, 0x01c26a37, 0xed59b63b);
    SquareStep(a, 0x0384d46e, 0x00000010, 5, 0xed59b63b, 0x00000008);
  }

  lemma {:induction false} SquareBits7(a: bv64, rest: bv64)
    requires rest == SquareFrom(a, 0xb1e6b092, 0x00000000, 0)
    ensures SquareFrom(a, 0xed59b63b, 0x00000008, 4) ==
      (if a & 0x00000008 != 0 then 0xed59b63b else 0) ^
      ((if a & 0x00000004 != 0 then 0xa032af3e else 0) ^
      ((if a & 0x00000002 != 0 then 0xc5b428ef else 0) ^
      ((if a & 0x00000001 != 0 then 0xaa09c88b else 0) ^ rest)))
  {
    hide Times, SquareFrom;
    TwoSteps(0xed59b63b, 0x9b14583d, 0xa032af3e);
    SquareStep(a, 0xed59b63b, 0x00000008, 4, 0xa032af3e, 0x00000004);
    TwoSteps(0xa032af3e, 0x5019579f, 0xc5b428ef);
    SquareStep(a, 0xa032af3e, 0x00000004, 3, 0xc5b428ef, 0x00000002);
    TwoSteps(0xc5b428ef, 0x8f629757, 0xaa09c88b);
    SquareStep(a, 0xc5b428ef, 0x00000002, 2, 0xaa09c88b, 0x00000001);
    TwoSteps(0xaa09c88b, 0xb8bc6765, 0xb1e6b092);
    SquareStep(a, 0xaa09c88b, 0x00000001, 1, 0xb1e6b092, 0x00000000);
  }

  /** The table x2n_table: x^(2^k). */
  const X2N: seq<bv64> := [
    0x40000000, 0x20000000, 0x08000000, 0x00800000,
    0x00008000, 0xedb88320, 0xb1e6b092, 0xa06a2517,
    0xed627dae, 0x88d14467, 0xd7bbfe6a, 0xec447f11,
    0x8e7ea170, 0x6427800e, 0x4d47bae0, 0x09fe548f,
    0x83852d0f, 0x30362f1a, 0x7b5a9cc3, 0x31fec169,
    0x9fec022a, 0x6c8dedc4, 0x15d6874d, 0x5fde7a4e,
    0xbad90e37, 0x2e4e5eef, 0x4eaba214, 0xa8a472c0,
    0x429a969e, 0x148d302a, 0xc40ba6d0, 0xc4e22c3c
  ]

  lemma {:induction false} SquareEnd(a: bv64)
    ensures SquareFrom(a, 0xb1e6b092, 0, 0) == 0
  {
  }

  /** The square of a, from the sums of its coefficients by fours. */
  lemma {:induction false} SquareOf(a: bv64, s7: bv64, s6: bv64, s5: bv64, s4: bv64, s3: bv64, s2: bv64, s1: bv64, s0: bv64)
    requires Is32(a)
    requires s7 == (if a & 0x00000008 != 0 then 0xed59b63b else 0) ^ ((if a & 0x00000004 != 0 then 0xa032af3e else 0) ^ ((if a & 0x00000002 != 0 then 0xc5b428ef else 0) ^ ((if a & 0x00000001 != 0 then 0xaa09c88b else 0) ^ 0)))
    requires s6 == (if a & 0x00000080 != 0 then 0xe1351b80 else 0) ^ ((if a & 0x00000040 != 0 then 0x384d46e0 else 0) ^ ((if a & 0x00000020 != 0 then 0x0e1351b8 else 0) ^ ((if a & 0x00000010 != 0 then 0x0384d46e else 0) ^ s7)))
    requires s5 == (if a & 0x00000800 != 0 then 0x3b83984b else 0) ^ ((if a & 0x00000400 != 0 then 0x958424a2 else 0) ^ ((if a & 0x00000200 != 0 then 0xc8d98a08 else 0) ^ ((if a & 0x00000100 != 0 then 0x32366282 else 0) ^ s6)))
    requires s4 == (if a & 0x00008000 != 0 then 0xedb88320 else 0) ^ ((if a & 0x00004000 != 0 then 0x3b6e20c8 else 0) ^ ((if a & 0x00002000 != 0 then 0x0edb8832 else 0) ^ ((if a & 0x00001000 != 0 then 0xee0e612c else 0) ^ s5)))
    requires s3 == (if a & 0x00080000 != 0 then 0x00000080 else 0) ^ ((if a & 0x00040000 != 0 then 0x00000020 else 0) ^ ((if a & 0x00020000 != 0 then 0x00000008 else 0) ^ ((if a & 0x00010000 != 0 then 0x00000002 else 0) ^ s4)))
    requires s2 == (if a & 0x00800000 != 0 then 0x00008000 else 0) ^ ((if a & 0x00400000 != 0 then 0x00002000 else 0) ^ ((if a & 0x00200000 != 0 then 0x00000800 else 0) ^ ((if a & 0x00100000 != 0 then 0x00000200 else 0) ^ s3)))
    requires s1 == (if a & 0x08000000 != 0 then 0x00800000 else 0) ^ ((if a & 0x04000000 != 0 then 0x00200000 else 0) ^ ((if a & 0x02000000 != 0 then 0x00080000 else 0) ^ ((if a & 0x01000000 != 0 then 0x00020000 else 0) ^ s2)))
    requires s0 == (if a & 0x80000000 != 0 then 0x80000000 else 0) ^ ((if a & 0x40000000 != 0 then 0x20000000 else 0) ^ ((if a & 0x20000000 != 0 then 0x08000000 else 0) ^ ((if a & 0x10000000 != 0 then 0x02000000 else 0) ^ s1)))
    ensures Mul(a, a) == s0
  {
    hide SquareFrom, Mul;
    SquareEnd(a);
    SquareBits7(a, 0);
    SquareBits6(a, s7);
    SquareBits5(a, s6);
    SquareBits4(a, s5);
    SquareBits3(a, s4);
    SquareBits2(a, s3);
    SquareBits1(a, s2);
    SquareBits0(a, s1);
    Square(a);
  }

  lemma {:induction false} Squares0()
    ensures Mul(0x40000000, 0x40000000) == 0x20000000
    ensures Mul(0x20000000, 0x20000000) == 0x08000000
    ensures Mul(0x08000000, 0x08000000) == 0x00800000
    ensures Mul(0x00800000, 0x00800000) == 0x00008000
    ensures Mul(0x00008000, 0x00008000) == 0xedb88320
    ensures Mul(0xedb88320, 0xedb88320) == 0xb1e6b092
    ensures Mul(0xb1e6b092, 0xb1e6b092) == 0xa06a2517
    ensures Mul(0xa06a2517, 0xa06a2517) == 0xed627dae
  {
    hide Mul;
    SquareOf(0x40000000, 0x00000000, 0x00000000, 0x00000000, 0x00000000, 0x00000000, 0x00000000, 0x00000000, 0x20000000);
    SquareOf(0x20000000, 0x00000000, 0x00000000, 0x00000000, 0x00000000, 0x00000000, 0x00000000, 0x00000000, 0x08000000);
    SquareOf(0x08000000, 0x00000000, 0x00000000, 0x00000000, 0x00000000, 0x00000000, 0x00000000, 0x00800000, 0x00800000);
    SquareOf(0x00800000, 0x00000000, 0x00000000, 0x00000000, 0x00000000, 0x00000000, 0x00008000, 0x00008000, 0x00008000);
    SquareOf(0x00008000, 0x00000000, 0x00000000, 0x00000000, 0xedb88320, 0xedb88320, 0xedb88320, 0xedb88320, 0xedb88320);
    SquareOf(0xedb88320, 0x00000000, 0x0e1351b8, 0xf4fcb932, 0x19443a12, 0x19443a92, 0x1944b092, 0x19e6b092, 0xb1e6b092);
    SquareOf(0xb1e6b092, 0xc5b428ef, 0x2705e701, 0x2705e701, 0x2a688d3f, 0x2a688d17, 0x2a682517, 0x2a6a2517, 0xa06a2517);
    SquareOf(0xa06a2517, 0xcf8f4f5a, 0xcc0b9b34, 0x6bb9dd14, 0x65625526, 0x656255ae, 0x65627dae, 0x65627dae, 0xed627dae);
  }

  lemma {:induction false} Squares1()
    ensures Mul(0xed627dae, 0xed627dae) == 0x88d14467
    ensures Mul(0x88d14467, 0x88d14467) == 0xd7bbfe6a
    ensures Mul(0xd7bbfe6a, 0xd7bbfe6a) == 0xec447f11
    ensures Mul(0xec447f11, 0xec447f11) == 0x8e7ea170
    ensures Mul(0x8e7ea170, 0x8e7ea170) == 0x6427800e
    ensures Mul(0x6427800e, 0x6427800e) == 0x4d47bae0
    ensures Mul(0x4d47bae0, 0x4d47bae0) == 0x09fe548f
    ensures Mul(0x09fe548f, 0x09fe548f) == 0x83852d0f
  {
    hide Mul;
    SquareOf(0xed627dae, 0x88df31ea, 0x67f97bd2, 0xfbc8a5b9, 0x20736c6f, 0x20736c67, 0x20734467, 0x20d14467, 0x88d14467);
    SquareOf(0x88d14467, 0xcf8f4f5a, 0xf9d15802, 0x6c557ca0, 0x573b5c68, 0x573b5c6a, 0x573bfe6a, 0x57bbfe6a, 0xd7bbfe6a);
    SquareOf(0xd7bbfe6a, 0x28ed9ed4, 0x1eb3898c, 0x786dbf6d, 0x4e6ef59b, 0x4e6ef511, 0x4e6e7f11, 0x4e447f11, 0xec447f11);
    SquareOf(0xec447f11, 0xaa09c88b, 0xa98d1ce5, 0xfd654886, 0x26de8150, 0x26de8170, 0x26dea170, 0x267ea170, 0x8e7ea170);
    SquareOf(0x8e7ea170, 0x00000000, 0x35dac336, 0x07eca1b4, 0xe48faaa6, 0xe48faa0e, 0xe48f800e, 0xe427800e, 0x6427800e);
    SquareOf(0x6427800e, 0x88df31ea, 0x88df31ea, 0x88df31ea, 0x6567b2ca, 0x6567b2e0, 0x6567bae0, 0x6547bae0, 0x4d47bae0);
    SquareOf(0x4d47bae0, 0x00000000, 0xd76b0cd8, 0x24311e9b, 0x295c74a5, 0x295c748f, 0x295c548f, 0x29fe548f, 0x09fe548f);
    SquareOf(0x09fe548f, 0x22d6f961, 0xc3e3e2e1, 0x5667c643, 0x830787a7, 0x8307870f, 0x83072d0f, 0x83852d0f, 0x83852d0f);
  }

  lemma {:induction false} Squares2()
    ensures Mul(0x83852d0f, 0x83852d0f) == 0x30362f1a
    ensures Mul(0x30362f1a, 0x30362f1a) == 0x7b5a9cc3
    ensures Mul(0x7b5a9cc3, 0x7b5a9cc3) == 0x31fec169
    ensures Mul(0x31fec169, 0x31fec169) == 0x9fec022a
    ensures Mul(0x9fec022a, 0x9fec022a) == 0x6c8dedc4
    ensures Mul(0x6c8dedc4, 0x6c8dedc4) == 0x15d6874d
    ensures Mul(0x15d6874d, 0x15d6874d) == 0x5fde7a4e
    ensures Mul(0x5fde7a4e, 0x5fde7a4e) == 0xbad90e37
  {
    hide Mul;
    SquareOf(0x83852d0f, 0x22d6f961, 0x22d6f961, 0xbee7270a, 0xb03caf38, 0xb03caf1a, 0xb03c2f1a, 0xb0362f1a, 0x30362f1a);
    SquareOf(0x30362f1a, 0x28ed9ed4, 0x2b694aba, 0x7f811ed9, 0x715a96eb, 0x715a96c3, 0x715a9cc3, 0x715a9cc3, 0x7b5a9cc3);
    SquareOf(0x7b5a9cc3, 0x6fbde064, 0xb6c5bd04, 0x18c201ed, 0x1b74e3e1, 0x1b74e369, 0x1b74c169, 0x1bfec169, 0x31fec169);
    SquareOf(0x31fec169, 0x47507eb0, 0x710e69e8, 0x43380b6a, 0x95eea882, 0x95eea82a, 0x95ee022a, 0x95ec022a, 0x9fec022a);
    SquareOf(0x9fec022a, 0x28ed9ed4, 0x26fecf6c, 0xee274564, 0xee274564, 0xee2745c4, 0xee27edc4, 0xee8dedc4, 0x6c8dedc4);
    SquareOf(0x6c8dedc4, 0xa032af3e, 0x794af25e, 0xe57b2c35, 0x3d7607ef, 0x3d76074d, 0x3d76874d, 0x3dd6874d, 0x15d6874d);
    SquareOf(0x15d6874d, 0xe762d18e, 0xdf2f976e, 0xb0445b46, 0x5dfcd866, 0x5dfcd84e, 0x5dfc7a4e, 0x5dde7a4e, 0x5fde7a4e);
    SquareOf(0x5fde7a4e, 0x88df31ea, 0xb092770a, 0x43c86549, 0x9873ac9f, 0x9873ac37, 0x98730e37, 0x98d90e37, 0xbad90e37);
  }

  lemma {:induction false} Squares3()
    ensures Mul(0xbad90e37, 0xbad90e37) == 0x2e4e5eef
    ensures Mul(0x2e4e5eef, 0x2e4e5eef) == 0x4eaba214
    ensures Mul(0x4eaba214, 0x4eaba214) == 0xa8a472c0
    ensures Mul(0xa8a472c0, 0xa8a472c0) == 0x429a969e
    ensures Mul(0x429a969e, 0x429a969e) == 0x148d302a
    ensures Mul(0x148d302a, 0x148d302a) == 0xc40ba6d0
    ensures Mul(0xc40ba6d0, 0xc40ba6d0) == 0xc4e22c3c
    ensures Mul(0xc4e22c3c, 0xc4e22c3c) == 0x40000000
  {
    hide Mul;
    SquareOf(0xbad90e37, 0xcf8f4f5a, 0xc218ca8c, 0xa4c6fc6d, 0xa4c6fc6d, 0xa4c6fcef, 0xa4c65eef, 0xa44e5eef, 0x2e4e5eef);
    SquareOf(0x2e4e5eef, 0x22d6f961, 0xf5bdf5b9, 0x9363c358, 0x460382bc, 0x46038214, 0x4603a214, 0x46aba214, 0x4eaba214);
    SquareOf(0x4eaba214, 0xa032af3e, 0xa3b67b50, 0x6b6ff158, 0x880cfa4a, 0x880cfac0, 0x880c72c0, 0x88a472c0, 0xa8a472c0);
    SquareOf(0xa8a472c0, 0x00000000, 0xd9785d60, 0x11a1d768, 0xca1a1ebe, 0xca1a1e9e, 0xca1a969e, 0xca9a969e, 0x429a969e);
    SquareOf(0x429a969e, 0x88df31ea, 0x6a6efe04, 0x373350ae, 0x3485b2a2, 0x3485b22a, 0x3485302a, 0x348d302a, 0x148d302a);
    SquareOf(0x148d302a, 0x28ed9ed4, 0x26fecf6c, 0x26fecf6c, 0xc62b2672, 0xc62b26d0, 0xc62ba6d0, 0xc60ba6d0, 0xc40ba6d0);
    SquareOf(0xc40ba6d0, 0x00000000, 0xdafc890e, 0x87a127a4, 0x64c22cb6, 0x64c22c3c, 0x64c22c3c, 0x64e22c3c, 0xc4e22c3c);
    SquareOf(0xc4e22c3c, 0x4d6b1905, 0x40fc9cd3, 0xeefb203a, 0xe020a808, 0xe020a800, 0xe0200000, 0xe0000000, 0x40000000);
  }

  // ----- the table -----

  function X2n(k: nat): (r: bv64) { XPow(Pow2(k)) }

  lemma {:induction false} X2nNext(k: nat)
    ensures Is32(X2n(k)) && X2n(k) != 0 && X2n(k + 1) == Mul(X2n(k), X2n(k))
  {
    hide Mul, XPow;
    MulPower(Pow2(k), 0);
    PowerAdd(Pow2(k), Pow2(k));
  }

  lemma {:induction false} X2nFirst()
    ensures X2n(0) == 0x40000000
  {
    hide Times;
    OneStep(ONE, 0x40000000);
    assert Pow2(0) == 1;
    assert TimesN(ONE, 1) == Times(TimesN(ONE, 0));
  }

  function Entry(k: nat): (r: bv64)
    requires k < 32
  {
    X2N[k]
  }

  lemma {:induction false} EntrySquares0(k: nat)
    requires 0 <= k < 8
    ensures Mul(Entry(k), Entry(k)) == Entry(k + 1)
  {
    hide Mul;
    Squares0();
  }

  lemma {:induction false} EntrySquares1(k: nat)
    requires 8 <= k < 16
    ensures Mul(Entry(k), Entry(k)) == Entry(k + 1)
  {
    hide Mul;
    Squares1();
  }

  lemma {:induction false} EntrySquares2(k: nat)
    requires 16 <= k < 24
    ensures Mul(Entry(k), Entry(k)) == Entry(k + 1)
  {
    hide Mul;
    Squares2();
  }

  lemma {:induction false} EntrySquares3(k: nat)
    requires 24 <= k < 31
    ensures Mul(Entry(k), Entry(k)) == Entry(k + 1)
  {
    hide Mul;
    Squares3();
  }

  lemma {:induction false} LastSquare()
    ensures Mul(Entry(31), Entry(31)) == Entry(0)
  {
    hide Mul;
    Squares3();
  }

  lemma {:induction false} EntrySquares(k: nat)
    requires k < 31
    ensures Mul(Entry(k), Entry(k)) == Entry(k + 1)
  {
    hide Mul, Entry;
    if k < 8 {
      EntrySquares0(k);
    } else if k < 16 {
      EntrySquares1(k);
    } else if k < 24 {
      EntrySquares2(k);
    } else {
      EntrySquares3(k);
    }
  }

  lemma {:induction false} FirstEntry()
    ensures Entry(0) == 0x40000000
  {
  }

  /** The table holds the powers x^(2^k). */
  lemma {:induction false} TableIs(k: nat)
    requires k < 32
    ensures Entry(k) == X2n(k)
  {
    hide Mul, X2n, Entry;
    if k == 0 {
      X2nFirst();
      assert Entry(0) == 0x40000000 by { FirstEntry(); }
    } else {
      TableIs(k - 1);
      EntrySquares(k - 1);
      X2nNext(k - 1);
    }
  }

  /** x^(2^32) is x, so the powers repeat. */
  lemma {:induction false} Repeats(k: nat)
    ensures X2n(k + 32) == X2n(k)
  {
    hide Mul, X2n, Entry;
    if k == 0 {
      TableIs(0);
      TableIs(31);
      LastSquare();
      X2nNext(31);
    } else {
      Repeats(k - 1);
      X2nNext(k - 1);
      X2nNext(k + 31);
    }
  }

  /** The table indexed with the low five bits of k is good for every k. */
  lemma {:induction false} TableMod(k: nat)
    ensures Entry(k % 32) == X2n(k)
  {
    hide X2n, Entry;
    if k < 32 {
      TableIs(k);
    } else {
      TableMod(k - 32);
      Repeats(k - 32);
    }
  }}
