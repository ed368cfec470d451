/** The shifts and masks of the DEFLATE code, as functions on unbounded naturals,
    with bit reversal and LSB-first bit strings. Every function peels one low bit,
    so each proof below is a linear induction on the number of bits. */
module Bits {

  /** v << n */
  function Shl(v: nat, n: nat): (r: nat)
  {
    if n == 0 then v else 2 * Shl(v, n - 1)
  }

  /** v >> n */
  function Shr(v: nat, n: nat): (r: nat)
  {
    if n == 0 then v else Shr(v / 2, n - 1)
  }

  /** v & ((1 << n) - 1) */
  function Low(v: nat, n: nat): (r: nat)
    ensures r < Pow2(n)
  {
    if n == 0 then 0 else v % 2 + 2 * Low(v / 2, n - 1)
  }

  /** 1 << n */
  function Pow2(n: nat): (r: nat)
    ensures r >= 1
  {
    if n == 0 then 1 else 2 * Pow2(n - 1)
  }

  // ----- left shifts -----

  lemma {:induction false} ShlAdd(x: nat, y: nat, n: nat)
    ensures Shl(x + y, n) == Shl(x, n) + Shl(y, n)
  {
    if n > 0 { ShlAdd(x, y, n - 1); }
  }

  lemma {:induction false} ShlOne(n: nat)
    ensures Shl(1, n) == Pow2(n)
    ensures Shl(0, n) == 0
  {
    if n > 0 { ShlOne(n - 1); }
  }

  /** One more unit at scale n. */
  lemma {:induction false} ShlNext(x: nat, n: nat)
    ensures Shl(x + 1, n) == Shl(x, n) + Pow2(n)
  {
    ShlAdd(x, 1, n);
    ShlOne(n);
  }

  lemma {:induction false} ShlMonotone(x: nat, y: nat, n: nat)
    requires x <= y
    ensures Shl(x, n) <= Shl(y, n)
    ensures x < y ==> Shl(x, n) + Pow2(n) <= Shl(y, n)
  {
    if n > 0 { ShlMonotone(x, y, n - 1); }
  }

  lemma {:induction false} ShlShl(v: nat, a: nat, b: nat)
    ensures Shl(Shl(v, a), b) == Shl(v, a + b)
  {
    if b > 0 { ShlShl(v, a, b - 1); }
  }

  lemma {:induction false} ShlGrows(v: nat, n: nat)
    ensures v <= Shl(v, n) && (v >= 1 ==> v + n <= Shl(v, n))
    decreases n
  {
    if n > 0 { ShlGrows(v, n - 1); }
  }

  lemma {:induction false} ShlPow2(a: nat, b: nat)
    ensures Shl(Pow2(a), b) == Pow2(a + b)
  {
    ShlOne(a);
    ShlOne(a + b);
    ShlShl(1, a, b);
  }

  lemma {:induction false} Pow2Monotone(a: nat, b: nat)
    requires a <= b
    ensures Pow2(a) <= Pow2(b)
    ensures a < b ==> Pow2(a) < Pow2(b)
    decreases b
  {
    if a < b { Pow2Monotone(a, b - 1); }
  }

  // ----- splitting at a bit position -----

  lemma {:induction false} Split(v: nat, n: nat)
    ensures v == Low(v, n) + Shl(Shr(v, n), n)
  {
    if n > 0 {
      Split(v / 2, n - 1);
      assert Shl(Shr(v, n), n) == 2 * Shl(Shr(v / 2, n - 1), n - 1);
    }
  }

  /** A low part and a high part determine Low and Shr. */
  lemma {:induction false} Join(lo: nat, hi: nat, n: nat)
    requires lo < Pow2(n)
    ensures Low(lo + Shl(hi, n), n) == lo
    ensures Shr(lo + Shl(hi, n), n) == hi
  {
    if n > 0 {
      Join(lo / 2, hi, n - 1);
      assert (lo + Shl(hi, n)) / 2 == lo / 2 + Shl(hi, n - 1);
    }
  }

  lemma {:induction false} LowSmall(v: nat, n: nat)
    requires v < Pow2(n)
    ensures Low(v, n) == v && Shr(v, n) == 0
  {
    if n > 0 { LowSmall(v / 2, n - 1); }
  }

  lemma {:induction false} ShrShr(v: nat, a: nat, b: nat)
    ensures Shr(Shr(v, a), b) == Shr(v, a + b)
  {
    if a > 0 { ShrShr(v / 2, a - 1, b); }
  }

  lemma {:induction false} LowShr(v: nat, a: nat, b: nat)
    ensures Low(Shr(v, a), b) == Shr(Low(v, a + b), a)
  {
    if a > 0 {
      LowShr(v / 2, a - 1, b);
      assert Low(v, a + b) / 2 == Low(v / 2, a - 1 + b);
    }
  }

  lemma {:induction false} LowLow(v: nat, a: nat, b: nat)
    requires a <= b
    ensures Low(Low(v, b), a) == Low(v, a)
  {
    hide Low;
    if a > 0 {
      LowLow(v / 2, a - 1, b - 1);
      LowStep(v, b);
      LowStep(v, a);
      LowStep(Low(v, b), a);
    } else {
      LowEmpty(v);
      LowEmpty(Low(v, b));
    }
  }

  lemma {:induction false} ShrBound(v: nat, a: nat, b: nat)
    requires v < Pow2(a + b)
    ensures Shr(v, a) < Pow2(b)
  {
    if a > 0 { ShrBound(v / 2, a - 1, b); }
  }

  /** Quotient characterisation: v lies in the n-bit cell q exactly when Shr(v, n) == q. */
  lemma {:induction false} CellOf(v: nat, q: nat, n: nat)
    ensures Shr(v, n) == q <==> Shl(q, n) <= v < Shl(q, n) + Pow2(n)
  {
    Split(v, n);
    if Shr(v, n) < q { ShlMonotone(Shr(v, n), q, n); }
    if q < Shr(v, n) { ShlMonotone(q, Shr(v, n), n); }
  }

  // ----- reversal of the low n bits -----

  /** The value whose n bits are the low n bits of p in reverse order. */
  function Rev(p: nat, n: nat): (r: nat)
    ensures r < Pow2(n)
  {
    if n == 0 then 0
    else (if p % 2 == 1 then Pow2(n - 1) else 0) + Rev(p / 2, n - 1)
  }

  lemma {:induction false} RevStep(p: nat, n: nat)
    requires n > 0
    ensures Rev(p, n) == (if p % 2 == 1 then Pow2(n - 1) else 0) + Rev(p / 2, n - 1)
  {
  }

  lemma {:induction false} LowStep(p: nat, n: nat)
    requires n > 0
    ensures Low(p, n) % 2 == p % 2 && Low(p, n) / 2 == Low(p / 2, n - 1) && Low(p, n) == p % 2 + 2 * Low(p / 2, n - 1)
  {
  }

  lemma {:induction false} ShrStep(p: nat, n: nat)
    requires n > 0
    ensures Shr(p, n) == Shr(p / 2, n - 1)
  {
  }

  lemma {:induction false} AddPow2(t: nat, k: nat, m: nat)
    ensures Low(t + Pow2(k + m), m) == Low(t, m)
    ensures Shr(t + Pow2(k + m), m) == Shr(t, m) + Pow2(k)
  {
    if m > 0 {
      AddPow2(t / 2, k, m - 1);
      assert (t + Pow2(k + m)) / 2 == t / 2 + Pow2(k + m - 1);
    }
  }

  lemma {:induction false} ShrNone(p: nat)
    ensures Shr(p, 0) == p
  {
  }

  lemma {:induction false} RevEmpty(p: nat)
    ensures Rev(p, 0) == 0
  {
  }

  /** The low m bits of a reversal come from the top m bits of the argument. */
  lemma {:induction false} RevLow(p: nat, n: nat, m: nat)
    requires m <= n
    ensures Low(Rev(p, n), m) == Rev(Shr(p, n - m), m)
    decreases n
  {
    hide Low, Shr, Rev, Pow2;
    if m == n {
      LowSmall(Rev(p, n), n);
      ShrNone(p);
    } else {
      RevStep(p, n);
      ShrStep(p, n - m);
      RevLow(p / 2, n - 1, m);
      AddPow2(Rev(p / 2, n - 1), n - 1 - m, m);
    }
  }

  /** The bits of a reversal above its low m come from the low bits of the argument. */
  lemma {:induction false} RevShr(p: nat, n: nat, m: nat)
    requires m <= n
    ensures Shr(Rev(p, n), m) == Rev(Low(p, n - m), n - m)
    decreases n
  {
    hide Low, Shr, Rev, Pow2;
    if m == n {
      LowSmall(Rev(p, n), n);
      RevEmpty(Low(p, 0));
    } else {
      var k := n - 1 - m;
      RevStep(p, n);
      RevStep(Low(p, k + 1), k + 1);
      LowStep(p, k + 1);
      RevShr(p / 2, n - 1, m);
      AddPow2(Rev(p / 2, n - 1), k, m);
    }
  }

  lemma {:induction false} RevOfLow(p: nat, n: nat)
    ensures Rev(Low(p, n), n) == Rev(p, n)
  {
    if n > 0 {
      RevOfLow(p / 2, n - 1);
      assert Low(p, n) % 2 == p % 2 && Low(p, n) / 2 == Low(p / 2, n - 1);
    }
  }

  lemma {:induction false} RevZero(n: nat)
    ensures Rev(0, n) == 0
  {
    if n > 0 { RevZero(n - 1); }
  }

  /** Reversal undoes itself on the low n bits. */
  lemma {:induction false} RevRev(p: nat, n: nat)
    ensures Rev(Rev(p, n), n) == Low(p, n)
    decreases n
  {
    hide Low, Shr, Rev, Pow2;
    if n > 0 {
      var r := Rev(p, n);
      var top := Shr(p, n - 1);
      RevLow(p, n, 1);
      RevShr(p, n, 1);
      OneBit(r);
      OneBit(top);
      RevStep(r, n);
      RevRev(Low(p, n - 1), n - 1);
      LowLow(p, n - 1, n - 1);
      LowTop(p, n);
    } else {
      RevEmpty(Rev(p, 0));
      LowEmpty(p);
    }
  }

  lemma {:induction false} OneBit(r: nat)
    ensures Shr(r, 1) == r / 2 && Low(r, 1) == r % 2 == Rev(r, 1)
  {
    assert Shr(r / 2, 0) == r / 2 && Low(r / 2, 0) == 0 && Rev(r / 2, 0) == 0 && Pow2(0) == 1;
  }

  lemma {:induction false} LowEmpty(p: nat)
    ensures Low(p, 0) == 0
  {
  }

  /** Peeling the top bit instead of the low one. */
  lemma {:induction false} LowTop(p: nat, n: nat)
    requires n > 0
    ensures Low(p, n) == Low(p, n - 1) + (if Shr(p, n - 1) % 2 == 1 then Pow2(n - 1) else 0)
  {
    if n > 1 {
      LowTop(p / 2, n - 1);
    } else {
      assert Low(p, 1) == p % 2 + 2 * Low(p / 2, 0);
      assert Pow2(0) == 1;
    }
  }

  /** Appending k zero bits to p leaves its reversal unchanged as a number. */
  lemma {:induction false} RevOfShl(p: nat, n: nat, k: nat)
    ensures Rev(Shl(p, k), n + k) == Rev(p, n)
    decreases k
  {
    if k > 0 { RevOfShl(p, n, k - 1); }
  }

  // ----- bit strings, least significant bit first -----

  type BitString = seq<bool>

  function BitVal(b: bool): (r: nat) { if b then 1 else 0 }

  function Lsb(b: BitString): (r: nat)
    ensures r < Pow2(|b|)
  {
    if b == [] then 0 else BitVal(b[0]) + 2 * Lsb(b[1..])
  }

  function ToBits(v: nat, n: nat): (b: BitString)
    ensures |b| == n
  {
    if n == 0 then [] else [v % 2 == 1] + ToBits(v / 2, n - 1)
  }

  lemma {:induction false} LsbToBits(v: nat, n: nat)
    ensures Lsb(ToBits(v, n)) == Low(v, n)
  {
    if n > 0 {
      LsbToBits(v / 2, n - 1);
      assert ToBits(v, n)[1..] == ToBits(v / 2, n - 1);
    }
  }

  lemma {:induction false} ToBitsLsb(b: BitString)
    ensures ToBits(Lsb(b), |b|) == b
  {
    if b != [] {
      ToBitsLsb(b[1..]);
      assert Lsb(b) % 2 == BitVal(b[0]) && Lsb(b) / 2 == Lsb(b[1..]);
      assert b == [b[0]] + b[1..];
    }
  }

  /** The first n bits are the value's low n bits, the rest its shift. */
  lemma {:induction false} LsbSplit(b: BitString, n: nat)
    requires n <= |b|
    ensures Low(Lsb(b), n) == Lsb(b[..n])
    ensures Shr(Lsb(b), n) == Lsb(b[n..])
  {
    if n == 0 {
      assert b[0..] == b;
    } else {
      LsbSplit(b[1..], n - 1);
      assert Lsb(b) % 2 == BitVal(b[0]) && Lsb(b) / 2 == Lsb(b[1..]);
      assert b[1..][..n - 1] == b[..n][1..];
      assert b[1..][n - 1..] == b[n..];
    }
  }

  lemma {:induction false} ToBitsConcat(v: nat, n: nat, m: nat)
    ensures ToBits(v, n + m) == ToBits(v, n) + ToBits(Shr(v, n), m)
  {
    if n == 0 {
      assert ToBits(v, 0) + ToBits(v, m) == ToBits(v, m);
    } else {
      ToBitsConcat(v / 2, n - 1, m);
      var head, mid, tail := [v % 2 == 1], ToBits(v / 2, n - 1), ToBits(Shr(v / 2, n - 1), m);
      assert head + (mid + tail) == (head + mid) + tail;
    }
  }

  lemma {:induction false} ToBitsLow(v: nat, n: nat)
    ensures ToBits(Low(v, n), n) == ToBits(v, n)
  {
    if n > 0 {
      ToBitsLow(v / 2, n - 1);
      assert Low(v, n) % 2 == v % 2 && Low(v, n) / 2 == Low(v / 2, n - 1);
    }
  }
}
