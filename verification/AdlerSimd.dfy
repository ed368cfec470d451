/** The vector form of Adler-32: 32 bytes at a time, in lanes of 32 bits. */
module AdlerSimd {
  import opened Lz77
  import opened Adler

  /** Four lanes of 32 bits. */
  datatype Lanes = Lanes(a: nat, b: nat, c: nat, d: nat)

  function Wrap(x: nat): (r: nat) { x % WORD }

  function Add(v: Lanes, w: Lanes): (r: Lanes)
  {
    Lanes(Wrap(v.a + w.a), Wrap(v.b + w.b), Wrap(v.c + w.c), Wrap(v.d + w.d))
  }

  /** A shift to the left by five bits. */
  function Shift5(v: Lanes): (r: Lanes)
  {
    Lanes(Wrap(v.a * 32), Wrap(v.b * 32), Wrap(v.c * 32), Wrap(v.d * 32))
  }

  function Total(v: Lanes): (t: nat) { v.a + v.b + v.c + v.d }

  /** A B C D -> B A D C, then A B C D -> C D A B: every lane becomes the total. */
  function Across(v: Lanes): (r: Lanes)
  {
    var w := Add(v, Lanes(v.b, v.a, v.d, v.c));
    Add(w, Lanes(w.c, w.d, w.a, w.b))
  }

  lemma {:induction false} AddTotal(v: Lanes, w: Lanes)
    requires Total(v) + Total(w) < WORD
    ensures Total(Add(v, w)) == Total(v) + Total(w)
  {
    hide Wrap;
    WrapSmall(v.a + w.a);
    WrapSmall(v.b + w.b);
    WrapSmall(v.c + w.c);
    WrapSmall(v.d + w.d);
  }

  lemma {:induction false} ShiftTotal(v: Lanes)
    requires 32 * Total(v) < WORD
    ensures Total(Shift5(v)) == 32 * Total(v)
  {
    hide Wrap;
    WrapSmall(v.a * 32);
    WrapSmall(v.b * 32);
    WrapSmall(v.c * 32);
    WrapSmall(v.d * 32);
  }

  lemma {:induction false} AcrossTotal(v: Lanes)
    requires Total(v) < WORD
    ensures Across(v).a == Total(v)
  {
    hide Wrap;
    WrapSmall(v.a + v.b);
    WrapSmall(v.c + v.d);
    WrapSmall(v.a + v.b + (v.d + v.c));
  }

  lemma {:induction false} WrapSmall(x: nat)
    requires x < WORD
    ensures Wrap(x) == x
  {
  }

  // ----- sixteen bytes -----

  /** Sums of eight bytes each. */
  function Sad(x: seq<byte>): (r: Lanes)
    requires |x| == 16
  {
    Lanes(Sum(0, x[..8]), 0, Sum(0, x[8..]), 0)
  }

  /** Products with the weights from top downwards, added in pairs and in pairs of pairs. */
  function Madd(x: seq<byte>, top: nat): (r: Lanes)
    requires |x| == 16 && top >= 16
  {
    Lanes(Pair(x, 0, top) + Pair(x, 2, top), Pair(x, 4, top) + Pair(x, 6, top),
          Pair(x, 8, top) + Pair(x, 10, top), Pair(x, 12, top) + Pair(x, 14, top))
  }

  /** Two products; the sum fits in a signed 16-bit lane. */
  function Pair(x: seq<byte>, i: nat, top: nat): (r: nat)
    requires |x| == 16 && i < 15 && top >= 16
    ensures top <= 32 ==> r < 32768
  {
    Bounded(x[i], top - i);
    Bounded(x[i + 1], top - i - 1);
    x[i] * (top - i) + x[i + 1] * (top - i - 1)
  }

  lemma {:induction false} Bounded(b: byte, w: nat)
    ensures 0 <= b * w <= 255 * w
  {
    if w > 0 {
      Bounded(b, w - 1);
      assert b * w == b * (w - 1) + b;
    }
  }

  /** The bytes weighted by top, top - 1, and so on. */
  function Weighted(x: seq<byte>, top: nat): (r: nat)
    requires |x| <= top
  {
    if x == [] then 0 else
      var n := |x| - 1;
      Bounded(x[n], top - n);
      Weighted(x[..n], top) + x[n] * (top - n)
  }

  lemma {:induction false} WeightedSnoc(x: seq<byte>, b: byte, top: nat)
    requires |x| < top
    ensures 0 <= b * (top - |x|) && Weighted(x + [b], top) == Weighted(x, top) + b * (top - |x|)
  {
    assert (x + [b])[..|x|] == x;
    Bounded(b, top - |x|);
  }

  lemma {:induction false} WeightedTwo(x: seq<byte>, n: nat, top: nat)
    requires n + 2 <= |x| == 16 <= top
    ensures Weighted(x[..n + 2], top) == Weighted(x[..n], top) + Pair(x, n, top)
  {
    hide Weighted;
    WeightedSnoc(x[..n], x[n], top);
    assert x[..n] + [x[n]] == x[..n + 1];
    WeightedSnoc(x[..n + 1], x[n + 1], top);
    assert x[..n + 1] + [x[n + 1]] == x[..n + 2];
  }

  lemma {:induction false} MaddTotal(x: seq<byte>, top: nat)
    requires |x| == 16 <= top
    ensures Total(Madd(x, top)) == Weighted(x, top)
  {
    hide Weighted, Pair;
    assert Weighted(x[..0], top) == 0 by { WeightedNone(x, top); }
    WeightedTwo(x, 0, top);
    WeightedTwo(x, 2, top);
    WeightedTwo(x, 4, top);
    WeightedTwo(x, 6, top);
    WeightedTwo(x, 8, top);
    WeightedTwo(x, 10, top);
    WeightedTwo(x, 12, top);
    WeightedTwo(x, 14, top);
    assert x[..16] == x;
  }

  lemma {:induction false} WeightedNone(x: seq<byte>, top: nat)
    ensures Weighted(x[..0], top) == 0
  {
  }

  lemma {:induction false} SumConcat(a: nat, x: seq<byte>, y: seq<byte>)
    ensures Sum(a, x + y) == Sum(a, x) + Sum(0, y)
    decreases |y|
  {
    hide Sum;
    if y == [] {
      assert x + y == x;
      Empty(0, 0);
    } else {
      var n := |y| - 1;
      SumConcat(a, x, y[..n]);
      assert x + y[..n] + [y[n]] == x + y && y[..n] + [y[n]] == y;
      Snoc(a, 0, x + y[..n], y[n]);
      Snoc(0, 0, y[..n], y[n]);
    }
  }

  lemma {:induction false} SadTotal(x: seq<byte>)
    requires |x| == 16
    ensures Total(Sad(x)) == Sum(0, x)
  {
    hide Sum;
    SumConcat(0, x[..8], x[8..]);
    assert x[..8] + x[8..] == x;
  }

  // ----- thirty-two bytes -----

  /** A block adds the sum so far 32 times, and its bytes by weight. */
  lemma {:induction false} BlockSums(a: nat, s: nat, x: seq<byte>, y: seq<byte>, top: nat)
    requires |y| <= top
    ensures Sums(a, s, x + y) + (top - |y|) * Sum(a, x + y) == Sums(a, s, x) + top * Sum(a, x) + Weighted(y, top)
    decreases |y|
  {
    hide Sum, Sums, Weighted;
    if y == [] {
      assert x + y == x;
      WeightedNone(y, top);
      assert y[..0] == y;
    } else {
      var n := |y| - 1;
      var init, b := y[..n], y[n];
      BlockSums(a, s, x, init, top);
      assert init + [b] == y && x + init + [b] == x + y;
      Snoc(a, s, x + init, b);
      WeightedSnoc(init, b, top);
      Spread(top - n, Sum(a, x + init), b);
    }
  }

  lemma {:induction false} Spread(k: int, u: int, b: int)
    ensures k * u + b * k == (u + b) + (k - 1) * (u + b)
  {
  }

  lemma {:induction false} Spread2(k: int, w: nat)
    ensures k * w == w + (k - 1) * w
  {
  }

  lemma {:induction false} WeightedHalves(x: seq<byte>, y: seq<byte>)
    requires |x| == 16
    requires |y| <= 16
    ensures Weighted(x + y, 32) == Weighted(x, 32) + Weighted(y, 16)
    decreases |y|
  {
    hide Weighted;
    if y == [] {
      assert x + y == x;
      WeightedNone(y, 16);
      assert y[..0] == y;
    } else {
      var n := |y| - 1;
      WeightedHalves(x, y[..n]);
      assert x + y[..n] + [y[n]] == x + y && y[..n] + [y[n]] == y;
      WeightedSnoc(x + y[..n], y[n], 32);
      WeightedSnoc(y[..n], y[n], 16);
    }
  }

  // ----- a group of blocks -----

  const GROUP: nat := 173

  /** What the accumulators hold after some of the n blocks, of which left are to come. */
  ghost predicate Holds(s1: nat, s2: nat, done: seq<byte>, left: nat, ps: Lanes, v1: Lanes, v2: Lanes)
  {
    s1 + Total(v1) == Sum(s1, done) && Total(v2) + 32 * Total(ps) == Sums(s1, s2, done) + 32 * left
  }

  /** n times x. */
  function Times(x: nat, n: nat): (r: nat)
  {
    if n == 0 then 0 else Times(x, n - 1) + x
  }

  lemma {:induction false} TimesIs(x: nat, n: nat)
    requires x <= 65535
    ensures Times(x, n) == x * n && Times(x, n) <= 65535 * n
  {
    if n > 0 {
      TimesIs(x, n - 1);
      Spread2(n, x);
    }
  }

  lemma {:induction false} TimesNext(x: nat, n: nat)
    requires n > 0
    ensures Times(x, n) == Times(x, n - 1) + x
  {
  }

  /** Nothing leaves its lane in a group of blocks. */
  lemma {:induction false} GroupBound(s1: nat, s2: nat, done: seq<byte>, n: nat, left: nat)
    requires s1 <= 65535 && s2 <= 65535 && |done| + 32 * n <= 32 * GROUP && left == Times(s1, n)
    ensures Sums(s1, s2, done) + 32 * left < WORD && Sum(s1, done) < WORD
  {
    hide Sum, Sums, Triangle;
    SumsBound(s1, s2, done, 65535);
    TriangleIs(32 * GROUP);
    TriangleGrows(|done|, 32 * GROUP);
    TimesIs(s1, n);
  }

  /** One block. */
  method AddBlock(s1: nat, s2: nat, x: seq<byte>, y: seq<byte>, ps: Lanes, v1: Lanes, v2: Lanes, ghost done: seq<byte>, ghost left: nat)
      returns (ps': Lanes, v1': Lanes, v2': Lanes)
    requires |x| == 16 == |y| && Holds(s1, s2, done, left + s1, ps, v1, v2)
    requires Sums(s1, s2, done + x + y) + 32 * left < WORD && Sum(s1, done + x + y) < WORD
    ensures Holds(s1, s2, done + x + y, left, ps', v1', v2')
  {
    hide Sum, Sums, Add, Sad, Madd, Total, Weighted;
    BlockTotals(s1, s2, done, x, y);
    SadTotal(x);
    SadTotal(y);
    MaddTotal(x, 32);
    MaddTotal(y, 16);
    ps' := ps;
    ps' := Plus(ps, v1);
    v1' := Plus(v1, Sad(x));
    v2' := Plus(v2, Madd(x, 32));
    v1' := Plus(v1', Sad(y));
    v2' := Plus(v2', Madd(y, 16));
  }

  function Plus(v: Lanes, w: Lanes): (r: Lanes)
    requires Total(v) + Total(w) < WORD
    ensures Total(r) == Total(v) + Total(w)
  {
    AddTotal(v, w);
    Add(v, w)
  }

  lemma {:induction false} BlockTotals(s1: nat, s2: nat, done: seq<byte>, x: seq<byte>, y: seq<byte>)
    requires |x| == 16 == |y|
    ensures Sum(s1, done + x + y) == Sum(s1, done) + Sum(0, x) + Sum(0, y)
    ensures Sums(s1, s2, done + x + y) == Sums(s1, s2, done) + 32 * Sum(s1, done) + Weighted(x, 32) + Weighted(y, 16)
  {
    hide Sum, Sums, Weighted;
    SumConcat(s1, done, x);
    SumConcat(s1, done + x, y);
    BlockSums(s1, s2, done, x + y, 32);
    WeightedHalves(x, y);
    assert done + (x + y) == done + x + y;
  }

  /** At most GROUP blocks, then one reduction. */
  method Group(s1: nat, s2: nat, buf: seq<byte>, at: nat, n: nat, ghost a: nat, ghost s: nat) returns (r1: nat, r2: nat)
    requires at + 32 * n <= |buf| && 1 <= n <= GROUP && s1 <= 65535 && s2 <= 65535 && Agrees(s1, s2, a, s, buf[..at])
    ensures r1 < BASE && r2 < BASE && Agrees(r1, r2, a, s, buf[..at + 32 * n])
  {
    hide Sum, Sums, Low, High, Add, Holds, Agrees, Shift5, Across, Times;
    TimesIs(s1, n);
    var ps, v2, v1 := Lanes(s1 * n, 0, 0, 0), Lanes(s2, 0, 0, 0), Lanes(0, 0, 0, 0);
    GroupStart(s1, s2, Times(s1, n));
    ps, v1, v2 := AddBlocks(s1, s2, buf[at..at + 32 * n], n, ps, v1, v2);
    GroupEnd(s1, s2, buf[at..at + 32 * n], ps, v1, v2, a, s, buf[..at]);
    assert buf[..at] + buf[at..at + 32 * n] == buf[..at + 32 * n];
    v2 := Add(v2, Shift5(ps));
    r1 := (s1 + Across(v1).a) % BASE;
    r2 := Across(v2).a % BASE;
  }

  /** All blocks of a group. */
  method AddBlocks(s1: nat, s2: nat, part: seq<byte>, n: nat, ps0: Lanes, v10: Lanes, v20: Lanes) returns (ps: Lanes, v1: Lanes, v2: Lanes)
    requires |part| == 32 * n && n <= GROUP && s1 <= 65535 && s2 <= 65535 && Holds(s1, s2, [], Times(s1, n), ps0, v10, v20)
    ensures Holds(s1, s2, part, 0, ps, v1, v2) && Sums(s1, s2, part) < WORD && Sum(s1, part) < WORD
  {
    hide Sum, Sums, Holds, Times;
    ps, v1, v2 := ps0, v10, v20;
    assert part[..0] == [];
    for k := 0 to n
      invariant Holds(s1, s2, part[..32 * k], Times(s1, n - k), ps, v1, v2)
    {
      var p := 32 * k;
      var x, y := part[p..p + 16], part[p + 16..p + 32];
      assert part[..p] + x + y == part[..p + 32];
      TimesNext(s1, n - k);
      GroupBound(s1, s2, part[..p + 32], n - k - 1, Times(s1, n - k - 1));
      ps, v1, v2 := AddBlock(s1, s2, x, y, ps, v1, v2, part[..p], Times(s1, n - k - 1));
    }
    assert part[..32 * n] == part;
    TimesIs(s1, 0);
    GroupBound(s1, s2, part, 0, 0);
  }

  lemma {:induction false} GroupStart(s1: nat, s2: nat, left: nat)
    ensures Holds(s1, s2, [], left, Lanes(left, 0, 0, 0), Lanes(0, 0, 0, 0), Lanes(s2, 0, 0, 0))
  {
    Empty(s1, s2);
  }

  /** The totals are the sums. */
  lemma {:induction false} GroupEnd(s1: nat, s2: nat, part: seq<byte>, ps: Lanes, v1: Lanes, v2: Lanes, a: nat, s: nat, x: seq<byte>)
    requires Holds(s1, s2, part, 0, ps, v1, v2) && Sums(s1, s2, part) < WORD && Sum(s1, part) < WORD && Agrees(s1, s2, a, s, x)
    ensures Agrees((s1 + Across(v1).a) % BASE, Across(Add(v2, Shift5(ps))).a % BASE, a, s, x + part)
  {
    hide Sum, Sums, Low, High, Add, Shift5, Across, Total;
    ShiftTotal(ps);
    AddTotal(v2, Shift5(ps));
    AcrossTotal(v1);
    AcrossTotal(Add(v2, Shift5(ps)));
    GoOn(s1, s2, a, s, x, part);
  }

  /** adler32_simd_: the checksum, from any sums. */
  method Adler32Simd(adler: nat, buf: seq<byte>) returns (r: nat)
    requires adler < WORD
    ensures r == Checksum(adler, buf)
  {
    hide Sum, Sums, Low, High;
    var s1: nat, s2: nat := adler % 65536, adler / 65536;
    ghost var a, s := s1, s2;
    var blocks: nat := |buf| / 32;
    var at: nat := 0;
    Empty(a, s);
    assert buf[..0] == [];
    while blocks > 0
      invariant at + 32 * blocks <= |buf| < at + 32 * blocks + 32 && s1 <= 65535 && s2 <= 65535
      invariant Agrees(s1, s2, a, s, buf[..at]) && (if at == 0 then s1 == a && s2 == s else s1 < BASE && s2 < BASE)
    {
      var n := if GROUP > blocks then blocks else GROUP;
      blocks := blocks - n;
      s1, s2 := Group(s1, s2, buf, at, n, a, s);
      at := at + 32 * n;
    }
    r := Leftover(s1, s2, buf, at, a, s);
  }

  lemma {:induction false} LeftoverSums(s1: nat, s2: nat, a: nat, s: nat, x: seq<byte>, part: seq<byte>)
    requires |part| < 32 && s1 <= 65535 && Agrees(s1, s2, a, s, x)
    ensures Agrees(Less(Sum(s1, part), BASE), Sums(s1, s2, part) % BASE, a, s, x + part)
    ensures Less(Sum(s1, part), BASE) < BASE
  {
    hide Sum, Sums, Low, High;
    GoOn(s1, s2, a, s, x, part);
    SumsBound(s1, 0, part, 65535);
  }

  /** Fewer than 32 bytes are left. */
  method Leftover(s1: nat, s2: nat, buf: seq<byte>, at: nat, ghost a: nat, ghost s: nat) returns (r: nat)
    requires at <= |buf| < at + 32 && s1 <= 65535 && s2 <= 65535 && Agrees(s1, s2, a, s, buf[..at])
    requires if at == 0 then s1 == a && s2 == s else s1 < BASE && s2 < BASE
    ensures r == Pack(Low(a, buf), High(a, s, buf))
  {
    hide Sum, Sums, Low, High, Agrees;
    var len := |buf| - at;
    var r1, r2 := s1, s2;
    if len > 0 {
      assert buf[at..at] == [];
      Empty(s1, s2);
      var i := at;
      if len >= 16 {
        r1, r2 := Do16(r1, r2, buf, at, s1, s2, at);
        i := at + 16;
      }
      r1, r2 := AddBytes(r1, r2, buf, i, |buf|, s1, s2, at);
      LeftoverSums(s1, s2, a, s, buf[..at], buf[at..|buf|]);
      assert buf[..at] + buf[at..|buf|] == buf;
      r1, r2 := Less(r1, BASE), r2 % BASE;
    }
    assert buf[..|buf|] == buf;
    if buf == [] { Empty(a, s); } else { AgreesReduced(r1, r2, a, s, buf); }
    r := Pack(r1, r2);
  }
}
