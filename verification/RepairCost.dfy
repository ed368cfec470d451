/** What the repair of over-long codes costs at most: a few bits for each symbol. */
module RepairCost {
  import opened Bits
  import opened SetSum
  import opened HuffmanOpt
  import opened HuffmanTree
  import opened BitLengths
  import opened LengthRepair

  // ----- lengths that go to the rarest first -----

  /** The elements with a length of at least k. */
  ghost function Over(S: set<nat>, l: seq<nat>, k: nat): (A: set<nat>) { set i | i in S && i < |l| && l[i] >= k }

  ghost function OfLength(S: set<nat>, l: seq<nat>, k: nat): (A: set<nat>) { set i | i in S && i < |l| && l[i] == k }

  ghost function Cut(l: seq<nat>, k: nat): (r: seq<nat>)
    ensures |r| == |l|
  {
    seq(|l|, i requires 0 <= i < |l| => Capped(l[i], k))
  }

  /** No rarer element has a shorter length. */
  ghost predicate Falling(S: set<nat>, f: seq<nat>, l: seq<nat>)
    requires |f| == |l| && Indices(S, |f|)
  {
    forall i, j :: i in S && j in S && f[i] < f[j] ==> l[i] >= l[j]
  }

  lemma {:induction false} CutStep(S: set<nat>, f: seq<nat>, l: seq<nat>, k: nat)
    requires |f| == |l|
    ensures Cost(S, f, Cut(l, k + 1)) == Cost(S, f, Cut(l, k)) + Sum(Over(S, l, k + 1), f)
  {
    hide Sum;
    var w: seq<int> := seq(|f|, i requires 0 <= i < |f| => if l[i] >= k + 1 then f[i] else 0);
    forall i | 0 <= i < |f|
      ensures Products(f, Cut(l, k + 1))[i] == Products(f, Cut(l, k))[i] + w[i]
    {
      if l[i] >= k + 1 { Times(f[i], k); }
    }
    SumAdd(S, Products(f, Cut(l, k)), w, Products(f, Cut(l, k + 1)));
    SumSame(S, Over(S, l, k + 1), w, f);
  }

  lemma {:induction false} Times(p: nat, k: nat)
    ensures p * (k + 1) == p * k + p
  {
  }

  /** Fewer elements, each no heavier. */
  lemma {:induction false} LightSum(P: set<nat>, Q: set<nat>, f: seq<nat>)
    requires Indices(P, |f|) && Indices(Q, |f|) && |P| <= |Q| && forall i, j :: i in P && j in Q ==> f[i] <= f[j]
    ensures Sum(P, f) <= Sum(Q, f)
    decreases |P|
  {
    hide Sum;
    if P == {} {
      SumEmpty(f);
      SumNonNegative(Q, f);
    } else {
      var x :| x in P;
      var y :| y in Q;
      SumRemove(P, f, x);
      SumRemove(Q, f, y);
      LightSum(P - {x}, Q - {y}, f);
    }
  }

  /** The lightest elements weigh least. */
  lemma {:induction false} LightSet(S: set<nat>, A: set<nat>, B: set<nat>, f: seq<nat>)
    requires Indices(S, |f|) && A <= S && B <= S && |A| <= |B| && forall i, j :: i in A && j in S - A ==> f[i] <= f[j]
    ensures Sum(A, f) <= Sum(B, f)
  {
    hide Sum;
    var C := A * B;
    assert A == C + (A - B) && B == C + (B - A);
    SumUnion(C, A - B, f);
    SumUnion(C, B - A, f);
    LightSum(A - B, B - A, f);
  }

  /** Lengths that fall with the frequency cost no more than any others of which at least as many are long. */
  lemma {:induction false} Dominated(S: set<nat>, f: seq<nat>, l: seq<nat>, m: seq<nat>, k: nat)
    requires |f| == |l| == |m| && Indices(S, |f|) && Falling(S, f, l)
    requires forall j :: 1 <= j <= k ==> |Over(S, l, j)| <= |Over(S, m, j)|
    ensures Cost(S, f, Cut(l, k)) <= Cost(S, f, Cut(m, k))
    decreases k
  {
    hide Sum, Cost, Over;
    if k == 0 {
      assert Cut(l, 0) == Cut(m, 0);
    } else {
      Dominated(S, f, l, m, k - 1);
      CutStep(S, f, l, k - 1);
      CutStep(S, f, m, k - 1);
      Lightest(S, f, l, m, k);
    }
  }

  lemma {:induction false} Lightest(S: set<nat>, f: seq<nat>, l: seq<nat>, m: seq<nat>, k: nat)
    requires |f| == |l| == |m| && Indices(S, |f|) && Falling(S, f, l) && |Over(S, l, k)| <= |Over(S, m, k)|
    ensures Sum(Over(S, l, k), f) <= Sum(Over(S, m, k), f)
  {
    hide Sum;
    LightSet(S, Over(S, l, k), Over(S, m, k), f);
  }

  lemma {:induction false} CutNone(l: seq<nat>, S: set<nat>, f: seq<nat>, k: nat)
    requires |f| == |l| && Indices(S, |f|) && forall i :: i in S ==> l[i] <= k
    ensures Cost(S, f, Cut(l, k)) == Cost(S, f, l)
  {
    hide Sum;
    SumSame(S, S, Products(f, Cut(l, k)), Products(f, l));
  }

  // ----- counting -----

  lemma {:induction false} LevelCard(S: set<nat>, l: seq<nat>, k: nat)
    ensures Sum(S, At(l, k)) == |OfLength(S, l, k)|
  {
    hide Sum;
    SumSame(S, OfLength(S, l, k), At(l, k), Ones(|l|));
    SumCard(OfLength(S, l, k), |l|);
  }

  lemma {:induction false} OverCount(S: set<nat>, l: seq<nat>, bl: seq<nat>, max: nat, k: nat)
    requires CountsOf(bl, S, l, max) && Indices(S, |l|) && (forall i :: i in S ==> 1 <= l[i] <= max) && 1 <= k <= max + 1
    ensures |Over(S, l, k)| == |S| - BlTotal(bl, k - 1)
    decreases k
  {
    hide Sum;
    if k == 1 {
      assert Over(S, l, 1) == S;
    } else {
      OverCount(S, l, bl, max, k - 1);
      LevelCard(S, l, k - 1);
      assert Over(S, l, k - 1) == Over(S, l, k) + OfLength(S, l, k - 1);
    }
  }

  lemma {:induction false} Pick(L: set<nat>, n: nat) returns (P: set<nat>)
    requires n <= |L|
    ensures P <= L && |P| == n
    decreases n
  {
    if n == 0 {
      P := {};
    } else {
      var Q := Pick(L, n - 1);
      if forall x :: x in L ==> x in Q { CardUnder(L, Q); }
      var x :| x in L && x !in Q;
      P := Q + {x};
    }
  }

  // ----- the elements that keep their lengths -----

  /** H has all elements of lengths below J and as many of length J as there are left. */
  ghost predicate Keeps(H: set<nat>, S: set<nat>, b: seq<nat>, bl: seq<nat>, J: nat)
  {
    && H <= S && J < |bl| && Indices(S, |b|) && (forall i :: i in H ==> b[i] <= J) && (forall i :: i in S && b[i] < J ==> i in H)
    && |OfLength(H, b, J)| == bl[J]
  }

  lemma {:induction false} Keepers(S: set<nat>, b: seq<nat>, bl0: seq<nat>, bl: seq<nat>, max: nat, J: nat) returns (H: set<nat>)
    requires CountsOf(bl0, S, b, max) && Indices(S, |b|) && 1 <= J < max < |bl| == |bl0| && bl[J] <= bl0[J]
    ensures Keeps(H, S, b, bl, J)
  {
    hide Sum;
    LevelCard(S, b, J);
    var P := Pick(OfLength(S, b, J), bl[J]);
    H := (set i | i in S && b[i] < J) + P;
    assert OfLength(H, b, J) == P;
  }

  /** Their lengths in counts. */
  ghost function UpTo(bl: seq<nat>, J: nat): (r: seq<nat>)
    ensures |r| == |bl|
  {
    seq(|bl|, b requires 0 <= b < |bl| => if b <= J then bl[b] else 0)
  }

  lemma {:induction false} KeptCounts(H: set<nat>, S: set<nat>, b: seq<nat>, bl0: seq<nat>, bl: seq<nat>, max: nat, J: nat)
    requires CountsOf(bl0, S, b, max) && Keeps(H, S, b, bl, J) && 1 <= J < max < |bl| == |bl0| && (forall i :: i in S ==> 1 <= b[i] <= max)
    requires forall k :: 1 <= k < J ==> bl[k] == bl0[k]
    ensures Mass(H, b, max) == BlMass(bl, max, J) && |H| == BlTotal(bl, J)
  {
    hide Sum, BlMass, BlTotal, Mass;
    var blH := UpTo(bl, J);
    forall k | 1 <= k <= max
      ensures blH[k] == Sum(H, At(b, k))
    {
      if k == J {
        LevelCard(H, b, J);
      } else {
        SumSame(H, if k < J then S else {}, At(b, k), At(b, k));
        SumEmpty(At(b, k));
      }
    }
    CountsMass(blH, H, b, max);
    SumCard(H, |b|);
    EmptyLevels(blH, max, J, max);
    LevelsAlike(blH, bl, max, J);
  }

  /** The lengths with all other elements at the limit. */
  ghost function Pushed(H: set<nat>, b: seq<nat>, max: nat): (m: seq<nat>)
    ensures |m| == |b|
  {
    seq(|b|, i requires 0 <= i < |b| => if i in H then b[i] else max)
  }

  lemma {:induction false} PushedOver(H: set<nat>, S: set<nat>, b: seq<nat>, l: seq<nat>, bl0: seq<nat>, bl: seq<nat>, max: nat, J: nat, k: nat)
    requires CountsOf(bl0, S, b, max) && CountsOf(bl, S, l, max) && Keeps(H, S, b, bl, J) && 1 <= J < max < |bl| == |bl0| && |l| == |b|
    requires (forall i :: i in S ==> 1 <= b[i] <= max) && (forall i :: i in S ==> 1 <= l[i] <= max)
    requires (forall k :: 1 <= k < J ==> bl[k] == bl0[k]) && 1 <= k <= max
    ensures |Over(S, l, k)| <= |Over(S, Pushed(H, b, max), k)|
  {
    hide Sum, BlMass, BlTotal, Mass, CountsOf, Over, Pushed;
    if k <= J {
      PushedSame(H, S, b, bl, max, J, k);
      OverCount(S, l, bl, max, k);
      OverCount(S, b, bl0, max, k);
      LevelsAlike(bl, bl0, max, k - 1);
    } else {
      KeptCounts(H, S, b, bl0, bl, max, J);
      OverCount(S, l, bl, max, J + 1);
      OverLess(S, l, J + 1, k);
      PushedAll(H, S, b, max, k);
    }
  }

  lemma {:induction false} PushedSame(H: set<nat>, S: set<nat>, b: seq<nat>, bl: seq<nat>, max: nat, J: nat, k: nat)
    requires Keeps(H, S, b, bl, J) && k <= J < max
    ensures Over(S, Pushed(H, b, max), k) == Over(S, b, k)
  {
  }

  lemma {:induction false} OverLess(S: set<nat>, l: seq<nat>, j: nat, k: nat)
    requires j <= k
    ensures |Over(S, l, k)| <= |Over(S, l, j)|
  {
    CardUnder(Over(S, l, k), Over(S, l, j));
  }

  lemma {:induction false} PushedAll(H: set<nat>, S: set<nat>, b: seq<nat>, max: nat, k: nat)
    requires H <= S && Indices(S, |b|) && k <= max
    ensures |Over(S, Pushed(H, b, max), k)| >= |S| - |H|
  {
    CardUnder(S - H, Over(S, Pushed(H, b, max), k));
    assert S == H + (S - H);
  }

  // ----- what the others can cost -----

  const LIMIT: nat := 15

  /** Frequencies for which the price of a step down is bounded. */
  const FEW: nat := 16384

  /** A leaf on level b that is not the last one is so light that to push it down to the last level costs
      less than 31 bits for every unit of code space that it sets free. */
  lemma {:induction false} PushCost(w: nat, b: nat)
    requires 1 <= b < LIMIT && w * Fib(b + 1) <= FEW
    ensures w * (LIMIT - b) <= 31 * (Pow2(LIMIT - b) - 1)
  {
    hide Fib;
    Prices(b);
    Weighed(w, Fib(b + 1), LIMIT - b, 31 * (Pow2(LIMIT - b) - 1));
  }

  lemma {:induction false} Weighed(w: nat, g: nat, d: nat, p: nat)
    requires g * p >= FEW * d && w * g <= FEW && g > 0
    ensures w * d <= p
  {
    LessTimes(w * g, FEW, d);
    assert g * (w * d) == w * g * d;
    Cancel(g, w * d, p);
  }

  lemma {:induction false} Cancel(g: nat, a: nat, b: nat)
    requires g * a <= g * b && g > 0
    ensures a <= b
  {
    if a > b { MoreTimes(g, a, b); }
  }

  lemma {:induction false} LessTimes(a: nat, b: nat, d: nat)
    requires a <= b
    ensures a * d <= b * d
  {
  }

  lemma {:induction false} MoreTimes(g: nat, a: nat, b: nat)
    requires a > b && g > 0
    ensures g * a > g * b
  {
  }

  lemma {:induction false} Prices(b: nat)
    requires 1 <= b < LIMIT
    ensures Fib(b + 1) * (31 * (Pow2(LIMIT - b) - 1)) >= FEW * (LIMIT - b)
  {
    hide Fib, Pow2;
    FirstFibs();
    FirstPowers();
  }

  lemma {:induction false} FirstFibs()
    ensures Fib(2) == 1 && Fib(3) == 2 && Fib(4) == 3 && Fib(5) == 5 && Fib(6) == 8 && Fib(7) == 13 && Fib(8) == 21
    ensures Fib(9) == 34 && Fib(10) == 55 && Fib(11) == 89 && Fib(12) == 144 && Fib(13) == 233 && Fib(14) == 377 && Fib(15) == 610
  {
    assert Fib(8) == 21 && Fib(9) == 34;
    assert Fib(10) == 55 && Fib(11) == 89;
    assert Fib(12) == 144 && Fib(13) == 233;
  }

  lemma {:induction false} FirstPowers()
    ensures Pow2(1) == 2 && Pow2(2) == 4 && Pow2(3) == 8 && Pow2(4) == 16 && Pow2(5) == 32 && Pow2(6) == 64 && Pow2(7) == 128
    ensures Pow2(8) == 256 && Pow2(9) == 512 && Pow2(10) == 1024 && Pow2(11) == 2048 && Pow2(12) == 4096 && Pow2(13) == 8192 && Pow2(14) == 16384
  {
  }

  /** The code space beyond one unit that an element gives up. */
  ghost function Freed(H: set<nat>, b: seq<nat>): (z: seq<int>)
    ensures |z| == |b|
  {
    seq(|b|, i requires 0 <= i < |b| => if i in H then 0 else Unit(LIMIT, b[i]) - 1)
  }

  lemma {:induction false} PushedCost(H: set<nat>, S: set<nat>, f: seq<nat>, b: seq<nat>)
    requires |f| == |b| && Indices(S, |b|) && (forall i :: i in S ==> 1 <= b[i] <= LIMIT && (b[i] < LIMIT ==> f[i] * Fib(b[i] + 1) <= FEW))
    ensures Cost(S, f, Pushed(H, b, LIMIT)) <= Cost(S, f, b) + 31 * Sum(S, Freed(H, b))
  {
    hide Sum, Fib, Freed, Pushed, Products;
    var z := Freed(H, b);
    var y: seq<int> := seq(|b|, i requires 0 <= i < |b| => 31 * z[i]);
    var u := Products(f, b);
    var v: seq<int> := seq(|b|, i requires 0 <= i < |b| => u[i] + y[i]);
    SumScale(S, z, y, 31);
    SumAdd(S, u, y, v);
    forall i | 0 <= i < |b| && i in S
      ensures Products(f, Pushed(H, b, LIMIT))[i] <= v[i]
    {
      PushedAt(H, f, b, i);
    }
    SumLess(S, Products(f, Pushed(H, b, LIMIT)), v);
  }

  lemma {:induction false} PushedAt(H: set<nat>, f: seq<nat>, b: seq<nat>, i: nat)
    requires |f| == |b| && i < |b| && 1 <= b[i] <= LIMIT && (b[i] < LIMIT ==> f[i] * Fib(b[i] + 1) <= FEW)
    ensures Products(f, Pushed(H, b, LIMIT))[i] <= Products(f, b)[i] + 31 * Freed(H, b)[i]
  {
    hide Fib;
    if i !in H { PushOne(f[i], b[i]); }
  }

  lemma {:induction false} PushOne(w: nat, b: nat)
    requires 1 <= b <= LIMIT && (b < LIMIT ==> w * Fib(b + 1) <= FEW)
    ensures w * LIMIT <= w * b + 31 * (Unit(LIMIT, b) - 1)
  {
    hide Fib;
    if b < LIMIT {
      PushCost(w, b);
      assert w * LIMIT == w * b + w * (LIMIT - b);
    } else {
      assert Pow2(0) == 1;
    }
  }

  lemma {:induction false} FreedSum(H: set<nat>, S: set<nat>, b: seq<nat>)
    requires H <= S && Indices(S, |b|)
    ensures Sum(S, Freed(H, b)) == Mass(S, b, LIMIT) - Mass(H, b, LIMIT) - (|S| - |H|)
  {
    hide Sum;
    var Z := S - H;
    assert S == H + Z;
    SumUnion(H, Z, Units(b, LIMIT));
    var minus: seq<int> := seq(|b|, _ => -1);
    SumScale(Z, Ones(|b|), minus, -1);
    SumCard(Z, |b|);
    var own: seq<int> := seq(|b|, i requires 0 <= i < |b| => Unit(LIMIT, b[i]) - 1);
    SumAdd(Z, Units(b, LIMIT), minus, own);
    SumSame(S, Z, Freed(H, b), own);
  }

  /** The repaired lengths l cost at most this much more than the lengths b before, which gave away K units too many. */
  lemma {:induction false} RepairExcess(S: set<nat>, f: seq<nat>, b: seq<nat>, l: seq<nat>, bl0: seq<nat>, bl: seq<nat>, J: nat, K: nat)
    requires |f| == |b| == |l| && Indices(S, |f|) && Falling(S, f, l)
    requires CountsOf(bl0, S, b, LIMIT) && CountsOf(bl, S, l, LIMIT) && Repairing(bl, LIMIT, 0, |S|) && Touched(bl0, bl, LIMIT, J, |S|)
    requires (forall i :: i in S ==> 1 <= l[i] <= LIMIT) && Mass(S, b, LIMIT) == Pow2(LIMIT) + K
    requires forall i :: i in S ==> 1 <= b[i] <= LIMIT && (b[i] < LIMIT ==> f[i] * Fib(b[i] + 1) <= FEW)
    ensures Cost(S, f, l) <= Cost(S, f, b) + 31 * (K + Beyond(bl, LIMIT, J))
  {
    hide Sum, BlMass, BlTotal, Mass, CountsOf, Cost, Fib, Falling, Pow2;
    var H := Keepers(S, b, bl0, bl, LIMIT, J);
    var m := Pushed(H, b, LIMIT);
    forall k | 1 <= k <= LIMIT
      ensures |Over(S, l, k)| <= |Over(S, m, k)|
    {
      PushedOver(H, S, b, l, bl0, bl, LIMIT, J, k);
    }
    Dominated(S, f, l, m, LIMIT);
    CutNone(l, S, f, LIMIT);
    CutNone(m, S, f, LIMIT);
    PushedCost(H, S, f, b);
    FreedSum(H, S, b);
    KeptCounts(H, S, b, bl0, bl, LIMIT, J);
  }

  /** In all at most 62 bits for each element. */
  lemma {:induction false} RepairPrice(S: set<nat>, f: seq<nat>, b: seq<nat>, l: seq<nat>, bl0: seq<nat>, bl: seq<nat>, J: nat, K: nat)
    requires |f| == |b| == |l| && Indices(S, |f|) && Falling(S, f, l)
    requires CountsOf(bl0, S, b, LIMIT) && CountsOf(bl, S, l, LIMIT) && Repairing(bl, LIMIT, 0, |S|) && Touched(bl0, bl, LIMIT, J, |S|)
    requires (forall i :: i in S ==> 1 <= l[i] <= LIMIT) && Mass(S, b, LIMIT) == Pow2(LIMIT) + K && K <= |S|
    requires forall i :: i in S ==> 1 <= b[i] <= LIMIT && (b[i] < LIMIT ==> f[i] * Fib(b[i] + 1) <= FEW)
    ensures Cost(S, f, l) <= Cost(S, f, b) + 62 * |S|
  {
    hide Sum, BlMass, BlTotal, Mass, CountsOf, Cost, Fib, Falling, Repairing;
    RepairExcess(S, f, b, l, bl0, bl, J, K);
    assert Pow2(1) == 2 * Pow2(0) && Pow2(0) == 1;
  }
}
