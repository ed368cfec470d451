/** When the code lengths that build_tree leaves are the cheapest of all: exactly when some
    cheapest code keeps to the limit. */
module CheapestCode {
  import opened Bits
  import opened SetSum
  import opened HuffmanOpt
  import opened HuffmanTree
  import opened HuffmanBuild

  // ----- for the symbols that occur -----

  ghost function Occurring(f: seq<nat>): (S: set<nat>) { set i: nat | i < |f| && f[i] != 0 }

  /** Words of at most top bits, none empty, for every symbol that occurs. */
  ghost predicate IsCode(f: seq<nat>, l: seq<nat>, top: nat)
  {
    |l| == |f| && KraftAt(Occurring(f), l, top) && forall i :: 0 <= i < |f| && f[i] != 0 ==> l[i] >= 1
  }

  /** No code at all takes fewer bits. */
  ghost predicate Cheapest(f: seq<nat>, l: seq<nat>)
    requires |l| == |f|
  {
    forall m, top: nat :: IsCode(f, m, top) ==> Cost(Occurring(f), f, l) <= Cost(Occurring(f), f, m)
  }

  /** Some cheapest code has no word longer than max. */
  ghost predicate SomeFits(f: seq<nat>, max: nat)
  {
    exists l :: IsCode(f, l, max) && Cheapest(f, l)
  }

  /** All frequencies together. */
  ghost function Total(f: seq<nat>, n: nat): (r: nat)
    requires n <= |f|
  {
    if n == 0 then 0 else Total(f, n - 1) + f[n - 1]
  }

  /** A code within the limit, no shorter for rarer symbols, and the cheapest of all codes whenever
      that is possible within the limit; which it is for few symbols and for small frequencies. With a
      limit of 15 bits it is never far from it. */
  ghost predicate BestCode(f: seq<nat>, len: seq<nat>, max: nat)
  {
    && IsCode(f, len, max)
    && (forall i, j :: 0 <= i < |f| && 0 <= j < |f| && 0 < f[i] < f[j] ==> len[i] >= len[j])
    && (Cheapest(f, len) <==> SomeFits(f, max))
    && (Total(f, |f|) < Fib(max + 3) || |Occurring(f)| <= max + 1 ==> Cheapest(f, len))
    && (max == 15 && Total(f, |f|) <= 16384 ==> NearlyCheapest(f, len))
  }

  /** No code at all takes fewer bits but for 62 for each symbol that occurs. */
  ghost predicate NearlyCheapest(f: seq<nat>, l: seq<nat>)
    requires |l| == |f|
  {
    forall m, top: nat :: IsCode(f, m, top) ==> Cost(Occurring(f), f, l) <= Cost(Occurring(f), f, m) + 62 * |Occurring(f)|
  }

  /** Lengths for n symbols: those past the end of l have no code. */
  function Full(l: seq<nat>, n: nat): (r: seq<nat>)
    ensures |r| == n
  {
    seq(n, i => if 0 <= i < |l| then l[i] else 0)
  }

  // ----- for the leaves of a tree -----

  /** No code at all costs less. */
  ghost predicate Optimal(used: set<nat>, f: seq<nat>, len: seq<nat>)
    requires |f| == |len|
  {
    LowerBound(used, f, Cost(used, f, len))
  }

  /** With small frequencies and a limit of 15 bits, no code at all costs much less. */
  ghost predicate NearlyOptimal(used: set<nat>, f: seq<nat>, len: seq<nat>, max: nat)
    requires |f| == |len|
  {
    max == 15 && Sum(used, f) <= 16384 ==> LowerBound(used, f, Cost(used, f, len) - 62 * |used|)
  }

  ghost predicate OptimalFits(used: set<nat>, f: seq<nat>, max: nat)
  {
    exists l: seq<nat> :: |l| == |f| && KraftAt(used, l, max) && Optimal(used, f, l)
  }

  /** A cheapest code is at least as long as the tree is high. */
  lemma {:induction false} FitsTree(t: Tree, used: set<nat>, f: seq<nat>, l: seq<nat>, max: nat)
    requires Distinct(t) && Leaves(t) == used && (forall i :: i in Ids(t) ==> i < |f|) && Huffman(t, used, f)
    requires |l| == |f| && KraftAt(used, l, max) && Optimal(used, f, l)
    ensures Height(t) <= max
  {
    hide Cost, KraftAt, Distinct, Leaves, Ids, Inner, Height, Sorted;
    var m := TreeLengths(t, f);
    assert Cost(used, f, l) == Inner(t, f);
    assert Reaches(used, Flat(|f|), l, Height(t));
    KraftLimit(used, l, max);
  }

  lemma {:induction false} KraftLimit(S: set<nat>, l: seq<nat>, top: nat)
    requires KraftAt(S, l, top)
    ensures forall i :: i in S ==> i < |l| && l[i] <= top
  {
  }

  /** What the lengths guarantee about the leaves. */
  ghost predicate BestLengths(used: set<nat>, f: seq<nat>, len: seq<nat>, max: nat)
  {
    && |f| == |len| && KraftAt(used, len, max) && (forall i :: i in used ==> len[i] >= 1)
    && (forall i, j :: i in used && j in used && f[i] < f[j] ==> len[i] >= len[j])
    && (OptimalFits(used, f, max) || Sum(used, f) < Fib(max + 3) || |used| <= max + 1 ==> Optimal(used, f, len))
    && NearlyOptimal(used, f, len, max)
  }

  lemma {:induction false} TreeIsLow(t: Tree, used: set<nat>, f: seq<nat>, max: nat, elems: nat)
    requires Distinct(t) && Leaves(t) == used && Placed(t, elems, |f|) && elems <= |f| && Huffman(t, used, f)
    requires forall i :: i in used ==> i < |f| && f[i] > 0
    requires OptimalFits(used, f, max) || Sum(used, f) < Fib(max + 3) || |used| <= max + 1
    ensures Height(t) <= max
  {
    hide Distinct, Leaves, Ids, Placed, Inner, Height, Sorted, KraftAt, Optimal, Sum, Fib, TallBound;
    PlacedIds(t, elems, |f|);
    if OptimalFits(used, f, max) {
      var l: seq<nat> :| |l| == |f| && KraftAt(used, l, max) && Optimal(used, f, l);
      FitsTree(t, used, f, l, max);
    } else if Sum(used, f) < Fib(max + 3) {
      WeightSum(t, f, elems);
      LightIsLow(t, f, max);
    } else {
      HeightLeaves(t);
    }
  }

  // ----- from the leaves to the symbols that occur -----

  /** Entries past the symbols do not count. */
  lemma {:induction false} CutCost(S: set<nat>, f: seq<nat>, l: seq<nat>, n: nat)
    requires |f| == |l| && n <= |f| && Indices(S, n)
    ensures Cost(S, f[..n], l[..n]) == Cost(S, f, l)
  {
    hide Sum;
    SumPrefix(S, Products(f, l), n);
    assert Products(f, l)[..n] == Products(f[..n], l[..n]);
  }

  lemma {:induction false} CutKraft(S: set<nat>, l: seq<nat>, n: nat, top: nat)
    requires n <= |l| && Indices(S, n)
    ensures KraftAt(S, l[..n], top) <==> KraftAt(S, l, top)
  {
    hide Sum, Unit;
    SumPrefix(S, Units(l, top), n);
    assert Units(l, top)[..n] == Units(l[..n], top);
  }

  lemma {:induction false} SumTotal(S: set<nat>, f: seq<nat>, n: nat)
    requires n <= |f| && Indices(S, n)
    ensures Sum(S, f) <= Total(f, n)
    decreases n
  {
    if n > 0 {
      var u := S - {n - 1};
      SumTotal(u, f, n - 1);
      if n - 1 in S { SumRemove(S, f, n - 1); } else { assert S == u; }
    } else {
      assert S == {};
      SumEmpty(f);
    }
  }

  /** Of two codes neither is empty. */
  lemma {:induction false} NotEmpty(S: set<nat>, l: seq<nat>, top: nat, a: nat, b: nat)
    requires KraftAt(S, l, top) && a in S && b in S && a != b
    ensures l[a] >= 1
  {
    hide Sum;
    SumRemove(S, Units(l, top), a);
    SumRemove(S - {a}, Units(l, top), b);
    SumNonNegative(S - {a} - {b}, Units(l, top));
    assert Units(l, top)[a] < Pow2(top);
  }

  lemma {:induction false} TwoAreCodes(f: seq<nat>, S: set<nat>, l: seq<nat>, top: nat, a: nat, b: nat)
    requires S == Occurring(f) && |l| == |f| && KraftAt(S, l, top) && a in S && b in S && a != b
    ensures IsCode(f, l, top)
  {
    hide KraftAt;
    KraftLimit(S, l, top);
    forall i | 0 <= i < |f| && f[i] != 0
      ensures l[i] >= 1
    {
      assert i in S;
      NotEmpty(S, l, top, i, if i == a then b else a);
    }
  }

  /** Optimal over the whole array is cheapest over the symbols, and the other way round. */
  lemma {:induction false} OptimalCheapest(f: seq<nat>, g: seq<nat>, S: set<nat>, l: seq<nat>, n: nat, a: nat, b: nat)
    requires |l| == |g| && n <= |g| && f == g[..n] && S == Occurring(f) && a in S && b in S && a != b
    ensures Optimal(S, g, l) <==> Cheapest(f, l[..n])
  {
    hide Cost, KraftAt;
    CutCost(S, g, l, n);
    if Optimal(S, g, l) {
      forall m, top: nat | IsCode(f, m, top)
        ensures Cost(S, f, l[..n]) <= Cost(S, f, m)
      {
        var w: seq<nat> := m + l[n..];
        assert w[..n] == m;
        CutKraft(S, w, n, top);
        CutCost(S, g, w, n);
      }
    }
    if Cheapest(f, l[..n]) {
      forall m: seq<nat>, top: nat | |m| == |g| && KraftAt(S, m, top)
        ensures Cost(S, g, l) <= Cost(S, g, m)
      {
        CutKraft(S, m, n, top);
        CutCost(S, g, m, n);
        TwoAreCodes(f, S, m[..n], top, a, b);
      }
    }
  }

  lemma {:induction false} FitsBoth(f: seq<nat>, g: seq<nat>, S: set<nat>, n: nat, max: nat, a: nat, b: nat)
    requires n <= |g| && f == g[..n] && S == Occurring(f) && a in S && b in S && a != b && SomeFits(f, max)
    ensures OptimalFits(S, g, max)
  {
    hide Cost, KraftAt, Optimal, Cheapest;
    var m :| IsCode(f, m, max) && Cheapest(f, m);
    var rest: seq<nat> := g[n..];
    var l: seq<nat> := m + rest;
    assert l[..n] == m;
    CutKraft(S, l, n, max);
    OptimalCheapest(f, g, S, l, n, a, b);
  }

  /** Two symbols or more. */
  lemma {:induction false} PublishMany(f: seq<nat>, g: seq<nat>, len: seq<nat>, S: set<nat>, n: nat, max: nat, a: nat, b: nat)
    requires |g| == |len| && n <= |g| && f == g[..n] && S == Occurring(f) && a in S && b in S && a != b
    requires BestLengths(S, g, len, max)
    ensures BestCode(f, len[..n], max)
  {
    hide Cost, KraftAt, Optimal, Cheapest, OptimalFits, Fib, Sum, SomeFits, NearlyOptimal, NearlyCheapest;
    CutKraft(S, len, n, max);
    OptimalCheapest(f, g, S, len, n, a, b);
    TwoAreCodes(f, S, len[..n], max, a, b);
    if SomeFits(f, max) { FitsBoth(f, g, S, n, max, a, b); }
    if Cheapest(f, len[..n]) { ItFits(f, len[..n], max); }
    SumTotal(S, g, n);
    TotalCut(g, n);
    if max == 15 && Total(f, |f|) <= 16384 { NearlyBoth(f, g, S, len, n); }
  }

  lemma {:induction false} NearlyBoth(f: seq<nat>, g: seq<nat>, S: set<nat>, len: seq<nat>, n: nat)
    requires |g| == |len| && n <= |g| && f == g[..n] && S == Occurring(f) && Sum(S, g) <= 16384 && NearlyOptimal(S, g, len, 15)
    ensures NearlyCheapest(f, len[..n])
  {
    hide Cost, KraftAt, Sum;
    CutCost(S, g, len, n);
    forall m, top: nat | IsCode(f, m, top)
      ensures Cost(S, f, len[..n]) <= Cost(S, f, m) + 62 * |S|
    {
      var w: seq<nat> := m + len[n..];
      assert w[..n] == m;
      CutKraft(S, w, n, top);
      CutCost(S, g, w, n);
    }
  }

  lemma {:induction false} ItFits(f: seq<nat>, l: seq<nat>, max: nat)
    requires IsCode(f, l, max) && Cheapest(f, l)
    ensures SomeFits(f, max)
  {
  }

  lemma {:induction false} TotalCut(f: seq<nat>, n: nat)
    requires n <= |f|
    ensures Total(f[..n], n) == Total(f, n)
  {
    TotalFrame(f[..n], f, n);
  }

  lemma {:induction false} TotalFrame(f: seq<nat>, g: seq<nat>, n: nat)
    requires n <= |f| && n <= |g| && forall i :: 0 <= i < n ==> f[i] == g[i]
    ensures Total(f, n) == Total(g, n)
  {
    if n > 0 { TotalFrame(f, g, n - 1); }
  }

  /** A lone symbol, or none: one bit each is the least there is. */
  lemma {:induction false} PublishFew(f: seq<nat>, len: seq<nat>, max: nat)
    requires |len| == |f| && max >= 1 && |Occurring(f)| <= 1 && forall i :: 0 <= i < |f| && f[i] != 0 ==> len[i] == 1
    ensures BestCode(f, len, max)
  {
    hide Sum, Fib;
    var S := Occurring(f);
    if S == {} {
      SumEmpty(Units(len, max));
    } else {
      var a :| a in S;
      assert S == {a} by { assert |S - {a}| == 0; }
      SumOne(Units(len, max), a);
      assert Pow2(max) == 2 * Pow2(max - 1);
    }
    forall m, top: nat | IsCode(f, m, top)
      ensures Cost(S, f, len) <= Cost(S, f, m)
    {
      if S == {} {
        SumEmpty(Products(f, len));
        SumEmpty(Products(f, m));
      } else {
        var a :| a in S;
        assert S == {a} by { assert |S - {a}| == 0; }
        SumOne(Products(f, len), a);
        SumOne(Products(f, m), a);
        assert f[a] * 1 <= f[a] * m[a];
      }
    }
    ItFits(f, len, max);
  }
}
