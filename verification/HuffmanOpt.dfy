/** Why merging the two rarest nodes is optimal: a lower bound on the cost of every
    length assignment that satisfies the Kraft inequality. */
module HuffmanOpt {
  import opened Bits
  import opened SetSum

  /** Frequency times length, entry by entry. */
  ghost function Products(f: seq<nat>, l: seq<nat>): (v: seq<int>)
    requires |f| == |l|
    ensures |v| == |f|
  {
    seq(|f|, i requires 0 <= i < |f| => f[i] * l[i])
  }

  /** The share of 2^top that a code of length k uses up. */
  function Unit(top: nat, k: nat): (r: nat) { if k <= top then Pow2(top - k) else 0 }

  ghost function Units(l: seq<nat>, top: nat): (v: seq<int>)
    ensures |v| == |l|
  {
    seq(|l|, i requires 0 <= i < |l| => Unit(top, l[i]))
  }

  ghost function Cost(S: set<nat>, f: seq<nat>, l: seq<nat>): (r: int)
    requires |f| == |l|
  {
    Sum(S, Products(f, l))
  }

  ghost function Mass(S: set<nat>, l: seq<nat>, top: nat): (r: int) { Sum(S, Units(l, top)) }

  ghost predicate Indices(S: set<nat>, n: nat) { forall i :: i in S ==> i < n }

  /** The lengths l of the elements of S, all at most top, satisfy the Kraft inequality. */
  ghost predicate KraftAt(S: set<nat>, l: seq<nat>, top: nat)
  {
    && Indices(S, |l|)
    && (forall i :: i in S ==> l[i] <= top)
    && Mass(S, l, top) <= Pow2(top)
  }

  /** No Kraft-satisfying length assignment for S costs less than c. */
  ghost predicate LowerBound(S: set<nat>, f: seq<nat>, c: int)
  {
    forall l: seq<nat>, top: nat :: |l| == |f| && KraftAt(S, l, top) ==> c <= Cost(S, f, l)
  }

  /** Some element of S, with h levels of its own below it, reaches level k. */
  ghost predicate Reaches(S: set<nat>, h: seq<nat>, l: seq<nat>, k: nat)
  {
    exists i :: i in S && i < |l| && i < |h| && h[i] + l[i] >= k
  }

  /** No Kraft-satisfying length assignment for S costs less than c, and those that cost c reach level k. */
  ghost predicate TallBound(S: set<nat>, f: seq<nat>, h: seq<nat>, c: int, k: nat)
  {
    forall l: seq<nat>, top: nat :: |l| == |f| && KraftAt(S, l, top) ==>
      c <= Cost(S, f, l) && (Cost(S, f, l) == c ==> Reaches(S, h, l, k))
  }

  /** r costs no more than l, and if it costs the same it is no taller. */
  ghost predicate NoWorse(S: set<nat>, f: seq<nat>, h: seq<nat>, r: seq<nat>, l: seq<nat>, k: nat)
    requires |r| == |f| == |l|
  {
    && Cost(S, f, r) <= Cost(S, f, l)
    && (Cost(S, f, r) == Cost(S, f, l) && Reaches(S, h, r, k) ==> Reaches(S, h, l, k))
  }

  /** The order of the queue: rarer first, lower first among equally frequent ones. */
  predicate Before(f: seq<nat>, h: seq<nat>, a: nat, b: nat)
    requires a < |f| && b < |f| && |f| <= |h|
  {
    f[a] < f[b] || (f[a] == f[b] && h[a] <= h[b])
  }

  lemma {:induction false} TallIsLower(S: set<nat>, f: seq<nat>, h: seq<nat>, c: int, k: nat)
    requires TallBound(S, f, h, c, k)
    ensures LowerBound(S, f, c)
  {
    hide Cost, KraftAt, Reaches;
  }

  // ----- changing one length -----

  lemma {:induction false} CostUpdate(S: set<nat>, f: seq<nat>, l: seq<nat>, a: nat, k: nat)
    requires |f| == |l| && a < |f|
    ensures Cost(S, f, l[a := k]) == Cost(S, f, l) + if a in S then f[a] * k - f[a] * l[a] else 0
  {
    hide Sum;
    assert Products(f, l[a := k]) == Products(f, l)[a := f[a] * k];
    SumUpdate(S, Products(f, l), a, f[a] * k);
  }

  lemma {:induction false} MassUpdate(S: set<nat>, l: seq<nat>, top: nat, a: nat, k: nat)
    requires a < |l|
    ensures Mass(S, l[a := k], top) == Mass(S, l, top) + if a in S then Unit(top, k) - Unit(top, l[a]) else 0
  {
    hide Sum, Unit;
    assert Units(l[a := k], top) == Units(l, top)[a := Unit(top, k)];
    SumUpdate(S, Units(l, top), a, Unit(top, k));
  }

  /** One level less when nothing uses the last. */
  lemma {:induction false} MassHalf(S: set<nat>, l: seq<nat>, top: nat)
    requires top > 0 && Indices(S, |l|) && forall i :: i in S ==> l[i] < top
    ensures Mass(S, l, top) == 2 * Mass(S, l, top - 1)
  {
    hide Sum;
    forall i | 0 <= i < |l| && i in S
      ensures Units(l, top)[i] == 2 * Units(l, top - 1)[i]
    {
      assert Pow2(top - l[i]) == 2 * Pow2(top - l[i] - 1);
    }
    SumDouble(S, Units(l, top - 1), Units(l, top));
  }

  // ----- exchanging two lengths -----

  function Swap(l: seq<nat>, a: nat, b: nat): (r: seq<nat>)
    requires a < |l| && b < |l|
    ensures |r| == |l|
  {
    l[a := l[b]][b := l[a]]
  }

  lemma {:induction false} Rearrange(p: nat, q: nat, u: nat, v: nat)
    requires p <= q && u <= v
    ensures p * v + q * u <= p * u + q * v
  {
    assert (q - p) * (v - u) >= 0;
  }

  /** A longer code for a rarer element costs no more. */
  lemma {:induction false} SwapKeeps(S: set<nat>, f: seq<nat>, l: seq<nat>, top: nat, a: nat, b: nat)
    requires |f| == |l| && a in S && b in S && KraftAt(S, l, top)
    requires f[a] <= f[b] && l[a] <= l[b]
    ensures KraftAt(S, Swap(l, a, b), top) && Cost(S, f, Swap(l, a, b)) <= Cost(S, f, l)
  {
    hide Cost, Mass, Unit;
    CostUpdate(S, f, l, a, l[b]);
    CostUpdate(S, f, l[a := l[b]], b, l[a]);
    MassUpdate(S, l, top, a, l[b]);
    MassUpdate(S, l[a := l[b]], top, b, l[a]);
    Rearrange(f[a], f[b], l[a], l[b]);
  }

  /** A longer code for what comes before costs less, or as much without reaching further. */
  lemma {:induction false} SwapNoWorse(S: set<nat>, f: seq<nat>, h: seq<nat>, l: seq<nat>, top: nat, a: nat, b: nat, k: nat)
    requires |f| == |l| <= |h| && a in S && b in S && KraftAt(S, l, top) && Before(f, h, a, b) && l[a] <= l[b]
    ensures KraftAt(S, Swap(l, a, b), top) && NoWorse(S, f, h, Swap(l, a, b), l, k)
  {
    hide Cost, Mass, Unit;
    SwapKeeps(S, f, l, top, a, b);
    var r := Swap(l, a, b);
    if f[a] < f[b] && l[a] < l[b] {
      CostUpdate(S, f, l, a, l[b]);
      CostUpdate(S, f, l[a := l[b]], b, l[a]);
      StrictRearrange(f[a], f[b], l[a], l[b]);
    } else if Reaches(S, h, r, k) {
      var i :| i in S && i < |r| && i < |h| && h[i] + r[i] >= k;
      var j := if i == a || i == b then b else i;
      assert l[a] == l[b] ==> r == l;
      if l[a] < l[b] { assert h[j] + l[j] >= k; }
    }
  }

  lemma {:induction false} NoWorseTrans(S: set<nat>, f: seq<nat>, h: seq<nat>, r: seq<nat>, m: seq<nat>, l: seq<nat>, k: nat)
    requires |r| == |m| == |l| == |f| && NoWorse(S, f, h, r, m, k) && NoWorse(S, f, h, m, l, k)
    ensures NoWorse(S, f, h, r, l, k)
  {
    hide Cost, Reaches;
  }

  /** An element of S with the longest code. */
  lemma {:induction false} Longest(S: set<nat>, l: seq<nat>) returns (x: nat)
    requires S != {} && Indices(S, |l|)
    ensures x in S && forall i :: i in S ==> l[i] <= l[x]
    decreases |S|
  {
    var z :| z in S;
    x := z;
    assert S == (S - {z}) + {z};
    if S - {z} != {} {
      var y := Longest(S - {z}, l);
      if l[y] > l[z] { x := y; }
    }
  }

  /** The two first elements can have the two longest codes. */
  lemma {:induction false} Exchange(S: set<nat>, f: seq<nat>, h: seq<nat>, l: seq<nat>, top: nat, a: nat, b: nat, k: nat) returns (r: seq<nat>)
    requires |f| == |l| <= |h| && a in S && b in S && a != b && KraftAt(S, l, top)
    requires (forall i :: i in S ==> Before(f, h, a, i)) && (forall i :: i in S && i != a ==> Before(f, h, b, i))
    ensures |r| == |f| && KraftAt(S, r, top) && NoWorse(S, f, h, r, l, k)
    ensures (forall i :: i in S ==> r[i] <= r[a]) && (forall i :: i in S && i != a ==> r[i] <= r[b])
  {
    hide Cost, Mass, Unit, NoWorse;
    var x := Longest(S, l);
    SwapNoWorse(S, f, h, l, top, a, x, k);
    var m := Swap(l, a, x);
    assert b in S - {a};
    var y := Longest(S - {a}, m);
    SwapNoWorse(S, f, h, m, top, b, y, k);
    r := Swap(m, b, y);
    NoWorseTrans(S, f, h, r, m, l, k);
  }

  /** A longest code that is alone on its level can be shortened. */
  lemma {:induction false} Level(S: set<nat>, f: seq<nat>, h: seq<nat>, l: seq<nat>, top: nat, a: nat, b: nat, k: nat) returns (r: seq<nat>, t: nat)
    requires |f| == |l| && a in S && b in S && a != b && KraftAt(S, l, top)
    requires (forall i :: i in S ==> l[i] <= l[a]) && (forall i :: i in S && i != a ==> l[i] <= l[b])
    ensures |r| == |f| && KraftAt(S, r, t) && NoWorse(S, f, h, r, l, k) && r[a] == r[b]
    decreases top
  {
    hide Cost, Mass, Unit, NoWorse;
    if l[a] == l[b] {
      r, t := l, top;
      SameNoWorse(S, f, h, l, k);
    } else {
      assert Pow2(top) == 2 * Pow2(top - 1);
      if l[a] < top {
        MassHalf(S, l, top);
        r, t := Level(S, f, h, l, top - 1, a, b, k);
      } else {
        var m := l[a := top - 1];
        Shorten(S, l, top, a);
        ShortenNoWorse(S, f, h, l, a, top - 1, k);
        r, t := Level(S, f, h, m, top - 1, a, b, k);
        NoWorseTrans(S, f, h, r, m, l, k);
      }
    }
  }

  lemma {:induction false} SameNoWorse(S: set<nat>, f: seq<nat>, h: seq<nat>, l: seq<nat>, k: nat)
    requires |f| == |l|
    ensures NoWorse(S, f, h, l, l, k)
  {
  }

  lemma {:induction false} ShortenNoWorse(S: set<nat>, f: seq<nat>, h: seq<nat>, l: seq<nat>, a: nat, n: nat, k: nat)
    requires |f| == |l| && a in S && a < |l| && n <= l[a]
    ensures NoWorse(S, f, h, l[a := n], l, k)
  {
    hide Cost;
    CostUpdate(S, f, l, a, n);
    assert f[a] * (l[a] - n) >= 0;
    var r := l[a := n];
    if Reaches(S, h, r, k) {
      var i :| i in S && i < |r| && i < |h| && h[i] + r[i] >= k;
      assert h[i] + l[i] >= k;
    }
  }

  lemma {:induction false} Shorten(S: set<nat>, l: seq<nat>, top: nat, a: nat)
    requires a in S && KraftAt(S, l, top) && top > 0 && l[a] == top && forall i :: i in S && i != a ==> l[i] < top
    ensures KraftAt(S, l[a := top - 1], top - 1)
  {
    hide Sum;
    var R, m := S - {a}, l[a := top - 1];
    SumRemove(S, Units(l, top), a);
    MassHalf(R, l, top);
    assert Pow2(top) == 2 * Pow2(top - 1) && Pow2(0) == 1;
    SumRemove(S, Units(m, top - 1), a);
    SumSame(R, R, Units(l, top - 1), Units(m, top - 1));
  }

  /** Two equally long codes become one that is a bit shorter. */
  lemma {:induction false} Join2(S: set<nat>, f: seq<nat>, l: seq<nat>, top: nat, a: nat, b: nat, node: nat)
    requires |f| == |l| && a in S && b in S && a != b && KraftAt(S, l, top) && l[a] == l[b]
    requires node < |f| && node !in S && f[node] == f[a] + f[b]
    ensures var S' := S - {a, b} + {node};
      l[a] > 0 && KraftAt(S', l[node := l[a] - 1], top) && Cost(S', f, l[node := l[a] - 1]) + f[a] + f[b] == Cost(S, f, l)
  {
    hide Sum;
    var R, k := S - {a} - {b}, l[a];
    SumRemove(S, Units(l, top), a);
    SumRemove(S - {a}, Units(l, top), b);
    SumNonNegative(R, Units(l, top));
    if k == 0 { assert false; }
    assert Pow2(top - k + 1) == 2 * Pow2(top - k);
    var m := l[node := k - 1];
    assert S - {a, b} + {node} == R + {node};
    SumInsert(R, Units(m, top), node);
    SumSame(R, R, Units(l, top), Units(m, top));
    SumRemove(S, Products(f, l), a);
    SumRemove(S - {a}, Products(f, l), b);
    SumInsert(R, Products(f, m), node);
    SumSame(R, R, Products(f, l), Products(f, m));
    Distribute(f[a], f[b], k);
  }

  lemma {:induction false} Distribute(p: nat, q: nat, k: nat)
    requires k > 0
    ensures (p + q) * (k - 1) + p + q == p * k + q * k
  {
  }

  /** The joined node reaches as far as the two did. */
  lemma {:induction false} JoinReaches(S: set<nat>, h: seq<nat>, l: seq<nat>, a: nat, b: nat, node: nat, k: nat)
    requires a in S && b in S && a < |l| && b < |l| && node < |l| <= |h| && node !in S && l[a] == l[b] > 0
    requires h[node] == 1 + if h[a] >= h[b] then h[a] else h[b]
    ensures Reaches(S - {a, b} + {node}, h, l[node := l[a] - 1], k) ==> Reaches(S, h, l, k)
  {
    var m := l[node := l[a] - 1];
    if Reaches(S - {a, b} + {node}, h, m, k) {
      var i :| i in S - {a, b} + {node} && i < |m| && i < |h| && h[i] + m[i] >= k;
      var j := if i != node then i else if h[a] >= h[b] then a else b;
      assert j in S && h[j] + l[j] >= k;
    }
  }

  /** The step of Huffman's algorithm: a bound after merging the two first is a bound before,
      for the cost and, among the cheapest, for the height. */
  lemma {:induction false} MergeBound(S: set<nat>, f: seq<nat>, h: seq<nat>, a: nat, b: nat, node: nat, c: int, k: nat)
    requires Indices(S, |f|) && |f| <= |h| && a in S && b in S && a != b && node < |f| && node !in S && f[node] == f[a] + f[b]
    requires h[node] == 1 + if h[a] >= h[b] then h[a] else h[b]
    requires (forall i :: i in S ==> Before(f, h, a, i)) && (forall i :: i in S && i != a ==> Before(f, h, b, i))
    requires TallBound(S - {a, b} + {node}, f, h, c, k)
    ensures TallBound(S, f, h, c + f[a] + f[b], k)
  {
    hide Cost, KraftAt, Reaches, Before;
    forall l: seq<nat>, top: nat | |l| == |f| && KraftAt(S, l, top)
      ensures c + f[a] + f[b] <= Cost(S, f, l) && (Cost(S, f, l) == c + f[a] + f[b] ==> Reaches(S, h, l, k))
    {
      var m := Exchange(S, f, h, l, top, a, b, k);
      var r, t := Level(S, f, h, m, top, a, b, k);
      NoWorseTrans(S, f, h, r, m, l, k);
      Join2(S, f, r, t, a, b, node);
      JoinReaches(S, h, r, a, b, node, k);
    }
  }

  /** What lies outside S does not matter. */
  lemma {:induction false} BoundFrame(S: set<nat>, f: seq<nat>, g: seq<nat>, h: seq<nat>, h': seq<nat>, c: int, k: nat)
    requires |f| == |g| <= |h| && |f| <= |h'| && forall i :: i in S && i < |f| ==> f[i] == g[i] && h[i] == h'[i]
    requires TallBound(S, f, h, c, k)
    ensures TallBound(S, g, h', c, k)
  {
    hide Sum, KraftAt;
    forall l: seq<nat>, top: nat | |l| == |g| && KraftAt(S, l, top)
      ensures c <= Cost(S, g, l) && (Cost(S, g, l) == c ==> Reaches(S, h', l, k))
    {
      SumSame(S, S, Products(f, l), Products(g, l));
      if Cost(S, f, l) == c {
        var i :| i in S && i < |l| && i < |h| && h[i] + l[i] >= k;
        assert h'[i] + l[i] >= k;
      }
    }
  }

  /** In a cheapest assignment a rarer element never has a shorter code. */
  lemma {:induction false} CheapestIsMonotone(S: set<nat>, f: seq<nat>, l: seq<nat>, top: nat, i: nat, j: nat)
    requires |f| == |l| && KraftAt(S, l, top) && LowerBound(S, f, Cost(S, f, l))
    requires i in S && j in S && f[i] < f[j]
    ensures l[i] >= l[j]
  {
    hide Cost, Mass, Unit;
    if l[i] < l[j] {
      SwapKeeps(S, f, l, top, i, j);
      CostUpdate(S, f, l, i, l[j]);
      CostUpdate(S, f, l[i := l[j]], j, l[i]);
      StrictRearrange(f[i], f[j], l[i], l[j]);
      assert false;
    }
  }

  lemma {:induction false} StrictRearrange(p: nat, q: nat, u: nat, v: nat)
    requires p < q && u < v
    ensures p * v + q * u < p * u + q * v
  {
    assert (q - p) * (v - u) >= 1;
  }
}
