/** Sums of the entries of a sequence over a set of indices. */
module SetSum {
  ghost function Sum(S: set<nat>, v: seq<int>): (r: int)
  {
    if v == [] then 0 else Sum(S, v[..|v| - 1]) + if |v| - 1 in S then v[|v| - 1] else 0
  }

  lemma {:induction false} SumUpdate(S: set<nat>, v: seq<int>, a: nat, x: int)
    requires a < |v|
    ensures Sum(S, v[a := x]) == Sum(S, v) + if a in S then x - v[a] else 0
    decreases |v|
  {
    var n := |v| - 1;
    if a == n {
      assert v[a := x][..n] == v[..n];
    } else {
      SumUpdate(S, v[..n], a, x);
      assert v[a := x][..n] == v[..n][a := x];
    }
  }

  lemma {:induction false} SumInsert(S: set<nat>, v: seq<int>, a: nat)
    requires a < |v| && a !in S
    ensures Sum(S + {a}, v) == Sum(S, v) + v[a]
    decreases |v|
  {
    var n := |v| - 1;
    if a == n {
      SumSame(S + {a}, S, v[..n], v[..n]);
    } else {
      SumInsert(S, v[..n], a);
    }
  }

  /** Only the entries in the set matter. */
  lemma {:induction false} SumSame(S: set<nat>, T: set<nat>, v: seq<int>, w: seq<int>)
    requires |v| == |w|
    requires forall i :: 0 <= i < |v| ==> (if i in S then v[i] else 0) == (if i in T then w[i] else 0)
    ensures Sum(S, v) == Sum(T, w)
    decreases |v|
  {
    if v != [] {
      var n := |v| - 1;
      SumSame(S, T, v[..n], w[..n]);
    }
  }

  lemma {:induction false} SumUnion(S: set<nat>, T: set<nat>, v: seq<int>)
    requires S !! T
    ensures Sum(S + T, v) == Sum(S, v) + Sum(T, v)
    decreases |v|
  {
    if v != [] { SumUnion(S, T, v[..|v| - 1]); }
  }

  lemma {:induction false} SumDouble(S: set<nat>, v: seq<int>, w: seq<int>)
    requires |v| == |w| && forall i :: 0 <= i < |v| && i in S ==> w[i] == 2 * v[i]
    ensures Sum(S, w) == 2 * Sum(S, v)
    decreases |v|
  {
    if v != [] {
      var n := |v| - 1;
      SumDouble(S, v[..n], w[..n]);
    }
  }

  lemma {:induction false} SumEmpty(v: seq<int>)
    ensures Sum({}, v) == 0
    decreases |v|
  {
    if v != [] { SumEmpty(v[..|v| - 1]); }
  }

  lemma {:induction false} SumOne(v: seq<int>, a: nat)
    requires a < |v|
    ensures Sum({a}, v) == v[a]
  {
    hide Sum;
    SumEmpty(v);
    SumInsert({}, v, a);
    assert {} + {a} == {a};
  }

  lemma {:induction false} SumRemove(S: set<nat>, v: seq<int>, a: nat)
    requires a < |v| && a in S
    ensures Sum(S - {a}, v) == Sum(S, v) - v[a]
  {
    hide Sum;
    SumInsert(S - {a}, v, a);
    assert S - {a} + {a} == S;
  }

  lemma {:induction false} SumNonNegative(S: set<nat>, v: seq<int>)
    requires forall i :: 0 <= i < |v| && i in S ==> v[i] >= 0
    ensures Sum(S, v) >= 0
    decreases |v|
  {
    if v != [] { SumNonNegative(S, v[..|v| - 1]); }
  }

  /** Entries past n do not count if the set has none of them. */
  lemma {:induction false} SumPrefix(S: set<nat>, v: seq<int>, n: nat)
    requires n <= |v| && forall i :: i in S ==> i < n
    ensures Sum(S, v) == Sum(S, v[..n])
    decreases |v|
  {
    if n < |v| {
      SumPrefix(S, v[..|v| - 1], n);
      assert v[..|v| - 1][..n] == v[..n];
    } else {
      assert v[..n] == v;
    }
  }

  lemma {:induction false} SumAdd(S: set<nat>, u: seq<int>, v: seq<int>, w: seq<int>)
    requires |u| == |v| == |w| && forall i :: 0 <= i < |w| ==> w[i] == u[i] + v[i]
    ensures Sum(S, w) == Sum(S, u) + Sum(S, v)
    decreases |w|
  {
    if w != [] {
      var n := |w| - 1;
      SumAdd(S, u[..n], v[..n], w[..n]);
    }
  }

  lemma {:induction false} CardUnder(S: set<nat>, T: set<nat>)
    requires S <= T
    ensures |S| <= |T|
  {
    assert T == S + (T - S);
  }

  lemma {:induction false} SumLess(S: set<nat>, u: seq<int>, v: seq<int>)
    requires |u| == |v| && forall i :: 0 <= i < |u| && i in S ==> u[i] <= v[i]
    ensures Sum(S, u) <= Sum(S, v)
    decreases |u|
  {
    if u != [] { SumLess(S, u[..|u| - 1], v[..|v| - 1]); }
  }

  lemma {:induction false} SumScale(S: set<nat>, u: seq<int>, v: seq<int>, k: int)
    requires |u| == |v| && forall i :: 0 <= i < |u| ==> v[i] == k * u[i]
    ensures Sum(S, v) == k * Sum(S, u)
    decreases |u|
  {
    if u != [] {
      var n := |u| - 1;
      SumScale(S, u[..n], v[..n], k);
      assert k * (Sum(S, u[..n]) + u[n]) == k * Sum(S, u[..n]) + k * u[n];
    }
  }
}
