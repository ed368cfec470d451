/** Huffman trees over numbered nodes, and what follows for the code lengths that
    gen_bitlen reads off them, capped at a maximum. */
module HuffmanTree {
  import opened Bits
  import opened SetSum
  import opened HuffmanOpt

  datatype Tree = Leaf(id: nat) | Node(id: nat, left: Tree, right: Tree)

  ghost function Leaves(t: Tree): (s: set<nat>)
    ensures t.Leaf? ==> s == {t.id}
  {
    match t
    case Leaf(id) => {id}
    case Node(_, l, r) => Leaves(l) + Leaves(r)
  }

  ghost function Inners(t: Tree): (s: set<nat>)
  {
    match t
    case Leaf(_) => {}
    case Node(id, l, r) => {id} + Inners(l) + Inners(r)
  }

  ghost function Ids(t: Tree): (s: set<nat>)
    ensures t.id in s
  {
    match t
    case Leaf(id) => {id}
    case Node(id, l, r) => {id} + Ids(l) + Ids(r)
  }

  /** No node occurs twice. */
  ghost predicate Distinct(t: Tree)
  {
    match t
    case Leaf(_) => true
    case Node(id, l, r) => Distinct(l) && Distinct(r) && Ids(l) !! Ids(r) && id !in Ids(l) + Ids(r)
  }

  lemma {:induction false} IdsSplit(t: Tree)
    ensures Ids(t) == Leaves(t) + Inners(t)
  {
    if t.Node? {
      IdsSplit(t.left);
      IdsSplit(t.right);
    }
  }

  /** Leaves are symbols below elems, inner nodes come after them. */
  ghost predicate Placed(t: Tree, elems: nat, n: nat)
  {
    match t
    case Leaf(id) => id < elems
    case Node(id, l, r) => elems <= id < n && Placed(l, elems, n) && Placed(r, elems, n)
  }

  lemma {:induction false} PlacedIds(t: Tree, elems: nat, n: nat)
    requires Placed(t, elems, n) && elems <= n
    ensures forall i :: i in Leaves(t) ==> i < elems
    ensures forall i :: i in Inners(t) ==> elems <= i < n
    ensures forall i :: i in Ids(t) ==> i < n
  {
    if t.Node? {
      PlacedIds(t.left, elems, n);
      PlacedIds(t.right, elems, n);
    }
  }

  lemma {:induction false} PlacedMore(t: Tree, elems: nat, n: nat, m: nat)
    requires Placed(t, elems, n) && n <= m
    ensures Placed(t, elems, m)
  {
    if t.Node? {
      PlacedMore(t.left, elems, n, m);
      PlacedMore(t.right, elems, n, m);
    }
  }

  // ----- frequencies -----

  ghost function Weight(t: Tree, f: seq<nat>): (w: nat)
  {
    match t
    case Leaf(id) => if id < |f| then f[id] else 0
    case Node(_, l, r) => Weight(l, f) + Weight(r, f)
  }

  /** The sum of the weights of the inner nodes. */
  ghost function Inner(t: Tree, f: seq<nat>): (w: nat)
  {
    match t
    case Leaf(_) => 0
    case Node(_, l, r) => Weight(t, f) + Inner(l, f) + Inner(r, f)
  }

  // ----- lengths -----

  function Capped(k: nat, max: nat): (r: nat) { if k > max then max else k }

  /** Every child is one level below its parent, but at most at level max. */
  ghost predicate Labelled(t: Tree, len: seq<nat>, max: nat)
  {
    match t
    case Leaf(id) => id < |len| && len[id] <= max
    case Node(id, l, r) =>
      && id < |len| && len[id] <= max && l.id < |len| && r.id < |len|
      && len[l.id] == Capped(len[id] + 1, max) == len[r.id]
      && Labelled(l, len, max) && Labelled(r, len, max)
  }

  /** The parents recorded while building. */
  ghost predicate Linked(t: Tree, dad: seq<nat>)
  {
    match t
    case Leaf(id) => id < |dad|
    case Node(id, l, r) => id < |dad| && Linked(l, dad) && Linked(r, dad) && dad[l.id] == id == dad[r.id]
  }

  lemma {:induction false} LinkedFrame(t: Tree, dad: seq<nat>, dad': seq<nat>)
    requires Linked(t, dad) && |dad'| == |dad| && forall i :: i in Ids(t) && i != t.id && i < |dad| ==> dad'[i] == dad[i]
    requires Distinct(t)
    ensures Linked(t, dad')
  {
    if t.Node? {
      LinkedFrame(t.left, dad, dad');
      LinkedFrame(t.right, dad, dad');
    }
  }

  lemma {:induction false} LinkedLabels(t: Tree, dad: seq<nat>, len: seq<nat>, max: nat)
    requires Linked(t, dad) && |len| == |dad| && Distinct(t) && len[t.id] <= max
    requires forall i :: i in Ids(t) && i != t.id && i < |dad| ==> dad[i] < |len| && len[i] == Capped(len[dad[i]] + 1, max)
    ensures Labelled(t, len, max)
  {
    if t.Node? {
      LinkedLabels(t.left, dad, len, max);
      LinkedLabels(t.right, dad, len, max);
    }
  }

  /** Inner nodes on the last level: each stands for two nodes that lie too deep. */
  ghost function Deep(t: Tree, len: seq<nat>, max: nat): (n: nat)
    requires Labelled(t, len, max)
  {
    match t
    case Leaf(_) => 0
    case Node(id, l, r) => (if len[id] == max then 1 else 0) + Deep(l, len, max) + Deep(r, len, max)
  }

  lemma {:induction false} LeafSums(t: Tree, v: seq<int>)
    requires Distinct(t)
    ensures t.Leaf? && t.id < |v| ==> Sum(Leaves(t), v) == v[t.id]
    ensures t.Node? ==> Sum(Leaves(t), v) == Sum(Leaves(t.left), v) + Sum(Leaves(t.right), v)
  {
    hide Sum;
    match t
    case Leaf(id) => if id < |v| { SumOne(v, id); }
    case Node(_, l, r) =>
      IdsSplit(l);
      IdsSplit(r);
      SumUnion(Leaves(l), Leaves(r), v);
  }

  /** The Kraft sum of the capped lengths: exact but for the nodes that lay too deep. */
  lemma {:induction false} TreeMass(t: Tree, len: seq<nat>, max: nat)
    requires Distinct(t) && Labelled(t, len, max)
    ensures Mass(Leaves(t), len, max) == Pow2(max - len[t.id]) + Deep(t, len, max)
    decreases t
  {
    hide Sum;
    LeafSums(t, Units(len, max));
    if t.Node? {
      TreeMass(t.left, len, max);
      TreeMass(t.right, len, max);
      if len[t.id] < max { assert Pow2(max - len[t.id]) == 2 * Pow2(max - len[t.id] - 1); } else { assert Pow2(0) == 1; }
    }
  }

  /** A tree with nothing too deep costs the sum of its inner weights. */
  lemma {:induction false} TreeCost(t: Tree, f: seq<nat>, len: seq<nat>, max: nat)
    requires Distinct(t) && Labelled(t, len, max) && |f| == |len| && Deep(t, len, max) == 0
    ensures Cost(Leaves(t), f, len) == Weight(t, f) * len[t.id] + Inner(t, f)
    decreases t
  {
    hide Sum;
    LeafSums(t, Products(f, len));
    if t.Node? {
      TreeCost(t.left, f, len, max);
      TreeCost(t.right, f, len, max);
      Distribute2(Weight(t.left, f), Weight(t.right, f), len[t.id]);
    }
  }

  /** Capped, it does not cost more. */
  lemma {:induction false} CappedCost(t: Tree, f: seq<nat>, len: seq<nat>, max: nat)
    requires Distinct(t) && Labelled(t, len, max) && |f| == |len|
    ensures Cost(Leaves(t), f, len) <= Weight(t, f) * len[t.id] + Inner(t, f)
    decreases t
  {
    hide Sum;
    LeafSums(t, Products(f, len));
    if t.Node? {
      CappedCost(t.left, f, len, max);
      CappedCost(t.right, f, len, max);
      Distribute2(Weight(t.left, f), Weight(t.right, f), len[t.id]);
      Less(Weight(t.left, f), len[t.left.id], len[t.id] + 1);
      Less(Weight(t.right, f), len[t.right.id], len[t.id] + 1);
    }
  }

  lemma {:induction false} Less(w: nat, a: nat, b: nat)
    requires a <= b
    ensures w * a <= w * b
  {
  }

  lemma {:induction false} Distribute2(p: nat, q: nat, k: nat)
    ensures p * (k + 1) + q * (k + 1) == (p + q) * k + p + q
  {
  }

  /** 1 at the nodes on level k. */
  ghost function At(len: seq<nat>, k: nat): (v: seq<int>)
    ensures |v| == |len|
  {
    seq(|len|, i requires 0 <= i < |len| => if len[i] == k then 1 else 0)
  }

  /** There are more leaves on the last level than inner nodes. */
  lemma {:induction false} DeepLeaves(t: Tree, len: seq<nat>, max: nat)
    requires Distinct(t) && Labelled(t, len, max)
    ensures Sum(Leaves(t), At(len, max)) >= Deep(t, len, max)
    ensures len[t.id] == max ==> Sum(Leaves(t), At(len, max)) == Deep(t, len, max) + 1
    ensures Deep(t, len, max) > 0 ==> Sum(Leaves(t), At(len, max)) > Deep(t, len, max)
    decreases t
  {
    hide Sum;
    LeafSums(t, At(len, max));
    if t.Node? {
      DeepLeaves(t.left, len, max);
      DeepLeaves(t.right, len, max);
    }
  }

  ghost function Height(t: Tree): (h: nat)
  {
    match t
    case Leaf(_) => 0
    case Node(_, l, r) => 1 + if Height(l) >= Height(r) then Height(l) else Height(r)
  }

  /** Nothing is too deep exactly when the tree is not too high. */
  lemma {:induction false} DeepHeight(t: Tree, len: seq<nat>, max: nat)
    requires Labelled(t, len, max)
    ensures Deep(t, len, max) == 0 <==> len[t.id] + Height(t) <= max
    decreases t
  {
    if t.Node? {
      DeepHeight(t.left, len, max);
      DeepHeight(t.right, len, max);
    }
  }

  /** Below the top every leaf has a level of at least 1. */
  lemma {:induction false} LeafLevels(t: Tree, len: seq<nat>, max: nat)
    requires Labelled(t, len, max) && max >= 1
    ensures forall i :: i in Leaves(t) ==> i < |len| && len[i] <= max && (t.Node? || len[t.id] > 0 ==> len[i] >= 1)
    decreases t
  {
    if t.Node? {
      LeafLevels(t.left, len, max);
      LeafLevels(t.right, len, max);
    }
  }

  // ----- how high a tree can be -----

  /** The children of the top weigh at most w each. */
  ghost predicate Kids(t: Tree, f: seq<nat>, w: nat)
  {
    t.Node? ==> Weight(t.left, f) <= w && Weight(t.right, f) <= w
  }

  /** No node weighs less than a child of its sibling. */
  ghost predicate Sorted(t: Tree, f: seq<nat>)
  {
    match t
    case Leaf(_) => true
    case Node(_, l, r) => Kids(l, f, Weight(r, f)) && Kids(r, f, Weight(l, f)) && Sorted(l, f) && Sorted(r, f)
  }

  function Fib(n: nat): (r: nat)
    ensures n > 0 ==> r > 0
  {
    if n < 2 then n else Fib(n - 1) + Fib(n - 2)
  }

  lemma {:induction false} FibGrows(m: nat, n: nat)
    requires m <= n
    ensures Fib(m) <= Fib(n)
    decreases n
  {
    if m < n && n >= 2 { FibGrows(m, n - 1); }
  }

  lemma {:induction false} FibStep(n: nat)
    ensures Fib(n + 2) == Fib(n + 1) + Fib(n) && Fib(1) == 1 == Fib(2)
  {
  }

  /** Heights cost weight: a tree of height n weighs at least the Fibonacci number n + 2. */
  lemma {:induction false} HeightWeight(t: Tree, f: seq<nat>)
    requires Sorted(t, f) && forall i :: i in Leaves(t) ==> i < |f| && f[i] > 0
    ensures Weight(t, f) >= Fib(Height(t) + 2)
    decreases t, 0
  {
    hide Fib;
    FibStep(Height(t));
    if t.Node? {
      if Height(t.left) >= Height(t.right) { SiblingWeight(t.left, t.right, f); } else { SiblingWeight(t.right, t.left, f); }
    } else {
      FibStep(0);
      assert t.id in Leaves(t);
    }
  }

  lemma {:induction false} SiblingWeight(deep: Tree, flat: Tree, f: seq<nat>)
    requires Sorted(deep, f) && Sorted(flat, f) && Kids(deep, f, Weight(flat, f)) && Height(deep) >= Height(flat)
    requires (forall i :: i in Leaves(deep) ==> i < |f| && f[i] > 0) && (forall i :: i in Leaves(flat) ==> i < |f| && f[i] > 0)
    ensures Weight(deep, f) + Weight(flat, f) >= Fib(Height(deep) + 3)
    decreases deep, 1
  {
    hide Fib;
    HeightWeight(deep, f);
    FibStep(Height(deep) + 1);
    if deep.Node? {
      var d := if Height(deep.left) >= Height(deep.right) then deep.left else deep.right;
      HeightWeight(d, f);
    } else {
      FibStep(0);
      assert flat.Leaf? && flat.id in Leaves(flat);
    }
  }

  /** Depth costs weight: a leaf d levels below the top weighs at most the total over the Fibonacci number d + 1. */
  lemma {:induction false} LeafWeight(t: Tree, f: seq<nat>, len: seq<nat>, max: nat, i: nat)
    requires Sorted(t, f) && Labelled(t, len, max) && i in Leaves(t) && i < |f| && i < |len| && len[i] < max
    ensures len[t.id] <= len[i] && f[i] * Fib(len[i] - len[t.id] + 1) <= Weight(t, f)
    decreases t, 0
  {
    hide Fib;
    FibStep(0);
    if t.Node? {
      if i in Leaves(t.left) { LeafBelow(t.left, t.right, f, len, max, i); } else { LeafBelow(t.right, t.left, f, len, max, i); }
      TopLevel(t, len, max, i);
    }
  }

  /** The top of a tree is above its leaves, and not on the last level if one of them is not. */
  lemma {:induction false} TopLevel(t: Tree, len: seq<nat>, max: nat, i: nat)
    requires Labelled(t, len, max) && i in Leaves(t) && i < |len| && len[i] < max
    ensures len[t.id] <= len[i] && (t.Node? ==> len[t.id] < len[i] && len[t.left.id] == len[t.id] + 1 == len[t.right.id])
    decreases t
  {
    if t.Node? {
      if i in Leaves(t.left) { TopLevel(t.left, len, max, i); } else { TopLevel(t.right, len, max, i); }
    }
  }

  lemma {:induction false} LeafBelow(u: Tree, v: Tree, f: seq<nat>, len: seq<nat>, max: nat, i: nat)
    requires Sorted(u, f) && Labelled(u, len, max) && i in Leaves(u) && i < |f| && i < |len| && len[i] < max && Kids(u, f, Weight(v, f))
    ensures len[u.id] <= len[i] && f[i] * Fib(len[i] - len[u.id] + 2) <= Weight(u, f) + Weight(v, f)
    decreases u, 1
  {
    hide Fib;
    TopLevel(u, len, max, i);
    LeafWeight(u, f, len, max, i);
    FibStep(len[i] - len[u.id]);
    if u.Node? {
      var w := if i in Leaves(u.left) then u.left else u.right;
      LeafWeight(w, f, len, max, i);
      var d := len[i] - len[u.id];
      assert Fib(len[i] - len[w.id] + 1) == Fib(d);
      Add(f[i], Fib(d + 1), Fib(d));
    } else {
      FibStep(0);
      assert Fib(0) == 0;
    }
  }

  lemma {:induction false} Add(p: nat, a: nat, b: nat)
    ensures p * (a + b) == p * a + p * b
  {
  }

  /** A tree that weighs less than a Fibonacci number is low. */
  lemma {:induction false} LightIsLow(t: Tree, f: seq<nat>, n: nat)
    requires Sorted(t, f) && (forall i :: i in Leaves(t) ==> i < |f| && f[i] > 0) && Weight(t, f) < Fib(n + 3)
    ensures Height(t) <= n
  {
    hide Fib, Sorted;
    HeightWeight(t, f);
    if Height(t) > n { FibGrows(n + 3, Height(t) + 2); }
  }

  lemma {:induction false} Fib26()
    ensures Fib(26) == 121393
  {
    assert Fib(8) == 21 && Fib(9) == 34;
    assert Fib(10) == 55 && Fib(11) == 89;
    assert Fib(12) == 144 && Fib(13) == 233;
    assert Fib(14) == 377 && Fib(15) == 610;
    assert Fib(16) == 987 && Fib(17) == 1597;
    assert Fib(18) == 2584 && Fib(19) == 4181;
    assert Fib(20) == 6765 && Fib(21) == 10946;
    assert Fib(22) == 17711 && Fib(23) == 28657;
    assert Fib(24) == 46368 && Fib(25) == 75025;
  }

  // ----- the lengths of a tree, whatever its height -----

  /** len with the level of every node of t filled in, the top being at level k. */
  ghost function Depths(t: Tree, k: nat, len: seq<nat>): (r: seq<nat>)
    ensures |r| == |len|
  {
    var own := if t.id < |len| then len[t.id := k] else len;
    match t
    case Leaf(_) => own
    case Node(_, l, r) => Depths(r, k + 1, Depths(l, k + 1, own))
  }

  lemma {:induction false} DepthsFrame(t: Tree, k: nat, len: seq<nat>, i: nat)
    requires i !in Ids(t) && i < |len|
    ensures Depths(t, k, len)[i] == len[i]
    decreases t
  {
    if t.Node? {
      var own := if t.id < |len| then len[t.id := k] else len;
      DepthsFrame(t.left, k + 1, own, i);
      DepthsFrame(t.right, k + 1, Depths(t.left, k + 1, own), i);
    }
  }

  lemma {:induction false} LabelledFrame(t: Tree, len: seq<nat>, len': seq<nat>, max: nat)
    requires Labelled(t, len, max) && |len| == |len'| && forall i :: i in Ids(t) && i < |len| ==> len'[i] == len[i]
    ensures Labelled(t, len', max)
    decreases t
  {
    if t.Node? {
      LabelledFrame(t.left, len, len', max);
      LabelledFrame(t.right, len, len', max);
    }
  }

  lemma {:induction false} DepthsLabel(t: Tree, k: nat, len: seq<nat>, max: nat)
    requires Distinct(t) && (forall i :: i in Ids(t) ==> i < |len|) && k + Height(t) <= max
    ensures Labelled(t, Depths(t, k, len), max) && Depths(t, k, len)[t.id] == k
    decreases t
  {
    assert t.id in Ids(t);
    if t.Node? {
      assert Ids(t.left) <= Ids(t) && Ids(t.right) <= Ids(t);
      var own := len[t.id := k];
      var one := Depths(t.left, k + 1, own);
      DepthsLabel(t.left, k + 1, own, max);
      DepthsLabel(t.right, k + 1, one, max);
      DepthsKeep(t.left, t.right, k + 1, one, max);
      DepthsFrame(t.left, k + 1, own, t.id);
      DepthsFrame(t.right, k + 1, one, t.id);
    }
  }

  lemma {:induction false} DepthsKeep(l: Tree, r: Tree, k: nat, len: seq<nat>, max: nat)
    requires Ids(l) !! Ids(r) && Labelled(l, len, max)
    ensures Labelled(l, Depths(r, k, len), max) && l.id < |len| && Depths(r, k, len)[l.id] == len[l.id]
  {
    hide Depths, Labelled;
    forall i | i in Ids(l) && i < |len|
      ensures Depths(r, k, len)[i] == len[i]
    {
      DepthsFrame(r, k, len, i);
    }
    LabelledFrame(l, len, Depths(r, k, len), max);
    LabelledTop(l, len, max);
  }

  lemma {:induction false} LabelledTop(t: Tree, len: seq<nat>, max: nat)
    requires Labelled(t, len, max)
    ensures t.id < |len|
  {
  }

  /** The depths of the leaves satisfy the Kraft inequality and cost what the inner nodes weigh. */
  lemma {:induction false} TreeLengths(t: Tree, f: seq<nat>) returns (len: seq<nat>)
    requires Distinct(t) && forall i :: i in Ids(t) ==> i < |f|
    ensures |len| == |f| && KraftAt(Leaves(t), len, Height(t)) && Cost(Leaves(t), f, len) == Inner(t, f)
  {
    hide Sum, Distinct, Cost, Inner, Depths, Pow2;
    var zero: seq<nat> := seq(|f|, _ => 0);
    len := Depths(t, 0, zero);
    DepthsLabel(t, 0, zero, Height(t));
    DeepHeight(t, len, Height(t));
    TreeMass(t, len, Height(t));
    TreeCost(t, f, len, Height(t));
    LabelledLeaves(t, len, Height(t));
    assert Weight(t, f) * 0 == 0;
  }

  lemma {:induction false} LabelledLeaves(t: Tree, len: seq<nat>, max: nat)
    requires Labelled(t, len, max)
    ensures forall i :: i in Leaves(t) ==> i < |len| && len[i] <= max
    decreases t
  {
    if t.Node? {
      LabelledLeaves(t.left, len, max);
      LabelledLeaves(t.right, len, max);
    }
  }

  /** A tree is lower than it has leaves. */
  lemma {:induction false} HeightLeaves(t: Tree)
    requires Distinct(t)
    ensures Height(t) + 1 <= |Leaves(t)|
    decreases t
  {
    if t.Node? {
      HeightLeaves(t.left);
      HeightLeaves(t.right);
      IdsSplit(t.left);
      IdsSplit(t.right);
      assert Leaves(t.left) !! Leaves(t.right);
      assert |Leaves(t)| == |Leaves(t.left)| + |Leaves(t.right)|;
    }
  }
}
