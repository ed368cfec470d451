/** The loop of build_tree: nodes are merged two at a time, the rarest first, and taken
    nodes are kept in order at the end of the heap array. */
module HuffmanBuild {
  import opened Bits
  import opened SetSum
  import opened HuffmanOpt
  import opened HuffmanTree
  import opened NodeHeap

  /** The trees under the nodes in the queue, by their top node. */
  type Trees = map<nat, Tree>

  ghost predicate TopOk(t: Tree, r: nat, elems: nat, node: nat, f: seq<nat>, fc: seq<nat>, dl: seq<nat>)
  {
    && t.id == r < |fc| && Distinct(t) && Placed(t, elems, node) && Linked(t, dl) && fc[r] == Weight(t, f)
  }

  /** Disjoint trees whose parents and weights the arrays record. */
  ghost predicate Grove(trees: Trees, elems: nat, node: nat, f: seq<nat>, fc: seq<nat>, dl: seq<nat>)
  {
    && elems <= node <= |fc| == |dl|
    && (forall r :: r in trees ==> TopOk(trees[r], r, elems, node, f, fc, dl))
    && (forall r, s :: r in trees && s in trees && r != s ==> Ids(trees[r]) !! Ids(trees[s]))
  }

  ghost predicate InGrove(trees: Trees, i: nat) { exists r :: r in trees && i in Ids(trees[r]) }

  /** The trees hold the symbols used and all nodes made so far. */
  ghost predicate Covering(trees: Trees, used: set<nat>, elems: nat, node: nat)
  {
    && (forall i: nat :: i in used || elems <= i < node ==> InGrove(trees, i))
    && (forall r, i :: r in trees && i in Leaves(trees[r]) ==> i in used)
  }

  /** The nodes taken so far, from index top of the heap array on: parents first, more
      frequent first; pos says where each is. */
  ghost predicate Shelf(h: seq<nat>, top: nat, pos: map<nat, nat>, trees: Trees, elems: nat, node: nat, fc: seq<nat>, dl: seq<nat>)
  {
    && top <= |h| && |dl| == |fc|
    && (forall i :: i in pos ==> top <= pos[i] < |h| && h[pos[i]] == i && i < node && i < |fc| && i !in trees)
    && (forall k :: top <= k < |h| ==> h[k] in pos && pos[h[k]] == k)
    && (forall i :: i in pos ==> dl[i] in trees || (dl[i] in pos && pos[dl[i]] < pos[i]))
    && (forall i, j :: i in pos && j in pos && pos[i] < pos[j] ==> fc[i] >= fc[j])
    && (forall r, i :: r in trees && i in pos ==> r < |fc| && fc[r] >= fc[i])
  }

  /** Every node made is in the queue or on the shelf. */
  ghost predicate Complete(pos: map<nat, nat>, trees: Trees, used: set<nat>, elems: nat, node: nat)
  {
    && (forall i :: i in used || elems <= i < node ==> i in pos || i in trees)
    && (forall i :: i in pos || i in trees ==> i in used || elems <= i < node)
  }

  ghost function Flat(n: nat): (h: seq<nat>)
    ensures |h| == n && forall i :: 0 <= i < n ==> h[i] == 0
  {
    seq(n, _ => 0)
  }

  /** A bound for the nodes in the queue is one for the symbols, with what the merges cost. */
  ghost predicate Carries(roots: set<nat>, fc: seq<nat>, depth: seq<nat>, used: set<nat>, f: seq<nat>, spent: int)
  {
    forall c, k :: TallBound(roots, fc, depth, c, k) ==> TallBound(used, f, Flat(|f|), c + spent, k)
  }

  /** The depths recorded are the heights, and no child in the trees outweighs a tree. */
  ghost predicate Ordered(trees: Trees, f: seq<nat>, fc: seq<nat>, depth: seq<nat>)
  {
    && |fc| <= |depth| && (forall r :: r in trees ==> r < |fc| && depth[r] == Height(trees[r]) && Sorted(trees[r], f))
    && (forall r, s :: r in trees && s in trees ==> Kids(trees[r], f, fc[s]))
  }

  /** The merges so far cost what the inner nodes of the trees weigh. */
  ghost predicate Spent(trees: Trees, f: seq<nat>, inner: seq<int>, spent: int)
  {
    && (forall r :: r in trees ==> r < |inner| && inner[r] == Inner(trees[r], f))
    && spent == Sum(trees.Keys, inner)
  }

  function Merged(trees: Trees, a: nat, b: nat, node: nat): (r: Trees)
    requires a in trees && b in trees
    ensures r.Keys == trees.Keys - {a, b} + {node}
  {
    (trees - {a, b})[node := Node(node, trees[a], trees[b])]
  }

  /** The trees that are there stay what they are when a and b get node as their parent. */
  lemma {:induction false} MergeTop(trees: Trees, elems: nat, node: nat, f: seq<nat>, fc: seq<nat>, dl: seq<nat>, a: nat, b: nat, r: nat)
    requires Grove(trees, elems, node, f, fc, dl) && a in trees && b in trees && a != b && node < |fc| && r in trees
    ensures a < |dl| && b < |dl| && node !in Ids(trees[r])
    ensures Placed(trees[r], elems, node + 1) && Linked(trees[r], dl[a := node][b := node])
    ensures r != a && r != b ==> TopOk(trees[r], r, elems, node + 1, f, fc[node := fc[a] + fc[b]], dl[a := node][b := node])
  {
    hide Weight, Inner, Placed, Linked, Distinct;
    var t := trees[r];
    assert TopOk(t, r, elems, node, f, fc, dl) && TopOk(trees[a], a, elems, node, f, fc, dl) && TopOk(trees[b], b, elems, node, f, fc, dl);
    assert a in Ids(trees[a]) && b in Ids(trees[b]) && r in Ids(t);
    PlacedIds(t, elems, node);
    PlacedMore(t, elems, node, node + 1);
    LinkedFrame(t, dl, dl[a := node][b := node]);
  }

  lemma {:induction false} MergeGrove(trees: Trees, elems: nat, node: nat, f: seq<nat>, fc: seq<nat>, dl: seq<nat>, a: nat, b: nat)
    requires Grove(trees, elems, node, f, fc, dl) && a in trees && b in trees && a != b && node < |fc|
    ensures a < |dl| && b < |dl|
    ensures Grove(Merged(trees, a, b, node), elems, node + 1, f, fc[node := fc[a] + fc[b]], dl[a := node][b := node])
    ensures node !in trees
  {
    hide Weight, Inner, Placed, Linked;
    MergeTop(trees, elems, node, f, fc, dl, a, b, a);
    var t', fc', dl' := Merged(trees, a, b, node), fc[node := fc[a] + fc[b]], dl[a := node][b := node];
    forall r | r in trees
      ensures node !in Ids(trees[r]) && node != r
      ensures r != a && r != b ==> TopOk(trees[r], r, elems, node + 1, f, fc', dl')
    {
      hide TopOk;
      MergeTop(trees, elems, node, f, fc, dl, a, b, r);
      assert trees[r].id == r by { TopId(trees, elems, node, f, fc, dl, r); }
    }
    NewTop(trees, elems, node, f, fc, dl, a, b);
  }

  lemma {:induction false} NewTop(trees: Trees, elems: nat, node: nat, f: seq<nat>, fc: seq<nat>, dl: seq<nat>, a: nat, b: nat)
    requires Grove(trees, elems, node, f, fc, dl) && a in trees && b in trees && a != b && node < |fc|
    ensures a < |dl| && b < |dl|
    ensures TopOk(Node(node, trees[a], trees[b]), node, elems, node + 1, f, fc[node := fc[a] + fc[b]], dl[a := node][b := node])
  {
    hide Weight, Inner;
    assert TopOk(trees[a], a, elems, node, f, fc, dl) && TopOk(trees[b], b, elems, node, f, fc, dl);
    WeightNode(Node(node, trees[a], trees[b]), f);
    MergeTop(trees, elems, node, f, fc, dl, a, b, a);
    MergeTop(trees, elems, node, f, fc, dl, a, b, b);
  }

  lemma {:induction false} WeightNode(t: Tree, f: seq<nat>)
    requires t.Node?
    ensures Weight(t, f) == Weight(t.left, f) + Weight(t.right, f)
    ensures Inner(t, f) == Weight(t, f) + Inner(t.left, f) + Inner(t.right, f)
  {
  }

  lemma {:induction false} MergeCovering(trees: Trees, used: set<nat>, elems: nat, node: nat, a: nat, b: nat)
    requires Covering(trees, used, elems, node) && a in trees && b in trees && node !in trees && elems <= node
    ensures Covering(Merged(trees, a, b, node), used, elems, node + 1)
  {
    var t' := Merged(trees, a, b, node);
    forall i: nat | i in used || elems <= i < node + 1
      ensures InGrove(t', i)
    {
      if i == node && i !in used {
        assert node in t' && i in Ids(t'[node]);
      } else {
        assert InGrove(trees, i);
        var r :| r in trees && i in Ids(trees[r]);
        var s := if r == a || r == b then node else r;
        assert s in t' && i in Ids(t'[s]);
      }
    }
    forall r, i | r in t' && i in Leaves(t'[r])
      ensures i in used
    {
      if r == node {
        assert i in Leaves(trees[a]) || i in Leaves(trees[b]);
      } else {
        assert r in trees && i in Leaves(trees[r]);
      }
    }
  }

  lemma {:induction false} MergeShelf(h: seq<nat>, h': seq<nat>, top: nat, pos: map<nat, nat>, trees: Trees, elems: nat, node: nat, fc: seq<nat>, dl: seq<nat>, a: nat, b: nat)
    requires Shelf(h, top, pos, trees, elems, node, fc, dl) && top >= 2 && |h'| == |h|
    requires h'[top - 1] == a && h'[top - 2] == b && forall k :: top <= k < |h| ==> h'[k] == h[k]
    requires a in trees && b in trees && a != b && node < |fc| && node !in trees && a < node && b < node
    requires (forall r :: r in trees ==> r < |fc| && fc[a] <= fc[r]) && (forall r :: r in trees && r != a ==> fc[b] <= fc[r])
    ensures Shelf(h', top - 2, pos[a := top - 1][b := top - 2], Merged(trees, a, b, node), elems, node + 1,
                  fc[node := fc[a] + fc[b]], dl[a := node][b := node])
  {
    var pos', t' := pos[a := top - 1][b := top - 2], Merged(trees, a, b, node);
    var fc', dl' := fc[node := fc[a] + fc[b]], dl[a := node][b := node];
    assert a !in pos && b !in pos;
    assert forall i :: i in pos' ==> i in pos || i == a || i == b;
    forall i | i in pos'
      ensures dl'[i] in t' || (dl'[i] in pos' && pos'[dl'[i]] < pos'[i])
    {
      if i in pos && i != a && i != b { assert dl[i] in trees || (dl[i] in pos && pos[dl[i]] < pos[i]); }
    }
    forall k | top - 2 <= k < |h'|
      ensures h'[k] in pos' && pos'[h'[k]] == k
    {
      if k >= top { assert h[k] in pos && pos[h[k]] == k; }
    }
  }

  lemma {:induction false} MergeComplete(pos: map<nat, nat>, trees: Trees, used: set<nat>, elems: nat, node: nat, a: nat, b: nat, i: nat, j: nat)
    requires Complete(pos, trees, used, elems, node) && a in trees && b in trees && elems <= node
    ensures Complete(pos[a := i][b := j], Merged(trees, a, b, node), used, elems, node + 1)
  {
  }

  /** The height of the parent of a and b. */
  function Above(depth: seq<nat>, a: nat, b: nat): (h: nat)
    requires a < |depth| && b < |depth|
  {
    1 + if depth[a] >= depth[b] then depth[a] else depth[b]
  }

  lemma {:induction false} MergeCarries(trees: Trees, fc: seq<nat>, depth: seq<nat>, used: set<nat>, f: seq<nat>, spent: int, a: nat, b: nat, node: nat)
    requires Carries(trees.Keys, fc, depth, used, f, spent) && |fc| <= |depth|
    requires a in trees && b in trees && a != b && node < |fc| && node !in trees && Indices(trees.Keys, |fc|)
    requires (forall r :: r in trees ==> Before(fc, depth, a, r)) && (forall r :: r in trees && r != a ==> Before(fc, depth, b, r))
    ensures Carries(Merged(trees, a, b, node).Keys, fc[node := fc[a] + fc[b]], depth[node := Above(depth, a, b)], used, f, spent + fc[a] + fc[b])
  {
    hide TallBound, Flat;
    var S, t' := trees.Keys, Merged(trees, a, b, node);
    var fc', depth' := fc[node := fc[a] + fc[b]], depth[node := Above(depth, a, b)];
    forall c, k | TallBound(t'.Keys, fc', depth', c, k)
      ensures TallBound(used, f, Flat(|f|), c + (spent + fc[a] + fc[b]), k)
    {
      MergeBound(S, fc', depth', a, b, node, c, k);
      BoundFrame(S, fc', fc, depth', depth, c + fc[a] + fc[b], k);
      assert TallBound(used, f, Flat(|f|), (c + fc[a] + fc[b]) + spent, k);
    }
  }

  lemma {:induction false} MergeOrdered(trees: Trees, f: seq<nat>, fc: seq<nat>, depth: seq<nat>, a: nat, b: nat, node: nat)
    requires Ordered(trees, f, fc, depth) && a in trees && b in trees && a != b && node < |fc| && node !in trees
    requires (forall r :: r in trees ==> fc[a] <= fc[r]) && (forall r :: r in trees && r != a ==> fc[b] <= fc[r])
    requires fc[a] == Weight(trees[a], f) && fc[b] == Weight(trees[b], f)
    ensures Ordered(Merged(trees, a, b, node), f, fc[node := fc[a] + fc[b]], depth[node := Above(depth, a, b)])
  {
    hide Weight, Sorted;
    var t := Node(node, trees[a], trees[b]);
    assert Kids(trees[a], f, fc[b]) && Kids(trees[b], f, fc[a]);
    SortedNode(t, f);
  }

  lemma {:induction false} SortedNode(t: Tree, f: seq<nat>)
    requires t.Node? && Sorted(t.left, f) && Sorted(t.right, f) && Kids(t.left, f, Weight(t.right, f)) && Kids(t.right, f, Weight(t.left, f))
    ensures Sorted(t, f)
  {
  }

  lemma {:induction false} MergeSpent(trees: Trees, fc: seq<nat>, f: seq<nat>, inner: seq<int>, spent: int, a: nat, b: nat, node: nat)
    requires Spent(trees, f, inner, spent) && |inner| == |fc|
    requires a in trees && b in trees && a != b && node < |fc| && node !in trees && Indices(trees.Keys, |fc|)
    requires fc[a] == Weight(trees[a], f) && fc[b] == Weight(trees[b], f)
    ensures Spent(Merged(trees, a, b, node), f, inner[node := inner[a] + inner[b] + fc[a] + fc[b]], spent + fc[a] + fc[b])
  {
    hide Sum, Weight, Inner;
    var S, t' := trees.Keys, Merged(trees, a, b, node);
    var inner' := inner[node := inner[a] + inner[b] + fc[a] + fc[b]];
    SumRemove(S, inner, a);
    SumRemove(S - {a}, inner, b);
    assert S - {a, b} == S - {a} - {b};
    SumSame(S - {a, b}, S - {a, b}, inner, inner');
    SumInsert(S - {a, b}, inner', node);
    WeightNode(t'[node], f);
  }

  // ----- the arrays -----

  /** What build_tree has made of its arrays. */
  ghost predicate Building(h: seq<nat>, len: nat, top: nat, fc: seq<nat>, dl: seq<nat>, depth: seq<nat>, elems: nat, node: nat,
                           used: set<nat>, f: seq<nat>, trees: Trees, pos: map<nat, nat>, inner: seq<int>, spent: int)
  {
    && Contents(h, len, trees.Keys) && Nodes(trees.Keys, fc, depth) && HeapFrom(h, len, fc, depth, 1)
    && Grove(trees, elems, node, f, fc, dl) && Covering(trees, used, elems, node)
    && Shelf(h, top, pos, trees, elems, node, fc, dl) && Complete(pos, trees, used, elems, node)
    && |inner| == |fc| && Carries(trees.Keys, fc, depth, used, f, spent) && Spent(trees, f, inner, spent) && Ordered(trees, f, fc, depth)
  }

  lemma {:induction false} WeightSum(t: Tree, f: seq<nat>, n: nat)
    requires Distinct(t) && Placed(t, n, |f|) && n <= |f|
    ensures Weight(t, f) == Sum(Leaves(t), f)
    decreases t
  {
    hide Sum;
    LeafSums(t, f);
    if t.Node? {
      WeightSum(t.left, f, n);
      WeightSum(t.right, f, n);
    }
  }

  lemma {:induction false} SumSubset(S: set<nat>, T: set<nat>, v: seq<nat>)
    requires S <= T
    ensures Sum(S, v) <= Sum(T, v)
  {
    hide Sum;
    SumUnion(S, T - S, v);
    assert S + (T - S) == T;
    SumNonNegative(T - S, v);
  }

  /** Two nodes of the queue together weigh no more than all symbols: no 16-bit overflow. */
  lemma {:induction false} NoWrap(trees: Trees, used: set<nat>, elems: nat, node: nat, f: seq<nat>, fc: seq<nat>, dl: seq<nat>, a: nat, b: nat)
    requires Grove(trees, elems, node, f, fc, dl) && Covering(trees, used, elems, node) && a in trees && b in trees && a != b
    requires |f| == |fc|
    ensures fc[a] + fc[b] <= Sum(used, f)
  {
    hide Sum, Distinct, Linked, Weight;
    var t, u := trees[a], trees[b];
    assert TopOk(t, a, elems, node, f, fc, dl) && TopOk(u, b, elems, node, f, fc, dl);
    PlacedMore(t, elems, node, |f|);
    PlacedMore(u, elems, node, |f|);
    WeightSum(t, f, elems);
    WeightSum(u, f, elems);
    IdsSplit(t);
    IdsSplit(u);
    SumUnion(Leaves(t), Leaves(u), f);
    SumSubset(Leaves(t) + Leaves(u), used, f);
  }

  lemma {:induction false} GroveFacts(trees: Trees, elems: nat, node: nat, f: seq<nat>, fc: seq<nat>, dl: seq<nat>, r: nat)
    requires Grove(trees, elems, node, f, fc, dl) && r in trees
    ensures r < node && r < |fc| && fc[r] == Weight(trees[r], f)
  {
    assert TopOk(trees[r], r, elems, node, f, fc, dl);
    PlacedIds(trees[r], elems, node);
  }

  /** All the facts about one merge. */
  lemma {:induction false} Merge(h: seq<nat>, h1: seq<nat>, len: nat, top: nat, fc: seq<nat>, dl: seq<nat>, depth: seq<nat>, elems: nat, node: nat,
                                 used: set<nat>, f: seq<nat>, trees: Trees, pos: map<nat, nat>, inner: seq<int>, spent: int, a: nat, b: nat,
                                 trees': Trees, fc': seq<nat>, dl': seq<nat>, depth': seq<nat>, pos': map<nat, nat>, inner': seq<int>)
    requires a in trees && b in trees && a != b && a < |fc| && b < |fc| && node < |fc| == |dl| == |inner| && |fc| <= |depth| && 2 <= top <= |h1| == |h|
    requires (forall r :: r in trees ==> r < |fc| && Before(fc, depth, a, r)) && (forall r :: r in trees && r != a ==> Before(fc, depth, b, r))
    requires h1[top - 1] == a && h1[top - 2] == b && forall k :: top <= k < |h| ==> h1[k] == h[k]
    requires trees' == Merged(trees, a, b, node) && fc' == fc[node := fc[a] + fc[b]] && dl' == dl[a := node][b := node]
    requires depth' == depth[node := Above(depth, a, b)]
    requires pos' == pos[a := top - 1][b := top - 2] && inner' == inner[node := inner[a] + inner[b] + fc[a] + fc[b]]
    requires Building(h, len, top, fc, dl, depth, elems, node, used, f, trees, pos, inner, spent)
    ensures Grove(trees', elems, node + 1, f, fc', dl') && Covering(trees', used, elems, node + 1)
    ensures Shelf(h1, top - 2, pos', trees', elems, node + 1, fc', dl') && Complete(pos', trees', used, elems, node + 1)
    ensures Carries(trees'.Keys, fc', depth', used, f, spent + fc[a] + fc[b]) && Ordered(trees', f, fc', depth')
    ensures Spent(trees', f, inner', spent + fc[a] + fc[b])
  {
    hide Grove, Covering, Shelf, Complete, Carries, Spent, Contents, HeapFrom, Ordered;
    GroveFacts(trees, elems, node, f, fc, dl, a);
    GroveFacts(trees, elems, node, f, fc, dl, b);
    GroveOrder(trees, elems, node, f, fc, dl);
    MergeGrove(trees, elems, node, f, fc, dl, a, b);
    MergeCovering(trees, used, elems, node, a, b);
    MergeShelf(h, h1, top, pos, trees, elems, node, fc, dl, a, b);
    MergeComplete(pos, trees, used, elems, node, a, b, top - 1, top - 2);
    MergeCarries(trees, fc, depth, used, f, spent, a, b, node);
    MergeOrdered(trees, f, fc, depth, a, b, node);
    MergeSpent(trees, fc, f, inner, spent, a, b, node);
  }

  /** A tree of the grove is far too low for its height not to fit a byte. */
  lemma {:induction false} LowTop(trees: Trees, used: set<nat>, elems: nat, node: nat, f: seq<nat>, fc: seq<nat>, dl: seq<nat>, depth: seq<nat>, r: nat)
    requires Grove(trees, elems, node, f, fc, dl) && Covering(trees, used, elems, node) && Ordered(trees, f, fc, depth) && r in trees
    requires |f| == |fc| && Sum(used, f) < 65536 && forall i :: i in used ==> i < |f| && f[i] > 0
    ensures depth[r] <= 23
  {
    hide Sum, Distinct, Linked, Weight, Fib, Sorted, Height;
    var t := trees[r];
    assert TopOk(t, r, elems, node, f, fc, dl);
    assert Leaves(t) <= used;
    PlacedMore(t, elems, node, |f|);
    WeightSum(t, f, elems);
    SumSubset(Leaves(t), used, f);
    Fib26();
    LightIsLow(t, f, 23);
  }

  lemma {:induction false} RootsMade(pos: map<nat, nat>, trees: Trees, used: set<nat>, elems: nat, node: nat)
    requires Complete(pos, trees, used, elems, node)
    ensures forall i :: i in trees ==> i in used || elems <= i
  {
  }

  lemma {:induction false} NodeIsNew(trees: Trees, elems: nat, node: nat, f: seq<nat>, fc: seq<nat>, dl: seq<nat>)
    requires Grove(trees, elems, node, f, fc, dl)
    ensures node !in trees
  {
    if node in trees { GroveFacts(trees, elems, node, f, fc, dl, node); }
  }

  lemma {:induction false} GroveOrder(trees: Trees, elems: nat, node: nat, f: seq<nat>, fc: seq<nat>, dl: seq<nat>)
    requires Grove(trees, elems, node, f, fc, dl)
    ensures elems <= node <= |fc| == |dl|
  {
  }

  lemma {:induction false} ShelfFrame(h: seq<nat>, g: seq<nat>, top: nat, pos: map<nat, nat>, trees: Trees, elems: nat, node: nat, fc: seq<nat>, dl: seq<nat>)
    requires Shelf(h, top, pos, trees, elems, node, fc, dl) && |g| == |h| && forall k :: top <= k < |h| ==> g[k] == h[k]
    ensures Shelf(g, top, pos, trees, elems, node, fc, dl)
  {
  }

  /** pqremove: the rarest node leaves the queue. */
  method Remove(heap: array<nat>, len: nat, fc: array<nat>, depth: array<nat>, ghost S: set<nat>) returns (a: nat)
    requires heap != fc && heap != depth && 2 <= len < heap.Length
    requires Contents(heap[..], len, S) && Nodes(S, fc[..], depth[..]) && HeapFrom(heap[..], len, fc[..], depth[..], 1)
    modifies heap
    ensures a in S && forall r :: r in S ==> r < fc.Length && Before(fc[..], depth[..], a, r)
    ensures Contents(heap[..], len - 1, S - {a}) && HeapFrom(heap[..], len - 1, fc[..], depth[..], 1)
    ensures forall i :: len < i < heap.Length ==> heap[i] == old(heap[i])
  {
    hide Contents, HeapFrom;
    ghost var h := heap[..];
    InQueue(h, len, S, fc[..], depth[..]);
    LeastOf(h, len, fc[..], depth[..], S);
    RemoveFirst(h, len, S, fc[..], depth[..]);
    a := heap[1];
    heap[1] := heap[len];
    assert heap[..] == h[1 := h[len]];
    DownHeap(heap, len - 1, 1, fc, depth, S - {a});
  }

  /** The new node takes the first slot of the queue and sinks. */
  method Insert(heap: array<nat>, len: nat, fc: array<nat>, depth: array<nat>, node: nat, ghost S: set<nat>, ghost fc0: seq<nat>, ghost depth0: seq<nat>)
    requires heap != fc && heap != depth && 1 <= len < heap.Length && node !in S
    requires Contents(heap[..], len, S) && Nodes(S, fc0, depth0) && HeapFrom(heap[..], len, fc0, depth0, 1)
    requires |fc0| == fc.Length && |depth0| == depth.Length && node < fc.Length <= depth.Length && depth[node] < 256
    requires forall x :: x in S && x < fc.Length ==> fc[x] == fc0[x] && depth[x] == depth0[x]
    modifies heap
    ensures Contents(heap[..], len, S - {old(heap[1])} + {node}) && HeapFrom(heap[..], len, fc[..], depth[..], 1)
    ensures Nodes(S - {old(heap[1])} + {node}, fc[..], depth[..])
    ensures forall i :: len < i < heap.Length ==> heap[i] == old(heap[i])
  {
    hide Contents, HeapFrom;
    ghost var h := heap[..];
    ReplaceFirst(h, len, S, node, fc0, depth0, fc[..], depth[..]);
    heap[1] := node;
    assert heap[..] == h[1 := node];
    DownHeap(heap, len, 1, fc, depth, S - {h[1]} + {node});
  }

  /** One round of the loop. */
  method MergeStep(heap: array<nat>, len: nat, top: nat, fc: array<nat>, dl: array<nat>, depth: array<nat>, ghost elems: nat, node: nat,
                   ghost used: set<nat>, ghost f: seq<nat>, ghost trees: Trees, ghost pos: map<nat, nat>, ghost inner: seq<int>, ghost spent: int)
      returns (ghost trees': Trees, ghost pos': map<nat, nat>, ghost inner': seq<int>, ghost spent': int)
    requires heap != fc && heap != dl && heap != depth && fc != dl && fc != depth && dl != depth
    requires 2 <= len < top - 1 < heap.Length && node < fc.Length == dl.Length <= depth.Length && |f| == fc.Length && Sum(used, f) < 65536 && (forall i :: i in used ==> i < |f| && f[i] > 0)
    requires Building(heap[..], len, top, fc[..], dl[..], depth[..], elems, node, used, f, trees, pos, inner, spent)
    modifies heap, fc, dl, depth
    ensures Building(heap[..], len - 1, top - 2, fc[..], dl[..], depth[..], elems, node + 1, used, f, trees', pos', inner', spent')
    ensures forall i :: 0 <= i < fc.Length && i != node ==> fc[i] == old(fc[i])
    ensures forall i :: 0 <= i < dl.Length && i < elems && i !in used ==> dl[i] == old(dl[i])
  {
    hide Contents, HeapFrom, Grove, Covering, Shelf, Complete, Carries, Spent, Sum, Ordered, Before, Height;
    ghost var S: set<nat>, h0: seq<nat>, fc0: seq<nat>, dl0: seq<nat>, depth0: seq<nat> := trees.Keys, heap[..], fc[..], dl[..], depth[..];
    var n, m := TakeTwo(heap, len, top, fc, depth, S);
    ghost var h2 := heap[..];
    NoWrap(trees, used, elems, node, f, fc0, dl0, n, m);
    NodeIsNew(trees, elems, node, f, fc0, dl0);
    RootsMade(pos, trees, used, elems, node);
    LowTop(trees, used, elems, node, f, fc0, dl0, depth0, n);
    LowTop(trees, used, elems, node, f, fc0, dl0, depth0, m);
    trees', pos' := Merged(trees, n, m, node), pos[n := top - 1][m := top - 2];
    inner', spent' := inner[node := inner[n] + inner[m] + fc0[n] + fc0[m]], spent + fc0[n] + fc0[m];
    Merge(h0, h2, len, top, fc0, dl0, depth0, elems, node, used, f, trees, pos, inner, spent, n, m,
          trees', fc0[node := fc0[n] + fc0[m]], dl0[n := node][m := node], depth0[node := Above(depth0, n, m)], pos', inner');
    Adopt(fc, dl, depth, n, m, node);
    Insert(heap, len - 1, fc, depth, node, S - {n}, fc0, depth0);
    assert S - {n} - {m} + {node} == trees'.Keys;
    ShelfFrame(h2, heap[..], top - 2, pos', trees', elems, node + 1, fc[..], dl[..]);
  }

  /** The new node becomes the parent of the two. */
  method Adopt(fc: array<nat>, dl: array<nat>, depth: array<nat>, n: nat, m: nat, node: nat)
    requires fc != dl && fc != depth && dl != depth && fc.Length == dl.Length <= depth.Length
    requires n < fc.Length && m < fc.Length && node < fc.Length && fc[n] + fc[m] < 65536 && depth[n] < 255 && depth[m] < 255
    modifies fc, dl, depth
    ensures fc[..] == old(fc[..])[node := old(fc[n] + fc[m])] && dl[..] == old(dl[..])[n := node][m := node]
    ensures depth[..] == old(depth[..])[node := Above(old(depth[..]), n, m)] && depth[node] < 256
  {
    fc[node] := (fc[n] + fc[m]) % 65536;
    depth[node] := ((if depth[n] >= depth[m] then depth[n] else depth[m]) + 1) % 256;
    dl[n] := node;
    dl[m] := node;
  }

  /** The two rarest nodes go to the shelf; the second is still in the queue. */
  method TakeTwo(heap: array<nat>, len: nat, top: nat, fc: array<nat>, depth: array<nat>, ghost S: set<nat>) returns (n: nat, m: nat)
    requires heap != fc && heap != depth && 2 <= len < top - 1 < heap.Length
    requires Contents(heap[..], len, S) && Nodes(S, fc[..], depth[..]) && HeapFrom(heap[..], len, fc[..], depth[..], 1)
    modifies heap
    ensures n in S && m in S && n != m && n < fc.Length && m < fc.Length
    ensures (forall r :: r in S ==> r < fc.Length && Before(fc[..], depth[..], n, r)) && (forall r :: r in S && r != n ==> Before(fc[..], depth[..], m, r))
    ensures Contents(heap[..], len - 1, S - {n}) && HeapFrom(heap[..], len - 1, fc[..], depth[..], 1) && heap[1] == m
    ensures heap[top - 1] == n && heap[top - 2] == m && forall k :: top <= k < heap.Length ==> heap[k] == old(heap[k])
  {
    hide Contents, HeapFrom, Before;
    n := Remove(heap, len, fc, depth, S);
    InQueue(heap[..], len - 1, S - {n}, fc[..], depth[..]);
    LeastOf(heap[..], len - 1, fc[..], depth[..], S - {n});
    m := heap[1];
    ghost var h1 := heap[..];
    heap[top - 1] := n;
    heap[top - 2] := m;
    QueueFrame(h1, heap[..], len - 1, S - {n}, fc[..], depth[..], 1);
  }

  // ----- the whole loop -----

  lemma {:induction false} SumZero(S: set<nat>, v: seq<int>)
    requires forall i :: 0 <= i < |v| ==> v[i] == 0
    ensures Sum(S, v) == 0
    decreases |v|
  {
    if v != [] { SumZero(S, v[..|v| - 1]); }
  }

  /** One tree per symbol in use. */
  ghost function Seeds(used: set<nat>): Trees { map r | r in used :: Leaf(r) }

  lemma {:induction false} StartBuilding(h: seq<nat>, len: nat, fc: seq<nat>, dl: seq<nat>, depth: seq<nat>, elems: nat, used: set<nat>)
    requires Contents(h, len, used) && Nodes(used, fc, depth) && HeapFrom(h, len, fc, depth, 1)
    requires elems <= |fc| == |dl| && forall r :: r in used ==> r < elems && depth[r] == 0
    ensures Building(h, len, |h|, fc, dl, depth, elems, elems, used, fc, Seeds(used), map[], seq(|fc|, _ => 0), 0)
  {
    hide Contents, HeapFrom, TallBound, Sum, Flat;
    forall c, k | TallBound(used, fc, depth, c, k)
      ensures TallBound(used, fc, Flat(|fc|), c + 0, k)
    {
      BoundFrame(used, fc, fc, depth, Flat(|fc|), c, k);
    }
    var trees := Seeds(used);
    assert trees.Keys == used;
    forall i: nat | i in used
      ensures InGrove(trees, i)
    {
      assert i in trees && i in Ids(trees[i]);
    }
    SumZero(used, seq(|fc|, _ => 0));
  }

  /** Nodes from index top of the heap on, parents first and by falling frequency. */
  ghost predicate Ranked(h: seq<nat>, top: nat, pos: map<nat, nat>, fc: seq<nat>, dl: seq<nat>, root: nat, node: nat)
  {
    && top < |h| && h[top] == root && |fc| == |dl| && node <= |fc|
    && (forall i :: i in pos ==> top <= pos[i] < |h| && h[pos[i]] == i && i < node)
    && (forall k :: top <= k < |h| ==> h[k] in pos && pos[h[k]] == k)
    && (forall i :: i in pos && i != root ==> dl[i] in pos && pos[dl[i]] < pos[i])
    && (forall i, j :: i in pos && j in pos && pos[i] < pos[j] ==> fc[i] >= fc[j])
  }

  /** A tree of the symbols in use and of all inner nodes. */
  ghost predicate Grown(t: Tree, used: set<nat>, elems: nat, node: nat, dl: seq<nat>)
  {
    && elems <= node <= |dl| && Distinct(t) && Placed(t, elems, node) && Linked(t, dl)
    && Leaves(t) == used && forall i :: i in Inners(t) <==> elems <= i < node
  }

  /** A tree for the symbols in use that no other code beats: none is cheaper, and none that
      is as cheap has a shorter longest word. */
  ghost predicate Huffman(t: Tree, used: set<nat>, f: seq<nat>)
  {
    Sorted(t, f) && TallBound(used, f, Flat(|f|), Inner(t, f), Height(t))
  }

  /** What build_tree hands to gen_bitlen: a Huffman tree, its parents in dl, its nodes ranked. */
  ghost predicate Built(h: seq<nat>, top: nat, fc: seq<nat>, dl: seq<nat>, elems: nat, node: nat,
                        used: set<nat>, t: Tree, pos: map<nat, nat>)
  {
    && Grown(t, used, elems, node, dl) && Ranked(h, top, pos, fc, dl, t.id, node)
    && pos.Keys == Ids(t)
  }

  lemma {:induction false} LastShelf(h: seq<nat>, h': seq<nat>, top: nat, pos: map<nat, nat>, trees: Trees, elems: nat, node: nat, fc: seq<nat>, dl: seq<nat>, r: nat)
    requires Shelf(h, top, pos, trees, elems, node, fc, dl) && trees.Keys == {r} && 0 < top <= |h| == |h'| && r < node <= |fc|
    requires h'[top - 1] == r && forall k :: top <= k < |h| ==> h'[k] == h[k]
    ensures Ranked(h', top - 1, pos[r := top - 1], fc, dl, r, node)
  {
    var pos' := pos[r := top - 1];
    assert r in trees && forall x :: x in trees ==> x == r;
    forall i | i in pos' && i != r
      ensures dl[i] in pos' && pos'[dl[i]] < pos'[i]
    {
      assert i in pos && i !in trees;
      assert dl[i] in trees || (dl[i] in pos && pos[dl[i]] < pos[i]);
    }
    forall k | top - 1 <= k < |h'|
      ensures h'[k] in pos' && pos'[h'[k]] == k
    {
      if k >= top { assert h[k] in pos && pos[h[k]] == k && h[k] !in trees; }
    }
  }

  lemma {:induction false} LastGrown(trees: Trees, used: set<nat>, elems: nat, node: nat, f: seq<nat>, fc: seq<nat>, dl: seq<nat>, r: nat)
    requires Grove(trees, elems, node, f, fc, dl) && Covering(trees, used, elems, node) && trees.Keys == {r}
    requires forall i :: i in used ==> i < elems
    ensures Grown(trees[r], used, elems, node, dl)
  {
    hide Weight, Inner, Distinct, Linked, Ids, Leaves;
    var t := trees[r];
    assert TopOk(t, r, elems, node, f, fc, dl);
    PlacedIds(t, elems, node);
    IdsSplit(t);
    forall i: nat | i in used || elems <= i < node
      ensures i in Ids(t)
    {
      assert InGrove(trees, i);
    }
    assert forall i :: i in Leaves(t) <==> i in used;
    assert forall i :: i in Inners(t) <==> elems <= i < node;
  }

  lemma {:induction false} LastTree(h: seq<nat>, h': seq<nat>, top: nat, fc: seq<nat>, dl: seq<nat>, depth: seq<nat>, elems: nat, node: nat,
                                    used: set<nat>, f: seq<nat>, trees: Trees, pos: map<nat, nat>, inner: seq<int>, spent: int)
    requires Building(h, 1, top, fc, dl, depth, elems, node, used, f, trees, pos, inner, spent) && 2 < top <= |h| == |h'| && |f| == |fc|
    requires h'[top - 1] == h[1] && forall k :: top <= k < |h| ==> h'[k] == h[k]
    requires forall i :: i in used ==> i < elems
    ensures h[1] in trees && Built(h', top - 1, fc, dl, elems, node, used, trees[h[1]], pos[h[1] := top - 1])
    ensures Huffman(trees[h[1]], used, f)
  {
    hide Grove, Covering, Shelf, TallBound, Sum, HeapFrom, Ranked, Flat, Sorted, Height;
    var r := h[1];
    OnlyOne(h, trees.Keys);
    GroveFacts(trees, elems, node, f, fc, dl, r);
    GroveOrder(trees, elems, node, f, fc, dl);
    LastGrown(trees, used, elems, node, f, fc, dl, r);
    LastShelf(h, h', top, pos, trees, elems, node, fc, dl, r);
    TopId(trees, elems, node, f, fc, dl, r);
    var pos' := pos[r := top - 1];
    assert pos'.Keys == Ids(trees[r]) by {
      IdsSplit(trees[r]);
      assert forall i :: i in pos'.Keys <==> i in used || elems <= i < node;
    }
    SumOne(inner, r);
    SingleBound(r, fc, depth);
    assert TallBound(used, f, Flat(|f|), 0 + spent, depth[r]);
  }

  lemma {:induction false} TopId(trees: Trees, elems: nat, node: nat, f: seq<nat>, fc: seq<nat>, dl: seq<nat>, r: nat)
    requires Grove(trees, elems, node, f, fc, dl) && r in trees
    ensures trees[r].id == r
  {
    assert TopOk(trees[r], r, elems, node, f, fc, dl);
  }

  lemma {:induction false} OnlyOne(h: seq<nat>, S: set<nat>)
    requires Contents(h, 1, S)
    ensures S == {h[1]}
  {
  }

  lemma {:induction false} SingleBound(r: nat, fc: seq<nat>, depth: seq<nat>)
    requires r < |fc| <= |depth|
    ensures TallBound({r}, fc, depth, 0, depth[r])
  {
    hide Sum, KraftAt;
    forall l: seq<nat>, top: nat | |l| == |fc| && KraftAt({r}, l, top)
      ensures 0 <= Cost({r}, fc, l) && Reaches({r}, depth, l, depth[r])
    {
      SumNonNegative({r}, Products(fc, l));
      assert r in {r} && depth[r] + l[r] >= depth[r];
    }
  }

  /** The loop: the symbols in the queue become one tree, and no code that satisfies the
      Kraft inequality is cheaper, or as cheap with a shorter longest word. */
  method MergeAll(heap: array<nat>, len0: nat, fc: array<nat>, dl: array<nat>, depth: array<nat>, elems: nat, ghost used: set<nat>)
      returns (top: nat, node: nat, ghost t: Tree, ghost pos: map<nat, nat>)
    requires heap != fc && heap != dl && heap != depth && fc != dl && fc != depth && dl != depth
    requires 2 <= len0 <= elems && 2 * elems < heap.Length && 2 * elems <= fc.Length == dl.Length <= depth.Length
    requires Contents(heap[..], len0, used) && Nodes(used, fc[..], depth[..]) && HeapFrom(heap[..], len0, fc[..], depth[..], 1)
    requires (forall r :: r in used ==> r < elems && fc[r] > 0 && depth[r] == 0) && Sum(used, fc[..]) < 65536
    modifies heap, fc, dl, depth
    ensures Built(heap[..], top, fc[..], dl[..], elems, node, used, t, pos)
    ensures node == elems + len0 - 1 && Huffman(t, used, old(fc[..]))
    ensures forall i :: 0 <= i < fc.Length && (i < elems || i >= node) ==> fc[i] == old(fc[i])
    ensures forall i :: 0 <= i < elems && i !in used ==> dl[i] == old(dl[i])
  {
    hide Contents, HeapFrom, Building, Built, Sum, Huffman;
    ghost var f: seq<nat> := fc[..];
    StartBuilding(heap[..], len0, fc[..], dl[..], depth[..], elems, used);
    ghost var trees, inner, spent;
    var len;
    trees, pos, inner, spent := Seeds(used), map[], seq(|f|, _ => 0), 0;
    top, node, len := heap.Length, elems, len0;
    while len >= 2
      invariant 1 <= len && len + (node - elems) == len0 && top + 2 * (node - elems) == heap.Length
      invariant Building(heap[..], len, top, fc[..], dl[..], depth[..], elems, node, used, f, trees, pos, inner, spent)
      invariant forall i :: 0 <= i < fc.Length && (i < elems || i >= node) ==> fc[i] == f[i]
      invariant forall i :: 0 <= i < elems && i !in used ==> dl[i] == old(dl[i])
    {
      trees, pos, inner, spent := MergeStep(heap, len, top, fc, dl, depth, elems, node, used, f, trees, pos, inner, spent);
      len, top, node := len - 1, top - 2, node + 1;
    }
    ghost var h := heap[..];
    top := top - 1;
    heap[top] := heap[1];
    LastTree(h, heap[..], top + 1, fc[..], dl[..], depth[..], elems, node, used, f, trees, pos, inner, spent);
    t, pos := trees[h[1]], pos[h[1] := top];
  }
}
