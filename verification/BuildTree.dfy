/** build_tree of trees.c: frequencies in, code lengths and codes out. */
module BuildTree {
  import opened Bits
  import opened Canonical
  import opened SetSum
  import opened HuffmanOpt
  import opened HuffmanTree
  import opened NodeHeap
  import opened HuffmanBuild
  import opened CheapestCode
  import opened BitLengths
  import opened LengthRepair
  import P = RepairCost
  import opened TreeCodes

  /** What gen_bitlen leaves: a complete code of at most max bits on the symbols used, the
      counts of its lengths, no rarer symbol with a shorter code. */
  ghost predicate LengthsSet(used: set<nat>, f: seq<nat>, len: seq<nat>, bl: seq<nat>, max: nat)
  {
    && |f| == |len| && |bl| == 16 && max <= 15
    && (forall i :: i in used ==> i < |len| && 1 <= len[i] <= max)
    && Mass(used, len, max) == Pow2(max)
    && bl[0] == 0 && CountsOf(bl, used, len, 15)
    && (forall i, j :: i in used && j in used && f[i] < f[j] ==> len[i] >= len[j])
  }

  lemma {:induction false} NoneAt(S: set<nat>, len: seq<nat>, b: nat)
    requires forall i :: i in S && i < |len| ==> len[i] != b
    ensures Sum(S, At(len, b)) == 0
  {
    hide Sum;
    SumSame(S, {}, At(len, b), At(len, b));
    SumEmpty(At(len, b));
  }

  /** After the first pass. */
  lemma {:induction false} FirstPassFacts(h: seq<nat>, top: nat, fc: seq<nat>, dad: seq<nat>, elems: nat, node: nat, used: set<nat>, t: Tree, pos: map<nat, nat>,
                                          len: seq<nat>, max: nat, bl: seq<nat>, overflow: int, opt: int, st: int, xs: seq<nat>, ss: seq<nat>)
    requires Built(h, top, fc, dad, elems, node, used, t, pos) && t.Node? && 1 <= max <= 15
    requires Levels(len, t.id, dad, pos, max)
    requires Tally(Ids(t) - {t.id}, used, len, dad, fc, xs, ss, max, bl, overflow, opt, st)
    ensures Labelled(t, len, max) && overflow == 2 * Deep(t, len, max)
    ensures (forall i :: i in used ==> i < |len| && 1 <= len[i] <= max) && Mass(used, len, max) == Pow2(max) + Deep(t, len, max)
    ensures bl[0] == 0 && CountsOf(bl, used, len, 15) && (overflow > 0 ==> bl[max] > Deep(t, len, max))
    ensures opt == Sum(used, Charges(fc, len, xs)) && st == Sum(used, Charges(fc, ss, xs))
  {
    hide Sum;
    LinkedLabels(t, dad, len, max);
    LeafLevels(t, len, max);
    TreeMass(t, len, max);
    OverDeep(t, len, dad, max);
    DeepLeaves(t, len, max);
    IdsSplit(t);
    PlacedIds(t, elems, node);
    assert (Ids(t) - {t.id}) * used == used;
    NoneAt(used, len, 0);
  }

  /** Nothing was too deep: the code is the Huffman code. */
  lemma {:induction false} NoOverflow(t: Tree, used: set<nat>, f: seq<nat>, len: seq<nat>, bl: seq<nat>, max: nat)
    requires Distinct(t) && Leaves(t) == used && Labelled(t, len, max) && |f| == |len| && len[t.id] == 0 && Deep(t, len, max) == 0
    requires LowerBound(used, f, Inner(t, f)) && Mass(used, len, max) == Pow2(max) && |bl| == 16 && max <= 15
    requires (forall i :: i in used ==> i < |len| && 1 <= len[i] <= max) && bl[0] == 0 && CountsOf(bl, used, len, 15)
    ensures LengthsSet(used, f, len, bl, max) && Optimal(used, f, len)
  {
    hide LowerBound, Cost, Mass, CountsOf;
    TreeCost(t, f, len, max);
    assert Weight(t, f) * len[t.id] == 0;
    forall i, j | i in used && j in used && f[i] < f[j]
      ensures len[i] >= len[j]
    {
      CheapestIsMonotone(used, f, len, max, i, j);
    }
  }

  lemma {:induction false} RepairStart(used: set<nat>, len: seq<nat>, bl: seq<nat>, max: nat, deep: nat)
    requires 2 <= max <= 15 && |bl| == 16 && CountsOf(bl, used, len, 15) && bl[max] > deep
    requires (forall i :: i in used ==> i < |len| && 1 <= len[i] <= max) && Mass(used, len, max) == Pow2(max) + deep
    requires Sum(used, Ones(|len|)) <= Pow2(max)
    ensures Sum(used, Ones(|len|)) >= 0 && Repairing(bl, max, 2 * deep, Sum(used, Ones(|len|)))
    ensures forall b :: max < b <= 15 ==> bl[b] == 0
  {
    hide Sum, Mass, BlMass, BlTotal, Pow2;
    SumNonNegative(used, Ones(|len|));
    CountsMass(bl, used, len, max);
    forall b | max < b <= 15
      ensures bl[b] == 0
    {
      NoneAt(used, len, b);
    }
  }

  lemma {:induction false} RepairEnd(used: set<nat>, f: seq<nat>, len: seq<nat>, bl: seq<nat>, max: nat, total: nat)
    requires 2 <= max <= 15 && |bl| == 16 && bl[0] == 0 && Repairing(bl, max, 0, total) && CountsOf(bl, used, len, max) && |f| == |len|
    requires (forall i :: i in used ==> i < |len| && 1 <= len[i] <= max) && forall b :: max < b <= 15 ==> bl[b] == 0
    requires forall i, j :: i in used && j in used && f[i] < f[j] ==> len[i] >= len[j]
    ensures LengthsSet(used, f, len, bl, max)
  {
    hide Sum, Mass, BlMass, BlTotal, Pow2;
    CountsMass(bl, used, len, max);
    forall b | 1 <= b <= 15
      ensures bl[b] == Sum(used, At(len, b))
    {
      if b > max { NoneAt(used, len, b); }
    }
  }

  /** gen_bitlen. The lengths always form a complete code; they are the cheapest of all
      codes whenever the tree is no higher than max. */
  method GenBitlen(heap: array<nat>, top: nat, fc: array<nat>, dl: array<nat>, maxCode: nat, extra: seq<nat>, base: nat, stree: seq<nat>, max: nat,
                   opt0: int, stat0: int,
                   ghost elems: nat, ghost node: nat, ghost used: set<nat>, ghost t: Tree, ghost pos: map<nat, nat>)
      returns (blCount: array<nat>, opt: int, stat: int)
    requires heap != dl && fc != dl && heap != fc && dl.Length == fc.Length && 2 <= max <= 15
    requires Built(heap[..], top, fc[..], dl[..], elems, node, used, t, pos) && t.Node?
    requires maxCode < elems && (forall i :: i in used ==> i <= maxCode)
    requires Huffman(t, used, fc[..]) && Sum(used, Ones(fc.Length)) <= Pow2(max)
    modifies dl
    ensures fresh(blCount) && LengthsSet(used, fc[..], dl[..], blCount[..], max)
    ensures (Height(t) <= max ==> Optimal(used, fc[..], dl[..])) && NearlyOptimal(used, fc[..], dl[..], max)
    ensures forall i :: 0 <= i < dl.Length && i !in Ids(t) ==> dl[i] == old(dl[i])
    ensures opt == opt0 + Sum(used, Charges(fc[..], dl[..], Extras(extra, base, fc.Length)))
    ensures stat == stat0 + if stree == [] then 0 else Sum(used, Charges(fc[..], Statics(stree, fc.Length), Extras(extra, base, fc.Length)))
  {
    hide Sum, Huffman, LowerBound, Built, Levels, Tally, LengthsSet, Optimal, NearlyOptimal, Placed, Touched, Repairing, Inner, Charges, Extras, Statics, Labelled, Mass, CountsOf, Height, Deep, Pow2;
    ghost var f, dad, n, xs := fc[..], dl[..], fc.Length, Extras(extra, base, fc.Length);
    var overflow, opt1, stat1;
    ghost var st;
    blCount, overflow, opt1, stat1, st := FirstPass(heap, top, fc, dl, maxCode, extra, base, stree, max, elems, node, used, t, pos);
    ghost var len := dl[..];
    FirstPassFacts(heap[..], top, f, dad, elems, node, used, t, pos, len, max, blCount[..], overflow, opt1, st, xs, Statics(stree, n));
    BuiltTree(heap[..], top, f, dad, elems, node, used, t, pos);
    BuiltPlace(heap[..], top, f, dad, elems, node, used, t, pos);
    LevelRoot(len, t.id, dad, pos, max);
    DeepHeight(t, len, max);
    opt, stat := opt0 + opt1, stat0 + stat1;
    if overflow == 0 {
      HuffmanBound(t, used, f);
      NoOverflow(t, used, f, len, blCount[..], max);
      OptimalNearly(used, f, len, max);
      return;
    }
    ghost var bl0: seq<nat> := blCount[..];
    RepairStart(used, len, bl0, max, Deep(t, len, max));
    ghost var total := Sum(used, Ones(n));
    ghost var J := Repair(blCount, max, overflow, total);
    RepairTotal(blCount[..], max, total);
    opt := Deal(heap, top, fc, dl, maxCode, blCount[..], max, opt, dad, elems, node, used, t, pos, xs);
    RepairEnd(used, f, dl[..], blCount[..], max, total);
    RepairedNearly(t, used, f, len, dl[..], bl0, blCount[..], max, J, elems, total);
  }

  lemma {:induction false} OptimalNearly(used: set<nat>, f: seq<nat>, len: seq<nat>, max: nat)
    requires |f| == |len| && Optimal(used, f, len)
    ensures NearlyOptimal(used, f, len, max)
  {
    hide Cost, KraftAt;
  }

  /** After a repair, the lengths are nearly as good as those of the tree. */
  lemma {:induction false} RepairedNearly(t: Tree, used: set<nat>, f: seq<nat>, b: seq<nat>, l: seq<nat>, bl0: seq<nat>, bl: seq<nat>, max: nat, J: nat, elems: nat, total: nat)
    requires Distinct(t) && Leaves(t) == used && Placed(t, elems, |f|) && elems <= |f| && Huffman(t, used, f) && |f| == |b| == |l|
    requires |bl0| == 16 == |bl| && 2 <= max <= 15 && t.id < |b| && total == Sum(used, Ones(|f|))
    requires Labelled(t, b, max) && b[t.id] == 0 && Mass(used, b, max) == Pow2(max) + Deep(t, b, max) && bl0[max] > Deep(t, b, max)
    requires (forall i :: i in used ==> i < |b| && 1 <= b[i] <= max) && CountsOf(bl0, used, b, 15)
    requires LengthsSet(used, f, l, bl, max) && Repairing(bl, max, 0, total) && Touched(bl0, bl, max, J, total)
    ensures NearlyOptimal(used, f, l, max)
  {
    hide Sum, Mass, CountsOf, Huffman, Labelled, Placed, Distinct, Leaves, Cost, Fib, Repairing, Touched, Inner, Deep, Weight, Pow2;
    if max == 15 && Sum(used, f) <= 16384 {
      SumCard(used, |f|);
      WeightSum(t, f, elems);
      assert Sorted(t, f) by { HuffmanSorted(t, used, f); }
      forall i | i in used && b[i] < 15
        ensures f[i] * Fib(b[i] + 1) <= 16384
      {
        LeafWeight(t, f, b, 15, i);
      }
      assert Deep(t, b, 15) <= |used| by { FewDeep(used, b, bl0, 15); }
      P.RepairPrice(used, f, b, l, bl0, bl, J, Deep(t, b, 15));
      CappedCost(t, f, b, 15);
      assert Weight(t, f) * b[t.id] == 0;
      HuffmanBound(t, used, f);
      Closer(used, f, l, Inner(t, f));
    }
  }

  lemma {:induction false} HuffmanSorted(t: Tree, used: set<nat>, f: seq<nat>)
    requires Huffman(t, used, f)
    ensures Sorted(t, f)
  {
    hide Sorted, TallBound;
  }

  lemma {:induction false} FewDeep(used: set<nat>, b: seq<nat>, bl: seq<nat>, max: nat)
    requires CountsOf(bl, used, b, max) && max >= 1
    ensures bl[max] <= |used|
  {
    hide Sum;
    P.LevelCard(used, b, max);
    CardUnder(P.OfLength(used, b, max), used);
  }

  lemma {:induction false} Closer(used: set<nat>, f: seq<nat>, l: seq<nat>, c: int)
    requires |f| == |l| && LowerBound(used, f, c) && Cost(used, f, l) <= c + 62 * |used|
    ensures LowerBound(used, f, Cost(used, f, l) - 62 * |used|)
  {
    hide Cost, KraftAt;
  }

  lemma {:induction false} HuffmanBound(t: Tree, used: set<nat>, f: seq<nat>)
    requires Huffman(t, used, f)
    ensures LowerBound(used, f, Inner(t, f))
  {
    hide TallBound, LowerBound, Inner, Height, Sorted;
    TallIsLower(used, f, Flat(|f|), Inner(t, f), Height(t));
  }

  lemma {:induction false} RepairTotal(bl: seq<nat>, max: nat, total: nat)
    requires Repairing(bl, max, 0, total)
    ensures max < |bl| && BlTotal(bl, max) == total
  {
  }

  lemma {:induction false} BuiltTree(h: seq<nat>, top: nat, fc: seq<nat>, dl: seq<nat>, elems: nat, node: nat, used: set<nat>, t: Tree, pos: map<nat, nat>)
    requires Built(h, top, fc, dl, elems, node, used, t, pos)
    ensures Distinct(t) && Leaves(t) == used && pos.Keys == Ids(t) && used <= Ids(t)
  {
    IdsSplit(t);
  }

  lemma {:induction false} LevelRoot(len: seq<nat>, root: nat, dad: seq<nat>, pos: map<nat, nat>, max: nat)
    requires Levels(len, root, dad, pos, max)
    ensures root < |len| && len[root] == 0
  {
  }

  // ----- the symbols with codes -----

  /** The symbols below n with a nonzero entry. */
  ghost predicate NonZero(used: set<nat>, v: seq<nat>, n: nat)
  {
    n <= |v| && forall i: nat :: i in used <==> i < n && v[i] != 0
  }

  lemma {:induction false} Append(h: seq<nat>, len: nat, S: set<nat>, x: nat)
    requires Contents(h, len, S) && len + 1 < |h| && x !in S
    ensures Contents(h[len + 1 := x], len + 1, S + {x})
  {
    var g := h[len + 1 := x];
    forall y | y in S + {x}
      ensures exists i :: 1 <= i <= len + 1 && g[i] == y
    {
      if y == x {
        assert g[len + 1] == y;
      } else {
        var i :| 1 <= i <= len && h[i] == y;
        assert g[i] == y;
      }
    }
  }

  /** maxCode is the largest symbol in S, or -1. */
  ghost predicate Largest(maxCode: int, S: set<nat>)
  {
    && maxCode >= -1 && (maxCode >= 0 ==> maxCode in S) && (maxCode == -1 ==> S == {})
    && forall i :: i in S ==> i <= maxCode
  }

  /** The symbols that occur go into the queue. */
  method Collect(heap: array<nat>, depth: array<nat>, fc: array<nat>, dl: array<nat>, elems: nat) returns (len: nat, maxCode: int, ghost used: set<nat>)
    requires heap != depth && heap != fc && heap != dl && depth != fc && depth != dl && fc != dl
    requires elems < heap.Length && elems <= fc.Length == dl.Length <= depth.Length
    modifies heap, depth, dl
    ensures Contents(heap[..], len, used) && NonZero(used, fc[..], elems) && Largest(maxCode, used) && len <= elems
    ensures len == Sum(used, Ones(fc.Length)) && (forall i :: i in used ==> depth[i] == 0)
    ensures forall i :: 0 <= i < elems && i !in used ==> dl[i] == 0
  {
    hide Contents, Sum;
    len, maxCode, used := 0, -1, {};
    SumEmpty(Ones(fc.Length));
    assert Contents(heap[..], 0, {}) by { NoContents(heap[..]); }
    for n := 0 to elems
      invariant len <= n && Contents(heap[..], len, used) && NonZero(used, fc[..], n) && Largest(maxCode, used)
      invariant len == Sum(used, Ones(fc.Length)) && forall i :: i in used ==> depth[i] == 0
      invariant forall i :: 0 <= i < n && i !in used ==> dl[i] == 0
    {
      if fc[n] != 0 {
        Append(heap[..], len, used, n);
        SumInsert(used, Ones(fc.Length), n);
        ghost var h: seq<nat> := heap[..];
        len := len + 1;
        heap[len] := n;
        assert heap[..] == h[len := n];
        maxCode := n;
        depth[n] := 0;
        used := used + {n};
      } else {
        dl[n] := 0;
      }
    }
  }

  lemma {:induction false} NoContents(h: seq<nat>)
    requires |h| > 0
    ensures Contents(h, 0, {})
  {
  }

  /** At least two codes are forced: dummy symbols of frequency 1, whose one bit each (and
      static length) is taken off the totals in advance. */
  method Force(heap: array<nat>, depth: array<nat>, fc: array<nat>, elems: nat, len0: nat, maxCode0: int, stree: seq<nat>, opt0: int, stat0: int, ghost used0: set<nat>)
      returns (len: nat, maxCode: int, opt: int, stat: int, ghost used: set<nat>)
    requires heap != depth && heap != fc && depth != fc && 3 <= elems < heap.Length && elems <= fc.Length <= depth.Length
    requires Contents(heap[..], len0, used0) && NonZero(used0, fc[..], elems) && Largest(maxCode0, used0) && len0 <= elems
    requires len0 == Sum(used0, Ones(fc.Length)) && forall i :: i in used0 ==> depth[i] == 0
    modifies heap, depth, fc
    ensures Contents(heap[..], len, used) && NonZero(used, fc[..], elems) && Largest(maxCode, used) && 2 <= len <= elems
    ensures len == Sum(used, Ones(fc.Length)) && (forall i :: i in used ==> depth[i] == 0)
    ensures used0 <= used && (forall i :: 0 <= i < fc.Length ==> fc[i] == if i in used - used0 then 1 else old(fc[i]))
    ensures (used != used0 ==> len == 2) && forall i :: i in used - used0 ==> i <= 2
    ensures opt == opt0 - Sum(used - used0, Ones(fc.Length))
    ensures stat == stat0 - if stree == [] then 0 else Sum(used - used0, Statics(stree, fc.Length))
  {
    hide Contents, Sum, Statics;
    len, maxCode, opt, stat, used := len0, maxCode0, opt0, stat0, used0;
    ghost var n := fc.Length;
    assert used - used0 == {};
    SumEmpty(Ones(n));
    SumEmpty(Statics(stree, n));
    while len < 2
      invariant Contents(heap[..], len, used) && NonZero(used, fc[..], elems) && Largest(maxCode, used) && len <= elems
      invariant len == Sum(used, Ones(n)) && (forall i :: i in used ==> depth[i] == 0)
      invariant used0 <= used && (forall i :: 0 <= i < fc.Length ==> fc[i] == if i in used - used0 then 1 else old(fc[i]))
      invariant (used != used0 ==> len <= 2) && forall i :: i in used - used0 ==> i <= 2
      invariant opt == opt0 - Sum(used - used0, Ones(n))
      invariant stat == stat0 - if stree == [] then 0 else Sum(used - used0, Statics(stree, n))
    {
      FewCodes(heap[..], len, used, n);
      var node;
      if maxCode < 2 {
        maxCode := maxCode + 1;
        node := maxCode;
      } else {
        node := 0;
      }
      assert node !in used && node < elems && fc[node] == 0;
      Append(heap[..], len, used, node);
      SumInsert(used, Ones(n), node);
      SumInsert(used - used0, Ones(n), node);
      SumInsert(used - used0, Statics(stree, n), node);
      ExtrasAt([], 0, stree, n, node);
      assert used + {node} - used0 == used - used0 + {node};
      ghost var h: seq<nat> := heap[..];
      len := len + 1;
      heap[len] := node;
      assert heap[..] == h[len := node];
      fc[node] := 1;
      depth[node] := 0;
      opt := opt - 1;
      if stree != [] {
        stat := stat - StaticOf(stree, node);
      }
      used := used + {node};
    }
  }

  lemma {:induction false} FewCodes(h: seq<nat>, len: nat, S: set<nat>, n: nat)
    requires Contents(h, len, S) && len < 2
    ensures if len == 0 then S == {} else S == {h[1]}
  {
  }

  /** The heap property, from the leaves up. */
  method Heapify(heap: array<nat>, len: nat, fc: array<nat>, depth: array<nat>, ghost S: set<nat>)
    requires heap != fc && heap != depth && 1 <= len < heap.Length
    requires Contents(heap[..], len, S) && Nodes(S, fc[..], depth[..])
    modifies heap
    ensures Contents(heap[..], len, S) && HeapFrom(heap[..], len, fc[..], depth[..], 1)
  {
    hide Contents, Edge;
    var n := len / 2;
    while n >= 1
      invariant 0 <= n <= len / 2 && Contents(heap[..], len, S) && HeapFrom(heap[..], len, fc[..], depth[..], n + 1)
    {
      DownHeap(heap, len, n, fc, depth, S);
      n := n - 1;
    }
  }

  // ----- from sums over sets to the canonical code -----

  lemma {:induction false} CountPrefix(lens: seq<nat>, l: nat, n: nat)
    requires n <= |lens|
    ensures CountTo(lens, l, n) == Count(lens[..n], l)
  {
    CountFrame(lens, lens[..n], l, n);
  }

  lemma {:induction false} CountFrame(lens: seq<nat>, lens': seq<nat>, l: nat, n: nat)
    requires n <= |lens| && n <= |lens'| && lens[..n] == lens'[..n]
    ensures CountTo(lens, l, n) == CountTo(lens', l, n)
  {
    if n > 0 {
      assert lens[n - 1] == lens[..n][n - 1] && lens'[n - 1] == lens'[..n][n - 1];
      assert lens[..n - 1] == lens[..n][..n - 1] && lens'[..n - 1] == lens'[..n][..n - 1];
      CountFrame(lens, lens', l, n - 1);
    }
  }

  /** Counting codes of length l, as a sum and as gen_codes and inflate_table do. */
  lemma {:induction false} CountSum(used: set<nat>, len: seq<nat>, l: nat, n: nat)
    requires NonZero(used, len, n) && l >= 1
    ensures Sum(used, At(len[..n], l)) == CountTo(len, l, n)
    decreases n
  {
    if n > 0 {
      var u := used - {n - 1};
      CountSum(u, len, l, n - 1);
      assert At(len[..n], l)[..n - 1] == At(len[..n - 1], l);
      SumSame(used, u, At(len[..n - 1], l), At(len[..n - 1], l));
    }
  }

  /** The Kraft sum of the canonical code, symbol by symbol. */
  lemma {:induction false} BelowLast(lens: seq<nat>, l: nat)
    requires lens != [] && 1 <= l <= MAXBITS + 1
    ensures var n := |lens| - 1;
      Below(lens, l) == Below(lens[..n], l) + if 1 <= lens[n] < l then Pow2(MAXBITS - lens[n]) else 0
    decreases l
  {
    hide Shl, Pow2, CountTo;
    if l > 1 {
      var n := |lens| - 1;
      BelowLast(lens, l - 1);
      CountUsed(lens, l - 1, n);
      CountPrefix(lens, l - 1, n);
      ShlNext(Count(lens[..n], l - 1), MAXBITS - (l - 1));
    }
  }

  lemma {:induction false} KraftSum(used: set<nat>, lens: seq<nat>)
    requires NonZero(used, lens, |lens|) && ValidLens(lens)
    ensures Kraft(lens) == Mass(used, lens, MAXBITS)
    decreases |lens|
  {
    hide Below, Pow2;
    if lens == [] {
      assert Kraft(lens) == 0 by { NoKraft(lens, MAXBITS + 1); }
    } else {
      var n := |lens| - 1;
      var u, l := used - {n}, lens[..n];
      KraftSum(u, l);
      BelowLast(lens, MAXBITS + 1);
      assert Units(lens, MAXBITS)[..n] == Units(l, MAXBITS);
      SumSame(used, u, Units(l, MAXBITS), Units(l, MAXBITS));
    }
  }

  lemma {:induction false} NoKraft(lens: seq<nat>, l: nat)
    requires lens == [] && 1 <= l <= MAXBITS + 1
    ensures Below(lens, l) == 0
  {
    if l > 1 {
      NoKraft(lens, l - 1);
      ShlOne(MAXBITS - (l - 1));
    }
  }

  lemma {:induction false} MassTop(used: set<nat>, len: seq<nat>, max: nat, top: nat)
    requires Indices(used, |len|) && (forall i :: i in used ==> len[i] <= max) && max <= top && Mass(used, len, max) == Pow2(max)
    ensures Mass(used, len, top) == Pow2(top)
    decreases top - max
  {
    hide Mass;
    if max < top {
      MassHalf(used, len, max + 1);
      MassTop(used, len, max + 1, top);
    }
  }

  /** The lengths as a canonical code: complete, counted. */
  lemma {:induction false} Canonicalise(used: set<nat>, f: seq<nat>, len: seq<nat>, bl: seq<nat>, max: nat, n: nat)
    requires LengthsSet(used, f, len, bl, max) && NonZero(used, len, n)
    ensures ValidLens(len[..n]) && Kraft(len[..n]) == FULL && forall l :: 1 <= l <= MAXBITS ==> bl[l] == Count(len[..n], l)
    ensures forall i :: 0 <= i < n ==> len[i] <= max
  {
    hide Sum, Kraft, CountTo, Pow2;
    var lens := len[..n];
    assert forall i :: 0 <= i < n ==> len[i] <= max;
    assert NonZero(used, lens, n);
    MassTop(used, len, max, MAXBITS);
    SumPrefix(used, Units(len, MAXBITS), n);
    assert Units(len, MAXBITS)[..n] == Units(lens, MAXBITS);
    KraftSum(used, lens);
    FullIsPow2();
    forall l | 1 <= l <= MAXBITS
      ensures bl[l] == Count(lens, l)
    {
      SumPrefix(used, At(len, l), n);
      assert At(len, l)[..n] == At(lens, l);
      CountSum(used, lens, l, n);
      assert lens[..n] == lens;
    }
  }

  // ----- the totals -----

  /** The bits that n symbols of the given frequencies take. */
  ghost function TotalBits(f: seq<nat>, len: seq<nat>, xs: seq<nat>, n: nat): (r: nat)
    requires n <= |f| && n <= |len| && n <= |xs|
  {
    if n == 0 then 0 else TotalBits(f, len, xs, n - 1) + f[n - 1] * (len[n - 1] + xs[n - 1])
  }

  lemma {:induction false} TotalSum(used: set<nat>, f: seq<nat>, len: seq<nat>, xs: seq<nat>, n: nat)
    requires |f| == |len| == |xs| && n <= |f| && NonZero(used, f, n)
    ensures TotalBits(f, len, xs, n) == Sum(used, Charges(f, len, xs)[..n])
    decreases n
  {
    var v := Charges(f, len, xs);
    if n > 0 {
      var u := used - {n - 1};
      TotalSum(u, f, len, xs, n - 1);
      assert v[..n][..n - 1] == v[..n - 1];
      SumSame(used, u, v[..n - 1], v[..n - 1]);
    }
  }

  lemma {:induction false} TwoCodes(used: set<nat>, len: seq<nat>, max: nat, i: nat)
    requires 1 <= max && Mass(used, len, max) == Pow2(max) && (forall i :: i in used ==> i < |len| && 1 <= len[i] <= max)
    requires Sum(used, Ones(|len|)) == 2 && i in used
    ensures len[i] == 1
  {
    hide Sum;
    var R := used - {i};
    SumRemove(used, Ones(|len|), i);
    SumRemove(used, Units(len, max), i);
    SumEmpty(Ones(|len|));
    assert R != {};
    var j :| j in R;
    SumRemove(R, Ones(|len|), j);
    SumRemove(R, Units(len, max), j);
    EmptySum(R - {j}, |len|);
    SumEmpty(Units(len, max));
    Pow2Monotone(max - len[j], max - 1);
    Pow2Monotone(max - len[i], max - 1);
    assert Pow2(max) == 2 * Pow2(max - 1);
  }

  lemma {:induction false} EmptySum(S: set<nat>, n: nat)
    requires Indices(S, n) && Sum(S, Ones(n)) == 0
    ensures S == {}
  {
    hide Sum;
    if S != {} {
      var i :| i in S;
      SumRemove(S, Ones(n), i);
      SumNonNegative(S - {i}, Ones(n));
      assert false;
    }
  }

  /** Dummy codes cost nothing in the end. */
  lemma {:induction false} Accounts(used0: set<nat>, used: set<nat>, f0: seq<nat>, f1: seq<nat>, len: seq<nat>, xs: seq<nat>, ss: seq<nat>, max: nat, elems: nat)
    requires |f0| == |f1| == |len| == |xs| == |ss| && elems <= |f0| && used0 <= used && NonZero(used0, f0, elems) && Indices(used, elems)
    requires forall i :: 0 <= i < elems ==> f1[i] == if i in used - used0 then 1 else f0[i]
    requires forall i :: i in used - used0 ==> xs[i] == 0
    requires used != used0 ==> Sum(used, Ones(|len|)) == 2
    requires 1 <= max && Mass(used, len, max) == Pow2(max) && (forall i :: i in used ==> 1 <= len[i] <= max)
    ensures Sum(used, Charges(f1, len, xs)) - Sum(used - used0, Ones(|len|)) == TotalBits(f0, len, xs, elems)
    ensures Sum(used, Charges(f1, ss, xs)) - Sum(used - used0, ss) == TotalBits(f0, ss, xs, elems)
  {
    hide Sum, Mass, Pow2;
    var F := used - used0;
    assert used == used0 + F;
    forall i | i in F
      ensures len[i] == 1
    {
      TwoCodes(used, len, max, i);
    }
    SplitCharge(used0, F, f0, f1, len, xs, Ones(|len|), elems);
    SplitCharge(used0, F, f0, f1, ss, xs, ss, elems);
  }

  lemma {:induction false} SplitCharge(used0: set<nat>, F: set<nat>, f0: seq<nat>, f1: seq<nat>, len: seq<nat>, xs: seq<nat>, w: seq<int>, elems: nat)
    requires |f0| == |f1| == |len| == |xs| == |w| && elems <= |f0| && used0 !! F && NonZero(used0, f0, elems) && Indices(F, elems)
    requires forall i :: 0 <= i < elems ==> f1[i] == if i in F then 1 else f0[i]
    requires forall i :: i in F ==> xs[i] == 0 && len[i] == w[i]
    ensures Sum(used0 + F, Charges(f1, len, xs)) - Sum(F, w) == TotalBits(f0, len, xs, elems)
  {
    hide Sum;
    SumUnion(used0, F, Charges(f1, len, xs));
    SumSame(used0, used0, Charges(f1, len, xs), Charges(f0, len, xs));
    SumSame(F, F, Charges(f1, len, xs), w);
    SumPrefix(used0, Charges(f0, len, xs), elems);
    TotalSum(used0, f0, len, xs, elems);
  }

  /** Inner weights only depend on the leaves. */
  lemma {:induction false} InnerFrame(t: Tree, f: seq<nat>, g: seq<nat>, elems: nat, node: nat)
    requires Placed(t, elems, node) && |f| == |g| && elems <= |f| && forall i :: 0 <= i < elems ==> f[i] == g[i]
    ensures Weight(t, f) == Weight(t, g) && Inner(t, f) == Inner(t, g)
    decreases t
  {
    if t.Node? {
      InnerFrame(t.left, f, g, elems, node);
      InnerFrame(t.right, f, g, elems, node);
    }
  }

  lemma {:induction false} SortedFrame(t: Tree, f: seq<nat>, g: seq<nat>, elems: nat, node: nat)
    requires Placed(t, elems, node) && |f| == |g| && elems <= |f| && (forall i :: 0 <= i < elems ==> f[i] == g[i]) && Sorted(t, f)
    ensures Sorted(t, g)
    decreases t
  {
    hide Weight;
    if t.Node? {
      KidsFrame(t.left, t.right, f, g, elems, node);
      KidsFrame(t.right, t.left, f, g, elems, node);
      SortedFrame(t.left, f, g, elems, node);
      SortedFrame(t.right, f, g, elems, node);
    }
  }

  lemma {:induction false} KidsFrame(t: Tree, u: Tree, f: seq<nat>, g: seq<nat>, elems: nat, node: nat)
    requires Placed(t, elems, node) && Placed(u, elems, node) && |f| == |g| && elems <= |f| && (forall i :: 0 <= i < elems ==> f[i] == g[i])
    requires Kids(t, f, Weight(u, f))
    ensures Kids(t, g, Weight(u, g))
  {
    hide Weight, Inner;
    InnerFrame(u, f, g, elems, node);
    if t.Node? {
      InnerFrame(t.left, f, g, elems, node);
      InnerFrame(t.right, f, g, elems, node);
    }
  }

  lemma {:induction false} HuffmanFrame(t: Tree, used: set<nat>, f: seq<nat>, g: seq<nat>, elems: nat, node: nat)
    requires Placed(t, elems, node) && |f| == |g| && elems <= |f| && (forall i :: 0 <= i < elems ==> f[i] == g[i]) && Indices(used, elems)
    requires Huffman(t, used, f)
    ensures Huffman(t, used, g)
  {
    hide Sorted, TallBound, Inner, Height;
    SortedFrame(t, f, g, elems, node);
    InnerFrame(t, f, g, elems, node);
    BoundFrame(used, f, g, Flat(|f|), Flat(|g|), Inner(t, f), Height(t));
  }

  /** What build_tree makes of the frequencies f: a complete code with words, at most max
      bits long, on every symbol that occurs. */
  ghost predicate CodeFor(f: seq<nat>, codes: seq<nat>, lens: seq<nat>, max: nat)
  {
    && 0 < |lens| <= |f| && ValidLens(lens) && (forall i :: 0 <= i < |lens| ==> lens[i] <= max) && lens[|lens| - 1] != 0
    && Kraft(lens) == FULL && HasCodes(codes, lens)
    && (forall i :: 0 <= i < |f| && f[i] != 0 ==> i < |lens| && lens[i] != 0)
  }

  lemma {:induction false} SomeNode(h: seq<nat>, top: nat, fc: seq<nat>, dl: seq<nat>, elems: nat, node: nat, used: set<nat>, t: Tree, pos: map<nat, nat>, n: nat)
    requires Built(h, top, fc, dl, elems, node, used, t, pos) && Sum(used, Ones(n)) >= 2 && Indices(used, n)
    ensures t.Node? && Placed(t, elems, node) && forall i :: i in Ids(t) <==> i in used || elems <= i < node
  {
    hide Sum;
    IdsSplit(t);
    if t.Leaf? {
      assert used == {t.id};
      SumOne(Ones(n), t.id);
    }
  }

  /** The frequencies stay small enough for 16 bits. */
  lemma {:induction false} ForcedSum(used0: set<nat>, used: set<nat>, f0: seq<nat>, f1: seq<nat>, elems: nat)
    requires |f0| == |f1| && elems <= |f0| && used0 <= used && Indices(used, elems) && Total(f0, elems) < 65534
    requires forall i :: 0 <= i < elems ==> f1[i] == if i in used - used0 then 1 else f0[i]
    requires used != used0 ==> Sum(used, Ones(|f0|)) == 2
    ensures Sum(used, f1) < 65536
  {
    hide Sum;
    var F := used - used0;
    assert used == used0 + F;
    SumUnion(used0, F, f1);
    SumSame(used0, used0, f1, f0);
    SumTotal(used0, f0, elems);
    SumSame(F, F, f1, Ones(|f0|));
    SumUnion(used0, F, Ones(|f0|));
    SumNonNegative(used0, Ones(|f0|));
    if used == used0 {
      assert F == {};
      SumEmpty(f1);
    }
  }

  /** The frequencies with the dummies: 1 where a code was forced. */
  ghost predicate Adjusted(f0: seq<nat>, f1: seq<nat>, used: set<nat>, elems: nat)
  {
    && |f0| == |f1| && elems <= |f0| && NonZero(used, f1, elems)
    && (forall i :: 0 <= i < elems ==> f1[i] == f0[i] || (f0[i] == 0 && f1[i] == 1 && i <= 2))
    && Sum(used, Ones(|f1|)) >= 2
    && (Sum(used, Ones(|f1|)) == 2 || forall i :: 0 <= i < elems ==> f1[i] == f0[i])
  }

  /** From frequencies to a Huffman tree. */
  method Grow(heap: array<nat>, depth: array<nat>, fc: array<nat>, dl: array<nat>, elems: nat, stree: seq<nat>, opt0: int, stat0: int)
      returns (maxCode: nat, top: nat, opt: int, stat: int,
               ghost node: nat, ghost used0: set<nat>, ghost used: set<nat>, ghost t: Tree, ghost pos: map<nat, nat>)
    requires heap != depth && heap != fc && heap != dl && depth != fc && depth != dl && fc != dl
    requires 3 <= elems && 2 * elems < heap.Length && 2 * elems <= fc.Length == dl.Length <= depth.Length
    requires Total(fc[..], elems) < 65534
    modifies heap, depth, fc, dl
    ensures maxCode < elems && maxCode in used && (forall i :: i in used ==> i <= maxCode) && 2 <= Sum(used, Ones(fc.Length)) <= elems
    ensures NonZero(used0, old(fc[..]), elems) && used0 <= used && (used != used0 ==> Sum(used, Ones(fc.Length)) == 2)
    ensures (forall i :: 0 <= i < elems ==> fc[i] == if i in used - used0 then 1 else old(fc[i])) && forall i :: i in used - used0 ==> i <= 2
    ensures Built(heap[..], top, fc[..], dl[..], elems, node, used, t, pos) && Huffman(t, used, fc[..]) && t.Node?
    ensures forall i :: i in Ids(t) <==> i in used || elems <= i < node
    ensures forall i :: 0 <= i < elems && i !in used ==> dl[i] == 0
    ensures opt == opt0 - Sum(used - used0, Ones(fc.Length))
    ensures stat == stat0 - if stree == [] then 0 else Sum(used - used0, Statics(stree, fc.Length))
  {
    hide Sum, Contents, HeapFrom, Built, Statics, Huffman, Ids;
    ghost var f0: seq<nat>, n := fc[..], fc.Length;
    var len, mc;
    len, mc, used0 := Collect(heap, depth, fc, dl, elems);
    len, mc, opt, stat, used := Force(heap, depth, fc, elems, len, mc, stree, opt0, stat0, used0);
    SumEmpty(Ones(n));
    maxCode := mc;
    ghost var f1: seq<nat> := fc[..];
    Heapify(heap, len, fc, depth, used);
    ForcedSum(used0, used, f0, f1, elems);
    var nd;
    top, nd, t, pos := MergeAll(heap, len, fc, dl, depth, elems, used);
    node := nd;
    SomeNode(heap[..], top, fc[..], dl[..], elems, node, used, t, pos, n);
    HuffmanFrame(t, used, f1, fc[..], elems, node);
  }

  /** Everything before the codes. */
  method Lengths(heap: array<nat>, depth: array<nat>, fc: array<nat>, dl: array<nat>, elems: nat, extra: seq<nat>, base: nat, stree: seq<nat>, max: nat, opt0: int, stat0: int)
      returns (maxCode: nat, blCount: array<nat>, opt: int, stat: int, ghost used: set<nat>, ghost f1: seq<nat>)
    requires heap != depth && heap != fc && heap != dl && depth != fc && depth != dl && fc != dl
    requires 3 <= elems && 2 * elems < heap.Length && 2 * elems <= fc.Length == dl.Length <= depth.Length && 2 <= max <= 15 && elems <= Pow2(max)
    requires Total(fc[..], elems) < 65534 && forall i :: 0 <= i <= 2 ==> ExtraOf(extra, base, i) == 0
    modifies heap, depth, fc, dl
    ensures fresh(blCount) && maxCode < elems && maxCode in used && forall i :: i in used ==> i <= maxCode
    ensures Adjusted(old(fc[..]), f1, used, elems) && |f1| == fc.Length
    ensures LengthsSet(used, f1, dl[..], blCount[..], max) && NonZero(used, dl[..], elems) && BestLengths(used, f1, dl[..], max)
    ensures opt == opt0 + TotalBits(old(fc[..]), dl[..], Extras(extra, base, fc.Length), elems)
    ensures stat == stat0 + if stree == [] then 0 else TotalBits(old(fc[..]), Statics(stree, fc.Length), Extras(extra, base, fc.Length), elems)
  {
    hide Sum, Built, Mass, Extras, Statics, Charges, TotalBits, Huffman, CountsOf, Pow2, Optimal, NearlyOptimal, Height, Ids, BestLengths;
    ghost var f0: seq<nat>, n := fc[..], fc.Length;
    var top;
    ghost var node, used0, pos, t;
    maxCode, top, opt, stat, node, used0, used, t, pos := Grow(heap, depth, fc, dl, elems, stree, opt0, stat0);
    f1 := fc[..];
    BuiltPlace(heap[..], top, f1, dl[..], elems, node, used, t, pos);
    blCount, opt, stat := GenBitlen(heap, top, fc, dl, maxCode, extra, base, stree, max, opt, stat, elems, node, used, t, pos);
    forall i | i in used - used0
      ensures Extras(extra, base, n)[i] == 0
    {
      ExtrasAt(extra, base, stree, n, i);
    }
    Settle(used, f1, dl[..], blCount[..], max, t, elems);
    Accounts(used0, used, f0, f1, dl[..], Extras(extra, base, n), Statics(stree, n), max, elems);
  }

  lemma {:induction false} BuiltPlace(h: seq<nat>, top: nat, fc: seq<nat>, dl: seq<nat>, elems: nat, node: nat, used: set<nat>, t: Tree, pos: map<nat, nat>)
    requires Built(h, top, fc, dl, elems, node, used, t, pos)
    ensures Distinct(t) && Leaves(t) == used && Placed(t, elems, |fc|) && elems <= |fc|
  {
    hide Distinct, Leaves, Placed, Linked, Inners;
    PlacedMore(t, elems, node, |fc|);
  }

  lemma {:induction false} Settle(used: set<nat>, f: seq<nat>, len: seq<nat>, bl: seq<nat>, max: nat, t: Tree, elems: nat)
    requires LengthsSet(used, f, len, bl, max) && (Height(t) <= max ==> Optimal(used, f, len)) && NearlyOptimal(used, f, len, max)
    requires Distinct(t) && Leaves(t) == used && Placed(t, elems, |f|) && elems <= |f| && Huffman(t, used, f) && NonZero(used, f, elems)
    ensures BestLengths(used, f, len, max)
  {
    hide Sum, Optimal, NearlyOptimal, OptimalFits, CountsOf, Mass, Huffman, Fib, Height, Distinct, Leaves, Placed;
    if OptimalFits(used, f, max) || Sum(used, f) < Fib(max + 3) || |used| <= max + 1 {
      TreeIsLow(t, used, f, max, elems);
    }
  }

  /** The forced case: two words of one bit. */
  lemma {:induction false} TwoBits(used: set<nat>, f: seq<nat>, len: seq<nat>, bl: seq<nat>, max: nat, i: nat)
    requires LengthsSet(used, f, len, bl, max) && |used| == 2 && i in used
    ensures len[i] == 1
  {
    hide Sum, CountsOf;
    var R := used - {i};
    assert |R| == 1;
    var j :| j in R;
    assert R == {j} by { assert |R - {j}| == 0; }
    SumRemove(used, Units(len, max), i);
    SumOne(Units(len, max), j);
    UnitShare(max, len[i]);
    UnitShare(max, len[j]);
  }

  /** Only a word of one bit takes half of the code space. */
  lemma {:induction false} UnitShare(max: nat, a: nat)
    requires 1 <= a <= max
    ensures 2 * Unit(max, a) <= Pow2(max) && (a >= 2 ==> 4 * Unit(max, a) <= Pow2(max))
  {
    Pow2Monotone(max - a, max - 1);
    if a >= 2 { Pow2Monotone(max - a, max - 2); }
  }

  lemma {:induction false} FewOccur(f0: seq<nat>, f1: seq<nat>, used: set<nat>, elems: nat)
    requires Adjusted(f0, f1, used, elems)
    ensures |used| >= 2 && Occurring(f0[..elems]) <= used
    ensures Occurring(f0[..elems]) == used ==> f0[..elems] == f1[..elems]
    ensures Occurring(f0[..elems]) != used ==> |used| == 2 && |Occurring(f0[..elems])| <= 1
  {
    hide Sum;
    var S := Occurring(f0[..elems]);
    SumCard(used, |f1|);
    assert S <= used;
    if S != used {
      var x :| x in used && x !in S;
      assert S <= used - {x};
      CardUnder(S, used - {x});
    }
  }

  lemma {:induction false} Another(S: set<nat>, a: nat) returns (b: nat)
    requires |S| >= 2
    ensures b in S && b != a
  {
    if S - {a} == {} { CardUnder(S, {a}); }
    b :| b in S - {a};
  }

  lemma {:induction false} LengthsSize(used: set<nat>, f: seq<nat>, len: seq<nat>, bl: seq<nat>, max: nat)
    requires LengthsSet(used, f, len, bl, max)
    ensures |len| == |f|
  {
  }

  /** What was found for the array, said of the frequencies. */
  lemma {:induction false} Publish(f0: seq<nat>, f1: seq<nat>, used: set<nat>, len: seq<nat>, bl: seq<nat>, max: nat, elems: nat, a: nat)
    requires Adjusted(f0, f1, used, elems) && LengthsSet(used, f1, len, bl, max) && BestLengths(used, f1, len, max) && max >= 1 && a in used
    ensures BestCode(f0[..elems], len[..elems], max)
  {
    hide Sum, LengthsSet, BestLengths, BestCode;
    var f := f0[..elems];
    var S := Occurring(f);
    LengthsSize(used, f1, len, bl, max);
    FewOccur(f0, f1, used, elems);
    if S == used {
      var b := Another(used, a);
      PublishMany(f, f1, len, S, elems, max, a, b);
    } else {
      forall i | 0 <= i < |f| && f[i] != 0
        ensures len[i] == 1
      {
        assert i in S;
        TwoBits(used, f1, len, bl, max, i);
      }
      PublishFew(f, len[..elems], max);
    }
  }

  lemma {:induction false} CodeForAll(f0: seq<nat>, f1: seq<nat>, used: set<nat>, codes: seq<nat>, len: seq<nat>, max: nat, elems: nat, maxCode: nat)
    requires Adjusted(f0, f1, used, elems) && maxCode < elems <= |len| && maxCode in used && (forall i :: i in used ==> i <= maxCode)
    requires NonZero(used, len, elems) && ValidLens(len[..maxCode + 1]) && Kraft(len[..maxCode + 1]) == FULL
    requires (forall i :: 0 <= i < maxCode + 1 ==> len[i] <= max) && HasCodes(codes, len[..maxCode + 1])
    ensures CodeFor(f0[..elems], codes, len[..maxCode + 1], max)
  {
    hide Kraft, HasCodes, Sum;
    forall i: nat | i < elems && f0[i] != 0
      ensures i <= maxCode && len[i] != 0
    {
      assert f1[i] != 0;
      assert i in used;
    }
  }

  /** build_tree: a complete code for the frequencies in fc, the words in fc and the lengths
      in dl; opt and stat grow by exactly the bits the symbols take under the new code and
      under the static one. */
  method Build(heap: array<nat>, depth: array<nat>, fc: array<nat>, dl: array<nat>, elems: nat, extra: seq<nat>, base: nat, stree: seq<nat>, max: nat, opt0: int, stat0: int)
      returns (maxCode: nat, opt: int, stat: int)
    requires heap != depth && heap != fc && heap != dl && depth != fc && depth != dl && fc != dl
    requires 3 <= elems && 2 * elems < heap.Length && 2 * elems <= fc.Length == dl.Length <= depth.Length && 2 <= max <= 15 && elems <= Pow2(max)
    requires Total(fc[..], elems) < 65534 && forall i :: 0 <= i <= 2 ==> ExtraOf(extra, base, i) == 0
    modifies heap, depth, fc, dl
    ensures maxCode < elems && CodeFor(old(fc[..elems]), fc[..maxCode + 1], dl[..maxCode + 1], max)
    ensures forall i :: maxCode < i < elems ==> dl[i] == 0
    ensures BestCode(old(fc[..elems]), dl[..elems], max)
    ensures opt == opt0 + TotalBits(old(fc[..]), dl[..], Extras(extra, base, fc.Length), elems)
    ensures stat == stat0 + if stree == [] then 0 else TotalBits(old(fc[..]), Statics(stree, fc.Length), Extras(extra, base, fc.Length), elems)
  {
    hide Sum, Extras, Statics, TotalBits, Kraft, LengthsSet, BestLengths, Adjusted, CodeFor, Pow2, Total, HasCodes, Count, BestCode;
    ghost var f0: seq<nat> := fc[..];
    var blCount;
    ghost var used, f1;
    maxCode, blCount, opt, stat, used, f1 := Lengths(heap, depth, fc, dl, elems, extra, base, stree, max, opt0, stat0);
    ghost var len: seq<nat> := dl[..];
    Canonicalise(used, f1, len, blCount[..], max, maxCode + 1);
    assert dl[..maxCode + 1] == len[..maxCode + 1];
    BlSize(used, f1, len, blCount[..], max);
    GenCodes(fc, dl, maxCode + 1, blCount[..]);
    CodeForAll(f0, f1, used, fc[..maxCode + 1], len, max, elems, maxCode);
    Publish(f0, f1, used, len, blCount[..], max, elems, maxCode);
    assert f0[..elems] == old(fc[..elems]);
  }

  lemma {:induction false} BlSize(used: set<nat>, f: seq<nat>, len: seq<nat>, bl: seq<nat>, max: nat)
    requires LengthsSet(used, f, len, bl, max)
    ensures |bl| == MAXBITS + 1 && bl[0] == 0
  {
  }
}
