/** gen_bitlen of trees.c: code lengths from the tree, and the repair when some codes
    would be too long. */
module BitLengths {
  import opened Bits
  import opened SetSum
  import opened HuffmanOpt
  import opened HuffmanTree
  import opened HuffmanBuild

  // ----- first pass: lengths by level, parents before children -----

  /** The capped level of node i. */
  ghost function Level(i: nat, root: nat, dad: seq<nat>, pos: map<nat, nat>, max: nat): (l: nat)
    requires i in pos && (forall j :: j in pos && j != root ==> j < |dad| && dad[j] in pos && pos[dad[j]] < pos[j])
    ensures l <= max
    decreases pos[i]
  {
    if i == root then 0 else Capped(Level(dad[i], root, dad, pos, max) + 1, max)
  }

  /** All levels at once. */
  ghost predicate Levels(len: seq<nat>, root: nat, dad: seq<nat>, pos: map<nat, nat>, max: nat)
  {
    && |len| == |dad| && root < |len| && len[root] == 0
    && (forall i :: i in pos ==> i < |len| && len[i] <= max)
    && (forall i :: i in pos && i != root ==> dad[i] < |len| && len[i] == Capped(len[dad[i]] + 1, max))
  }

  lemma {:induction false} MakeLevels(h: seq<nat>, top: nat, fc: seq<nat>, dad: seq<nat>, root: nat, node: nat, pos: map<nat, nat>, max: nat)
      returns (len: seq<nat>)
    requires Ranked(h, top, pos, fc, dad, root, node)
    ensures Levels(len, root, dad, pos, max) && forall i :: 0 <= i < |dad| && i !in pos ==> len[i] == dad[i]
  {
    len := seq(|dad|, i requires 0 <= i < |dad| => if i in pos then Level(i, root, dad, pos, max) else dad[i]);
    assert root in pos;
  }

  /** 1 at the nodes whose parent is already on the last level. */
  ghost function Over(len: seq<nat>, dad: seq<nat>, max: nat): (v: seq<int>)
    requires |len| == |dad|
    ensures |v| == |len|
  {
    seq(|len|, i requires 0 <= i < |len| => if dad[i] < |len| && len[dad[i]] == max then 1 else 0)
  }

  /** The nodes that lie too deep are the children of the inner nodes on the last level. */
  lemma {:induction false} OverDeep(t: Tree, len: seq<nat>, dad: seq<nat>, max: nat)
    requires Distinct(t) && Linked(t, dad) && |len| == |dad| && Labelled(t, len, max)
    ensures Sum(Ids(t) - {t.id}, Over(len, dad, max)) == 2 * Deep(t, len, max)
    decreases t
  {
    hide Sum;
    var v := Over(len, dad, max);
    match t
    case Leaf(id) =>
      assert Ids(t) - {id} == {};
      SumEmpty(v);
    case Node(id, l, r) =>
      OverDeep(l, len, dad, max);
      OverDeep(r, len, dad, max);
      SumRemove(Ids(l), v, l.id);
      SumRemove(Ids(r), v, r.id);
      SumUnion(Ids(l), Ids(r), v);
      assert Ids(t) - {id} == Ids(l) + Ids(r);
  }

  /** Bits of a symbol: its length and its extra bits. */
  ghost function Charges(f: seq<nat>, len: seq<nat>, extra: seq<nat>): (v: seq<int>)
    requires |f| == |len| == |extra|
    ensures |v| == |f|
  {
    seq(|f|, i requires 0 <= i < |f| => f[i] * (len[i] + extra[i]))
  }

  /** Everything the first pass adds up, over the nodes in P. */
  ghost predicate Tally(P: set<nat>, used: set<nat>, len: seq<nat>, dad: seq<nat>, f: seq<nat>, extra: seq<nat>, slen: seq<nat>, max: nat,
                        blCount: seq<nat>, overflow: int, opt: int, stat: int)
  {
    && |len| == |dad| == |f| == |extra| == |slen| && |blCount| == 16
    && overflow == Sum(P, Over(len, dad, max))
    && (forall b :: 0 <= b <= 15 ==> blCount[b] == Sum(P * used, At(len, b)))
    && opt == Sum(P * used, Charges(f, len, extra))
    && stat == Sum(P * used, Charges(f, slen, extra))
  }

  lemma {:induction false} TallyNone(used: set<nat>, len: seq<nat>, dad: seq<nat>, f: seq<nat>, extra: seq<nat>, slen: seq<nat>, max: nat, blCount: seq<nat>)
    requires |len| == |dad| == |f| == |extra| == |slen| && |blCount| == 16 && forall b :: 0 <= b <= 15 ==> blCount[b] == 0
    ensures Tally({}, used, len, dad, f, extra, slen, max, blCount, 0, 0, 0)
  {
    hide Sum;
    assert {} * used == {};
    SumEmpty(Over(len, dad, max));
    SumEmpty(Charges(f, len, extra));
    SumEmpty(Charges(f, slen, extra));
    forall b | 0 <= b <= 15
      ensures Sum({}, At(len, b)) == 0
    {
      SumEmpty(At(len, b));
    }
  }

  /** One more node. */
  lemma {:induction false} TallyNode(P: set<nat>, used: set<nat>, len: seq<nat>, dad: seq<nat>, f: seq<nat>, extra: seq<nat>, slen: seq<nat>, max: nat,
                                     blCount: seq<nat>, overflow: int, opt: int, stat: int, n: nat)
    requires Tally(P, used, len, dad, f, extra, slen, max, blCount, overflow, opt, stat)
    requires n !in P && n < |len| && dad[n] < |len| && len[n] <= 15
    ensures Tally(P + {n}, used, len, dad, f, extra, slen, max,
                  if n in used then blCount[len[n] := blCount[len[n]] + 1] else blCount,
                  overflow + (if len[dad[n]] == max then 1 else 0),
                  opt + (if n in used then f[n] * (len[n] + extra[n]) else 0),
                  stat + (if n in used then f[n] * (slen[n] + extra[n]) else 0))
  {
    hide Sum;
    SumInsert(P, Over(len, dad, max), n);
    if n in used {
      assert (P + {n}) * used == P * used + {n};
      forall b | 0 <= b <= 15
        ensures Sum((P + {n}) * used, At(len, b)) == Sum(P * used, At(len, b)) + (if len[n] == b then 1 else 0)
      {
        SumInsert(P * used, At(len, b), n);
      }
      SumInsert(P * used, Charges(f, len, extra), n);
      SumInsert(P * used, Charges(f, slen, extra), n);
    } else {
      assert (P + {n}) * used == P * used;
    }
  }

  /** The extra bits of node n, and its length in the static tree. */
  function ExtraOf(extra: seq<nat>, base: nat, n: nat): (x: nat) { if base <= n < base + |extra| then extra[n - base] else 0 }
  function StaticOf(stree: seq<nat>, n: nat): (l: nat) { if n < |stree| then stree[n] else 0 }

  ghost function Extras(extra: seq<nat>, base: nat, n: nat): (v: seq<nat>)
    ensures |v| == n
  {
    seq(n, i requires 0 <= i < n => ExtraOf(extra, base, i))
  }

  ghost function Statics(stree: seq<nat>, n: nat): (v: seq<nat>)
    ensures |v| == n
  {
    seq(n, i requires 0 <= i < n => StaticOf(stree, i))
  }

  /** dl holds the lengths of the nodes before index h and the parents of the others. */
  ghost predicate HalfDone(dl: seq<nat>, len: seq<nat>, dad: seq<nat>, pos: map<nat, nat>, h: nat)
  {
    && |dl| == |len| == |dad|
    && forall i :: 0 <= i < |dl| ==> dl[i] == if i in pos && pos[i] < h then len[i] else dad[i]
  }

  lemma {:induction false} TreeNodes(h: seq<nat>, top: nat, fc: seq<nat>, dl: seq<nat>, elems: nat, node: nat, used: set<nat>, t: Tree, pos: map<nat, nat>, n: nat)
    requires Built(h, top, fc, dl, elems, node, used, t, pos) && n in pos
    ensures n < node <= |dl| == |fc| && top <= pos[n] < |h| && h[pos[n]] == n
    ensures n in used <==> n < elems
    ensures n != t.id ==> dl[n] in pos && dl[n] < |dl| && pos[dl[n]] < pos[n]
  {
    PlacedIds(t, elems, node);
    IdsSplit(t);
  }

  lemma {:induction false} BuiltLevels(h: seq<nat>, top: nat, fc: seq<nat>, dad: seq<nat>, elems: nat, node: nat, used: set<nat>, t: Tree, pos: map<nat, nat>, max: nat)
      returns (len: seq<nat>)
    requires Built(h, top, fc, dad, elems, node, used, t, pos)
    ensures Levels(len, t.id, dad, pos, max) && |len| == |dad| && forall i :: 0 <= i < |dad| && i !in pos ==> len[i] == dad[i]
  {
    hide Ranked, Grown;
    len := MakeLevels(h, top, fc, dad, t.id, node, pos, max);
  }

  lemma {:induction false} BuiltRoot(h: seq<nat>, top: nat, fc: seq<nat>, dl: seq<nat>, elems: nat, node: nat, used: set<nat>, t: Tree, pos: map<nat, nat>)
    requires Built(h, top, fc, dl, elems, node, used, t, pos)
    ensures top < |h| && h[top] == t.id && t.id in pos && pos[t.id] == top && t.id < |dl| == |fc|
  {
    assert h[top] in pos;
  }

  lemma {:induction false} BuiltAt(h: seq<nat>, top: nat, fc: seq<nat>, dl: seq<nat>, elems: nat, node: nat, used: set<nat>, t: Tree, pos: map<nat, nat>, k: nat)
    requires Built(h, top, fc, dl, elems, node, used, t, pos) && top <= k < |h|
    ensures h[k] in pos && pos[h[k]] == k && (forall i :: i in pos && pos[i] == k ==> i == h[k]) && (k > top ==> h[k] != t.id)
  {
  }

  lemma {:induction false} LevelAt(len: seq<nat>, root: nat, dad: seq<nat>, pos: map<nat, nat>, max: nat, n: nat)
    requires Levels(len, root, dad, pos, max) && n in pos && n != root
    ensures n < |len| == |dad| && dad[n] < |len| && len[n] == Capped(len[dad[n]] + 1, max) <= max
    ensures dad[n] in pos ==> len[dad[n]] <= max
  {
  }

  lemma {:induction false} ExtrasAt(extra: seq<nat>, base: nat, stree: seq<nat>, n0: nat, n: nat)
    requires n < n0
    ensures Extras(extra, base, n0)[n] == ExtraOf(extra, base, n) && Statics(stree, n0)[n] == StaticOf(stree, n)
  {
  }

  lemma {:induction false} FirstDone(h: seq<nat>, top: nat, fc: seq<nat>, dad: seq<nat>, elems: nat, node: nat, used: set<nat>, t: Tree, pos: map<nat, nat>,
                                     len: seq<nat>, max: nat, dl: seq<nat>)
    requires Built(h, top, fc, dad, elems, node, used, t, pos) && Levels(len, t.id, dad, pos, max)
    requires dl == dad[t.id := 0]
    ensures HalfDone(dl, len, dad, pos, top + 1)
  {
  }

  lemma {:induction false} HalfAt(dl: seq<nat>, len: seq<nat>, dad: seq<nat>, pos: map<nat, nat>, h: nat, n: nat)
    requires HalfDone(dl, len, dad, pos, h) && n < |dad| && n in pos && pos[n] == h
    requires dad[n] in pos && pos[dad[n]] < h && dad[n] < |dad|
    ensures |dl| == |len| == |dad| && dl[n] == dad[n] && dl[dad[n]] == len[dad[n]]
  {
  }

  lemma {:induction false} NextDone(dl: seq<nat>, len: seq<nat>, dad: seq<nat>, pos: map<nat, nat>, h: nat, n: nat)
    requires HalfDone(dl, len, dad, pos, h) && n < |dad| && n in pos && pos[n] == h && forall i :: i in pos && pos[i] == h ==> i == n
    ensures n < |dl| && n < |len| && HalfDone(dl[n := len[n]], len, dad, pos, h + 1)
  {
  }

  lemma {:induction false} AllDone(h: seq<nat>, top: nat, fc: seq<nat>, dad: seq<nat>, elems: nat, node: nat, used: set<nat>, t: Tree, pos: map<nat, nat>,
                                   dl: seq<nat>, len: seq<nat>, P: set<nat>)
    requires Built(h, top, fc, dad, elems, node, used, t, pos) && HalfDone(dl, len, dad, pos, |h|)
    requires (forall i :: i in P <==> i in pos && top < pos[i] < |h|) && forall i :: 0 <= i < |dad| && i !in pos ==> i < |len| && len[i] == dad[i]
    ensures P == Ids(t) - {t.id} && dl == len
  {
    BuiltRoot(h, top, fc, dad, elems, node, used, t, pos);
    assert forall i :: i in pos ==> i in Ids(t);
  }

  method CountLeaf(blCount: array<nat>, freq: nat, bits: nat, xbits: nat, slen: nat, static_: bool, opt: nat, stat: nat) returns (opt': nat, stat': nat)
    requires bits < blCount.Length
    modifies blCount
    ensures blCount[..] == old(blCount[..])[bits := old(blCount[bits]) + 1]
    ensures opt' == opt + freq * (bits + xbits) && stat' == if static_ then stat + freq * (slen + xbits) else stat
  {
    blCount[bits] := blCount[bits] + 1;
    opt' := opt + freq * (bits + xbits);
    stat' := stat;
    if static_ {
      stat' := stat + freq * (slen + xbits);
    }
  }

  /** The level of one node, below its parent but at most at level max. */
  method PassNode(dl: array<nat>, n: nat, max: nat, overflow: nat, ghost len: seq<nat>, ghost dad: seq<nat>, ghost pos: map<nat, nat>, ghost h: nat)
      returns (bits: nat, overflow': nat)
    requires HalfDone(dl[..], len, dad, pos, h) && n < |dad| == |len| == dl.Length && n in pos && pos[n] == h && forall i :: i in pos && pos[i] == h ==> i == n
    requires dad[n] in pos && pos[dad[n]] < h && dad[n] < |dad| && len[dad[n]] <= max && len[n] == Capped(len[dad[n]] + 1, max)
    modifies dl
    ensures HalfDone(dl[..], len, dad, pos, h + 1) && bits == len[n] && overflow' == overflow + if len[dad[n]] == max then 1 else 0
  {
    hide HalfDone;
    HalfAt(dl[..], len, dad, pos, h, n);
    NextDone(dl[..], len, dad, pos, h, n);
    bits, overflow' := dl[dl[n]] + 1, overflow;
    if bits > max {
      bits, overflow' := max, overflow + 1;
    }
    ghost var dl0 := dl[..];
    dl[n] := bits;
    assert dl[..] == dl0[n := len[n]];
  }

  method FirstPass(heap: array<nat>, top: nat, fc: array<nat>, dl: array<nat>, maxCode: nat, extra: seq<nat>, base: nat, stree: seq<nat>, max: nat,
                   ghost elems: nat, ghost node: nat, ghost used: set<nat>, ghost t: Tree, ghost pos: map<nat, nat>)
      returns (blCount: array<nat>, overflow: nat, opt: nat, stat: nat, ghost st: int)
    requires heap != dl && fc != dl && dl.Length == fc.Length && 1 <= max <= 15
    requires Built(heap[..], top, fc[..], dl[..], elems, node, used, t, pos)
    requires maxCode < elems && forall i :: i in used ==> i <= maxCode
    modifies dl
    ensures fresh(blCount) && blCount.Length == 16
    ensures Levels(dl[..], t.id, old(dl[..]), pos, max)
    ensures forall i :: 0 <= i < dl.Length && i !in pos ==> dl[i] == old(dl[i])
    ensures stat == if stree == [] then 0 else st
    ensures Tally(Ids(t) - {t.id}, used, dl[..], old(dl[..]), fc[..], Extras(extra, base, fc.Length), Statics(stree, fc.Length), max, blCount[..], overflow, opt, st)
  {
    hide Built, Tally, Extras, Statics, Levels, HalfDone, Ids;
    ghost var root, dad: seq<nat>, f, n0 := t.id, dl[..], fc[..], dl.Length;
    ghost var xs, ss := Extras(extra, base, n0), Statics(stree, n0);
    ghost var len := BuiltLevels(heap[..], top, f, dad, elems, node, used, t, pos, max);
    blCount := new nat[16](_ => 0);
    overflow, opt, stat := 0, 0, 0;
    ghost var P: set<nat> := {};
    st := 0;
    TallyNone(used, len, dad, f, xs, ss, max, blCount[..]);
    assert heap[top] == root && root < dl.Length && root in pos && pos[root] == top && top < heap.Length by {
      BuiltRoot(heap[..], top, f, dad, elems, node, used, t, pos);
    }
    dl[heap[top]] := 0;
    assert HalfDone(dl[..], len, dad, pos, top + 1) by {
      FirstDone(heap[..], top, f, dad, elems, node, used, t, pos, len, max, dl[..]);
    }
    for h := top + 1 to heap.Length
      invariant blCount.Length == 16 && fresh(blCount)
      invariant HalfDone(dl[..], len, dad, pos, h)
      invariant forall i :: i in P <==> i in pos && top < pos[i] < h
      invariant Tally(P, used, len, dad, f, xs, ss, max, blCount[..], overflow, opt, st)
      invariant if stree == [] then stat == 0 else stat == st
    {
      var n := heap[h];
      BuiltAt(heap[..], top, f, dad, elems, node, used, t, pos, h);
      TreeNodes(heap[..], top, f, dad, elems, node, used, t, pos, n);
      LevelAt(len, root, dad, pos, max, n);
      TallyNode(P, used, len, dad, f, xs, ss, max, blCount[..], overflow, opt, st, n);
      var bits;
      bits, overflow := PassNode(dl, n, max, overflow, len, dad, pos, h);
      P := P + {n};
      if n <= maxCode {
        var xbits := ExtraOf(extra, base, n);
        ExtrasAt(extra, base, stree, n0, n);
        opt, stat := CountLeaf(blCount, fc[n], bits, xbits, StaticOf(stree, n), stree != [], opt, stat);
        st := st + fc[n] * (StaticOf(stree, n) + xbits);
      }
    }
    assert P == Ids(t) - {root} && dl[..] == len by { AllDone(heap[..], top, f, dad, elems, node, used, t, pos, dl[..], len, P); }
  }
}
