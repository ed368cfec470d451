/** The priority queue of trees.c: a heap of tree nodes in heap[1..len], least frequent
    first, shallower first among equally frequent ones. */
module NodeHeap {
  import opened HuffmanOpt

  /** The order of the queue as a number. */
  function Key(fc: seq<nat>, depth: seq<nat>, n: nat): (k: nat)
    requires n < |fc| && n < |depth|
  {
    256 * fc[n] + depth[n]
  }

  /** The nodes in the queue: those of S, each once. */
  ghost predicate Contents(h: seq<nat>, len: nat, S: set<nat>)
  {
    && len < |h|
    && (forall i :: 1 <= i <= len ==> h[i] in S)
    && (forall x :: x in S ==> exists i :: 1 <= i <= len && h[i] == x)
    && (forall i, j :: 1 <= i < j <= len ==> h[i] != h[j])
  }

  /** Everything in the queue is a node with a small depth. */
  ghost predicate Nodes(S: set<nat>, fc: seq<nat>, depth: seq<nat>)
  {
    |fc| <= |depth| && forall x :: x in S ==> x < |fc| && depth[x] < 256
  }

  /** The parent of slot i comes no later than slot i. */
  ghost predicate Edge(h: seq<nat>, fc: seq<nat>, depth: seq<nat>, p: nat, i: nat)
  {
    && p < |h| && i < |h| && h[p] < |fc| && h[p] < |depth| && h[i] < |fc| && h[i] < |depth|
    && Key(fc, depth, h[p]) <= Key(fc, depth, h[i])
  }

  /** The heap property below slot k, that slot included. */
  ghost predicate HeapFrom(h: seq<nat>, len: nat, fc: seq<nat>, depth: seq<nat>, k: nat)
  {
    forall i :: 2 <= i <= len && i / 2 >= k ==> Edge(h, fc, depth, i / 2, i)
  }

  predicate Smaller(fc: array<nat>, depth: array<nat>, n: nat, m: nat)
    requires n < fc.Length && m < fc.Length && n < depth.Length && m < depth.Length
    reads fc, depth
  {
    fc[n] < fc[m] || (fc[n] == fc[m] && depth[n] <= depth[m])
  }

  lemma {:induction false} SmallerKey(fc: array<nat>, depth: array<nat>, n: nat, m: nat)
    requires n < fc.Length && m < fc.Length && n < depth.Length && m < depth.Length && depth[n] < 256 && depth[m] < 256
    ensures Smaller(fc, depth, n, m) <==> Key(fc[..], depth[..], n) <= Key(fc[..], depth[..], m)
  {
  }

  lemma {:induction false} SwapContents(h: seq<nat>, len: nat, S: set<nat>, a: nat, b: nat)
    requires Contents(h, len, S) && 1 <= a <= len && 1 <= b <= len
    ensures Contents(h[a := h[b]][b := h[a]], len, S)
  {
    var g := h[a := h[b]][b := h[a]];
    forall x | x in S
      ensures exists i :: 1 <= i <= len && g[i] == x
    {
      var i :| 1 <= i <= len && h[i] == x;
      var j := if i == a then b else if i == b then a else i;
      assert g[j] == x;
    }
  }

  /** A heap but for the edges below slot k. */
  ghost predicate Sifting(h: seq<nat>, len: nat, fc: seq<nat>, depth: seq<nat>, k0: nat, k: nat)
  {
    && (forall i :: 2 <= i <= len && i / 2 >= k0 && i / 2 != k ==> Edge(h, fc, depth, i / 2, i))
    && (k > k0 ==> forall i :: 2 <= i <= len && i / 2 == k ==> Edge(h, fc, depth, k / 2, i))
  }

  lemma {:induction false} SiftStep(h: seq<nat>, len: nat, fc: seq<nat>, depth: seq<nat>, k0: nat, k: nat, j: nat)
    requires len < |h| && 1 <= k0 <= k <= len && k0 <= k && Sifting(h, len, fc, depth, k0, k)
    requires k < j <= len && j / 2 == k
    requires forall i :: 1 <= i <= len ==> h[i] < |fc| && h[i] < |depth|
    requires Key(fc, depth, h[j]) <= Key(fc, depth, h[k])
    requires forall i :: 2 <= i <= len && i / 2 == k ==> Key(fc, depth, h[j]) <= Key(fc, depth, h[i])
    requires k == k0 || k / 2 >= k0
    ensures Sifting(h[k := h[j]][j := h[k]], len, fc, depth, k0, j)
  {
    hide Key;
    var g := h[k := h[j]][j := h[k]];
    forall i | 2 <= i <= len && i / 2 >= k0 && i / 2 != j
      ensures Edge(g, fc, depth, i / 2, i)
    {
      if i == k { assert Edge(h, fc, depth, k / 2, j); }
      else if i / 2 != k { assert Edge(h, fc, depth, i / 2, i); }
    }
    forall i | 2 <= i <= len && i / 2 == j
      ensures Edge(g, fc, depth, j / 2, i)
    {
      assert Edge(h, fc, depth, j, i);
    }
  }

  lemma {:induction false} SiftStart(h: seq<nat>, len: nat, fc: seq<nat>, depth: seq<nat>, k: nat)
    requires HeapFrom(h, len, fc, depth, k + 1)
    ensures Sifting(h, len, fc, depth, k, k)
  {
    hide Edge;
  }

  lemma {:induction false} SiftEnd(h: seq<nat>, len: nat, fc: seq<nat>, depth: seq<nat>, k0: nat, k: nat)
    requires Sifting(h, len, fc, depth, k0, k) && k <= len < |h|
    requires forall i :: 1 <= i <= len ==> h[i] < |fc| && h[i] < |depth|
    requires k >= 1 && forall i :: 2 <= i <= len && i / 2 == k ==> Key(fc, depth, h[k]) <= Key(fc, depth, h[i])
    ensures HeapFrom(h, len, fc, depth, k0)
  {
    hide Key;
  }

  /** pqdownheap: the node in slot k sinks to where it belongs. */
  method DownHeap(heap: array<nat>, len: nat, k0: nat, fc: array<nat>, depth: array<nat>, ghost S: set<nat>)
    requires heap != fc && heap != depth && 1 <= k0 <= len < heap.Length
    requires Contents(heap[..], len, S) && Nodes(S, fc[..], depth[..])
    requires HeapFrom(heap[..], len, fc[..], depth[..], k0 + 1)
    modifies heap
    ensures Contents(heap[..], len, S) && HeapFrom(heap[..], len, fc[..], depth[..], k0)
    ensures forall i :: 0 <= i < heap.Length && (i < k0 || i > len) ==> heap[i] == old(heap[i])
  {
    hide Key, Contents, Sifting, HeapFrom, Edge;
    ghost var f, d := fc[..], depth[..];
    var v, k, j := heap[k0], k0, 2 * k0;
    ghost var g := heap[..];
    InQueue(g, len, S, f, d);
    SiftStart(g, len, f, d, k0);
    while j <= len
      invariant k0 <= k <= len && j == 2 * k && (k == k0 || k / 2 >= k0)
      invariant |g| == heap.Length && g[k] == v && (forall i :: 0 <= i < |g| && i != k ==> heap[i] == g[i])
      invariant Contents(g, len, S) && Sifting(g, len, f, d, k0, k)
      invariant forall i :: 0 <= i < heap.Length && (i < k0 || i > len) ==> heap[i] == old(heap[i])
      decreases len - k
    {
      InQueue(g, len, S, f, d);
      if j < len {
        SmallerKey(fc, depth, heap[j + 1], heap[j]);
      }
      if j < len && Smaller(fc, depth, heap[j + 1], heap[j]) {
        j := j + 1;
      }
      SmallerKey(fc, depth, v, heap[j]);
      if Smaller(fc, depth, v, heap[j]) {
        break;
      }
      SiftStep(g, len, f, d, k0, k, j);
      SwapContents(g, len, S, k, j);
      g := g[k := g[j]][j := g[k]];
      heap[k] := heap[j];
      k := j;
      j := 2 * j;
    }
    InQueue(g, len, S, f, d);
    SiftEnd(g, len, f, d, k0, k);
    heap[k] := v;
    assert heap[..] == g;
  }

  lemma {:induction false} InQueue(h: seq<nat>, len: nat, S: set<nat>, fc: seq<nat>, depth: seq<nat>)
    requires Contents(h, len, S) && Nodes(S, fc, depth)
    ensures len < |h| && |fc| <= |depth| && forall i :: 1 <= i <= len ==> h[i] < |fc| && depth[h[i]] < 256
  {
  }

  /** The first node of the queue is least. */
  lemma {:induction false} FirstIsLeast(h: seq<nat>, len: nat, fc: seq<nat>, depth: seq<nat>, S: set<nat>, i: nat)
    requires HeapFrom(h, len, fc, depth, 1) && Contents(h, len, S) && Nodes(S, fc, depth) && 1 <= i <= len
    ensures Key(fc, depth, h[1]) <= Key(fc, depth, h[i]) && fc[h[1]] <= fc[h[i]]
  {
    if i > 1 {
      FirstIsLeast(h, len, fc, depth, S, i / 2);
      assert Edge(h, fc, depth, i / 2, i);
    }
  }

  lemma {:induction false} LeastOf(h: seq<nat>, len: nat, fc: seq<nat>, depth: seq<nat>, S: set<nat>)
    requires HeapFrom(h, len, fc, depth, 1) && Contents(h, len, S) && Nodes(S, fc, depth) && len >= 1
    ensures h[1] in S && forall x :: x in S ==> Before(fc, depth, h[1], x)
  {
    forall x | x in S
      ensures Before(fc, depth, h[1], x)
    {
      var i :| 1 <= i <= len && h[i] == x;
      FirstIsLeast(h, len, fc, depth, S, i);
    }
  }

  /** pqremove, before the node that takes the first slot sinks. */
  lemma {:induction false} RemoveFirst(h: seq<nat>, len: nat, S: set<nat>, fc: seq<nat>, depth: seq<nat>)
    requires len >= 2 && Contents(h, len, S) && HeapFrom(h, len, fc, depth, 1)
    ensures Contents(h[1 := h[len]], len - 1, S - {h[1]}) && HeapFrom(h[1 := h[len]], len - 1, fc, depth, 2)
  {
    var g := h[1 := h[len]];
    forall x | x in S - {h[1]}
      ensures exists i :: 1 <= i <= len - 1 && g[i] == x
    {
      var i :| 1 <= i <= len && h[i] == x;
      var j := if i == len then 1 else i;
      assert g[j] == x;
    }
    forall i | 2 <= i <= len - 1 && i / 2 >= 2
      ensures Edge(g, fc, depth, i / 2, i)
    {
      assert Edge(h, fc, depth, i / 2, i);
    }
  }

  /** A new node in the first slot, before it sinks. */
  lemma {:induction false} ReplaceFirst(h: seq<nat>, len: nat, S: set<nat>, node: nat, fc: seq<nat>, depth: seq<nat>, fc': seq<nat>, depth': seq<nat>)
    requires len >= 1 && Contents(h, len, S) && HeapFrom(h, len, fc, depth, 1) && node !in S
    requires |fc'| == |fc| && |depth'| == |depth|
    requires forall x :: x in S && x < |fc| && x < |depth| ==> fc'[x] == fc[x] && depth'[x] == depth[x]
    ensures Contents(h[1 := node], len, S - {h[1]} + {node}) && HeapFrom(h[1 := node], len, fc', depth', 2)
  {
    var g := h[1 := node];
    forall x | x in S - {h[1]} + {node}
      ensures exists i :: 1 <= i <= len && g[i] == x
    {
      if x == node {
        assert g[1] == x;
      } else {
        var i :| 1 <= i <= len && h[i] == x;
        assert g[i] == x;
      }
    }
    forall i | 2 <= i <= len && i / 2 >= 2
      ensures Edge(g, fc', depth', i / 2, i)
    {
      assert Edge(h, fc, depth, i / 2, i);
    }
  }

  /** Only slots 1..len matter. */
  lemma {:induction false} QueueFrame(h: seq<nat>, g: seq<nat>, len: nat, S: set<nat>, fc: seq<nat>, depth: seq<nat>, k: nat)
    requires |g| == |h| && forall i :: 1 <= i <= len && i < |h| ==> g[i] == h[i]
    requires Contents(h, len, S) && HeapFrom(h, len, fc, depth, k) && k >= 1
    ensures Contents(g, len, S) && HeapFrom(g, len, fc, depth, k)
  {
    forall x | x in S
      ensures exists i :: 1 <= i <= len && g[i] == x
    {
      var i :| 1 <= i <= len && h[i] == x;
      assert g[i] == x;
    }
    forall i | 2 <= i <= len && i / 2 >= k
      ensures Edge(g, fc, depth, i / 2, i)
    {
      assert Edge(h, fc, depth, i / 2, i);
    }
  }
}
