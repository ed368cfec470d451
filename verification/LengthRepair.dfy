/** The second half of gen_bitlen: when codes are too long, the counts per length are
    repaired and the lengths dealt out again by frequency. */
module LengthRepair {
  import opened Bits
  import opened SetSum
  import opened HuffmanOpt
  import opened HuffmanTree
  import opened HuffmanBuild
  import opened BitLengths

  // ----- counts per length -----

  /** The Kraft sum of the counts for the lengths 1..b, in units of 2^-max. */
  ghost function BlMass(bl: seq<nat>, max: nat, b: nat): (r: nat)
    requires b <= max < |bl|
  {
    if b == 0 then 0 else BlMass(bl, max, b - 1) + Shl(bl[b], max - b)
  }

  ghost function BlTotal(bl: seq<nat>, b: nat): (r: nat)
    requires b < |bl|
  {
    if b == 0 then 0 else BlTotal(bl, b - 1) + bl[b]
  }

  lemma {:induction false} BlUp(bl: seq<nat>, max: nat, b: nat, k: nat)
    requires b <= max < |bl| && 1 <= k <= max
    ensures BlMass(bl[k := bl[k] + 1], max, b) == BlMass(bl, max, b) + (if k <= b then Pow2(max - k) else 0)
    ensures BlTotal(bl[k := bl[k] + 1], b) == BlTotal(bl, b) + (if k <= b then 1 else 0)
    decreases b
  {
    hide Shl, Pow2;
    if b > 0 {
      BlUp(bl, max, b - 1, k);
      if k == b { ShlNext(bl[k], max - k); }
    }
  }

  lemma {:induction false} BlDown(bl: seq<nat>, max: nat, b: nat, k: nat)
    requires b <= max < |bl| && 1 <= k <= max && bl[k] > 0
    ensures BlMass(bl[k := bl[k] - 1], max, b) == BlMass(bl, max, b) - (if k <= b then Pow2(max - k) else 0)
    ensures BlTotal(bl[k := bl[k] - 1], b) == BlTotal(bl, b) - (if k <= b then 1 else 0)
  {
    hide BlMass, BlTotal, Pow2;
    var low := bl[k := bl[k] - 1];
    BlUp(low, max, b, k);
    assert low[k := low[k] + 1] == bl;
  }

  /** Codes of length max only. */
  lemma {:induction false} OnlyLast(bl: seq<nat>, max: nat, b: nat)
    requires b < max < |bl| && forall i :: 1 <= i <= b ==> bl[i] == 0
    ensures BlMass(bl, max, b) == 0 == BlTotal(bl, b)
  {
    if b > 0 {
      OnlyLast(bl, max, b - 1);
      ShlOne(max - b);
    }
  }

  /** The counts of the lengths len of the elements of S. */
  ghost predicate CountsOf(bl: seq<nat>, S: set<nat>, len: seq<nat>, max: nat)
  {
    max < |bl| && forall b :: 1 <= b <= max ==> bl[b] == Sum(S, At(len, b))
  }

  ghost function Ones(n: nat): (v: seq<int>)
    ensures |v| == n
  {
    seq(n, _ => 1)
  }

  lemma {:induction false} SumCard(S: set<nat>, n: nat)
    requires Indices(S, n)
    ensures Sum(S, Ones(n)) == |S|
    decreases |S|
  {
    hide Sum;
    if S == {} {
      SumEmpty(Ones(n));
    } else {
      var x :| x in S;
      SumRemove(S, Ones(n), x);
      SumCard(S - {x}, n);
    }
  }

  lemma {:induction false} CountsMass(bl: seq<nat>, S: set<nat>, len: seq<nat>, max: nat)
    requires CountsOf(bl, S, len, max) && forall i :: i in S && i < |len| ==> 1 <= len[i] <= max
    ensures BlMass(bl, max, max) == Mass(S, len, max) && BlTotal(bl, max) == Sum(S, Ones(|len|))
    decreases |len|
  {
    if len == [] {
      forall b | 1 <= b <= max
        ensures bl[b] == 0
      {
        assert At(len, b) == [];
      }
      NoCounts(bl, max, max);
    } else {
      var n := |len| - 1;
      var l := len[..n];
      assert forall b :: At(len, b)[..n] == At(l, b);
      assert Units(len, max)[..n] == Units(l, max) && Ones(|len|)[..n] == Ones(n);
      if n in S {
        var k := len[n];
        assert Sum(S, At(len, k)) == Sum(S, At(l, k)) + 1;
        assert forall b :: Sum(S, At(len, b)) == Sum(S, At(l, b)) + (if b == k then 1 else 0);
        CountNonNegative(S, l, k);
        BlDown(bl, max, max, k);
        CountsMass(bl[k := bl[k] - 1], S, l, max);
      } else {
        assert forall b :: Sum(S, At(len, b)) == Sum(S, At(l, b));
        CountsMass(bl, S, l, max);
      }
    }
  }

  lemma {:induction false} CountNonNegative(S: set<nat>, len: seq<nat>, k: nat)
    ensures Sum(S, At(len, k)) >= 0
  {
    hide Sum;
    SumNonNegative(S, At(len, k));
  }

  lemma {:induction false} NoCounts(bl: seq<nat>, max: nat, b: nat)
    requires b <= max < |bl| && forall i :: 1 <= i <= b ==> bl[i] == 0
    ensures BlMass(bl, max, b) == 0 == BlTotal(bl, b)
  {
    if b > 0 {
      NoCounts(bl, max, b - 1);
      ShlOne(max - b);
    }
  }

  // ----- the repair loop -----

  /** What the counts satisfy while overflow items are still too deep. */
  ghost predicate Repairing(bl: seq<nat>, max: nat, overflow: int, total: nat)
  {
    && 2 <= max < |bl| && overflow >= 0 && overflow % 2 == 0 && total <= Pow2(max)
    && BlMass(bl, max, max) == Pow2(max) + overflow / 2 && BlTotal(bl, max) == total && bl[max] > overflow / 2
  }

  /** Some code is shorter than max. */
  lemma {:induction false} RoomBelow(bl: seq<nat>, max: nat, overflow: int, total: nat)
    requires Repairing(bl, max, overflow, total) && overflow > 0
    ensures exists b :: 1 <= b < max && bl[b] > 0
  {
    hide Pow2;
    if forall b :: 1 <= b < max ==> bl[b] == 0 {
      OnlyLast(bl, max, max - 1);
      assert false;
    }
  }

  lemma {:induction false} RepairStep(bl: seq<nat>, max: nat, overflow: int, total: nat, bits: nat, bl': seq<nat>)
    requires Repairing(bl, max, overflow, total) && overflow > 0 && 1 <= bits < max && bl[bits] > 0
    requires bl' == Moved(bl, bits, max)
    ensures Repairing(bl', max, overflow - 2, total)
  {
    hide BlMass, BlTotal;
    var b1 := bl[bits := bl[bits] - 1];
    var b2 := b1[bits + 1 := b1[bits + 1] + 1];
    var b3 := b2[bits + 1 := b2[bits + 1] + 1];
    BlDown(bl, max, max, bits);
    BlUp(b1, max, max, bits + 1);
    BlUp(b2, max, max, bits + 1);
    BlDown(b3, max, max, max);
    assert b3 == b1[bits + 1 := b1[bits + 1] + 2];
    assert Pow2(max - bits) == 2 * Pow2(max - bits - 1) && Pow2(0) == 1;
  }

  /** One leaf moves down, an overflow item becomes its brother. */
  function Moved(bl: seq<nat>, bits: nat, max: nat): (r: seq<nat>)
    requires bits < max < |bl| && bl[bits] > 0 && (bl[max] > 0 || bits + 1 == max)
  {
    var b1 := bl[bits := bl[bits] - 1];
    var b2 := b1[bits + 1 := b1[bits + 1] + 2];
    b2[max := b2[max] - 1]
  }

  // ----- how much the repair changes -----

  /** What the codes longer than J use up beyond one unit each. */
  ghost function Beyond(bl: seq<nat>, max: nat, J: nat): (x: int)
    requires J <= max < |bl|
  {
    BlMass(bl, max, max) - BlMass(bl, max, J) - (BlTotal(bl, max) - BlTotal(bl, J))
  }

  /** No code shorter than J has changed, and those longer than J are not far from being all of
      length max. */
  ghost predicate Touched(bl0: seq<nat>, bl: seq<nat>, max: nat, J: nat, total: nat)
  {
    && 1 <= J < max < |bl| == |bl0|
    && (forall b :: 1 <= b < J ==> bl[b] == bl0[b]) && bl[J] <= bl0[J]
    && Beyond(bl, max, J) <= Pow2(max - J) - 2 && (Pow2(max - J) <= total || J == max - 1)
  }

  lemma {:induction false} TouchedNone(bl: seq<nat>, max: nat, total: nat)
    requires 2 <= max < |bl|
    ensures Touched(bl, bl, max, max - 1, total)
  {
    hide BlMass, BlTotal;
    LastLevel(bl, max);
    assert Pow2(1) == 2 * Pow2(0) && Pow2(0) == 1;
  }

  lemma {:induction false} LastLevel(bl: seq<nat>, max: nat)
    requires 1 <= max < |bl|
    ensures BlMass(bl, max, max) == BlMass(bl, max, max - 1) + bl[max] && BlTotal(bl, max) == BlTotal(bl, max - 1) + bl[max]
  {
    hide BlMass, BlTotal;
    assert Shl(bl[max], 0) == bl[max];
    LevelUp(bl, max, max);
  }

  lemma {:induction false} LevelUp(bl: seq<nat>, max: nat, b: nat)
    requires 1 <= b <= max < |bl|
    ensures BlMass(bl, max, b) == BlMass(bl, max, b - 1) + Shl(bl[b], max - b) && BlTotal(bl, b) == BlTotal(bl, b - 1) + bl[b]
  {
  }

  /** Empty levels in between. */
  lemma {:induction false} EmptyLevels(bl: seq<nat>, max: nat, low: nat, b: nat)
    requires low <= b <= max < |bl| && forall k :: low < k <= b ==> bl[k] == 0
    ensures BlMass(bl, max, b) == BlMass(bl, max, low) && BlTotal(bl, b) == BlTotal(bl, low)
    decreases b
  {
    if low < b {
      EmptyLevels(bl, max, low, b - 1);
      ShlOne(max - b);
    }
  }

  /** The first b levels fill whole words of length b. */
  lemma {:induction false} WholeWords(bl: seq<nat>, max: nat, b: nat) returns (n: nat)
    requires b <= max < |bl|
    ensures BlMass(bl, max, b) == n * Pow2(max - b)
    decreases b
  {
    if b == 0 {
      n := 0;
    } else {
      var m := WholeWords(bl, max, b - 1);
      n := 2 * m + bl[b];
      ShlTimes(bl[b], max - b);
      assert Pow2(max - b + 1) == 2 * Pow2(max - b);
      Collect(m, bl[b], Pow2(max - b));
    }
  }

  lemma {:induction false} Collect(m: nat, k: nat, p: nat)
    ensures m * (2 * p) + k * p == (2 * m + k) * p
  {
  }

  lemma {:induction false} ShlTimes(v: nat, n: nat)
    ensures Shl(v, n) == v * Pow2(n)
    decreases v
  {
    hide Shl, Pow2;
    if v == 0 {
      ShlOne(n);
    } else {
      ShlTimes(v - 1, n);
      ShlNext(v - 1, n);
      assert v * Pow2(n) == (v - 1) * Pow2(n) + Pow2(n);
    }
  }

  /** With only codes of length max below level bits, there are at least as many as a code of length bits is worth. */
  lemma {:induction false} ManyLast(bl: seq<nat>, max: nat, overflow: int, total: nat, bits: nat)
    requires Repairing(bl, max, overflow, total) && 1 <= bits < max && forall k :: bits < k < max ==> bl[k] == 0
    ensures Pow2(max - bits) <= total && Beyond(bl, max, bits) == 0
  {
    hide BlMass, BlTotal, Pow2, Shl;
    EmptyLevels(bl, max, bits, max - 1);
    LastLevel(bl, max);
    var n := WholeWords(bl, max, bits);
    PowSplit(max - bits, bits);
    Gap(n, Pow2(bits), Pow2(max - bits), Pow2(max) - BlMass(bl, max, bits));
  }

  lemma {:induction false} PowSplit(a: nat, b: nat)
    ensures Pow2(a + b) == Pow2(b) * Pow2(a)
    decreases b
  {
    if b > 0 {
      PowSplit(a, b - 1);
      assert Pow2(a + b) == 2 * Pow2(a + (b - 1));
      assert Pow2(b) * Pow2(a) == 2 * (Pow2(b - 1) * Pow2(a));
    } else {
      assert Pow2(0) == 1;
    }
  }

  lemma {:induction false} Gap(n: nat, m: nat, p: nat, d: int)
    requires d == m * p - n * p && d > 0
    ensures d >= p
  {
    if n < m { TimesGrows(n + 1, m, p); } else { TimesGrows(m, n, p); }
  }

  lemma {:induction false} TimesGrows(a: nat, b: nat, p: nat)
    requires a <= b
    ensures a * p <= b * p
  {
  }

  /** Another round of the repair. */
  lemma {:induction false} TouchedMore(bl0: seq<nat>, bl: seq<nat>, max: nat, J: nat, overflow: int, total: nat, bits: nat)
    requires Touched(bl0, bl, max, J, total) && Repairing(bl, max, overflow, total) && overflow > 0
    requires 1 <= bits < max && bl[bits] > 0 && forall k :: bits < k < max ==> bl[k] == 0
    ensures Touched(bl0, Moved(bl, bits, max), max, if bits < J then bits else J, total)
  {
    hide BlMass, BlTotal, Pow2;
    var bl' := Moved(bl, bits, max);
    RepairStep(bl, max, overflow, total, bits, bl');
    if bits > J {
      LevelsAlike(bl, bl', max, J);
    } else {
      ManyLast(bl, max, overflow, total, bits);
      LevelsAlike(bl, bl'[bits := bl[bits]], max, bits);
      BlDown(bl, max, bits, bits);
      LevelsAlike(bl[bits := bl[bits] - 1], bl', max, bits);
    }
  }

  lemma {:induction false} LevelsAlike(bl: seq<nat>, bl': seq<nat>, max: nat, b: nat)
    requires b <= max < |bl| == |bl'| && forall k :: 1 <= k <= b ==> bl[k] == bl'[k]
    ensures BlMass(bl, max, b) == BlMass(bl', max, b) && BlTotal(bl, b) == BlTotal(bl', b)
    decreases b
  {
    if b > 0 { LevelsAlike(bl, bl', max, b - 1); }
  }

  method Repair(bl: array<nat>, max: nat, overflow0: nat, ghost total: nat) returns (ghost J: nat)
    requires Repairing(bl[..], max, overflow0, total) && overflow0 > 0
    modifies bl
    ensures Repairing(bl[..], max, 0, total) && Touched(old(bl[..]), bl[..], max, J, total)
    ensures bl[0] == old(bl[0]) && forall i :: max < i < bl.Length ==> bl[i] == old(bl[i])
  {
    hide BlMass, BlTotal, Pow2, Touched;
    var overflow: int := overflow0;
    J := max - 1;
    TouchedNone(bl[..], max, total);
    while overflow > 0
      invariant overflow >= 0 && Repairing(bl[..], max, overflow, total) && Touched(old(bl[..]), bl[..], max, J, total)
      invariant bl[0] == old(bl[0]) && forall i :: max < i < bl.Length ==> bl[i] == old(bl[i])
    {
      ghost var was := bl[..];
      RoomBelow(was, max, overflow, total);
      ghost var low :| 1 <= low < max && bl[low] > 0;
      var bits := max - 1;
      while bl[bits] == 0
        invariant low <= bits < max && forall k :: bits < k < max ==> bl[k] == 0
        decreases bits
      {
        bits := bits - 1;
      }
      TouchedMore(old(bl[..]), was, max, J, overflow, total, bits);
      J := if bits < J then bits else J;
      RepairStep(was, max, overflow, total, bits, Moved(was, bits, max));
      bl[bits] := bl[bits] - 1;
      bl[bits + 1] := bl[bits + 1] + 2;
      bl[max] := bl[max] - 1;
      assert bl[..] == Moved(was, bits, max);
      overflow := overflow - 2;
    }
  }

  // ----- dealing the lengths out -----

  /** The leaves from index h of the heap on have new lengths: n codes of length bits and
      everything shorter are still to be given. */
  ghost predicate Dealing(Q: set<nat>, used: set<nat>, pos: map<nat, nat>, h: nat, bl: seq<nat>, max: nat, bits: nat, n: nat, dl: seq<nat>, len: seq<nat>)
  {
    && 1 <= bits <= max < |bl| && n <= bl[bits] && |dl| == |len|
    && (forall i :: i in Q <==> i in used && i in pos && pos[i] >= h)
    && (forall b :: 1 <= b <= max ==> Sum(Q, At(dl, b)) == if b > bits then bl[b] else if b == bits then bl[bits] - n else 0)
    && Sum(Q, Ones(|dl|)) == BlTotal(bl, max) - BlTotal(bl, bits - 1) - n
    && (forall i :: i in Q ==> i < |dl| && bits <= dl[i] <= max)
    && (forall i, j :: i in Q && j in Q && pos[i] < pos[j] ==> dl[i] <= dl[j])
    && (forall i :: 0 <= i < |dl| && i !in Q ==> dl[i] == len[i])
  }

  lemma {:induction false} DealStart(used: set<nat>, pos: map<nat, nat>, h: nat, bl: seq<nat>, max: nat, len: seq<nat>)
    requires 1 <= max < |bl| && forall i :: i in pos ==> pos[i] < h
    ensures Dealing({}, used, pos, h, bl, max, max, bl[max], len, len)
  {
    hide Sum;
    SumEmpty(Ones(|len|));
    forall b | 1 <= b <= max
      ensures Sum({}, At(len, b)) == 0
    {
      SumEmpty(At(len, b));
    }
  }

  lemma {:induction false} DealSkip(Q: set<nat>, used: set<nat>, pos: map<nat, nat>, h: nat, bl: seq<nat>, max: nat, bits: nat, n: nat, dl: seq<nat>, len: seq<nat>, m: nat)
    requires Dealing(Q, used, pos, h, bl, max, bits, n, dl, len) && h > 0 && m !in used && forall i :: i in pos && pos[i] == h - 1 ==> i == m
    ensures Dealing(Q, used, pos, h - 1, bl, max, bits, n, dl, len)
  {
    hide Sum;
  }

  lemma {:induction false} DealOne(Q: set<nat>, used: set<nat>, pos: map<nat, nat>, h: nat, bl: seq<nat>, max: nat, bits: nat, n: nat, dl: seq<nat>, len: seq<nat>, m: nat)
    requires Dealing(Q, used, pos, h, bl, max, bits, n, dl, len) && n > 0 && h > 0
    requires m in used && m in pos && pos[m] == h - 1 && m < |dl| && forall i :: i in pos && pos[i] == h - 1 ==> i == m
    ensures m !in Q && dl[m] == len[m] && Dealing(Q + {m}, used, pos, h - 1, bl, max, bits, n - 1, dl[m := bits], len)
  {
    hide Sum;
    var dl' := dl[m := bits];
    forall b | 1 <= b <= max
      ensures Sum(Q + {m}, At(dl', b)) == Sum(Q, At(dl, b)) + if b == bits then 1 else 0
    {
      SumInsert(Q, At(dl', b), m);
      SumSame(Q, Q, At(dl, b), At(dl', b));
    }
    SumInsert(Q, Ones(|dl|), m);
  }

  lemma {:induction false} DealNext(Q: set<nat>, used: set<nat>, pos: map<nat, nat>, h: nat, bl: seq<nat>, max: nat, bits: nat, dl: seq<nat>, len: seq<nat>)
    requires Dealing(Q, used, pos, h, bl, max, bits, 0, dl, len) && bits > 1
    ensures Dealing(Q, used, pos, h, bl, max, bits - 1, bl[bits - 1], dl, len)
  {
    hide Sum;
    assert BlTotal(bl, bits - 1) == BlTotal(bl, bits - 2) + bl[bits - 1];
  }

  /** A leaf is left as long as a length is. */
  lemma {:induction false} LeafLeft(Q: set<nat>, used: set<nat>, pos: map<nat, nat>, h: nat, bl: seq<nat>, max: nat, bits: nat, n: nat, dl: seq<nat>, len: seq<nat>)
    requires Dealing(Q, used, pos, h, bl, max, bits, n, dl, len) && n > 0
    requires BlTotal(bl, max) == Sum(used, Ones(|dl|)) && (forall i :: i in used ==> i in pos)
    ensures exists i :: i in used && i in pos && pos[i] < h
  {
    hide Sum, BlTotal;
    assert BlTotal(bl, bits - 1) >= 0;
    assert Q != used;
    assert Q <= used;
    var i :| i in used && i !in Q;
    assert i in pos && pos[i] < h;
  }

  /** When all lengths are given, all leaves have one. */
  lemma {:induction false} DealtAll(Q: set<nat>, used: set<nat>, pos: map<nat, nat>, h: nat, bl: seq<nat>, max: nat, dl: seq<nat>, len: seq<nat>)
    requires Dealing(Q, used, pos, h, bl, max, 1, 0, dl, len)
    requires BlTotal(bl, max) == Sum(used, Ones(|dl|)) && (forall i :: i in used ==> i in pos && i < |dl|)
    ensures Q == used
  {
    hide Sum;
    if i :| i in used && i !in Q {
      assert Q <= used - {i};
      SumRemove(used, Ones(|dl|), i);
      SumUnion(Q, used - {i} - Q, Ones(|dl|));
      assert Q + (used - {i} - Q) == used - {i};
      SumNonNegative(used - {i} - Q, Ones(|dl|));
      assert false;
    }
    assert Q == used;
  }

  lemma {:induction false} UsedPlaces(h: seq<nat>, top: nat, fc: seq<nat>, dl: seq<nat>, elems: nat, node: nat, used: set<nat>, t: Tree, pos: map<nat, nat>)
    requires Built(h, top, fc, dl, elems, node, used, t, pos)
    ensures top <= |h| && (forall i :: i in pos ==> top <= pos[i] < |h|) && forall i :: i in used ==> i in pos && i < |dl|
  {
    IdsSplit(t);
  }

  lemma {:induction false} Recharge(Q: set<nat>, f: seq<nat>, dl: seq<nat>, len: seq<nat>, xs: seq<nat>, m: nat, bits: nat)
    requires |f| == |dl| == |len| == |xs| && m < |f| && m !in Q && dl[m] == len[m]
    ensures Sum(Q + {m}, Charges(f, dl[m := bits], xs)) - Sum(Q + {m}, Charges(f, len, xs))
      == Sum(Q, Charges(f, dl, xs)) - Sum(Q, Charges(f, len, xs)) + (bits - len[m]) * f[m]
  {
    hide Sum;
    var dl' := dl[m := bits];
    SumInsert(Q, Charges(f, dl', xs), m);
    SumInsert(Q, Charges(f, len, xs), m);
    SumSame(Q, Q, Charges(f, dl, xs), Charges(f, dl', xs));
    Spread(f[m], bits, len[m], xs[m]);
  }

  lemma {:induction false} Spread(p: nat, k: nat, l: nat, x: nat)
    ensures p * (k + x) - p * (l + x) == (k - l) * p
  {
  }

  lemma {:induction false} Dealt(used: set<nat>, pos: map<nat, nat>, k: nat, bl: seq<nat>, max: nat, dl: seq<nat>, len: seq<nat>,
                                 h: seq<nat>, top: nat, fc: seq<nat>, dad: seq<nat>, elems: nat, node: nat, t: Tree)
    requires Dealing(used, used, pos, k, bl, max, 1, 0, dl, len) && Built(h, top, fc, dad, elems, node, used, t, pos)
    ensures CountsOf(bl, used, dl, max) && forall i :: i in used ==> i < |dl| && i < |fc| && 1 <= dl[i] <= max
    ensures forall i, j :: i in used && j in used && fc[i] < fc[j] ==> dl[i] >= dl[j]
    ensures forall i :: 0 <= i < |dl| && i !in used ==> dl[i] == len[i]
  {
    hide Sum, Grown;
    forall i, j | i in used && j in used && i < |fc| && j < |fc| && fc[i] < fc[j]
      ensures dl[i] >= dl[j]
    {
      assert i in pos && j in pos;
      assert h[pos[i]] == i && h[pos[j]] == j && i != j;
      assert pos[i] > pos[j];
    }
  }

  /** Lengths are dealt out from the rarest leaf on, the longest first. */
  method Deal(heap: array<nat>, top: nat, fc: array<nat>, dl: array<nat>, maxCode: nat, bl: seq<nat>, max: nat, opt0: int,
              ghost dad: seq<nat>, ghost elems: nat, ghost node: nat, ghost used: set<nat>, ghost t: Tree, ghost pos: map<nat, nat>, ghost xs: seq<nat>)
      returns (opt: int)
    requires heap != dl && fc != dl && dl.Length == fc.Length == |dad| == |xs| && 1 <= max < |bl|
    requires Built(heap[..], top, fc[..], dad, elems, node, used, t, pos)
    requires maxCode < elems && (forall i :: i in used ==> i <= maxCode) && BlTotal(bl, max) == Sum(used, Ones(dl.Length))
    modifies dl
    ensures CountsOf(bl, used, dl[..], max) && forall i :: i in used ==> i < dl.Length && 1 <= dl[i] <= max
    ensures forall i, j :: i in used && j in used && fc[i] < fc[j] ==> dl[i] >= dl[j]
    ensures forall i :: 0 <= i < dl.Length && i !in used ==> dl[i] == old(dl[i])
    ensures opt == opt0 + Sum(used, Charges(fc[..], dl[..], xs)) - Sum(used, Charges(fc[..], old(dl[..]), xs))
  {
    hide Built, Dealing, Sum, BlTotal, Charges;
    ghost var Q: set<nat>, len: seq<nat>, f: seq<nat> := {}, dl[..], fc[..];
    UsedPlaces(heap[..], top, f, dad, elems, node, used, t, pos);
    DealStart(used, pos, heap.Length, bl, max, len);
    SumEmpty(Charges(f, len, xs));
    var h: nat, bits: nat := heap.Length, max;
    opt := opt0;
    while bits != 0
      invariant 0 <= bits <= max && top <= h <= heap.Length
      invariant bits > 0 ==> Dealing(Q, used, pos, h, bl, max, bits, bl[bits], dl[..], len)
      invariant bits == 0 ==> Dealing(Q, used, pos, h, bl, max, 1, 0, dl[..], len)
      invariant opt == opt0 + Sum(Q, Charges(f, dl[..], xs)) - Sum(Q, Charges(f, len, xs))
    {
      var n := bl[bits];
      while n != 0
        invariant n >= 0 && top <= h <= heap.Length && Dealing(Q, used, pos, h, bl, max, bits, n, dl[..], len)
        invariant opt == opt0 + Sum(Q, Charges(f, dl[..], xs)) - Sum(Q, Charges(f, len, xs))
        decreases h
      {
        LeafLeft(Q, used, pos, h, bl, max, bits, n, dl[..], len);
        h := h - 1;
        var m := heap[h];
        BuiltAt(heap[..], top, f, dad, elems, node, used, t, pos, h);
        TreeNodes(heap[..], top, f, dad, elems, node, used, t, pos, m);
        if m > maxCode {
          DealSkip(Q, used, pos, h + 1, bl, max, bits, n, dl[..], len, m);
        } else {
          DealOne(Q, used, pos, h + 1, bl, max, bits, n, dl[..], len, m);
          Recharge(Q, f, dl[..], len, xs, m, bits);
          ghost var was: seq<nat> := dl[..];
          if dl[m] != bits {
            opt := opt + (bits - dl[m]) * fc[m];
            dl[m] := bits;
          }
          assert dl[..] == was[m := bits];
          Q, n := Q + {m}, n - 1;
        }
      }
      if bits > 1 { DealNext(Q, used, pos, h, bl, max, bits, dl[..], len); }
      bits := bits - 1;
    }
    DealtAll(Q, used, pos, h, bl, max, dl[..], len);
    Dealt(used, pos, h, bl, max, dl[..], len, heap[..], top, f, dad, elems, node, t);
  }
}
