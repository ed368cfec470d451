/** inflate_table: the two-level decoding table of inftrees.c, rebuilt from code
    lengths alone, proved to agree with the canonical code on every bit stream. */
module InflateTable {
  import opened Bits
  import opened Canonical

  datatype CodeType = CODES | LENS | DISTS

  /** One slot of a decoding table: operation, bits to drop, value. */
  datatype Entry = Entry(op: nat, bits: nat, val: nat)

  const ENOUGH_LENS: nat := 852
  const ENOUGH_DISTS: nat := 592

  const LBASE: seq<nat> := [
    3, 4, 5, 6, 7, 8, 9, 10, 11, 13, 15, 17, 19, 23, 27, 31,
    35, 43, 51, 59, 67, 83, 99, 115, 131, 163, 195, 227, 258, 0, 0]
  const LEXT: seq<nat> := [
    16, 16, 16, 16, 16, 16, 16, 16, 17, 17, 17, 17, 18, 18, 18, 18,
    19, 19, 19, 19, 20, 20, 20, 20, 21, 21, 21, 21, 16, 199, 202]
  const DBASE: seq<nat> := [
    1, 2, 3, 4, 5, 7, 9, 13, 17, 25, 33, 49, 65, 97, 129, 193,
    257, 385, 513, 769, 1025, 1537, 2049, 3073, 4097, 6145,
    8193, 12289, 16385, 24577, 0, 0]
  const DEXT: seq<nat> := [
    16, 16, 16, 16, 17, 17, 18, 18, 19, 19, 20, 20, 21, 21, 22, 22,
    23, 23, 24, 24, 25, 25, 26, 26, 27, 27,
    28, 28, 29, 29, 64, 64]

  /** The symbols a code of each type may have. */
  function Symbols(kind: CodeType): (n: nat)
  {
    match kind
    case CODES => 19
    case LENS => 288
    case DISTS => 32
  }

  /** The operation and the value that stand for symbol s. */
  function SymOp(kind: CodeType, s: nat): (op: nat)
    requires s < Symbols(kind)
    ensures op == 0 || op >= 16
  {
    match kind
    case CODES => 0
    case LENS => if s < 256 then 0 else if s >= 257 then LEXT[s - 257] else 96
    case DISTS => DEXT[s]
  }

  function SymVal(kind: CodeType, s: nat): (val: nat)
    requires s < Symbols(kind)
  {
    match kind
    case CODES => s
    case LENS => if s < 256 then s else if s >= 257 then LBASE[s - 257] else 0
    case DISTS => DBASE[s]
  }

  /** The entry that stands for symbol s, dropping the given number of bits. */
  function SymEntry(kind: CodeType, s: nat, bits: nat): (e: Entry)
    requires s < Symbols(kind)
  {
    Entry(SymOp(kind, s), bits, SymVal(kind, s))
  }

  predicate IsLink(e: Entry) { 1 <= e.op < 16 }

  /** Decoding by table: root lookup, then the sub-table it links to. The result
      drops the bits of both levels. */
  predicate Finds(tab: seq<Entry>, root: nat, hold: nat, e: Entry)
  {
    var i := Low(hold, root);
    && i < |tab|
    && if !IsLink(tab[i]) then e == tab[i]
       else
         var j := tab[i].val + Shr(Low(hold, tab[i].bits + tab[i].op), tab[i].bits);
         && j < |tab|
         && !IsLink(tab[j])
         && e == Entry(tab[j].op, tab[i].bits + tab[j].bits, tab[j].val)
  }

  /** What a table built for lens must do: every accumulator that starts with the code
      of s finds the entry of s and drops the length of s; every other finds the
      invalid-code marker. Links drop exactly the root bits. */
  ghost predicate TableFor(kind: CodeType, lens: seq<nat>, tab: seq<Entry>, root: nat)
    requires |lens| <= Symbols(kind)
  {
    && (forall s: nat, hold: nat :: Used(lens, s) && Covers(lens, s, Point(hold)) ==>
          Finds(tab, root, hold, SymEntry(kind, s, lens[s])))
    && (forall hold: nat :: Point(hold) >= Kraft(lens) ==>
          Finds(tab, root, hold, Entry(64, 1, 0)))
    && (forall i :: 0 <= i < |tab| && IsLink(tab[i]) ==> tab[i].bits == root)
  }

  // ----- table slots in terms of points -----

  /** The root slot of point w. */
  function RootIx(root: nat, w: nat): (i: nat)
    requires root <= MAXBITS
    ensures i < Pow2(root)
  {
    Rev(Shr(w, MAXBITS - root), root)
  }

  /** The slot of point w in a sub-table of curr bits below root bits. */
  function SubIx(root: nat, curr: nat, w: nat): (i: nat)
    requires root + curr <= MAXBITS
    ensures i < Pow2(curr)
  {
    Rev(Low(Shr(w, MAXBITS - root - curr), curr), curr)
  }

  /** Point w, in the interval of s, is decoded by tab. */
  ghost predicate Good(kind: CodeType, lens: seq<nat>, tab: seq<Entry>, root: nat, s: nat, w: nat)
    requires |lens| <= Symbols(kind) && Used(lens, s)
    requires root <= MAXBITS && Pow2(root) <= |tab|
  {
    var a := tab[RootIx(root, w)];
    if lens[s] <= root then a == SymEntry(kind, s, lens[s])
    else
      && IsLink(a) && a.bits == root && Pow2(root) <= a.val
      && lens[s] <= root + a.op <= MAXBITS
      && a.val + Pow2(a.op) <= |tab|
      && tab[a.val + SubIx(root, a.op, w)] == SymEntry(kind, s, lens[s] - root)
  }

  ghost predicate Decodes(kind: CodeType, lens: seq<nat>, tab: seq<Entry>, root: nat, bound: nat)
    requires |lens| <= Symbols(kind)
    requires root <= MAXBITS && Pow2(root) <= |tab|
  {
    forall s: nat, w: nat :: Used(lens, s) && Covers(lens, s, w) && w < bound ==>
      Good(kind, lens, tab, root, s, w)
  }

  /** The sub-tables in use end by next + 2^curr, those of cells other than p by next. */
  ghost predicate Placed(lens: seq<nat>, tab: seq<Entry>, root: nat, bound: nat, p: nat, next: nat, curr: nat)
    requires root <= MAXBITS && Pow2(root) <= |tab|
  {
    forall s: nat, w: nat ::
      Used(lens, s) && Covers(lens, s, w) && w < bound && lens[s] > root ==>
        var a := tab[RootIx(root, w)];
        && a.val + Pow2(a.op) <= next + Pow2(curr)
        && (Shr(w, MAXBITS - root) != p ==> a.val + Pow2(a.op) <= next)
  }

  lemma {:induction false} RevInjective(p: nat, q: nat, n: nat)
    requires p < Pow2(n) && q < Pow2(n) && Rev(p, n) == Rev(q, n)
    ensures p == q
  {
    RevRev(p, n);
    RevRev(q, n);
    LowSmall(p, n);
    LowSmall(q, n);
  }

  lemma {:induction false} CellBound(w: nat, root: nat)
    requires root <= MAXBITS && w < FULL
    ensures Shr(w, MAXBITS - root) < Pow2(root)
  {
    FullIsPow2();
    ShrBound(w, MAXBITS - root, root);
  }

  lemma {:induction false} RootIxInjective(root: nat, v: nat, w: nat)
    requires root <= MAXBITS && v < FULL && w < FULL
    requires RootIx(root, v) == RootIx(root, w)
    ensures Shr(v, MAXBITS - root) == Shr(w, MAXBITS - root)
  {
    CellBound(v, root);
    CellBound(w, root);
    RevInjective(Shr(v, MAXBITS - root), Shr(w, MAXBITS - root), root);
  }

  /** The slots of an accumulator are the slots of its point. */
  lemma {:induction false} SlotsOf(hold: nat, root: nat, curr: nat)
    requires root + curr <= MAXBITS
    ensures Low(hold, root) == RootIx(root, Point(hold))
    ensures Shr(Low(hold, root + curr), root) == SubIx(root, curr, Point(hold))
  {
    var w := Point(hold);
    RevRev(hold, MAXBITS);
    assert Rev(w, MAXBITS) == Low(hold, MAXBITS);
    LowLow(hold, root, MAXBITS);
    RevLow(w, MAXBITS, root);
    LowLow(hold, root + curr, MAXBITS);
    RevLow(w, MAXBITS, root + curr);
    RevShr(Shr(w, MAXBITS - root - curr), root + curr, root);
  }

  lemma {:induction false} FindsDirect(tab: seq<Entry>, root: nat, hold: nat, e: Entry)
    requires root <= MAXBITS && Pow2(root) <= |tab|
    requires tab[RootIx(root, Point(hold))] == e && !IsLink(e)
    ensures Finds(tab, root, hold, e)
  {
    SlotsOf(hold, root, 0);
  }

  lemma {:induction false} FindsLinked(tab: seq<Entry>, root: nat, hold: nat, a: Entry, e: Entry)
    requires root <= MAXBITS && Pow2(root) <= |tab|
    requires tab[RootIx(root, Point(hold))] == a && IsLink(a) && a.bits == root
    requires root + a.op <= MAXBITS && a.val + Pow2(a.op) <= |tab|
    requires tab[a.val + SubIx(root, a.op, Point(hold))] == e && !IsLink(e)
    ensures Finds(tab, root, hold, Entry(e.op, root + e.bits, e.val))
  {
    hide Low, Shr, Rev, Pow2;
    SlotsOf(hold, root, a.op);
  }

  /** A table good at every point decodes every accumulator. */
  lemma {:induction false} GoodFinds(kind: CodeType, lens: seq<nat>, tab: seq<Entry>, root: nat, s: nat, hold: nat)
    requires |lens| <= Symbols(kind) && Used(lens, s)
    requires root <= MAXBITS && Pow2(root) <= |tab|
    requires Good(kind, lens, tab, root, s, Point(hold))
    ensures Finds(tab, root, hold, SymEntry(kind, s, lens[s]))
  {
    hide Low, Shr, Rev, Pow2, SymOp, SymVal;
    if lens[s] <= root {
      FindsDirect(tab, root, hold, SymEntry(kind, s, lens[s]));
    } else {
      FindsLinked(tab, root, hold, tab[RootIx(root, Point(hold))], SymEntry(kind, s, lens[s] - root));
    }
  }

  // ----- which slots a code fills -----

  lemma {:induction false} CoversCell(lens: seq<nat>, s: nat, w: nat)
    requires Used(lens, s)
    ensures Covers(lens, s, w) <==> Shr(w, MAXBITS - lens[s]) == CodeOf(lens, s)
  {
    CellOf(w, CodeOf(lens, s), MAXBITS - lens[s]);
  }

  /** Root slots of a short code: those whose low bits are its reversed code. */
  lemma {:induction false} RootHit(lens: seq<nat>, s: nat, root: nat, w: nat)
    requires Used(lens, s) && Kraft(lens) <= FULL && lens[s] <= root <= MAXBITS && w < FULL
    ensures Low(RootIx(root, w), lens[s]) == Rev(CodeOf(lens, s), lens[s]) <==> Covers(lens, s, w)
  {
    hide Low, Shr, Rev, Pow2, CodeOf;
    var l := lens[s];
    var x := Shr(w, MAXBITS - l);
    RevLow(Shr(w, MAXBITS - root), root, l);
    ShrShr(w, MAXBITS - root, root - l);
    assert Low(RootIx(root, w), l) == Rev(x, l);
    CoversCell(lens, s, w);
    CodeFits(lens, s);
    CellBound(w, l);
    if Rev(x, l) == Rev(CodeOf(lens, s), l) { RevInjective(x, CodeOf(lens, s), l); }
  }

  lemma {:induction false} SubIxLow(root: nat, curr: nat, l: nat, w: nat)
    requires root < l <= root + curr <= MAXBITS
    ensures Low(SubIx(root, curr, w), l - root) == Rev(Low(Shr(w, MAXBITS - l), l - root), l - root)
  {
    hide Low, Shr, Rev, Pow2;
    var m, b := MAXBITS - root - curr, l - root;
    var x := Shr(w, m);
    RevLow(Low(x, curr), curr, b);
    LowShr(x, curr - b, b);
    ShrShr(w, m, curr - b);
  }

  /** Sub-table slots of a long code, among the points that share its root cell. */
  lemma {:induction false} SubHit(lens: seq<nat>, s: nat, root: nat, curr: nat, w: nat)
    requires Used(lens, s) && Kraft(lens) <= FULL && root < lens[s] <= root + curr <= MAXBITS
    requires Shr(w, MAXBITS - root) == Shr(Start(lens, s), MAXBITS - root)
    ensures Low(SubIx(root, curr, w), lens[s] - root) == Shr(Rev(CodeOf(lens, s), lens[s]), root)
            <==> Covers(lens, s, w)
  {
    hide Low, Shr, Rev, Pow2, CodeOf;
    var l := lens[s];
    var b, c, x := l - root, CodeOf(lens, s), Shr(w, MAXBITS - l);
    SubIxLow(root, curr, l, w);
    RevShr(c, l, root);
    CoversCell(lens, s, w);
    ShrShr(w, MAXBITS - l, b);
    ShrStart(lens, s, root);
    Split(x, b);
    Split(c, b);
    RevLowInjective(x, c, b);
  }

  lemma {:induction false} ShrStart(lens: seq<nat>, s: nat, root: nat)
    requires Used(lens, s) && root <= lens[s]
    ensures Shr(Start(lens, s), MAXBITS - lens[s]) == CodeOf(lens, s)
    ensures Shr(Start(lens, s), MAXBITS - root) == Shr(CodeOf(lens, s), lens[s] - root)
  {
    hide Low, Shr, Rev, Pow2, CodeOf;
    var l, c := lens[s], CodeOf(lens, s);
    Join(0, c, MAXBITS - l);
    ShrShr(Start(lens, s), MAXBITS - l, l - root);
  }

  lemma {:induction false} RevLowInjective(x: nat, y: nat, n: nat)
    ensures Rev(Low(x, n), n) == Rev(Low(y, n), n) <==> Low(x, n) == Low(y, n)
  {
    hide Low, Rev, Pow2;
    if Rev(Low(x, n), n) == Rev(Low(y, n), n) { RevInjective(Low(x, n), Low(y, n), n); }
  }

  // ----- the three ways the loop changes the table -----

  /** A root-level code has been replicated over its slots. */
  lemma {:induction false} FillRoot(kind: CodeType, lens: seq<nat>, tab: seq<Entry>, tab': seq<Entry>, root: nat, s: nat,
                 p: nat, next: nat, curr: nat)
    requires |lens| <= Symbols(kind) && Used(lens, s) && Kraft(lens) <= FULL
    requires lens[s] <= root <= MAXBITS && Pow2(root) <= |tab| == |tab'|
    requires Decodes(kind, lens, tab, root, Start(lens, s))
    requires forall i :: 0 <= i < Pow2(root) ==>
      tab'[i] == if Low(i, lens[s]) == Rev(CodeOf(lens, s), lens[s]) then SymEntry(kind, s, lens[s]) else tab[i]
    ensures Decodes(kind, lens, tab', root, Start(lens, s) + Pow2(MAXBITS - lens[s]))
    ensures Placed(lens, tab', root, Start(lens, s) + Pow2(MAXBITS - lens[s]), p, next, curr)
  {
    hide Low, Shr, Rev, Pow2, CodeOf, SymEntry;
    var bound := Start(lens, s) + Pow2(MAXBITS - lens[s]);
    forall t: nat, w: nat | Used(lens, t) && Covers(lens, t, w) && w < bound
      ensures Good(kind, lens, tab', root, t, w) && lens[t] <= root
    {
      StartPlace(lens, t);
      StartPlace(lens, s);
      RootHit(lens, s, root, w);
      ShorterBefore(lens, s, t, w);
      if w >= Start(lens, s) { CoversUnique(lens, s, t, w); }
    }
  }

  /** Points before the end of s's interval belong to codes no longer than s. */
  lemma {:induction false} ShorterBefore(lens: seq<nat>, s: nat, t: nat, w: nat)
    requires Used(lens, s) && Used(lens, t) && Covers(lens, t, w)
    requires w < Start(lens, s) + Pow2(MAXBITS - lens[s])
    ensures lens[t] <= lens[s]
  {
    hide Low, Shr, Rev, Pow2, CodeOf;
    StartPlace(lens, s);
    StartPlace(lens, t);
    if lens[t] > lens[s] { BelowMonotone(lens, lens[s] + 1, lens[t]); }
  }

  /** A long code has been replicated over its slots of the current sub-table. */
  lemma {:induction false} FillSub(kind: CodeType, lens: seq<nat>, tab: seq<Entry>, tab': seq<Entry>, root: nat, s: nat,
                curr: nat, next: nat)
    requires |lens| <= Symbols(kind) && Used(lens, s) && Kraft(lens) <= FULL
    requires root < lens[s] <= root + curr <= MAXBITS && curr < 16
    requires Pow2(root) <= next && next + Pow2(curr) <= |tab| == |tab'|
    requires Decodes(kind, lens, tab, root, Start(lens, s))
    requires Placed(lens, tab, root, Start(lens, s), Shr(Start(lens, s), MAXBITS - root), next, curr)
    requires tab[RootIx(root, Start(lens, s))] == Entry(curr, root, next)
    requires forall i :: 0 <= i < |tab| && !(next <= i < next + Pow2(curr)) ==> tab'[i] == tab[i]
    requires forall i :: next <= i < next + Pow2(curr) ==>
      tab'[i] == if Low(i - next, lens[s] - root) == Shr(Rev(CodeOf(lens, s), lens[s]), root)
                 then SymEntry(kind, s, lens[s] - root) else tab[i]
    ensures var bound := Start(lens, s) + Pow2(MAXBITS - lens[s]);
            && Decodes(kind, lens, tab', root, bound)
            && Placed(lens, tab', root, bound, Shr(Start(lens, s), MAXBITS - root), next, curr)
  {
    hide Low, Shr, Rev, Pow2, CodeOf;
    var bound := Start(lens, s) + Pow2(MAXBITS - lens[s]);
    forall t: nat, w: nat | Used(lens, t) && Covers(lens, t, w) && w < bound
      ensures Good(kind, lens, tab', root, t, w)
      ensures lens[t] > root ==>
        var a := tab'[RootIx(root, w)];
        && a.val + Pow2(a.op) <= next + Pow2(curr)
        && (Shr(w, MAXBITS - root) != Shr(Start(lens, s), MAXBITS - root) ==> a.val + Pow2(a.op) <= next)
    {
      FillSubAt(kind, lens, tab, tab', root, s, curr, next, t, w);
    }
  }

  lemma {:induction false} FillSubAt(kind: CodeType, lens: seq<nat>, tab: seq<Entry>, tab': seq<Entry>, root: nat, s: nat,
                  curr: nat, next: nat, t: nat, w: nat)
    requires |lens| <= Symbols(kind) && Used(lens, s) && Kraft(lens) <= FULL
    requires root < lens[s] <= root + curr <= MAXBITS && curr < 16
    requires Pow2(root) <= next && next + Pow2(curr) <= |tab| == |tab'|
    requires Decodes(kind, lens, tab, root, Start(lens, s))
    requires Placed(lens, tab, root, Start(lens, s), Shr(Start(lens, s), MAXBITS - root), next, curr)
    requires tab[RootIx(root, Start(lens, s))] == Entry(curr, root, next)
    requires forall i :: 0 <= i < |tab| && !(next <= i < next + Pow2(curr)) ==> tab'[i] == tab[i]
    requires forall i :: next <= i < next + Pow2(curr) ==>
      tab'[i] == if Low(i - next, lens[s] - root) == Shr(Rev(CodeOf(lens, s), lens[s]), root)
                 then SymEntry(kind, s, lens[s] - root) else tab[i]
    requires Used(lens, t) && Covers(lens, t, w) && w < Start(lens, s) + Pow2(MAXBITS - lens[s])
    ensures Good(kind, lens, tab', root, t, w)
    ensures lens[t] > root ==>
      var a := tab'[RootIx(root, w)];
      && a.val + Pow2(a.op) <= next + Pow2(curr)
      && (Shr(w, MAXBITS - root) != Shr(Start(lens, s), MAXBITS - root) ==> a.val + Pow2(a.op) <= next)
  {
    hide Low, Shr, Rev, Pow2, CodeOf, SymOp, SymVal, CountTo, Below, FirstCode, SubIx;
    assert tab'[RootIx(root, w)] == tab[RootIx(root, w)];
    if Covers(lens, s, w) {
      CoversUnique(lens, s, t, w);
      SameCell(lens, s, root, w);
      SubHit(lens, s, root, curr, w);
      var i := next + SubIx(root, curr, w);
      assert tab'[i] == SymEntry(kind, s, lens[s] - root);
    } else {
      assert w < Start(lens, s);
      assert Good(kind, lens, tab, root, t, w);
      if Shr(w, MAXBITS - root) == Shr(Start(lens, s), MAXBITS - root) {
        assert lens[t] > root;
        SubHit(lens, s, root, curr, w);
        var i := next + SubIx(root, curr, w);
        assert tab'[i] == tab[i];
      }
    }
  }

  /** The interval of a long code lies inside one root cell. */
  lemma {:induction false} SameCell(lens: seq<nat>, s: nat, root: nat, w: nat)
    requires Used(lens, s) && root <= lens[s] && Covers(lens, s, w)
    ensures Shr(w, MAXBITS - root) == Shr(Start(lens, s), MAXBITS - root)
  {
    hide Low, Shr, Rev, Pow2, CodeOf;
    CoversCell(lens, s, w);
    ShrShr(w, MAXBITS - lens[s], lens[s] - root);
    ShrStart(lens, s, root);
  }

  /** A new sub-table has been linked from the next root cell. */
  lemma {:induction false} OpenSub(kind: CodeType, lens: seq<nat>, tab: seq<Entry>, root: nat, bound: nat,
                p: nat, next: nat, curr: nat, link: Entry)
    requires |lens| <= Symbols(kind) && Kraft(lens) <= FULL
    requires root <= MAXBITS && Pow2(root) <= next + Pow2(curr) <= |tab|
    requires bound < FULL
    requires bound == Shl(Shr(bound, MAXBITS - root), MAXBITS - root)
    requires Decodes(kind, lens, tab, root, bound)
    requires Placed(lens, tab, root, bound, p, next, curr)
    ensures var tab' := tab[RootIx(root, bound) := link];
            && Decodes(kind, lens, tab', root, bound)
            && Placed(lens, tab', root, bound, Shr(bound, MAXBITS - root), next + Pow2(curr), link.op)
  {
    hide Low, Shr, Rev, Pow2, CodeOf, SymOp, SymVal, CountTo, Below, FirstCode;
    var tab' := tab[RootIx(root, bound) := link];
    forall t: nat, w: nat | Used(lens, t) && Covers(lens, t, w) && w < bound
      ensures Good(kind, lens, tab', root, t, w)
      ensures tab'[RootIx(root, w)] == tab[RootIx(root, w)]
    {
      if RootIx(root, w) == RootIx(root, bound) {
        RootIxInjective(root, w, bound);
        CellOf(w, Shr(bound, MAXBITS - root), MAXBITS - root);
      }
      assert Good(kind, lens, tab, root, t, w);
    }
  }

  // ----- the steps of inflate_table -----

  method CountLengths(lens: seq<nat>) returns (count: array<nat>)
    requires ValidLens(lens)
    ensures fresh(count) && count.Length == MAXBITS + 1
    ensures forall l :: 0 <= l <= MAXBITS ==> count[l] == Count(lens, l)
  {
    count := new nat[MAXBITS + 1](_ => 0);
    for sym := 0 to |lens|
      invariant forall l :: 0 <= l <= MAXBITS ==> count[l] == CountTo(lens, l, sym)
    {
      count[lens[sym]] := count[lens[sym]] + 1;
    }
  }

  /** Over-subscription test: left is what remains of the line, or -1 on overflow. */
  method CheckLengths(lens: seq<nat>, count: array<nat>) returns (left: int)
    requires count.Length == MAXBITS + 1
    requires forall l :: 0 <= l <= MAXBITS ==> count[l] == Count(lens, l)
    ensures left < 0 <==> Kraft(lens) > FULL
    ensures left >= 0 ==> left == FULL - Kraft(lens)
  {
    hide Shl, Below, CountTo, Pow2;
    left := 1;
    FullIsPow2();
    ShlOne(MAXBITS);
    BelowFirstLength(lens);
    for len := 1 to MAXBITS + 1
      invariant left >= 0
      invariant Shl(left, MAXBITS + 1 - len) + Below(lens, len) == FULL
    {
      var before := left;
      left := 2 * left - count[len];
      TakeCodes(2 * before, count[len], MAXBITS - len, before);
      BelowNext(lens, len);
      if left < 0 {
        BelowMonotone(lens, len + 1, MAXBITS + 1);
        return -1;
      }
    }
    ShlByNone(left);
  }

  lemma {:induction false} BelowFirstLength(lens: seq<nat>)
    ensures Below(lens, 1) == 0
  {
  }

  lemma {:induction false} BelowNext(lens: seq<nat>, l: nat)
    requires 1 <= l <= MAXBITS
    ensures Below(lens, l + 1) == Below(lens, l) + Shl(Count(lens, l), MAXBITS - l)
  {
    hide Shl, Count;
  }

  lemma {:induction false} ShlByNone(v: nat)
    ensures Shl(v, 0) == v
  {
  }

  lemma {:induction false} TakeCodes(left: nat, taken: nat, n: nat, before: nat)
    requires left == 2 * before
    ensures Shl(before, n + 1) == Shl(left, n)
    ensures taken <= left ==> Shl(left, n) == Shl(left - taken, n) + Shl(taken, n)
    ensures taken > left ==> Shl(taken, n) > Shl(left, n)
  {
    ShlShl(before, 1, n);
    assert Shl(before, 1) == 2 * Shl(before, 0);
    if taken <= left { ShlAdd(left - taken, taken, n); } else { ShlMonotone(left, taken, n); }
  }

  /** Positions of the sorted symbol list at which length l starts. */
  function Offset(lens: seq<nat>, l: nat): (r: nat)
    requires l >= 1
  {
    if l == 1 then 0 else Offset(lens, l - 1) + Count(lens, l - 1)
  }

  lemma {:induction false} OffsetMonotone(lens: seq<nat>, l: nat, k: nat)
    requires 1 <= l < k
    ensures Offset(lens, l) + Count(lens, l) <= Offset(lens, k)
    decreases k
  {
    if l < k - 1 { OffsetMonotone(lens, l, k - 1); }
  }

  function OffsetTo(lens: seq<nat>, l: nat, n: nat): (r: nat)
    requires l >= 1 && n <= |lens|
  {
    if l == 1 then 0 else OffsetTo(lens, l - 1, n) + CountTo(lens, l - 1, n)
  }

  lemma {:induction false} OffsetToStep(lens: seq<nat>, l: nat, n: nat)
    requires l >= 1 && n < |lens|
    ensures OffsetTo(lens, l, n + 1) == OffsetTo(lens, l, n) + (if 1 <= lens[n] < l then 1 else 0)
  {
    if l > 1 { OffsetToStep(lens, l - 1, n); }
  }

  lemma {:induction false} OffsetToBound(lens: seq<nat>, l: nat, n: nat)
    requires l >= 1 && n <= |lens|
    ensures OffsetTo(lens, l, n) <= n
    decreases n
  {
    if n > 0 {
      OffsetToBound(lens, l, n - 1);
      OffsetToStep(lens, l, n - 1);
    } else {
      OffsetToZero(lens, l);
    }
  }

  lemma {:induction false} OffsetToZero(lens: seq<nat>, l: nat)
    requires l >= 1
    ensures OffsetTo(lens, l, 0) == 0
  {
    if l > 1 { OffsetToZero(lens, l - 1); }
  }

  lemma {:induction false} OffsetIsTo(lens: seq<nat>, l: nat)
    requires l >= 1
    ensures Offset(lens, l) == OffsetTo(lens, l, |lens|)
  {
    if l > 1 { OffsetIsTo(lens, l - 1); }
  }

  /** Every sorted position lies inside the work area. */
  lemma {:induction false} OffsetBound(lens: seq<nat>, l: nat)
    requires l >= 1
    ensures Offset(lens, l) + Count(lens, l) <= |lens|
  {
    hide OffsetTo, CountTo;
    OffsetIsTo(lens, l + 1);
    OffsetToBound(lens, l + 1, |lens|);
  }

  /** The place in the sorted list of the r-th symbol of length l. */
  function Slot(lens: seq<nat>, l: nat, r: nat): (i: nat)
    requires l >= 1
  {
    Offset(lens, l) + r
  }

  /** The first n symbols stand in their sorted places. */
  ghost predicate SortedTo(lens: seq<nat>, work: seq<nat>, n: nat)
    requires n <= |lens|
  {
    forall l: nat, r: nat :: 1 <= l <= MAXBITS && r < CountTo(lens, l, n) ==>
      && Slot(lens, l, r) < |work|
      && IsNth(lens, l, r, work[Slot(lens, l, r)])
  }

  predicate IsNth(lens: seq<nat>, l: nat, r: nat, s: nat)
  {
    s < |lens| && lens[s] == l && CountTo(lens, l, s) == r
  }

  lemma {:induction false} SlotInjective(lens: seq<nat>, l: nat, r: nat, k: nat, q: nat)
    requires l >= 1 && k >= 1 && r < Count(lens, l) && q < Count(lens, k)
    requires Slot(lens, l, r) == Slot(lens, k, q)
    ensures l == k && r == q
  {
    if l < k { OffsetMonotone(lens, l, k); }
    if k < l { OffsetMonotone(lens, k, l); }
  }

  lemma {:induction false} SortStep(lens: seq<nat>, was: seq<nat>, now: seq<nat>, sym: nat)
    requires sym < |lens| && SortedTo(lens, was, sym)
    requires if lens[sym] == 0 then now == was
             else var i := Slot(lens, lens[sym], CountTo(lens, lens[sym], sym));
                  i < |was| && now == was[i := sym]
    ensures SortedTo(lens, now, sym + 1)
  {
    hide Offset;
    var l0, r0 := lens[sym], CountTo(lens, lens[sym], sym);
    forall l: nat, r: nat | 1 <= l <= MAXBITS && r < CountTo(lens, l, sym + 1)
      ensures Slot(lens, l, r) < |now| && IsNth(lens, l, r, now[Slot(lens, l, r)])
    {
      if l != l0 || r != r0 {
        CountToMonotone(lens, l, sym + 1, |lens|);
        if l0 != 0 {
          CountToMonotone(lens, l0, sym, |lens|);
          if Slot(lens, l, r) == Slot(lens, l0, r0) { SlotInjective(lens, l, r, l0, r0); }
        }
        assert IsNth(lens, l, r, was[Slot(lens, l, r)]);
      }
    }
  }

  method Offsets(lens: seq<nat>, count: array<nat>) returns (offs: array<nat>)
    requires count.Length == MAXBITS + 1
    requires forall l :: 0 <= l <= MAXBITS ==> count[l] == Count(lens, l)
    ensures fresh(offs) && offs.Length == MAXBITS + 1
    ensures forall l :: 1 <= l <= MAXBITS ==> offs[l] == Offset(lens, l)
  {
    hide Count;
    offs := new nat[MAXBITS + 1](_ => 0);
    for len := 1 to MAXBITS
      invariant forall l :: 1 <= l <= len ==> offs[l] == Offset(lens, l)
    {
      offs[len + 1] := offs[len] + count[len];
    }
  }

  /** The symbols with codes, by length and then by symbol. */
  method SortSymbols(lens: seq<nat>, count: array<nat>) returns (work: array<nat>)
    requires ValidLens(lens)
    requires count.Length == MAXBITS + 1
    requires forall l :: 0 <= l <= MAXBITS ==> count[l] == Count(lens, l)
    ensures fresh(work) && work.Length == |lens|
    ensures SortedTo(lens, work[..], |lens|)
  {
    hide Offset, SortedTo;
    work := new nat[|lens|](_ => 0);
    var offs := Offsets(lens, count);
    NothingSorted(lens, work[..]);
    for sym := 0 to |lens|
      invariant forall l :: 1 <= l <= MAXBITS ==> offs[l] == Offset(lens, l) + CountTo(lens, l, sym)
      invariant SortedTo(lens, work[..], sym)
    {
      ghost var was := work[..];
      if lens[sym] != 0 {
        CountToMonotone(lens, lens[sym], sym, |lens|);
        OffsetBound(lens, lens[sym]);
        work[offs[lens[sym]]] := sym;
        offs[lens[sym]] := offs[lens[sym]] + 1;
      }
      SortStep(lens, was, work[..], sym);
    }
  }

  lemma {:induction false} NothingSorted(lens: seq<nat>, work: seq<nat>)
    ensures SortedTo(lens, work, 0)
  {
  }

  /** Peeling the top bit of a reversed code peels the low bit of the code. */
  lemma {:induction false} PeelTop(huff: nat, d: nat, k: nat)
    requires Low(huff, k + 1) == Rev(d, k + 1)
    ensures Shr(huff, k) % 2 == d % 2
    ensures Low(huff, k) == Rev(d / 2, k)
  {
    hide Shr;
    LowTop(huff, k + 1);
  }

  /** Adding one to an odd number carries, to an even one sets the low bit. */
  lemma {:induction false} RevSuccessor(d: nat, k: nat)
    ensures Rev(d + 1, k + 1) == if d % 2 == 1 then Rev(d / 2 + 1, k) else Pow2(k) + Rev(d / 2, k)
  {
    hide Pow2;
    assert (d + 1) / 2 == d / 2 + d % 2;
  }

  lemma {:induction false} RevNone(d: nat)
    ensures Rev(d, 0) == 0
  {
  }

  /** Backwards increment of huff, the len-bit reversal of code c. */
  method BackIncrement(huff: nat, len: nat, ghost c: nat) returns (next: nat)
    requires len >= 1 && huff == Rev(c, len)
    ensures next == Rev(c + 1, len)
  {
    hide Low, Rev, Shr, Pow2;
    var k: int := len - 1;  // incr is 1 << k, or 0 once k is negative
    ghost var d := c;
    LowSmall(huff, len);
    while k >= 0 && Shr(huff, k) % 2 == 1
      invariant -1 <= k < len
      invariant Low(huff, k + 1) == Rev(d, k + 1)
      invariant Rev(c + 1, len) == Rev(d + 1, k + 1)
    {
      PeelTop(huff, d, k);
      RevSuccessor(d, k);
      d := d / 2;
      k := k - 1;
    }
    if k >= 0 {
      PeelTop(huff, d, k);
      RevSuccessor(d, k);
      next := Low(huff, k) + Pow2(k);
    } else {
      RevNone(d + 1);
      next := 0;
    }
  }

  /** Slot i of the table at next has start as its low b index bits. */
  predicate Hit(i: int, next: nat, curr: nat, b: nat, start: nat)
  {
    next <= i < next + Pow2(curr) && Low(i - next, b) == start
  }

  /** ... and its other index bits are k or more. */
  predicate HitFrom(i: int, next: nat, curr: nat, b: nat, start: nat, k: nat)
  {
    Hit(i, next, curr, b, start) && Shr(i - next, b) >= k
  }

  lemma {:induction false} HitStep(i: int, next: nat, curr: nat, b: nat, start: nat, k: nat)
    requires b <= curr && start < Pow2(b) && k < Pow2(curr - b)
    ensures HitFrom(i, next, curr, b, start, k) <==>
      HitFrom(i, next, curr, b, start, k + 1) || i == next + start + Shl(k, b)
    ensures start + Shl(k, b) < Pow2(curr)
  {
    hide Low, Shr, Shl;
    Join(start, k, b);
    ShlMonotone(k + 1, Pow2(curr - b), b);
    ShlNext(k, b);
    ShlPow2(curr - b, b);
    if Hit(i, next, curr, b, start) { Split(i - next, b); }
  }

  lemma {:induction false} HitNone(i: int, next: nat, curr: nat, b: nat, start: nat)
    requires b <= curr
    ensures !HitFrom(i, next, curr, b, start, Pow2(curr - b))
  {
    hide Low, Shr, Pow2;
    if next <= i < next + Pow2(curr) { ShrBound(i - next, b, curr - b); }
  }

  /** Replicates here over the slots of a table whose low b index bits are start. */
  method Fill(table: array<Entry>, next: nat, start: nat, b: nat, curr: nat, here: Entry)
    requires b <= curr && start < Pow2(b) && next + Pow2(curr) <= table.Length
    modifies table
    ensures forall i :: 0 <= i < table.Length ==>
      table[i] == if Hit(i, next, curr, b, start) then here else old(table[i])
  {
    hide Hit, Shl, Pow2;
    var incr, fill := Pow2(b), Pow2(curr);
    ghost var k: int := Pow2(curr - b);
    ShlPow2(curr - b, b);
    ShlOne(b);
    forall i | 0 <= i < table.Length
      ensures !HitFrom(i, next, curr, b, start, k)
    {
      HitNone(i, next, curr, b, start);
    }
    while fill != 0
      invariant 0 <= k <= Pow2(curr - b) && fill == Shl(k, b)
      invariant forall i :: 0 <= i < table.Length ==>
        table[i] == if HitFrom(i, next, curr, b, start, k) then here else old(table[i])
      decreases k
    {
      k := k - 1;
      ShlNext(k, b);
      fill := fill - incr;
      forall i | 0 <= i < table.Length
        ensures HitFrom(i, next, curr, b, start, k) <==>
          HitFrom(i, next, curr, b, start, k + 1) || i == next + start + fill
        ensures next + start + fill < table.Length
      {
        HitStep(i, next, curr, b, start, k);
      }
      HitStep(next, next, curr, b, start, k);
      table[next + start + fill] := here;
    }
    if k > 0 { ShlMonotone(0, k, b); }
  }

  /** The codes of length up to top use up the cell that starts at point k, or top is
      the longest length there is. */
  ghost predicate LookAhead(lens: seq<nat>, root: nat, max: nat, k: nat, top: nat)
    requires root <= MAXBITS && top <= MAXBITS
  {
    top == max || Below(lens, top + 1) >= k + Pow2(MAXBITS - root)
  }

  /** The first length from m on that uses up the cell, or the longest length. */
  ghost function SubTop(lens: seq<nat>, root: nat, max: nat, k: nat, m: nat): (top: nat)
    requires root <= MAXBITS && m <= max <= MAXBITS
    ensures m <= top <= max && LookAhead(lens, root, max, k, top)
    decreases max - m
  {
    if LookAhead(lens, root, max, k, m) then m else SubTop(lens, root, max, k, m + 1)
  }

  lemma {:induction false} SubTopStep(lens: seq<nat>, root: nat, max: nat, k: nat, m: nat)
    requires root <= MAXBITS && m < max <= MAXBITS
    ensures SubTop(lens, root, max, k, m) ==
      if Below(lens, m + 1) >= k + Pow2(MAXBITS - root) then m else SubTop(lens, root, max, k, m + 1)
  {
    hide Below, Pow2;
  }

  /** Taking the codes of length m from the left free slots of a cell. */
  lemma {:induction false} TakeLength(left: nat, taken: nat, n: nat, base: nat, above: nat, total: nat)
    requires n > 0
    requires Shl(left, n) + base == total
    requires base + Shl(taken, n) == above
    ensures taken >= left ==> above >= total
    ensures taken < left ==> Shl(2 * (left - taken), n - 1) + above == total > above
  {
    hide Shl;
    if taken >= left {
      ShlMonotone(left, taken, n);
    } else {
      ShlAdd(left - taken, taken, n);
      ShlDouble(left - taken, n);
      ShlMonotone(0, left - taken, n);
    }
  }

  lemma {:induction false} ShlDouble(v: nat, n: nat)
    requires n > 0
    ensures Shl(2 * v, n - 1) == Shl(v, n)
  {
    ShlShl(v, 1, n - 1);
    assert Shl(v, 1) == 2 * Shl(v, 0);
  }

  /** Index bits of a new sub-table that starts at point k with a code of length len:
      enough for every remaining code of its root cell. */
  method SubTableBits(lens: seq<nat>, count: array<nat>, root: nat, len: nat, max: nat, ghost k: nat, ghost r: nat)
      returns (curr: nat)
    requires count.Length == MAXBITS + 1 && root < len <= max <= MAXBITS
    requires r <= Count(lens, len) && k == Below(lens, len) + Shl(r, MAXBITS - len)
    requires count[len] == Count(lens, len) - r
    requires forall l :: len < l <= MAXBITS ==> count[l] == Count(lens, l)
    ensures root + curr == SubTop(lens, root, max, k, len)
  {
    hide Shl, Pow2, Count, LookAhead;
    curr := len - root;
    var left: nat := Pow2(curr);
    ShlPow2(len - root, MAXBITS - len);
    ShlAdd(r, Count(lens, len) - r, MAXBITS - len);
    ghost var base := k;  // points below the codes not yet taken from left
    while curr + root < max
      invariant len <= root + curr <= max
      invariant SubTop(lens, root, max, k, len) == SubTop(lens, root, max, k, root + curr)
      invariant base == if curr + root == len then k else Below(lens, curr + root)
      invariant Shl(left, MAXBITS - (curr + root)) + base == Pow2(MAXBITS - root) + k
    {
      var m := curr + root;
      TakeLength(left, count[m], MAXBITS - m, base, Below(lens, m + 1), Pow2(MAXBITS - root) + k);
      SubTopStep(lens, root, max, k, m);
      if left <= count[m] {
        break;
      }
      curr := curr + 1;
      left := 2 * (left - count[m]);
      base := Below(lens, m + 1);
    }
  }

  // ----- the main loop -----

  function End(lens: seq<nat>, s: nat): (w: nat)
    requires Used(lens, s)
  {
    Start(lens, s) + Pow2(MAXBITS - lens[s])
  }

  /** Slot i belongs to the sub-table linked from the root cell of point w. */
  ghost predicate Linked(tab: seq<Entry>, root: nat, w: nat, i: nat)
    requires root <= MAXBITS && Pow2(root) <= |tab|
  {
    var a := tab[RootIx(root, w)];
    IsLink(a) && root + a.op <= MAXBITS && a.val <= i < a.val + Pow2(a.op)
  }

  /** Every slot allocated after the root table is in a sub-table linked by k or earlier. */
  ghost predicate Tiled(tab: seq<Entry>, root: nat, used: nat, k: nat)
    requires root <= MAXBITS && Pow2(root) <= |tab|
  {
    forall i :: Pow2(root) <= i < used ==> Owned(tab, root, k, i)
  }

  ghost predicate Owned(tab: seq<Entry>, root: nat, k: nat, i: nat)
    requires root <= MAXBITS && Pow2(root) <= |tab|
  {
    exists w: nat :: w <= k && Linked(tab, root, w, i)
  }

  /** The table in construction, decoded up to bound, with s the code in hand. */
  ghost predicate Building(kind: CodeType, lens: seq<nat>, tab: seq<Entry>, root: nat, max: nat, s: nat, bound: nat,
                           next: nat, curr: nat, used: nat, low: int)
  {
    && |lens| <= Symbols(kind) && Kraft(lens) <= FULL && Used(lens, s) && lens[s] <= max <= MAXBITS
    && 1 <= root <= max && Pow2(root) <= |tab|
    && Decodes(kind, lens, tab, root, bound)
    && var k := Start(lens, s);
    && var p := Shr(k, MAXBITS - root);
    && Placed(lens, tab, root, bound, p, next, curr)
    && next + Pow2(curr) == used <= |tab|
    && Tiled(tab, root, used, k)
    && if lens[s] <= root then next == 0 && curr == root && low == -1
       else
         && next >= Pow2(root)
         && lens[s] <= root + curr <= max
         && low == RootIx(root, k) && tab[low] == Entry(curr, root, next)
         && LookAhead(lens, root, max, Shl(p, MAXBITS - root), root + curr)
  }

  lemma {:induction false} AfterFill(kind: CodeType, lens: seq<nat>, tab: seq<Entry>, tab': seq<Entry>, root: nat, max: nat,
                                     s: nat, next: nat, curr: nat, used: nat, low: int, drop: nat)
    requires Used(lens, s)
    requires Building(kind, lens, tab, root, max, s, Start(lens, s), next, curr, used, low)
    requires drop == if lens[s] <= root then 0 else root
    requires |tab| == |tab'|
    requires forall i :: 0 <= i < |tab| ==>
      tab'[i] == if Hit(i, next, curr, lens[s] - drop, Shr(Rev(CodeOf(lens, s), lens[s]), drop))
                 then SymEntry(kind, s, lens[s] - drop) else tab[i]
    ensures Building(kind, lens, tab', root, max, s, End(lens, s), next, curr, used, low)
  {
    hide Low, Rev, Pow2, CodeOf, SymEntry, Start, LookAhead, Decodes, Placed, Kraft;
    if lens[s] <= root {
      assert Shr(Rev(CodeOf(lens, s), lens[s]), 0) == Rev(CodeOf(lens, s), lens[s]);
      FillRoot(kind, lens, tab, tab', root, s, Shr(Start(lens, s), MAXBITS - root), next, curr);
    } else {
      FillSub(kind, lens, tab, tab', root, s, curr, next);
      TiledSame(tab, tab', root, used, Start(lens, s));
    }
  }

  lemma {:induction false} TiledSame(tab: seq<Entry>, tab': seq<Entry>, root: nat, used: nat, k: nat)
    requires root <= MAXBITS && Pow2(root) <= |tab| == |tab'|
    requires forall i :: 0 <= i < Pow2(root) ==> tab'[i] == tab[i]
    requires Tiled(tab, root, used, k)
    ensures Tiled(tab', root, used, k)
  {
    hide Pow2, RootIx;
    forall i | Pow2(root) <= i < used
      ensures Owned(tab', root, k, i)
    {
      assert Owned(tab, root, k, i);
      var w: nat :| w <= k && Linked(tab, root, w, i);
      assert Linked(tab', root, w, i);
    }
  }

  lemma {:induction false} TiledNext(tab: seq<Entry>, root: nat, used: nat, k: nat, k': nat, link: Entry)
    requires root <= MAXBITS && Pow2(root) <= |tab|
    requires Tiled(tab, root, used, k)
    requires k < k' < FULL && k' == Shl(Shr(k', MAXBITS - root), MAXBITS - root)
    requires IsLink(link) && root + link.op <= MAXBITS && link.val == used
    ensures Tiled(tab[RootIx(root, k') := link], root, used + Pow2(link.op), k')
  {
    hide Pow2, RootIx, Shr, Shl;
    var tab' := tab[RootIx(root, k') := link];
    forall i | Pow2(root) <= i < used + Pow2(link.op)
      ensures Owned(tab', root, k', i)
    {
      if i < used {
        assert Owned(tab, root, k, i);
        var w: nat :| w <= k && Linked(tab, root, w, i);
        if RootIx(root, w) == RootIx(root, k') {
          RootIxInjective(root, w, k');
          CellOf(w, Shr(k', MAXBITS - root), MAXBITS - root);
        }
        assert Linked(tab', root, w, i);
      } else {
        assert Linked(tab', root, k', i);
      }
    }
  }

  lemma {:induction false} TiledLater(tab: seq<Entry>, root: nat, used: nat, k: nat, k': nat)
    requires root <= MAXBITS && Pow2(root) <= |tab| && k <= k' && Tiled(tab, root, used, k)
    ensures Tiled(tab, root, used, k')
  {
    hide Pow2, RootIx, Linked;
    forall i | Pow2(root) <= i < used
      ensures Owned(tab, root, k', i)
    {
      assert Owned(tab, root, k, i);
    }
  }

  /** The next code needs no new sub-table. */
  lemma {:induction false} Stay(kind: CodeType, lens: seq<nat>, tab: seq<Entry>, root: nat, max: nat, s: nat, t: nat,
                                next: nat, curr: nat, used: nat, low: int)
    requires Used(lens, s)
    requires Building(kind, lens, tab, root, max, s, End(lens, s), next, curr, used, low)
    requires Used(lens, t) && lens[s] <= lens[t] <= max && Start(lens, t) == End(lens, s)
    requires lens[t] <= root || RootIx(root, Start(lens, t)) == low
    ensures Building(kind, lens, tab, root, max, t, Start(lens, t), next, curr, used, low)
  {
    hide Low, Rev, Pow2, Shr, Shl, CodeOf, SymEntry, Start, Decodes, Kraft, Below;
    var k, k' := Start(lens, s), Start(lens, t);
    TiledLater(tab, root, used, k, k');
    StartPlace(lens, s);
    StartPlace(lens, t);
    if lens[t] <= root {
      forall u: nat, w: nat | Used(lens, u) && Covers(lens, u, w) && w < k'
        ensures lens[u] <= root
      {
        ShorterBefore(lens, t, u, w);
      }
    } else {
      assert lens[s] > root;
      RootIxInjective(root, k, k');
      var p := Shr(k, MAXBITS - root);
      CellOf(k', p, MAXBITS - root);
      if lens[t] > root + curr { BelowMonotone(lens, root + curr + 1, lens[t]); }
    }
  }

  /** A code that leaves the current root cell starts a new one. */
  lemma {:induction false} CellAligned(lens: seq<nat>, s: nat, root: nat, k: nat)
    requires Used(lens, s) && k == End(lens, s) && root <= MAXBITS
    requires lens[s] <= root || Shr(k, MAXBITS - root) != Shr(Start(lens, s), MAXBITS - root)
    ensures k == Shl(Shr(k, MAXBITS - root), MAXBITS - root)
  {
    hide Low, Rev, Pow2, Shr, Shl, CodeOf;
    var l, c, m := lens[s], CodeOf(lens, s), MAXBITS - root;
    if l <= root {
      ShlNext(c, MAXBITS - l);
      ShlShl(c + 1, root - l, m);
      Join(0, Shl(c + 1, root - l), m);
    } else {
      var p := Shr(Start(lens, s), m);
      SameCell(lens, s, root, k - 1);
      CellOf(k - 1, p, m);
      CellOf(k, p, m);
      ShlNext(p, m);
      Join(0, p + 1, m);
    }
  }

  /** The next code starts a new root cell, which has just been linked. */
  lemma {:induction false} Link(kind: CodeType, lens: seq<nat>, tab: seq<Entry>, root: nat, max: nat, s: nat, t: nat,
                                next: nat, curr: nat, used: nat, low: int, curr': nat)
    requires Used(lens, s)
    requires Building(kind, lens, tab, root, max, s, End(lens, s), next, curr, used, low)
    requires Used(lens, t) && lens[s] <= lens[t] <= max && Start(lens, t) == End(lens, s)
    requires lens[t] > root && RootIx(root, Start(lens, t)) != low
    requires lens[t] <= root + curr' <= max && used + Pow2(curr') <= |tab|
    requires LookAhead(lens, root, max, Start(lens, t), root + curr')
    ensures Building(kind, lens, tab[RootIx(root, Start(lens, t)) := Entry(curr', root, used)], root, max, t, Start(lens, t),
                     used, curr', used + Pow2(curr'), RootIx(root, Start(lens, t)))
  {
    hide Low, Rev, Pow2, Shr, Shl, CodeOf, SymEntry, Start, Decodes, Placed, Kraft, Below, LookAhead;
    var k := Start(lens, t);
    StartPlace(lens, t);
    CellAligned(lens, s, root, k);
    OpenSub(kind, lens, tab, root, k, Shr(Start(lens, s), MAXBITS - root), next, curr, Entry(curr', root, used));
    TiledNext(tab, root, used, Start(lens, s), k, Entry(curr', root, used));
  }

  /** The next length in use after l, at most max. */
  ghost function NextLen(lens: seq<nat>, l: nat, max: nat): (l': nat)
    requires l < max
    ensures l < l' <= max
    decreases max - l
  {
    if l + 1 == max || Count(lens, l + 1) > 0 then l + 1 else NextLen(lens, l + 1, max)
  }

  /** The point at which the r-th code of length l starts. */
  function PointOf(lens: seq<nat>, l: nat, r: nat): (k: nat)
    requires 1 <= l <= MAXBITS
  {
    Below(lens, l) + Shl(r, MAXBITS - l)
  }

  /** A code of length l' at point k' needs a new sub-table after one of length l at k. */
  predicate NeedsTable(root: nat, l: nat, k: nat, l': nat, k': nat)
    requires root <= MAXBITS
  {
    l' > root && (l <= root || Shr(k', MAXBITS - root) != Shr(k, MAXBITS - root))
  }

  /** Table slots in use once all codes are entered, given those in use after the r-th code
      of length l. */
  ghost function TableUse(lens: seq<nat>, root: nat, max: nat, l: nat, r: nat, used: nat): (total: nat)
    requires root <= MAXBITS && 1 <= l <= max <= MAXBITS
    ensures total >= used
    decreases max - l, Count(lens, l) - r
  {
    if l == max && r + 1 >= Count(lens, l) then used
    else
      var l' := if r + 1 < Count(lens, l) then l else NextLen(lens, l, max);
      var r' := if r + 1 < Count(lens, l) then r + 1 else 0;
      var k' := PointOf(lens, l', r');
      TableUse(lens, root, max, l', r',
               if NeedsTable(root, l, PointOf(lens, l, r), l', k')
               then used + Pow2(SubTop(lens, root, max, k', l') - root) else used)
  }

  lemma {:induction false} TableUseEnd(lens: seq<nat>, root: nat, max: nat, l: nat, r: nat, used: nat)
    requires root <= MAXBITS && l == max && 1 <= max <= MAXBITS && r + 1 >= Count(lens, l)
    ensures TableUse(lens, root, max, l, r, used) == used
  {
    hide CountTo;
  }

  /** Where the sorted list continues after the r-th symbol of length l. */
  lemma {:induction false} NextSymbol(lens: seq<nat>, work: seq<nat>, l: nat, r: nat, max: nat) returns (l': nat, r': nat)
    requires SortedTo(lens, work, |lens|)
    requires 1 <= l <= max <= MAXBITS && r < Count(lens, l) && Count(lens, max) > 0
    requires l < max || r + 1 < Count(lens, l)
    ensures l <= l' <= max && r' < Count(lens, l')
    ensures if r + 1 < Count(lens, l) then l' == l && r' == r + 1
            else l < max && l' == NextLen(lens, l, max) && r' == 0
    ensures Slot(lens, l', r') == Slot(lens, l, r) + 1 < |work|
    ensures IsNth(lens, l', r', work[Slot(lens, l', r')])
    ensures Below(lens, l') + Shl(r', MAXBITS - l') == Below(lens, l) + Shl(r, MAXBITS - l) + Pow2(MAXBITS - l)
  {
    hide CountTo, Shl, Pow2, IsNth;
    ShlNext(r, MAXBITS - l);
    if r + 1 < Count(lens, l) {
      l', r' := l, r + 1;
    } else {
      l', r' := l + 1, 0;
      while Count(lens, l') == 0
        invariant l < l' <= max
        invariant Offset(lens, l') == Offset(lens, l + 1) && Below(lens, l') == Below(lens, l + 1)
        invariant NextLen(lens, l, max) == NextLen(lens, l' - 1, max)
        decreases max - l'
      {
        ShlOne(MAXBITS - l');
        l' := l' + 1;
      }
      ShlOne(MAXBITS - l');
    }
  }

  lemma {:induction false} StartOfNth(lens: seq<nat>, l: nat, r: nat, s: nat)
    requires 1 <= l <= MAXBITS && IsNth(lens, l, r, s)
    ensures Start(lens, s) == Below(lens, l) + Shl(r, MAXBITS - l)
  {
    StartPlace(lens, s);
  }

  /** The table space a caller provides for each kind of code. */
  function Space(kind: CodeType): (n: nat)
  {
    match kind
    case CODES => 128
    case LENS => ENOUGH_LENS
    case DISTS => ENOUGH_DISTS
  }

  predicate Exceeds(kind: CodeType, used: nat)
  {
    (kind == LENS && used > ENOUGH_LENS) || (kind == DISTS && used > ENOUGH_DISTS)
  }

  /** The incremented code, zeros appended, is the next code. */
  lemma {:induction false} NextHuff(lens: seq<nat>, s: nat, t: nat)
    requires Used(lens, s) && Used(lens, t) && lens[s] <= lens[t] && Start(lens, t) == End(lens, s)
    ensures Rev(CodeOf(lens, s) + 1, lens[s]) == Rev(CodeOf(lens, t), lens[t])
  {
    hide Low, Rev, Pow2, Shr, Shl, CodeOf;
    var c, d, l, l' := CodeOf(lens, s), CodeOf(lens, t), lens[s], lens[t];
    ShlNext(c, MAXBITS - l);
    ShlShl(c + 1, l' - l, MAXBITS - l');
    Join(0, d, MAXBITS - l');
    Join(0, Shl(c + 1, l' - l), MAXBITS - l');
    RevOfShl(c + 1, l, l' - l);
  }

  /** The last code of the longest length ends at the Kraft sum. */
  lemma {:induction false} LastEnd(lens: seq<nat>, s: nat, max: nat)
    requires Used(lens, s) && lens[s] == max && CountTo(lens, max, s) + 1 == Count(lens, max)
    requires forall l :: max < l <= MAXBITS ==> Count(lens, l) == 0
    ensures End(lens, s) == Kraft(lens)
    ensures Rev(CodeOf(lens, s) + 1, max) == Rev(Shr(Kraft(lens), MAXBITS - max), max)
  {
    hide Low, Rev, Pow2, Shr, Shl, CodeOf, CountTo;
    var c := CodeOf(lens, s);
    StartPlace(lens, s);
    ShlNext(CountTo(lens, max, s), MAXBITS - max);
    assert End(lens, s) == Below(lens, max + 1);
    var l := max + 1;
    while l < MAXBITS + 1
      invariant max < l <= MAXBITS + 1 && Below(lens, l) == Below(lens, max + 1)
    {
      ShlOne(MAXBITS - l);
      l := l + 1;
    }
    ShlNext(c, MAXBITS - max);
    Join(0, c + 1, MAXBITS - max);
  }

  /** The sorted list starts at the first symbol of the shortest length, with code zero. */
  lemma {:induction false} FirstSymbol(kind: CodeType, lens: seq<nat>, work: seq<nat>, tab: seq<Entry>, root: nat, min: nat, max: nat)
    requires |lens| <= Symbols(kind) && Kraft(lens) <= FULL
    requires SortedTo(lens, work, |lens|)
    requires 1 <= min <= root <= max <= MAXBITS && Count(lens, min) > 0
    requires forall l :: 1 <= l < min ==> Count(lens, l) == 0
    requires Pow2(root) <= |tab|
    ensures Slot(lens, min, 0) == 0 < |work| && IsNth(lens, min, 0, work[0])
    ensures CodeOf(lens, work[0]) == 0 == Rev(0, min)
    ensures Building(kind, lens, tab, root, max, work[0], Start(lens, work[0]), 0, root, Pow2(root), -1)
  {
    hide Low, Rev, Pow2, Shr, Shl, CountTo, Kraft;
    var l := 1;
    while l < min
      invariant 1 <= l <= min && Offset(lens, l) == 0 && FirstCode(lens, l) == 0
    {
      l := l + 1;
    }
    assert Slot(lens, min, 0) == 0;
    RevZero(min);
    ShlOne(MAXBITS - min);
  }

  /** Creates the entries of symbol s and steps huff to the next code of its length. */
  method EnterSymbol(kind: CodeType, lens: seq<nat>, table: array<Entry>, root: nat, ghost max: nat, s: nat,
                     next: nat, curr: nat, ghost used: nat, ghost low: int, drop: nat, huff: nat)
      returns (huff': nat)
    requires Used(lens, s)
    requires Building(kind, lens, table[..], root, max, s, Start(lens, s), next, curr, used, low)
    requires huff == Rev(CodeOf(lens, s), lens[s])
    requires drop == if lens[s] <= root then 0 else root
    modifies table
    ensures Building(kind, lens, table[..], root, max, s, End(lens, s), next, curr, used, low)
    ensures huff' == Rev(CodeOf(lens, s) + 1, lens[s])
  {
    hide Low, Rev, Pow2, Shr, CodeOf, Kraft, Start, Decodes, Placed, LookAhead, SymOp, SymVal, Hit, Symbols;
    var len := lens[s];
    var here := SymEntry(kind, s, len - drop);
    StartBits(huff, len, drop);
    ghost var was := table[..];
    Fill(table, next, Shr(huff, drop), len - drop, curr, here);
    AfterFill(kind, lens, was, table[..], root, max, s, next, curr, used, low, drop);
    huff' := BackIncrement(huff, len, CodeOf(lens, s));
  }

  lemma {:induction false} StartBits(huff: nat, len: nat, drop: nat)
    requires huff < Pow2(len) && drop <= len
    ensures Shr(huff, drop) < Pow2(len - drop)
  {
    ShrBound(huff, drop, len - drop);
  }

  lemma {:induction false} HuffRoot(lens: seq<nat>, t: nat, root: nat)
    requires Used(lens, t) && root <= lens[t]
    ensures Low(Rev(CodeOf(lens, t), lens[t]), root) == RootIx(root, Start(lens, t))
  {
    hide Low, Rev, Pow2, Shr, CodeOf, Start;
    RevLow(CodeOf(lens, t), lens[t], root);
    ShrStart(lens, t, root);
  }

  /** The test on the low root bits of huff is the test on root cells. */
  lemma {:induction false} SameRoot(kind: CodeType, lens: seq<nat>, tab: seq<Entry>, root: nat, max: nat, s: nat, t: nat,
                                    next: nat, curr: nat, used: nat, low: int)
    requires Used(lens, s) && Used(lens, t) && lens[t] > root
    requires Building(kind, lens, tab, root, max, s, End(lens, s), next, curr, used, low)
    ensures RootIx(root, Start(lens, t)) != low <==>
      NeedsTable(root, lens[s], Start(lens, s), lens[t], Start(lens, t))
  {
    hide Low, Rev, Pow2, Shr, Shl, CodeOf, Kraft, Start, Decodes, Placed, LookAhead, Count, Below;
    StartPlace(lens, s);
    StartPlace(lens, t);
    if lens[s] > root && RootIx(root, Start(lens, t)) == low {
      RootIxInjective(root, Start(lens, s), Start(lens, t));
    }
  }

  /** Before symbol t, the r-th of its length: creates a new sub-table if t needs one. */
  method NextTable(kind: CodeType, lens: seq<nat>, count: array<nat>, table: array<Entry>, root: nat, max: nat,
                   ghost s: nat, ghost t: nat, len: nat, ghost r: nat, huff: nat,
                   next: nat, curr: nat, used: nat, low: int, drop: nat)
      returns (ret: int, next': nat, curr': nat, used': nat, low': int, drop': nat)
    requires Used(lens, s) && Used(lens, t) && lens[s] <= lens[t] == len <= max <= MAXBITS
    requires Start(lens, t) == End(lens, s)
    requires Building(kind, lens, table[..], root, max, s, End(lens, s), next, curr, used, low)
    requires huff == Rev(CodeOf(lens, t), len)
    requires drop == if lens[s] <= root then 0 else root
    requires r <= Count(lens, len) && Start(lens, t) == Below(lens, len) + Shl(r, MAXBITS - len)
    requires count.Length == MAXBITS + 1 && count[len] == Count(lens, len) - r
    requires forall l :: len < l <= MAXBITS ==> count[l] == Count(lens, l)
    requires kind.CODES? ==> root == max
    requires table.Length >= Space(kind) && used <= Space(kind)
    modifies table
    ensures ret == 0 || (ret == 1 && !kind.CODES?)
    ensures ret == 1 <==> Exceeds(kind, used')
    ensures used' == if NeedsTable(root, lens[s], Start(lens, s), len, Start(lens, t))
                     then used + Pow2(SubTop(lens, root, max, Start(lens, t), len) - root) else used
    ensures ret == 0 ==>
      && Building(kind, lens, table[..], root, max, t, Start(lens, t), next', curr', used', low')
      && drop' == (if len <= root then 0 else root)
      && used' <= Space(kind)
  {
    hide Low, Rev, Pow2, Shr, Shl, CodeOf, Kraft, Start, Decodes, Placed, LookAhead, Count, Below, SubTop;
    ret, next', curr', used', low', drop' := 0, next, curr, used, low, drop;
    if len > root {
      HuffRoot(lens, t, root);
      SameRoot(kind, lens, table[..], root, max, s, t, next, curr, used, low);
    }
    if len > root && Low(huff, root) != low {
      drop' := root;
      curr' := SubTableBits(lens, count, root, len, max, Start(lens, t), r);
      next' := next + Pow2(curr);
      used' := used + Pow2(curr');
      if Exceeds(kind, used') {
        ret := 1;
        return;
      }
      low' := Low(huff, root);
      Link(kind, lens, table[..], root, max, s, t, next, curr, used, low, curr');
      ghost var was := table[..];
      table[low'] := Entry(curr', root, next');
      assert table[..] == was[low' := Entry(curr', root, next')];
    } else {
      Stay(kind, lens, table[..], root, max, s, t, next, curr, used, low);
    }
  }

  /** After the r-th symbol of length l: the next symbol, its place, its code, and what it
      adds to the table. */
  lemma {:induction false} Proceed(lens: seq<nat>, work: seq<nat>, root: nat, max: nat, l: nat, r: nat, used: nat)
      returns (l': nat, r': nat)
    requires SortedTo(lens, work, |lens|)
    requires 1 <= root <= MAXBITS && 1 <= l <= max <= MAXBITS && r < Count(lens, l) && Count(lens, max) > 0
    requires l < max || r + 1 < Count(lens, l)
    requires Slot(lens, l, r) < |work| && IsNth(lens, l, r, work[Slot(lens, l, r)])
    ensures l <= l' <= max && r' < Count(lens, l')
    ensures if r + 1 < Count(lens, l) then l' == l && r' == r + 1 else l < l' && r' == 0
    ensures Slot(lens, l', r') == Slot(lens, l, r) + 1 < |work|
    ensures var s, t := work[Slot(lens, l, r)], work[Slot(lens, l, r) + 1];
      && IsNth(lens, l', r', t)
      && Start(lens, t) == End(lens, s) == PointOf(lens, l', r')
      && Rev(CodeOf(lens, s) + 1, l) == Rev(CodeOf(lens, t), l')
      && TableUse(lens, root, max, l, r, used) ==
         TableUse(lens, root, max, l', r',
                  if NeedsTable(root, l, Start(lens, s), l', Start(lens, t))
                  then used + Pow2(SubTop(lens, root, max, Start(lens, t), l') - root) else used)
  {
    hide Low, Rev, Pow2, Shr, Shl, CodeOf, CountTo, Start, Below, NextLen, SubTop, NeedsTable, SortedTo, Slot;
    l', r' := NextSymbol(lens, work, l, r, max);
    var s, t := work[Slot(lens, l, r)], work[Slot(lens, l', r')];
    StartOfNth(lens, l, r, s);
    StartOfNth(lens, l', r', t);
    NextHuff(lens, s, t);
  }

  /** Enters every symbol of the sorted list work into the table. */
  method BuildTable(kind: CodeType, lens: seq<nat>, count: array<nat>, work: array<nat>, table: array<Entry>,
                    root: nat, min: nat, max: nat)
      returns (ret: int, used: nat, huff: nat, next: nat, drop: nat)
    requires |lens| <= Symbols(kind) && Kraft(lens) <= FULL
    requires count.Length == MAXBITS + 1 && forall l :: 0 <= l <= MAXBITS ==> count[l] == Count(lens, l)
    requires SortedTo(lens, work[..], |lens|)
    requires 1 <= min <= root <= max <= MAXBITS && Count(lens, min) > 0 && Count(lens, max) > 0
    requires forall l :: 1 <= l < min || max < l <= MAXBITS ==> Count(lens, l) == 0
    requires kind.CODES? ==> root == max && Pow2(root) <= Space(kind)
    requires table.Length >= Space(kind)
    requires count != work
    modifies count, table
    ensures ret == 0 || (ret == 1 && !kind.CODES?)
    ensures ret == 1 <==> Exceeds(kind, TableUse(lens, root, max, min, 0, Pow2(root)))
    ensures ret == 0 ==> Pow2(root) <= used <= Space(kind)
    ensures ret == 0 ==> Decodes(kind, lens, table[..used], root, Kraft(lens))
    ensures ret == 0 ==> huff == Rev(Shr(Kraft(lens), MAXBITS - max), max)
    ensures ret == 0 && Kraft(lens) == FULL ==>
      forall i :: 0 <= i < used ==> SlotFilled(kind, lens, table[..used], root, i)
    ensures ret == 0 && root == max ==> next == drop == 0 && used == Pow2(root)
  {
    hide Low, Rev, Pow2, Shr, Shl, CodeOf, CountTo, Kraft, Building, SortedTo, Start, Below, Decodes, NextLen, SubTop,
      NeedsTable, Slot, SlotFilled, TableUse, Symbols;
    var len, sym, curr := min, 0, root;
    var low: int := -1;
    next, drop, huff := 0, 0, 0;
    used := Pow2(root);
    ret := 1;
    if Exceeds(kind, used) {
      return;
    }
    FirstSymbol(kind, lens, work[..], table[..], root, min, max);
    ghost var r: nat := 0;
    while true
      invariant min <= len <= max && r < Count(lens, len) && sym == Slot(lens, len, r) < work.Length
      invariant IsNth(lens, len, r, work[sym])
      invariant count[len] == Count(lens, len) - r && forall l :: len < l <= MAXBITS ==> count[l] == Count(lens, l)
      invariant huff == Rev(CodeOf(lens, work[sym]), len)
      invariant drop == if len <= root then 0 else root
      invariant Building(kind, lens, table[..], root, max, work[sym], Start(lens, work[sym]), next, curr, used, low)
      invariant used <= Space(kind) && !Exceeds(kind, used)
      invariant TableUse(lens, root, max, len, r, used) == TableUse(lens, root, max, min, 0, Pow2(root))
      decreases work.Length - sym
    {
      ghost var s := work[sym];
      huff := EnterSymbol(kind, lens, table, root, max, work[sym], next, curr, used, low, drop, huff);
      sym := sym + 1;
      count[len] := count[len] - 1;
      if count[len] == 0 && len == max {
        LastEnd(lens, s, max);
        TableUseEnd(lens, root, max, len, r, used);
        Finish(kind, lens, table[..], root, max, s, next, curr, used, low);
        if Kraft(lens) == FULL {
          AllFilled(kind, lens, table[..used], root, Start(lens, s));
        }
        ret := 0;
        return;
      }
      ghost var l', r' := Proceed(lens, work[..], root, max, len, r, used);
      if count[len] == 0 {
        len := lens[work[sym]];
      }
      r := r';
      ghost var t := work[sym];
      ret, next, curr, used, low, drop :=
        NextTable(kind, lens, count, table, root, max, s, t, len, r, huff, next, curr, used, low, drop);
      if ret == 1 {
        return;
      }
    }
  }

  /** Slot i holds a link or the entry of a symbol. */
  ghost predicate SlotFilled(kind: CodeType, lens: seq<nat>, tab: seq<Entry>, root: nat, i: nat)
    requires |lens| <= Symbols(kind) && i < |tab|
  {
    if i < Pow2(root) then
      || (IsLink(tab[i]) && tab[i].bits == root)
      || exists t: nat :: Used(lens, t) && lens[t] <= root && tab[i] == SymEntry(kind, t, lens[t])
    else
      exists t: nat :: Used(lens, t) && lens[t] > root && tab[i] == SymEntry(kind, t, lens[t] - root)
  }

  lemma {:induction false} RootSlotFilled(kind: CodeType, lens: seq<nat>, tab: seq<Entry>, root: nat, i: nat)
    requires |lens| <= Symbols(kind) && Kraft(lens) == FULL
    requires root <= MAXBITS && Pow2(root) <= |tab| && Decodes(kind, lens, tab, root, FULL)
    requires i < Pow2(root)
    ensures SlotFilled(kind, lens, tab, root, i)
  {
    hide Pow2, Shr, Shl, Rev, Low, Kraft, SymEntry, CodeOf;
    var m := MAXBITS - root;
    var w := Shl(Rev(i, root), m);
    Join(0, Rev(i, root), m);
    RevRev(i, root);
    LowSmall(i, root);
    assert RootIx(root, w) == i;
    ShlMonotone(Rev(i, root), Pow2(root), m);
    ShlPow2(root, m);
    FullIsPow2();
    var t := CoversExists(lens, w);
    assert Good(kind, lens, tab, root, t, w);
  }

  lemma {:induction false} SubSlotFilled(kind: CodeType, lens: seq<nat>, tab: seq<Entry>, root: nat, v: nat, i: nat)
    requires |lens| <= Symbols(kind) && Kraft(lens) == FULL
    requires root <= MAXBITS && Pow2(root) <= i < |tab| && Decodes(kind, lens, tab, root, FULL)
    requires v < FULL && Linked(tab, root, v, i)
    ensures SlotFilled(kind, lens, tab, root, i)
  {
    hide Pow2, Shr, Shl, Rev, Low, Kraft, SymOp, SymVal, CodeOf;
    var a := tab[RootIx(root, v)];
    var p, q, m := Shr(v, MAXBITS - root), Rev(i - a.val, a.op), MAXBITS - root - a.op;
    CellBound(v, root);
    var w := Shl(Shl(p, a.op) + q, m);
    SubPoint(p, q, root, a.op);
    RevRev(i - a.val, a.op);
    LowSmall(i - a.val, a.op);
    var t := CoversExists(lens, w);
    assert Good(kind, lens, tab, root, t, w);
    assert tab[a.val + SubIx(root, a.op, w)] == SymEntry(kind, t, lens[t] - root);
  }

  /** The point of root cell p and sub-table cell q. */
  lemma {:induction false} SubPoint(p: nat, q: nat, root: nat, curr: nat)
    requires root + curr <= MAXBITS && p < Pow2(root) && q < Pow2(curr)
    ensures var w := Shl(Shl(p, curr) + q, MAXBITS - root - curr);
      && w < FULL
      && Shr(w, MAXBITS - root) == p
      && Low(Shr(w, MAXBITS - root - curr), curr) == q
  {
    hide Pow2, Shr, Shl, Rev, Low;
    var m := MAXBITS - root - curr;
    var x := Shl(p, curr) + q;
    Join(0, x, m);
    Join(q, p, curr);
    ShrShr(Shl(x, m), m, curr);
    ShlMonotone(p, Pow2(root), curr);
    ShlPow2(root, curr);
    ShlMonotone(x, Pow2(root + curr), m);
    ShlPow2(root + curr, m);
    FullIsPow2();
  }

  /** A complete code leaves no allocated slot unfilled. */
  lemma {:induction false} AllFilled(kind: CodeType, lens: seq<nat>, tab: seq<Entry>, root: nat, k: nat)
    requires |lens| <= Symbols(kind) && Kraft(lens) == FULL
    requires root <= MAXBITS && Pow2(root) <= |tab| && Decodes(kind, lens, tab, root, FULL)
    requires k < FULL && Tiled(tab, root, |tab|, k)
    ensures forall i :: 0 <= i < |tab| ==> SlotFilled(kind, lens, tab, root, i)
  {
    hide Pow2, RootIx, Kraft, Decodes, SlotFilled;
    forall i | 0 <= i < |tab|
      ensures SlotFilled(kind, lens, tab, root, i)
    {
      if i < Pow2(root) {
        RootSlotFilled(kind, lens, tab, root, i);
      } else {
        assert Owned(tab, root, k, i);
        var w: nat :| w <= k && Linked(tab, root, w, i);
        SubSlotFilled(kind, lens, tab, root, w, i);
      }
    }
  }

  lemma {:induction false} Finish(kind: CodeType, lens: seq<nat>, tab: seq<Entry>, root: nat, max: nat, s: nat,
                                  next: nat, curr: nat, used: nat, low: int)
    requires Used(lens, s) && End(lens, s) == Kraft(lens)
    requires Building(kind, lens, tab, root, max, s, Kraft(lens), next, curr, used, low)
    ensures Pow2(root) <= used <= |tab|
    ensures Decodes(kind, lens, tab[..used], root, Kraft(lens))
    ensures Tiled(tab[..used], root, used, Start(lens, s))
    ensures lens[s] <= root ==> next == 0 && used == Pow2(root)
  {
    hide Low, Rev, Pow2, Shr, Shl, CodeOf, CountTo, Kraft, Start, Below, RootIx;
    TiledPrefix(tab, root, used, Start(lens, s));
    forall t: nat, w: nat | Used(lens, t) && Covers(lens, t, w) && w < Kraft(lens)
      ensures Good(kind, lens, tab[..used], root, t, w)
    {
      assert Good(kind, lens, tab, root, t, w);
    }
  }

  lemma {:induction false} TiledPrefix(tab: seq<Entry>, root: nat, used: nat, k: nat)
    requires root <= MAXBITS && Pow2(root) <= used <= |tab| && Tiled(tab, root, used, k)
    ensures Tiled(tab[..used], root, used, k)
  {
    hide Pow2, RootIx;
    forall i | Pow2(root) <= i < used
      ensures Owned(tab[..used], root, k, i)
    {
      assert Owned(tab, root, k, i);
      var w: nat :| w <= k && Linked(tab, root, w, i);
      assert Linked(tab[..used], root, w, i);
    }
  }

  // ----- inflate_table -----

  /** The code-length vectors inflate_table accepts: complete codes, no code at all, and,
      except for code-length codes, a single code of one bit. */
  ghost predicate Acceptable(kind: CodeType, lens: seq<nat>)
  {
    || Kraft(lens) == FULL
    || (forall s :: 0 <= s < |lens| ==> lens[s] == 0)
    || (!kind.CODES? && Kraft(lens) < FULL && forall s :: 0 <= s < |lens| ==> lens[s] <= 1)
  }

  /** The longest code length up to l, 0 without codes. */
  ghost function LongestTo(lens: seq<nat>, l: nat): (max: nat)
    ensures max <= l
  {
    if l == 0 || Count(lens, l) > 0 then l else LongestTo(lens, l - 1)
  }

  /** The shortest code length from l on, at most max. */
  ghost function ShortestFrom(lens: seq<nat>, l: nat, max: nat): (min: nat)
    requires l <= max
    ensures l <= min <= max
    decreases max - l
  {
    if l == max || Count(lens, l) > 0 then l else ShortestFrom(lens, l + 1, max)
  }

  /** The root index bits: the request, kept within the code lengths. */
  ghost function RootBits(lens: seq<nat>, bits: nat): (root: nat)
    ensures root <= MAXBITS
  {
    var max := LongestTo(lens, MAXBITS);
    if max == 0 then 1
    else
      var min := ShortestFrom(lens, 1, max);
      if bits > max then max else if bits < min then min else bits
  }

  /** The table slots the code needs with the requested root bits. */
  ghost function TableSize(lens: seq<nat>, bits: nat): (n: nat)
  {
    var max := LongestTo(lens, MAXBITS);
    if max == 0 then 2
    else TableUse(lens, RootBits(lens, bits), max, ShortestFrom(lens, 1, max), 0, Pow2(RootBits(lens, bits)))
  }

  /** The longest code length, 0 without codes. */
  method Longest(lens: seq<nat>, count: array<nat>) returns (max: nat)
    requires ValidLens(lens) && count.Length == MAXBITS + 1
    requires forall l :: 0 <= l <= MAXBITS ==> count[l] == Count(lens, l)
    ensures max <= MAXBITS
    ensures forall s :: 0 <= s < |lens| ==> lens[s] <= max
    ensures forall l :: max < l <= MAXBITS ==> Count(lens, l) == 0
    ensures max > 0 ==> Count(lens, max) > 0
    ensures max == LongestTo(lens, MAXBITS)
  {
    hide CountTo;
    max := MAXBITS;
    while max >= 1 && count[max] == 0
      invariant LongestTo(lens, MAXBITS) == LongestTo(lens, max)
      invariant forall l :: max < l <= MAXBITS ==> Count(lens, l) == 0
    {
      max := max - 1;
    }
    forall s | 0 <= s < |lens|
      ensures lens[s] <= max
    {
      CountToMonotone(lens, lens[s], s, |lens|);
      assert Count(lens, lens[s]) > 0;
    }
  }

  lemma {:induction false} NoCodes(lens: seq<nat>, l: nat)
    requires 1 <= l <= MAXBITS + 1
    requires forall k :: 1 <= k < l ==> Count(lens, k) == 0
    ensures Below(lens, l) == 0
    ensures l == MAXBITS + 1 ==> Kraft(lens) == 0
  {
    if l > 1 {
      NoCodes(lens, l - 1);
      ShlOne(MAXBITS - (l - 1));
    }
  }

  /** The shortest code length. */
  method Shortest(lens: seq<nat>, count: array<nat>, max: nat) returns (min: nat)
    requires count.Length == MAXBITS + 1 && 1 <= max <= MAXBITS && Count(lens, max) > 0
    requires forall l :: 0 <= l <= MAXBITS ==> count[l] == Count(lens, l)
    ensures 1 <= min <= max && Count(lens, min) > 0
    ensures forall l :: 1 <= l < min ==> Count(lens, l) == 0
    ensures min == ShortestFrom(lens, 1, max)
  {
    hide CountTo;
    min := 1;
    while min < max && count[min] == 0
      invariant 1 <= min <= max
      invariant ShortestFrom(lens, 1, max) == ShortestFrom(lens, min, max)
      invariant forall l :: 1 <= l < min ==> Count(lens, l) == 0
    {
      min := min + 1;
    }
  }

  /** Without codes every accumulator finds the invalid-code marker. */
  lemma {:induction false} EmptyTable(kind: CodeType, lens: seq<nat>, tab: seq<Entry>)
    requires |lens| <= Symbols(kind) && forall s :: 0 <= s < |lens| ==> lens[s] == 0
    requires tab == [Entry(64, 1, 0), Entry(64, 1, 0)]
    ensures TableFor(kind, lens, tab, 1)
  {
    forall hold: nat
      ensures Finds(tab, 1, hold, Entry(64, 1, 0))
    {
      assert Pow2(1) == 2;
    }
  }

  lemma {:induction false} CompleteHuff(max: nat)
    requires 1 <= max <= MAXBITS
    ensures Rev(Shr(FULL, MAXBITS - max), max) == 0
  {
    hide Low, Rev, Shr;
    FullIsPow2();
    ShlPow2(max, MAXBITS - max);
    Join(0, Pow2(max), MAXBITS - max);
    RevOfLow(Pow2(max), max);
    ShlOne(max);
    Join(0, 1, max);
    RevZero(max);
  }

  /** A complete code: every accumulator starts with some code. */
  lemma {:induction false} CompleteTable(kind: CodeType, lens: seq<nat>, tab: seq<Entry>, root: nat)
    requires |lens| <= Symbols(kind) && Kraft(lens) == FULL
    requires root <= MAXBITS && Pow2(root) <= |tab|
    requires Decodes(kind, lens, tab, root, FULL)
    requires forall i :: 0 <= i < |tab| ==> SlotFilled(kind, lens, tab, root, i)
    ensures TableFor(kind, lens, tab, root)
  {
    hide Low, Rev, Shr, CodeOf, Kraft, Good, Start, SymOp, SymVal, Finds, Pow2;
    assert forall i :: 0 <= i < |tab| && IsLink(tab[i]) ==> tab[i].bits == root by {
      forall i | 0 <= i < |tab| && IsLink(tab[i])
        ensures tab[i].bits == root
      {
        assert SlotFilled(kind, lens, tab, root, i);
      }
    }
    FullIsPow2();
    forall s: nat, hold: nat | Used(lens, s) && Covers(lens, s, Point(hold))
      ensures Finds(tab, root, hold, SymEntry(kind, s, lens[s]))
    {
      GoodFinds(kind, lens, tab, root, s, hold);
    }
  }

  /** One code of one bit uses half of the line. */
  lemma {:induction false} LoneCode(lens: seq<nat>)
    requires Kraft(lens) < FULL && Count(lens, 1) > 0
    requires forall l :: 1 < l <= MAXBITS ==> Count(lens, l) == 0
    ensures Kraft(lens) == Pow2(14)
    ensures Rev(Shr(Kraft(lens), 14), 1) == 1
  {
    hide CountTo;
    var l := 2;
    while l < MAXBITS + 1
      invariant 2 <= l <= MAXBITS + 1 && Below(lens, l) == Below(lens, 2)
    {
      ShlOne(MAXBITS - l);
      l := l + 1;
    }
    assert Below(lens, 2) == Shl(Count(lens, 1), 14);
    ShlOne(14);
    FullIsPow2();
    if Count(lens, 1) >= 2 {
      ShlMonotone(1, Count(lens, 1), 14);
    }
    Join(0, 1, 14);
  }

  /** The incomplete code that is allowed: the other bit finds the invalid-code marker. */
  lemma {:induction false} LoneTable(kind: CodeType, lens: seq<nat>, tab: seq<Entry>, tab': seq<Entry>)
    requires |lens| <= Symbols(kind) && Kraft(lens) == Pow2(14)
    requires forall s :: 0 <= s < |lens| ==> lens[s] <= 1
    requires |tab| == 2 && tab' == tab[1 := Entry(64, 1, 0)]
    requires Pow2(1) == 2 == |tab| && Decodes(kind, lens, tab, 1, Pow2(14)) && !IsLink(tab[0])
    ensures TableFor(kind, lens, tab', 1)
  {
    hide Low, Shr, CodeOf, Kraft, Start, SymOp, SymVal;
    FullIsPow2();
    forall s: nat, hold: nat | Used(lens, s) && Covers(lens, s, Point(hold))
      ensures Finds(tab', 1, hold, SymEntry(kind, s, lens[s]))
    {
      LoneHalf(Point(hold));
      StartPlace(lens, s);
      FindsDirect(tab', 1, hold, SymEntry(kind, s, lens[s]));
    }
    forall hold: nat | Point(hold) >= Kraft(lens)
      ensures Finds(tab', 1, hold, Entry(64, 1, 0))
    {
      LoneHalf(Point(hold));
      FindsDirect(tab', 1, hold, Entry(64, 1, 0));
    }
  }

  lemma {:induction false} LoneHalf(w: nat)
    requires w < Pow2(MAXBITS)
    ensures RootIx(1, w) == if w < Pow2(14) then 0 else 1
  {
    hide Shr;
    ShlOne(14);
    CellOf(w, 0, 14);
    CellOf(w, 1, 14);
    assert Pow2(15) == 2 * Pow2(14);
    assert Pow2(0) == 1;
    assert Rev(0, 1) == 0;
    assert Rev(1, 1) == 1;
  }

  /** Without codes longer than the root index there are no links. */
  lemma {:induction false} NoLinks(kind: CodeType, lens: seq<nat>, tab: seq<Entry>, root: nat)
    requires |lens| <= Symbols(kind) && Kraft(lens) == FULL
    requires root <= MAXBITS && Pow2(root) == |tab| && Decodes(kind, lens, tab, root, FULL)
    requires forall s :: 0 <= s < |lens| ==> lens[s] <= root
    ensures forall i :: 0 <= i < |tab| ==> !IsLink(tab[i])
  {
    hide Pow2, Shr, Shl, Rev, Low, Kraft, SymOp, SymVal, CodeOf;
    var m := MAXBITS - root;
    forall i | 0 <= i < |tab|
      ensures !IsLink(tab[i])
    {
      var w := Shl(Rev(i, root), m);
      Join(0, Rev(i, root), m);
      RevRev(i, root);
      LowSmall(i, root);
      assert RootIx(root, w) == i;
      ShlMonotone(Rev(i, root), Pow2(root), m);
      ShlPow2(root, m);
      FullIsPow2();
      var t := CoversExists(lens, w);
      assert Good(kind, lens, tab, root, t, w);
    }
  }

  lemma {:induction false} LoneSlot(kind: CodeType, lens: seq<nat>, tab: seq<Entry>)
    requires |lens| <= Symbols(kind) && Kraft(lens) == Pow2(14)
    requires forall s :: 0 <= s < |lens| ==> lens[s] <= 1
    requires Pow2(1) <= |tab| && Decodes(kind, lens, tab, 1, Pow2(14))
    ensures !IsLink(tab[0])
  {
    hide Shr, Shl, Rev, Low, Kraft, SymOp, SymVal, CodeOf;
    var t := CoversExists(lens, 0);
    LoneHalf(0);
    assert Good(kind, lens, tab, 1, t, 0);
  }

  /** With every code in the root table, the root table is the table. */
  lemma {:induction false} TableUseFlat(lens: seq<nat>, root: nat, max: nat, l: nat, r: nat, used: nat)
    requires root <= MAXBITS && 1 <= l <= max <= root
    ensures TableUse(lens, root, max, l, r, used) == used
    decreases max - l, Count(lens, l) - r
  {
    hide Pow2, Shr, Shl, Count, Below, SubTop, NextLen;
    if !(l == max && r + 1 >= Count(lens, l)) {
      var l' := if r + 1 < Count(lens, l) then l else NextLen(lens, l, max);
      var r' := if r + 1 < Count(lens, l) then r + 1 else 0;
      TableUseFlat(lens, root, max, l', r', used);
    }
  }

  /** Enters the codes; a lone code leaves a marker for the other half. */
  method EnterCodes(kind: CodeType, lens: seq<nat>, count: array<nat>, table: array<Entry>, root: nat, min: nat, max: nat)
      returns (ret: int, used: nat)
    requires ValidLens(lens) && |lens| <= Symbols(kind) && table.Length >= Space(kind)
    requires count.Length == MAXBITS + 1 && forall l :: 0 <= l <= MAXBITS ==> count[l] == Count(lens, l)
    requires 1 <= min <= root <= max <= MAXBITS && Count(lens, min) > 0 && Count(lens, max) > 0
    requires forall l :: 1 <= l < min || max < l <= MAXBITS ==> Count(lens, l) == 0
    requires forall s :: 0 <= s < |lens| ==> lens[s] <= max
    requires Kraft(lens) == FULL || (!kind.CODES? && Kraft(lens) < FULL && max == 1)
    requires kind.CODES? ==> root == max && Pow2(root) <= Space(kind)
    modifies count, table
    ensures ret == 0 || (ret == 1 && !kind.CODES?)
    ensures ret == 1 <==> Exceeds(kind, TableUse(lens, root, max, min, 0, Pow2(root)))
    ensures ret == 0 ==> used <= Space(kind) && TableFor(kind, lens, table[..used], root)
    ensures ret == 0 && Kraft(lens) == FULL ==> forall i :: 0 <= i < used ==> SlotFilled(kind, lens, table[..used], root, i)
    ensures ret == 0 && max <= root ==> forall i :: 0 <= i < used ==> !IsLink(table[i])
  {
    hide SlotFilled, TableUse, Low, Rev, Shr, CodeOf, Kraft, Start, CountTo, Decodes, Good, SortedTo, TableFor, Pow2;
    var work := SortSymbols(lens, count);
    var huff, next, drop;
    ret, used, huff, next, drop := BuildTable(kind, lens, count, work, table, root, min, max);
    if ret != 0 {
      return;
    }
    if Kraft(lens) == FULL {
      CompleteHuff(max);
      CompleteTable(kind, lens, table[..used], root);
      if max <= root {
        NoLinks(kind, lens, table[..used], root);
      }
    } else {
      LoneCode(lens);
      LoneSlot(kind, lens, table[..used]);
      assert Pow2(1) == 2 by { Rev1(); }
    }
    ghost var was := table[..used];
    if huff != 0 {
      table[next + huff] := Entry(64, max - drop, 0);
      LoneTable(kind, lens, was, table[..used]);
    }
  }

  /** Builds the decoding table of a canonical code: -1 for lengths that are not a code,
      1 when the table space is not enough, else 0 and a table that decodes it. */
  method MakeTable(kind: CodeType, lens: seq<nat>, table: array<Entry>, bits: nat)
      returns (ret: int, root: nat, used: nat)
    requires ValidLens(lens) && |lens| <= Symbols(kind)
    requires table.Length >= Space(kind)
    requires kind.CODES? ==> bits == 7 && forall s :: 0 <= s < |lens| ==> lens[s] <= 7
    modifies table
    ensures ret == -1 || ret == 0 || (ret == 1 && !kind.CODES?)
    ensures ret == -1 <==> !Acceptable(kind, lens)
    ensures ret == 1 <==> Acceptable(kind, lens) && Exceeds(kind, TableSize(lens, bits))
    ensures ret == 0 ==> root == RootBits(lens, bits) >= 1 && used <= Space(kind)
    ensures ret == 0 ==> TableFor(kind, lens, table[..used], root)
    ensures ret == 0 && Kraft(lens) == FULL ==>
      forall i :: 0 <= i < used ==> SlotFilled(kind, lens, table[..used], root, i)
    ensures ret == 0 && (forall s :: 0 <= s < |lens| ==> lens[s] <= root) ==>
      forall i :: 0 <= i < used ==> !IsLink(table[i])
  {
    hide SlotFilled, TableUse, LongestTo, ShortestFrom, Kraft, CountTo, TableFor, Pow2;
    used := 0;
    var count := CountLengths(lens);
    var max := Longest(lens, count);
    root := bits;
    if root > max {
      root := max;
    }
    if max == 0 {
      table[0], table[1] := Entry(64, 1, 0), Entry(64, 1, 0);
      EmptyTable(kind, lens, table[..2]);
      NoCodes(lens, MAXBITS + 1);
      return 0, 1, 2;
    }
    ghost var longest := Nth(lens, max, 0);
    var min := Shortest(lens, count, max);
    if root < min {
      root := min;
    }
    var left := CheckLengths(lens, count);
    if left < 0 {
      return -1, root, 0;
    }
    if left > 0 && (kind == CODES || max != 1) {
      return -1, root, 0;
    }
    Pow2Bound7(root);
    ret, used := EnterCodes(kind, lens, count, table, root, min, max);
  }

  lemma {:induction false} Rev1()
    ensures Pow2(1) == 2
  {
    assert Pow2(0) == 1;
  }

  lemma {:induction false} Pow2Bound7(root: nat)
    ensures root <= 7 ==> Pow2(root) <= 128
  {
    if root <= 7 { Pow2Monotone(root, 7); assert Pow2(7) == 128; }
  }
}
