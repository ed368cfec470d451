/** The table space of inflate is enough: no complete code of 286 symbols needs more than 852
    slots, no complete code of 30 symbols more than 592.

    The codes of a sub-table fill one cell of the root table. A cell whose codes have lengths
    from l to top takes at least 2^(l - root) + (top - l) codes, and the next cell starts with a
    length not below top. Slots beyond the number of codes therefore telescope. */
module Enough {
  import opened Bits
  import opened Canonical
  import opened InflateTable

  // ----- powers -----

  lemma {:induction false} Pow2Grows(a: nat, b: nat)
    requires a <= b
    ensures Pow2(b) >= Pow2(a) + (b - a)
    decreases b
  {
    if a < b { Pow2Grows(a, b - 1); }
  }

  // ----- walking through the sorted codes -----

  /** The r-th code of length l is not the last one. */
  ghost predicate More(lens: seq<nat>, max: nat, l: nat, r: nat)
  {
    1 <= l <= max <= MAXBITS && r < Count(lens, l) && Count(lens, max) > 0 && (l < max || r + 1 < Count(lens, l))
  }

  ghost function NextL(lens: seq<nat>, max: nat, l: nat, r: nat): (l': nat)
    requires More(lens, max, l, r)
  {
    if r + 1 < Count(lens, l) then l else NextLen(lens, l, max)
  }

  ghost function NextR(lens: seq<nat>, max: nat, l: nat, r: nat): (r': nat)
    requires More(lens, max, l, r)
  {
    if r + 1 < Count(lens, l) then r + 1 else 0
  }

  /** Nothing lies between a code length and the next one in use. */
  lemma {:induction false} NextLenEmpty(lens: seq<nat>, l: nat, max: nat)
    requires 1 <= l < max <= MAXBITS && Count(lens, max) > 0
    ensures var l' := NextLen(lens, l, max);
      Count(lens, l') > 0 && Below(lens, l') == Below(lens, l + 1) && Offset(lens, l') == Offset(lens, l + 1)
    decreases max - l
  {
    hide CountTo, Shl;
    if !(l + 1 == max || Count(lens, l + 1) > 0) {
      ShlOne(MAXBITS - (l + 1));
      NextLenEmpty(lens, l + 1, max);
    }
  }

  /** Codes follow each other without a gap. */
  lemma {:induction false} NextPoint(lens: seq<nat>, max: nat, l: nat, r: nat)
    requires More(lens, max, l, r)
    ensures var l', r' := NextL(lens, max, l, r), NextR(lens, max, l, r);
      && l <= l' <= max && r' < Count(lens, l') && (l' == l ==> r' == r + 1)
      && PointOf(lens, l', r') == PointOf(lens, l, r) + Pow2(MAXBITS - l)
      && Slot(lens, l', r') == Slot(lens, l, r) + 1
  {
    hide CountTo, Shl, Pow2;
    ShlNext(r, MAXBITS - l);
    if r + 1 >= Count(lens, l) {
      NextLenEmpty(lens, l, max);
      ShlOne(MAXBITS - NextLen(lens, l, max));
    }
  }

  lemma {:induction false} TableUseStep(lens: seq<nat>, root: nat, max: nat, l: nat, r: nat, used: nat)
    requires root <= MAXBITS && More(lens, max, l, r)
    ensures var l', r' := NextL(lens, max, l, r), NextR(lens, max, l, r);
      l <= l' <= max && TableUse(lens, root, max, l, r, used) == TableUse(lens, root, max, l', r',
        if NeedsTable(root, l, PointOf(lens, l, r), l', PointOf(lens, l', r'))
        then used + Pow2(SubTop(lens, root, max, PointOf(lens, l', r'), l') - root) else used)
  {
    hide CountTo, Shl, Shr, Pow2, Below, SubTop, NextLen;
  }

  /** The points of the r-th code of length l lie below the longer codes. */
  lemma {:induction false} PointBound(lens: seq<nat>, l: nat, r: nat, k: nat)
    requires 1 <= l < k <= MAXBITS + 1 && r < Count(lens, l)
    ensures PointOf(lens, l, r) + Pow2(MAXBITS - l) <= Below(lens, k)
  {
    hide CountTo, Shl, Pow2;
    ShlMonotone(r, Count(lens, l), MAXBITS - l);
    BelowMonotone(lens, l + 1, k);
  }

  lemma {:induction false} NeedsLong(root: nat, l: nat, k: nat, l': nat, k': nat)
    requires root <= MAXBITS && NeedsTable(root, l, k, l', k')
    ensures l' > root
  {
    hide Shr;
  }

  /** Each sub-table takes an even number of slots. */
  lemma {:induction false} TableUseEven(lens: seq<nat>, root: nat, max: nat, l: nat, r: nat, used: nat)
    requires root <= MAXBITS && 1 <= l <= max <= MAXBITS && Count(lens, max) > 0 && r < Count(lens, l)
    ensures TableUse(lens, root, max, l, r, used) % 2 == used % 2
    decreases max - l, Count(lens, l) - r
  {
    hide CountTo, Shl, Shr, Below, PointOf, TableUse, SubTop, NextLen, Slot, Pow2, NeedsTable;
    if More(lens, max, l, r) {
      NextPoint(lens, max, l, r);
      TableUseStep(lens, root, max, l, r, used);
      var l', r' := NextL(lens, max, l, r), NextR(lens, max, l, r);
      var k, k' := PointOf(lens, l, r), PointOf(lens, l', r');
      if NeedsTable(root, l, k, l', k') {
        NeedsLong(root, l, k, l', k');
        EvenPower(SubTop(lens, root, max, k', l') - root);
        TableUseEven(lens, root, max, l', r', used + Pow2(SubTop(lens, root, max, k', l') - root));
      } else {
        TableUseEven(lens, root, max, l', r', used);
      }
    } else {
      TableUseEnd(lens, root, max, l, r, used);
    }
  }

  // ----- cells -----

  /** Where the root cell of point k ends. */
  function CellEnd(root: nat, k: nat): (e: nat)
    requires root <= MAXBITS
  {
    Shl(Shr(k, MAXBITS - root) + 1, MAXBITS - root)
  }

  /** The r-th code of length l stands in a cell with q codes of that length left to go, whose
      last codes have length top. */
  ghost predicate InCell(lens: seq<nat>, root: nat, max: nat, l: nat, r: nat, q: nat, top: nat)
  {
    && 1 <= root < l <= top <= max <= MAXBITS && r < Count(lens, l) && q >= 1
    && var k := PointOf(lens, l, r);
    && k + Shl(q, MAXBITS - l) == CellEnd(root, k) <= Below(lens, top + 1)
    && (l < top ==> Below(lens, top) < CellEnd(root, k))
  }

  lemma {:induction false} SameEnd(root: nat, k: nat, k': nat)
    requires root <= MAXBITS && k <= k'
    ensures k' < CellEnd(root, k) ==> Shr(k', MAXBITS - root) == Shr(k, MAXBITS - root)
    ensures k' == CellEnd(root, k) ==> Shr(k', MAXBITS - root) == Shr(k, MAXBITS - root) + 1 && CellEnd(root, k') == k' + Pow2(MAXBITS - root)
  {
    hide Shl, Shr, Pow2;
    var n := MAXBITS - root;
    var c := Shr(k, n);
    CellOf(k, c, n);
    ShlNext(c, n);
    CellOf(k', c, n);
    if k' == CellEnd(root, k) {
      CellOf(k', c + 1, n);
      ShlMonotone(0, 1, n);
      ShlOne(n);
      ShlNext(c + 1, n);
    }
  }

  /** The next code, when the cell goes on. */
  lemma {:induction false} StayInCell(lens: seq<nat>, root: nat, max: nat, l: nat, r: nat, q: nat, top: nat, l': nat, r': nat)
    requires InCell(lens, root, max, l, r, q, top) && l <= l' <= max && r' < Count(lens, l') && q > 1
    requires PointOf(lens, l', r') == PointOf(lens, l, r) + Pow2(MAXBITS - l)
    ensures InCell(lens, root, max, l', r', Shl(q - 1, l' - l), top) && !NeedsTable(root, l, PointOf(lens, l, r), l', PointOf(lens, l', r'))
    ensures Shl(q - 1, l' - l) >= q - 1 + (l' - l)
  {
    hide CountTo, Shl, Shr, Pow2;
    var k, k' := PointOf(lens, l, r), PointOf(lens, l', r');
    ShlGrows(q - 1, l' - l);
    ShlNext(q - 1, MAXBITS - l);
    ShlMonotone(0, q - 1, MAXBITS - l);
    ShlOne(MAXBITS - l);
    ShlShl(q - 1, l' - l, MAXBITS - l');
    SameEnd(root, k, k');
    if l' > top {
      BelowMonotone(lens, top + 1, l');
    }
  }

  /** A cell that is used up ends with its longest length. */
  lemma {:induction false} CellUsedUp(lens: seq<nat>, root: nat, max: nat, l: nat, r: nat, top: nat)
    requires InCell(lens, root, max, l, r, 1, top)
    ensures l == top && PointOf(lens, l, r) + Pow2(MAXBITS - l) == CellEnd(root, PointOf(lens, l, r))
  {
    hide CountTo, Shl, Shr, Pow2;
    ShlOne(MAXBITS - l);
    if l < top {
      PointBound(lens, l, r, top);
    }
  }

  /** The top of a sub-table is the first length that uses up the cell. */
  lemma {:induction false} SubTopLeast(lens: seq<nat>, root: nat, max: nat, k: nat, m: nat)
    requires root <= MAXBITS && 1 <= m <= max <= MAXBITS
    ensures var top := SubTop(lens, root, max, k, m);
      (m < top ==> Below(lens, top) < k + Pow2(MAXBITS - root)) && (top < max ==> Below(lens, top + 1) >= k + Pow2(MAXBITS - root))
    decreases max - m
  {
    hide Below, Pow2;
    if m < max {
      SubTopStep(lens, root, max, k, m);
      SubTopLeast(lens, root, max, k, m + 1);
    }
  }

  /** A new cell. */
  lemma {:induction false} EnterCell(lens: seq<nat>, root: nat, max: nat, l: nat, r: nat)
    requires 1 <= root < l <= max <= MAXBITS && r < Count(lens, l) && Below(lens, max + 1) == FULL
    requires CellEnd(root, PointOf(lens, l, r)) == PointOf(lens, l, r) + Pow2(MAXBITS - root)
    ensures InCell(lens, root, max, l, r, Pow2(l - root), SubTop(lens, root, max, PointOf(lens, l, r), l))
  {
    hide CountTo, Shl, Shr, Pow2, SubTop, Below;
    var k := PointOf(lens, l, r);
    SubTopLeast(lens, root, max, k, l);
    ShlPow2(l - root, MAXBITS - l);
    PointBound(lens, l, r, max + 1);
    CellInside(root, k);
  }

  lemma {:induction false} CellInside(root: nat, k: nat)
    requires 1 <= root <= MAXBITS && k < FULL
    ensures CellEnd(root, k) <= FULL
  {
    hide Shl, Shr;
    FullPower();
    ShrBound(k, MAXBITS - root, root);
    ShlMonotone(Shr(k, MAXBITS - root) + 1, Pow2(root), MAXBITS - root);
    ShlPow2(root, MAXBITS - root);
  }

  lemma {:induction false} FullPower()
    ensures Pow2(15) == FULL && Pow2(14) == 16384 && Pow2(13) == 8192 && Pow2(12) == 4096 && Pow2(9) == 512 && Pow2(6) == 64
    ensures Pow2(5) == 32 && Pow2(8) == 256 && Pow2(1) == 2 && Pow2(0) == 1
  {
    assert Pow2(4) == 16 && Pow2(8) == 256 && Pow2(12) == 4096;
  }

  // ----- the slots of all sub-tables -----

  /** The codes from the r-th of length l on. */
  ghost function Left(lens: seq<nat>, max: nat, l: nat, r: nat): (n: int)
    requires l >= 1
  {
    Offset(lens, max + 1) - Slot(lens, l, r)
  }

  lemma {:induction false} LeftNext(lens: seq<nat>, max: nat, l: nat, r: nat)
    requires More(lens, max, l, r)
    ensures NextL(lens, max, l, r) >= 1 && Left(lens, max, NextL(lens, max, l, r), NextR(lens, max, l, r)) == Left(lens, max, l, r) - 1
  {
    hide CountTo, Shl, Pow2, Offset, Below, NextLen;
    NextPoint(lens, max, l, r);
  }

  /** The slots still to come. */
  lemma {:induction false} SubTables(lens: seq<nat>, root: nat, max: nat, l: nat, r: nat, used: nat, q: nat, top: nat)
    requires InCell(lens, root, max, l, r, q, top) && Count(lens, max) > 0 && Below(lens, max + 1) == FULL
    ensures TableUse(lens, root, max, l, r, used) + q + (max - l) + Pow2(top - root) <= used + Left(lens, max, l, r) + Pow2(max - root)
    decreases max - l, Count(lens, l) - r
  {
    hide CountTo, Shl, Shr, Pow2, Below, PointOf, Left, TableUse, SubTop, NextLen, Slot, Offset, InCell, CellEnd;
    InCellFacts(lens, root, max, l, r, q, top);
    if !More(lens, max, l, r) {
      LastCell(lens, root, max, l, r, q, top);
      TableUseEnd(lens, root, max, l, r, used);
    } else {
      NextPoint(lens, max, l, r);
      TableUseStep(lens, root, max, l, r, used);
      LeftNext(lens, max, l, r);
      var l', r' := NextL(lens, max, l, r), NextR(lens, max, l, r);
      var k, k' := PointOf(lens, l, r), PointOf(lens, l', r');
      if q > 1 {
        StayInCell(lens, root, max, l, r, q, top, l', r');
        SubTables(lens, root, max, l', r', used, Shl(q - 1, l' - l), top);
      } else {
        CellUsedUp(lens, root, max, l, r, top);
        SameEnd(root, k, k');
        EnterCell(lens, root, max, l', r');
        var top' := SubTop(lens, root, max, k', l');
        SubTables(lens, root, max, l', r', used + Pow2(top' - root), Pow2(l' - root), top');
        Pow2Grows(l - root, l' - root);
      }
    }
  }

  lemma {:induction false} InCellFacts(lens: seq<nat>, root: nat, max: nat, l: nat, r: nat, q: nat, top: nat)
    requires InCell(lens, root, max, l, r, q, top)
    ensures 1 <= root < l <= top <= max <= MAXBITS && r < Count(lens, l) && q >= 1
  {
  }

  lemma {:induction false} LastCell(lens: seq<nat>, root: nat, max: nat, l: nat, r: nat, q: nat, top: nat)
    requires InCell(lens, root, max, l, r, q, top) && l == max && r + 1 == Count(lens, l) && Below(lens, max + 1) == FULL
    ensures q == 1 && top == max && Left(lens, max, l, r) == 1
  {
    hide CountTo, Shl, Shr, Pow2;
    ShlNext(r, MAXBITS - l);
    ShlOne(MAXBITS - l);
    ShlMonotone(1, q, MAXBITS - l);
  }

  // ----- short codes -----

  lemma {:induction false} OffsetGrows(lens: seq<nat>, l: nat, k: nat)
    requires 1 <= l <= k
    ensures Offset(lens, l) <= Offset(lens, k)
    decreases k
  {
    hide CountTo;
    if l < k { OffsetGrows(lens, l, k - 1); }
  }

  /** The codes in the root table end where a cell ends. */
  lemma {:induction false} ShortEnd(lens: seq<nat>, root: nat)
    requires 1 <= root < MAXBITS
    ensures CellEnd(root, Below(lens, root + 1)) == Below(lens, root + 1) + Pow2(MAXBITS - root)
  {
    hide CountTo, Shl, Shr, Pow2, Below;
    var x := FirstCode(lens, root) + Count(lens, root);
    BelowFirst(lens, root + 1);
    assert FirstCode(lens, root + 1) == 2 * x;
    ShlDouble(x, MAXBITS - root);
    Join(0, x, MAXBITS - root);
    ShlNext(x, MAXBITS - root);
  }

  /** The first code that is too long for the root table. */
  lemma {:induction false} FirstLong(lens: seq<nat>, root: nat, max: nat, l: nat, r: nat)
    requires 1 <= l <= root < max && More(lens, max, l, r) && NextL(lens, max, l, r) > root
    ensures var l', r' := NextL(lens, max, l, r), NextR(lens, max, l, r);
      r' == 0 < Count(lens, l') && PointOf(lens, l', 0) == Below(lens, root + 1) && Slot(lens, l', 0) == Offset(lens, root + 1)
  {
    hide CountTo, Shl, Below, Offset, NextLen;
    var l' := NextL(lens, max, l, r);
    NextLenEmpty(lens, l, max);
    ShlOne(MAXBITS - l');
    BelowMonotone(lens, l + 1, root + 1);
    BelowMonotone(lens, root + 1, l');
    OffsetGrows(lens, l + 1, root + 1);
    OffsetGrows(lens, root + 1, l');
  }

  /** All sub-tables, seen from a code in the root table. */
  lemma {:induction false} AllSubTables(lens: seq<nat>, root: nat, max: nat, l: nat, r: nat, used: nat)
    requires 1 <= l <= root < max <= MAXBITS && r < Count(lens, l) && Count(lens, max) > 0 && Below(lens, max + 1) == FULL
    ensures TableUse(lens, root, max, l, r, used) + 1 + (max - root) <= used + Offset(lens, max + 1) - Offset(lens, root + 1) + Pow2(max - root)
    decreases max - l, Count(lens, l) - r
  {
    hide CountTo, Shl, Shr, Pow2, Below, PointOf, TableUse, SubTop, NextLen, Slot, Offset, InCell, CellEnd;
    NextPoint(lens, max, l, r);
    TableUseStep(lens, root, max, l, r, used);
    var l', r' := NextL(lens, max, l, r), NextR(lens, max, l, r);
    if l' <= root {
      AllSubTables(lens, root, max, l', r', used);
    } else {
      FirstLong(lens, root, max, l, r);
      ShortEnd(lens, root);
      EnterCell(lens, root, max, l', 0);
      var top' := SubTop(lens, root, max, PointOf(lens, l', 0), l');
      SubTables(lens, root, max, l', 0, used + Pow2(top' - root), Pow2(l' - root), top');
      PowersAbove(l' - root);
    }
  }

  lemma {:induction false} PowersAbove(x: nat)
    ensures Pow2(x) >= 1 + x
  {
    Pow2Grows(0, x);
  }

  // ----- counting codes -----

  lemma {:induction false} ShlLess(v: nat, a: nat, b: nat)
    requires a <= b
    ensures Shl(v, a) <= Shl(v, b)
    decreases b
  {
    if a < b { ShlLess(v, a, b - 1); }
  }

  /** Codes not shorter than l take at most the points of codes of length l. */
  lemma {:induction false} LongCodes(lens: seq<nat>, l: nat, m: nat)
    requires 1 <= l <= MAXBITS && l <= m <= MAXBITS + 1
    ensures Offset(lens, l) <= Offset(lens, m)
    ensures Below(lens, m) <= Below(lens, l) + Shl(Offset(lens, m) - Offset(lens, l), MAXBITS - l)
    decreases m
  {
    hide CountTo, Shl;
    if l < m {
      LongCodes(lens, l, m - 1);
      var c, n := Count(lens, m - 1), Offset(lens, m - 1) - Offset(lens, l);
      ShlLess(c, MAXBITS - (m - 1), MAXBITS - l);
      ShlAdd(n, c, MAXBITS - l);
    }
  }

  /** Room for c more codes of length 15 - n is left beside a power of two. */
  lemma {:induction false} PowerGap(m: nat, c: nat, n: nat)
    requires n <= m
    ensures Pow2(m + c) >= Pow2(m) + Shl(c, n)
  {
    hide Shl, Pow2;
    PowersAbove(c);
    ShlMonotone(c + 1, Pow2(c), m);
    ShlNext(c, m);
    ShlPow2(c, m);
    ShlLess(c, n, m);
  }

  /** n codes that are not complete leave at least a 2^n-th of all points. */
  lemma {:induction false} Gap(lens: seq<nat>, l: nat)
    requires 1 <= l <= MAXBITS && Below(lens, l) < FULL && Offset(lens, l) <= MAXBITS
    ensures FULL - Below(lens, l) >= Pow2(MAXBITS - Offset(lens, l))
  {
    hide CountTo, Shl, Pow2;
    FullPower();
    if l > 1 {
      var c, n, d := Count(lens, l - 1), Offset(lens, l - 1), MAXBITS - (l - 1);
      Gap(lens, l - 1);
      ShlOne(d);
      if c > 0 {
        if n + c <= l - 1 {
          PowerGap(MAXBITS - n - c, c, d);
        } else {
          OneFree(lens, l - 1);
          Pow2Monotone(MAXBITS - n - c, d);
        }
      }
    }
  }

  /** Points left by codes of at most l bits come in whole codes of l bits. */
  lemma {:induction false} OneFree(lens: seq<nat>, l: nat)
    requires 1 <= l < MAXBITS && Below(lens, l + 1) < FULL
    ensures FULL - Below(lens, l + 1) >= Pow2(MAXBITS - l)
  {
    hide CountTo, Shl, Pow2, Below;
    FullPower();
    var x := FirstCode(lens, l) + Count(lens, l);
    BelowFirst(lens, l + 1);
    assert FirstCode(lens, l + 1) == 2 * x;
    ShlDouble(x, MAXBITS - l);
    ShlPow2(l, MAXBITS - l);
    if x >= Pow2(l) {
      ShlMonotone(Pow2(l), x, MAXBITS - l);
    }
    ShlMonotone(x, Pow2(l), MAXBITS - l);
  }

  lemma {:induction false} LongestFacts(lens: seq<nat>, l: nat)
    requires l <= MAXBITS
    ensures var max := LongestTo(lens, l);
      && (max > 0 ==> Count(lens, max) > 0)
      && Below(lens, max + 1) == Below(lens, l + 1) && Offset(lens, max + 1) == Offset(lens, l + 1)
  {
    hide CountTo, Shl;
    if !(l == 0 || Count(lens, l) > 0) {
      ShlOne(MAXBITS - l);
      LongestFacts(lens, l - 1);
    }
  }

  lemma {:induction false} ShortestFacts(lens: seq<nat>, l: nat, max: nat)
    requires 1 <= l <= max <= MAXBITS && Count(lens, max) > 0
    ensures var min := ShortestFrom(lens, l, max);
      Count(lens, min) > 0 && Offset(lens, min) == Offset(lens, l)
    decreases max - l
  {
    hide CountTo;
    if !(l == max || Count(lens, l) > 0) {
      ShortestFacts(lens, l + 1, max);
    }
  }

  /** A complete code of so few symbols has at least few codes in the root table. */
  lemma {:induction false} FewShort(lens: seq<nat>, bits: nat, max: nat, few: nat)
    requires 1 <= bits < max <= MAXBITS && Below(lens, max + 1) == FULL && Count(lens, max) > 0
    requires few <= MAXBITS && Shl(|lens|, MAXBITS - 1 - bits) < Pow2(MAXBITS + 1 - few)
    ensures Offset(lens, bits + 1) >= few && Offset(lens, max + 1) <= |lens|
  {
    hide CountTo, Shl, Pow2, Below, Offset;
    var n, all := Offset(lens, bits + 1), Offset(lens, max + 1);
    OffsetBound(lens, max);
    assert all == Offset(lens, max) + Count(lens, max) by { AtOffset(lens, max); }
    LongCodes(lens, bits + 1, max + 1);
    if n < few {
      PointBound(lens, max, 0, max + 1);
      BelowMonotone(lens, bits + 1, max);
      ShlOne(MAXBITS - max);
      Gap(lens, bits + 1);
      Pow2Monotone(MAXBITS + 1 - few, MAXBITS - n);
      ShlMonotone(all - n, |lens|, MAXBITS - 1 - bits);
      assert false;
    }
  }

  lemma {:induction false} AtOffset(lens: seq<nat>, l: nat)
    requires l >= 1
    ensures Offset(lens, l + 1) == Offset(lens, l) + Count(lens, l) && Offset(lens, 1) == 0
  {
    hide CountTo;
  }

  /** Either the root table is all, or the slots beyond it are bounded by the number of codes. */
  lemma {:induction false} Slots(lens: seq<nat>, bits: nat, few: nat)
    requires Kraft(lens) == FULL && 1 <= bits < MAXBITS
    requires 1 <= few <= MAXBITS && Shl(|lens|, MAXBITS - 1 - bits) < Pow2(MAXBITS + 1 - few)
    ensures var n := TableSize(lens, bits);
      n <= Pow2(bits) || (n % 2 == 0 && n + (MAXBITS + 1 - bits) + few <= Pow2(bits) + |lens| + Pow2(MAXBITS - bits))
  {
    hide CountTo, Shl, Pow2, Below, Offset, TableUse, ShortestFrom, LongestTo;
    var max := LongestTo(lens, MAXBITS);
    LongestFacts(lens, MAXBITS);
    AtOffset(lens, 1);
    NoneBelow(lens);
    var min := ShortestFrom(lens, 1, max);
    ShortestFacts(lens, 1, max);
    if max <= bits {
      TableUseFlat(lens, max, max, min, 0, Pow2(max));
      Pow2Monotone(max, bits);
    } else {
      FewShort(lens, bits, max, few);
      if min > bits {
        OffsetGrows(lens, bits + 1, min);
      }
      AllSubTables(lens, bits, max, min, 0, Pow2(bits));
      TableUseEven(lens, bits, max, min, 0, Pow2(bits));
      Pow2Grows(max - bits, MAXBITS - bits);
      assert Pow2(bits) % 2 == 0 by { EvenPower(bits); }
    }
  }

  lemma {:induction false} NoneBelow(lens: seq<nat>)
    ensures Below(lens, 1) == 0
  {
  }

  lemma {:induction false} EvenPower(n: nat)
    requires n > 0
    ensures Pow2(n) % 2 == 0
  {
  }

  lemma {:induction false} ShlSmall(v: nat)
    ensures Shl(v, 5) == 32 * v && Shl(v, 8) == 256 * v
  {
    assert Shl(v, 1) == 2 * v;
    assert Shl(v, 2) == 4 * v;
    assert Shl(v, 3) == 8 * v;
    assert Shl(v, 4) == 16 * v;
    assert Shl(v, 5) == 32 * v;
    assert Shl(v, 6) == 64 * v;
    assert Shl(v, 7) == 128 * v;
  }

  /** ENOUGH_LENS is enough for the literal/length codes. */
  lemma {:induction false} EnoughLens(lens: seq<nat>)
    requires Kraft(lens) == FULL && |lens| <= 286
    ensures TableSize(lens, 9) <= ENOUGH_LENS
  {
    hide Kraft, TableSize;
    FullPower();
    ShlSmall(|lens|);
    Slots(lens, 9, 2);
  }

  /** ENOUGH_DISTS is enough for the distance codes. */
  lemma {:induction false} EnoughDists(lens: seq<nat>)
    requires Kraft(lens) == FULL && |lens| <= 30
    ensures TableSize(lens, 6) <= ENOUGH_DISTS
  {
    hide Kraft, TableSize;
    FullPower();
    ShlSmall(|lens|);
    Slots(lens, 6, 3);
  }

  /** Code lengths that are accepted always fit: inflate_table returns 1 for no block. */
  lemma {:induction false} NeverExceeds(kind: CodeType, lens: seq<nat>)
    requires Acceptable(kind, lens) && |lens| <= (if kind.LENS? then 286 else 30)
    ensures !Exceeds(kind, TableSize(lens, if kind.LENS? then 9 else 6))
  {
    hide Kraft, TableSize;
    if Kraft(lens) == FULL {
      if kind.LENS? { EnoughLens(lens); } else { EnoughDists(lens); }
    } else {
      LoneSize(lens, if kind.LENS? then 9 else 6);
    }
  }

  lemma {:induction false} LoneSize(lens: seq<nat>, bits: nat)
    requires bits > 1 && forall s :: 0 <= s < |lens| ==> lens[s] <= 1
    ensures TableSize(lens, bits) == 2
  {
    hide CountTo, TableUse, LongestTo, ShortestFrom;
    var max := LongestTo(lens, MAXBITS);
    LongestFacts(lens, MAXBITS);
    if max > 0 {
      var s := Nth(lens, max, 0);
      TableUseFlat(lens, 1, 1, 1, 0, Pow2(1));
      FullPower();
    }
  }
}
