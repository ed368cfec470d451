/** The canonical Huffman code of a code-length vector (section 3.2.2 of RFC 1951).

    Codes of at most 15 bits are laid out on the line 0 .. 2^15: a code of length l
    owns 2^(15-l) consecutive points, shorter codes come first and equal lengths are
    ordered by symbol. A bit stream picks the point whose 15 bits it starts with, most
    significant first. Prefix freedom, completeness and decoding are then facts about
    disjoint intervals. */
module Canonical {
  import opened Bits

  const MAXBITS: nat := 15

  ghost predicate ValidLens(lens: seq<nat>)
  {
    forall s :: 0 <= s < |lens| ==> lens[s] <= MAXBITS
  }

  /** Symbol s has a code. */
  predicate Used(lens: seq<nat>, s: nat)
  {
    s < |lens| && 1 <= lens[s] <= MAXBITS
  }

  /** How many of the first n symbols have length l. */
  function CountTo(lens: seq<nat>, l: nat, n: nat): (r: nat)
    requires n <= |lens|
    ensures r <= n
  {
    if n == 0 then 0 else CountTo(lens, l, n - 1) + (if lens[n - 1] == l then 1 else 0)
  }

  function Count(lens: seq<nat>, l: nat): (r: nat)
  {
    CountTo(lens, l, |lens|)
  }

  /** The first code of length l. */
  function FirstCode(lens: seq<nat>, l: nat): (r: nat)
    requires l >= 1
  {
    if l == 1 then 0 else 2 * (FirstCode(lens, l - 1) + Count(lens, l - 1))
  }

  function CodeOf(lens: seq<nat>, s: nat): (r: nat)
    requires Used(lens, s)
  {
    FirstCode(lens, lens[s]) + CountTo(lens, lens[s], s)
  }

  /** The points owned by codes shorter than l. */
  function Below(lens: seq<nat>, l: nat): (r: nat)
    requires 1 <= l <= MAXBITS + 1
  {
    if l == 1 then 0 else Below(lens, l - 1) + Shl(Count(lens, l - 1), MAXBITS - (l - 1))
  }

  /** The points owned by all codes: 2^15 for a complete code. */
  function Kraft(lens: seq<nat>): (r: nat)
  {
    Below(lens, MAXBITS + 1)
  }

  const FULL: nat := 32768

  function Start(lens: seq<nat>, s: nat): (r: nat)
    requires Used(lens, s)
  {
    Shl(CodeOf(lens, s), MAXBITS - lens[s])
  }

  /** Point w belongs to the code of symbol s. */
  predicate Covers(lens: seq<nat>, s: nat, w: nat)
    requires Used(lens, s)
  {
    Start(lens, s) <= w < Start(lens, s) + Pow2(MAXBITS - lens[s])
  }

  /** The code of s as it is sent: bit-reversed, least significant bit first. */
  function CodeWord(lens: seq<nat>, s: nat): (b: BitString)
    requires Used(lens, s)
    ensures |b| == lens[s]
  {
    ToBits(Rev(CodeOf(lens, s), lens[s]), lens[s])
  }

  // ----- counting -----

  lemma {:induction false} CountToMonotone(lens: seq<nat>, l: nat, m: nat, n: nat)
    requires m <= n <= |lens|
    ensures CountTo(lens, l, m) <= CountTo(lens, l, n)
    ensures m < n && lens[m] == l ==> CountTo(lens, l, m) < CountTo(lens, l, n)
    decreases n
  {
    if m < n { CountToMonotone(lens, l, m, n - 1); }
  }

  /** The r-th symbol of length l. */
  function Nth(lens: seq<nat>, l: nat, r: nat): (s: nat)
    requires r < Count(lens, l)
    ensures s < |lens| && lens[s] == l && CountTo(lens, l, s) == r
  {
    NthBelow(lens, l, r, |lens|)
  }

  function NthBelow(lens: seq<nat>, l: nat, r: nat, n: nat): (s: nat)
    requires n <= |lens| && r < CountTo(lens, l, n)
    ensures s < n && lens[s] == l && CountTo(lens, l, s) == r
  {
    if lens[n - 1] == l && CountTo(lens, l, n - 1) == r then n - 1 else NthBelow(lens, l, r, n - 1)
  }

  lemma {:induction false} RankInjective(lens: seq<nat>, l: nat, s: nat, t: nat)
    requires s < |lens| && t < |lens| && lens[s] == l == lens[t]
    requires CountTo(lens, l, s) == CountTo(lens, l, t)
    ensures s == t
  {
    if s < t { CountToMonotone(lens, l, s, t); }
    if t < s { CountToMonotone(lens, l, t, s); }
  }

  // ----- the layout of the line -----

  lemma {:induction false} BelowFirst(lens: seq<nat>, l: nat)
    requires 1 <= l <= MAXBITS
    ensures Below(lens, l) == Shl(FirstCode(lens, l), MAXBITS - l)
  {
    if l == 1 {
      ShlOne(MAXBITS - 1);
    } else {
      BelowFirst(lens, l - 1);
      var a, b := FirstCode(lens, l - 1), Count(lens, l - 1);
      ShlAdd(a, b, MAXBITS - (l - 1));
      ShlShl(a + b, 1, MAXBITS - l);
      assert Shl(a + b, 1) == 2 * Shl(a + b, 0);
    }
  }

  lemma {:induction false} BelowMonotone(lens: seq<nat>, l: nat, k: nat)
    requires 1 <= l <= k <= MAXBITS + 1
    ensures Below(lens, l) <= Below(lens, k)
    decreases k
  {
    if l < k { BelowMonotone(lens, l, k - 1); }
  }

  /** The interval of s sits inside the stretch of its length, after its predecessors. */
  lemma {:induction false} StartPlace(lens: seq<nat>, s: nat)
    requires Used(lens, s)
    ensures var l := lens[s];
            && Start(lens, s) == Below(lens, l) + Shl(CountTo(lens, l, s), MAXBITS - l)
            && Start(lens, s) + Pow2(MAXBITS - l) <= Below(lens, l + 1) <= Kraft(lens)
  {
    var l := lens[s];
    var r := CountTo(lens, l, s);
    BelowFirst(lens, l);
    ShlAdd(FirstCode(lens, l), r, MAXBITS - l);
    CountToMonotone(lens, l, s, |lens|);
    ShlMonotone(r, Count(lens, l), MAXBITS - l);
    BelowMonotone(lens, l + 1, MAXBITS + 1);
  }

  /** No point belongs to two codes. */
  lemma {:induction false} CoversUnique(lens: seq<nat>, s: nat, t: nat, w: nat)
    requires Used(lens, s) && Used(lens, t)
    requires Covers(lens, s, w) && Covers(lens, t, w)
    ensures s == t
  {
    StartPlace(lens, s);
    StartPlace(lens, t);
    var l, k := lens[s], lens[t];
    if l < k {
      BelowMonotone(lens, l + 1, k);
    } else if k < l {
      BelowMonotone(lens, k + 1, l);
    } else {
      var i, j := CountTo(lens, l, s), CountTo(lens, l, t);
      if i < j { ShlMonotone(i, j, MAXBITS - l); }
      if j < i { ShlMonotone(j, i, MAXBITS - l); }
      RankInjective(lens, l, s, t);
    }
  }

  /** Every point below the Kraft sum belongs to some code. */
  lemma {:induction false} CoversExists(lens: seq<nat>, w: nat) returns (s: nat)
    requires w < Kraft(lens)
    ensures Used(lens, s) && Covers(lens, s, w)
  {
    var l := LengthAt(lens, w, MAXBITS + 1);
    var m := MAXBITS - l;
    var r := Shr(w - Below(lens, l), m);
    CellOf(w - Below(lens, l), r, m);
    if r >= Count(lens, l) {
      ShlMonotone(Count(lens, l), r, m);
      assert false;
    }
    s := Nth(lens, l, r);
    StartPlace(lens, s);
  }

  lemma {:induction false} LengthAt(lens: seq<nat>, w: nat, k: nat) returns (l: nat)
    requires 1 <= k <= MAXBITS + 1 && w < Below(lens, k)
    ensures 1 <= l <= MAXBITS && Below(lens, l) <= w < Below(lens, l + 1)
  {
    if w < Below(lens, k - 1) {
      l := LengthAt(lens, w, k - 1);
    } else {
      l := k - 1;
    }
  }

  lemma {:induction false} FullIsPow2()
    ensures Pow2(MAXBITS) == FULL
  {
    assert Pow2(5) == 32;
    assert Pow2(10) == 1024;
  }

  /** Without over-subscription a code fits its length. */
  lemma {:induction false} CodeFits(lens: seq<nat>, s: nat)
    requires Used(lens, s) && Kraft(lens) <= FULL
    ensures CodeOf(lens, s) < Pow2(lens[s])
  {
    StartPlace(lens, s);
    FullIsPow2();
    var m := MAXBITS - lens[s];
    ShlPow2(lens[s], m);
    if CodeOf(lens, s) >= Pow2(lens[s]) { ShlMonotone(Pow2(lens[s]), CodeOf(lens, s), m); }
  }

  // ----- bit streams -----

  /** The point a bit accumulator selects: its low 15 bits, first bit on top. */
  function Point(hold: nat): (w: nat)
    ensures w < Pow2(MAXBITS)
  {
    Rev(hold, MAXBITS)
  }

  lemma {:induction false} PointCell(lens: seq<nat>, s: nat, hold: nat)
    requires Used(lens, s) && Kraft(lens) <= FULL
    ensures Covers(lens, s, Point(hold)) <==> Low(hold, lens[s]) == Rev(CodeOf(lens, s), lens[s])
  {
    var l, c := lens[s], CodeOf(lens, s);
    RevShr(hold, MAXBITS, MAXBITS - l);
    CellOf(Point(hold), c, MAXBITS - l);
    CodeFits(lens, s);
    LowSmall(c, l);
    RevRev(c, l);
    RevRev(Low(hold, l), l);
    LowLow(hold, l, l);
  }

  /** A stream selects a point of s exactly when it starts with the code word of s. */
  lemma {:induction false} WordCovers(lens: seq<nat>, s: nat, b: BitString)
    requires Used(lens, s) && Kraft(lens) <= FULL && |b| >= lens[s]
    ensures CodeWord(lens, s) <= b <==> Covers(lens, s, Point(Lsb(b)))
  {
    var l, c := lens[s], CodeOf(lens, s);
    PointCell(lens, s, Lsb(b));
    LsbSplit(b, l);
    LsbToBits(Rev(c, l), l);
    LowSmall(Rev(c, l), l);
    ToBitsLsb(b[..l]);
    assert CodeWord(lens, s) <= b <==> CodeWord(lens, s) == b[..l];
  }

  /** Code words are prefix free. */
  lemma {:induction false} PrefixFree(lens: seq<nat>, s: nat, t: nat)
    requires Used(lens, s) && Used(lens, t) && Kraft(lens) <= FULL
    requires CodeWord(lens, s) <= CodeWord(lens, t)
    ensures s == t
  {
    var b := CodeWord(lens, t);
    WordCovers(lens, s, b);
    WordCovers(lens, t, b);
    CoversUnique(lens, s, t, Point(Lsb(b)));
  }
}
