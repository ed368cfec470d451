/** Sections of an executable image, each with a range of file offsets and a range of relative
    virtual addresses (RVAs): trimmed, sorted, and merged without changing what they mean. */
module AddressUnits {
  import opened Lz77

  const OFFSET_BOUND: nat := 0x7FFF_FFFF
  const RVA_BOUND: nat := 0x7FFF_FFFF
  const INVALID: nat := 0xFFFF_FFFE

  datatype Unit = Unit(offsetBegin: nat, offsetSize: nat, rvaBegin: nat, rvaSize: nat) {
    function OffsetEnd(): (e: nat) { offsetBegin + offsetSize }
    function RvaEnd(): (e: nat) { rvaBegin + rvaSize }
    predicate IsEmpty() { rvaSize == 0 }
    predicate CoversOffset(offset: nat) { RangeCovers(offsetBegin, offsetSize, offset) }
    predicate CoversRva(rva: nat) { RangeCovers(rvaBegin, rvaSize, rva) }
    predicate CoversDanglingRva(rva: nat) { CoversRva(rva) && rva - rvaBegin >= offsetSize }
    predicate HasDanglingRva() { rvaSize > offsetSize }
    function Trimmed(): (u: Unit) { this.(offsetSize := Min(offsetSize, rvaSize)) }

    function OffsetToRvaUnsafe(offset: nat): (rva: nat)
      requires CoversOffset(offset)
    {
      offset - offsetBegin + rvaBegin
    }

    function RvaToOffsetUnsafe(rva: nat, fake: nat): (offset: nat)
      requires CoversRva(rva)
    {
      if rva - rvaBegin < offsetSize then rva - rvaBegin + offsetBegin else fake + rva
    }
  }

  datatype Status = Success | ErrorOverflow | ErrorBadOverlap | ErrorBadOverlapDanglingRva | ErrorFakeOffsetBeginTooLarge

  predicate RangeIsBounded(begin: nat, size: nat, bound: nat) { begin < bound && size <= bound - begin }
  predicate RangeCovers(begin: nat, size: nat, value: nat) { begin <= value && value - begin < size }
  function Min(a: nat, b: nat): (m: nat) { if b < a then b else a }
  function Max(a: nat, b: nat): (m: nat) { if a < b then b else a }

  // ----- what units mean -----

  /** An RVA stands for an offset of the image, or dangles behind the data of its section: data
      that ends at offset end, shift away from its RVA. */
  datatype Target = Real(offset: nat) | Dangling(shift: int, end: nat)

  function Image(u: Unit, rva: nat): (t: Option<Target>)
  {
    if !u.CoversRva(rva) then None
    else if rva - u.rvaBegin < u.offsetSize then Some(Real(rva - u.rvaBegin + u.offsetBegin))
    else Some(Dangling(u.offsetBegin - u.rvaBegin, u.OffsetEnd()))
  }

  /** Some unit, taken alone, translates rva to t. */
  ghost predicate Means(us: seq<Unit>, rva: nat, t: Target)
  {
    exists u :: u in us && Image(u, rva) == Some(t)
  }

  ghost predicate SameMeaning(a: seq<Unit>, b: seq<Unit>)
  {
    forall rva: nat, t: Target :: Means(a, rva, t) <==> Means(b, rva, t)
  }

  /** Two units translate an RVA differently. */
  ghost predicate Conflict(us: seq<Unit>)
  {
    exists rva: nat, t: Target, t': Target :: Means(us, rva, t) && Means(us, rva, t') && t != t'
  }

  /** Two RVAs are translated to one offset. */
  ghost predicate Shared(us: seq<Unit>)
  {
    exists rva: nat, rva': nat, offset: nat :: Means(us, rva, Real(offset)) && Means(us, rva', Real(offset)) && rva != rva'
  }

  /** Data one byte before offset end, and one before the RVA that the shift gives it. */
  ghost predicate Behind(us: seq<Unit>, shift: int, end: nat)
  {
    end >= 1 && end - shift >= 1 && Means(us, end - shift - 1, Real(end - 1))
  }

  /** RVAs that dangle without any data before them. */
  ghost predicate Loose(us: seq<Unit>, shift: int, end: nat)
  {
    (exists rva: nat :: Means(us, rva, Dangling(shift, end))) && !Behind(us, shift, end)
  }

  /** Loose RVAs at an offset that is in use. */
  ghost predicate Perched(us: seq<Unit>)
  {
    exists shift, end: nat, rva: nat :: Loose(us, shift, end) && Means(us, rva, Real(end))
  }

  /** Loose RVAs at an offset in the middle of data. */
  ghost predicate Buried(us: seq<Unit>)
  {
    exists shift, end: nat, rva: nat :: Loose(us, shift, end) && Means(us, rva, Real(end)) && Behind(us, end - rva, end)
  }

  lemma {:induction false} MeansAppend(us: seq<Unit>, u: Unit, rva: nat, t: Target)
    ensures Means(us + [u], rva, t) <==> Means(us, rva, t) || Image(u, rva) == Some(t)
  {
    if Means(us, rva, t) {
      var v :| v in us && Image(v, rva) == Some(t);
      assert v in us + [u];
    }
    if Image(u, rva) == Some(t) {
      assert u in us + [u];
    }
  }

  /** Units with the same members mean the same. */
  lemma {:induction false} SameMembers(a: seq<Unit>, b: seq<Unit>)
    requires forall u :: (u in a && !u.IsEmpty()) <==> (u in b && !u.IsEmpty())
    ensures SameMeaning(a, b)
  {
    forall rva: nat, t: Target
      ensures Means(a, rva, t) <==> Means(b, rva, t)
    {
      if Means(a, rva, t) {
        var u :| u in a && Image(u, rva) == Some(t);
        assert u in b;
      }
      if Means(b, rva, t) {
        var u :| u in b && Image(u, rva) == Some(t);
        assert u in a;
      }
    }
  }

  lemma {:induction false} MeaningTrans(a: seq<Unit>, b: seq<Unit>, c: seq<Unit>)
    requires SameMeaning(a, b) && SameMeaning(b, c)
    ensures SameMeaning(a, c)
  {
    hide Means;
  }

  lemma {:induction false} MeaningConflict(a: seq<Unit>, b: seq<Unit>)
    requires SameMeaning(a, b)
    ensures Conflict(a) <==> Conflict(b)
    ensures Shared(a) <==> Shared(b)
  {
    hide Means;
  }

  lemma {:induction false} MeaningLoose(a: seq<Unit>, b: seq<Unit>)
    requires SameMeaning(a, b)
    ensures forall shift, end :: Loose(a, shift, end) ==> Loose(b, shift, end)
    ensures Perched(a) ==> Perched(b)
    ensures Buried(a) ==> Buried(b)
  {
    hide Means;
    forall shift, end: nat | Loose(a, shift, end)
      ensures Loose(b, shift, end)
    {
      var rva: nat :| Means(a, rva, Dangling(shift, end));
      assert Means(b, rva, Dangling(shift, end));
    }
    if Perched(a) {
      var shift, end: nat, rva: nat :| Loose(a, shift, end) && Means(a, rva, Real(end));
      assert Loose(b, shift, end) && Means(b, rva, Real(end));
    }
    if Buried(a) {
      var shift, end: nat, rva: nat :| Loose(a, shift, end) && Means(a, rva, Real(end)) && Behind(a, end - rva, end);
      assert Loose(b, shift, end) && Means(b, rva, Real(end)) && Behind(b, end - rva, end);
    }
  }

  // ----- trimming -----

  ghost predicate Bounded(u: Unit)
  {
    RangeIsBounded(u.offsetBegin, u.offsetSize, OFFSET_BOUND) && RangeIsBounded(u.rvaBegin, u.rvaSize, RVA_BOUND)
  }

  ghost predicate AllBounded(us: seq<Unit>)
  {
    forall u :: u in us ==> Bounded(u)
  }

  /** Bounded, trimmed and not empty. */
  ghost predicate Tidy(u: Unit)
  {
    Bounded(u) && u.offsetSize <= u.rvaSize && !u.IsEmpty()
  }

  function TrimAll(us: seq<Unit>): (r: seq<Unit>)
    ensures |r| == |us| && forall i :: 0 <= i < |us| ==> r[i] == us[i].Trimmed()
  {
    seq(|us|, i requires 0 <= i < |us| => us[i].Trimmed())
  }

  /** Checks for overflow and shrinks what has no RVA. */
  method Trim(units: seq<Unit>) returns (ok: bool, us: seq<Unit>)
    ensures ok <==> AllBounded(units)
    ensures ok ==> us == TrimAll(units)
  {
    us := units;
    for i := 0 to |units|
      invariant |us| == |units| && forall k :: 0 <= k < i ==> us[k] == units[k].Trimmed() && Bounded(units[k])
      invariant forall k :: i <= k < |units| ==> us[k] == units[k]
    {
      var u := us[i];
      if !RangeIsBounded(u.offsetBegin, u.offsetSize, OFFSET_BOUND) || !RangeIsBounded(u.rvaBegin, u.rvaSize, RVA_BOUND) {
        assert !Bounded(units[i]);
        return false, us;
      }
      us := us[i := u.Trimmed()];
    }
    ok := true;
  }

  /** EraseIf with IsEmpty. */
  function NonEmpty(us: seq<Unit>): (r: seq<Unit>)
    ensures forall u :: u in r <==> u in us && !u.IsEmpty()
  {
    if us == [] then [] else
      var rest := NonEmpty(us[..|us| - 1]);
      if us[|us| - 1].IsEmpty() then rest else rest + [us[|us| - 1]]
  }

  /** std::unique followed by erase. */
  function Unique(us: seq<Unit>): (r: seq<Unit>)
    ensures forall u :: u in r <==> u in us
    ensures |us| > 0 ==> |r| > 0 && r[|r| - 1] == us[|us| - 1]
  {
    if |us| <= 1 then us else
      var rest := Unique(us[..|us| - 1]);
      assert us[|us| - 2] in us[..|us| - 1];
      if us[|us| - 2] == us[|us| - 1] then rest else rest + [us[|us| - 1]]
  }

  // ----- sorting -----

  type Sorter = seq<Unit> -> seq<Unit>

  predicate RvaOrder(a: Unit, b: Unit) { a.rvaBegin < b.rvaBegin || (a.rvaBegin == b.rvaBegin && a.rvaSize <= b.rvaSize) }
  predicate OffsetOrder(a: Unit, b: Unit) { a.offsetBegin <= b.offsetBegin }
  predicate BeginOrder(a: Unit, b: Unit) { a.rvaBegin <= b.rvaBegin }

  ghost predicate SortedBy(us: seq<Unit>, before: (Unit, Unit) -> bool)
  {
    forall i, j :: 0 <= i < j < |us| ==> before(us[i], us[j])
  }

  /** Any sorting routine: the order of equal elements is left open. */
  ghost predicate Sorts(sort: Sorter, before: (Unit, Unit) -> bool)
  {
    forall us :: SortedBy(sort(us), before) && multiset(sort(us)) == multiset(us)
  }

  /** Equal offsets: sections with data first, or last. */
  predicate DataFirst(a: Unit, b: Unit) { a.offsetBegin < b.offsetBegin || (a.offsetBegin == b.offsetBegin && (a.offsetSize > 0 || b.offsetSize == 0)) }
  predicate DataLast(a: Unit, b: Unit) { a.offsetBegin < b.offsetBegin || (a.offsetBegin == b.offsetBegin && (a.offsetSize == 0 || b.offsetSize > 0)) }

  function InsertUnit(us: seq<Unit>, u: Unit, before: (Unit, Unit) -> bool): (r: seq<Unit>)
    ensures multiset(r) == multiset(us + [u])
  {
    if us == [] || before(us[|us| - 1], u) then us + [u]
    else
      var rest, last := us[..|us| - 1], us[|us| - 1];
      assert us == rest + [last];
      InsertUnit(rest, u, before) + [last]
  }

  function SortUnits(us: seq<Unit>, before: (Unit, Unit) -> bool): (r: seq<Unit>)
    ensures multiset(r) == multiset(us)
  {
    if us == [] then []
    else
      assert us == us[..|us| - 1] + [us[|us| - 1]];
      InsertUnit(SortUnits(us[..|us| - 1], before), us[|us| - 1], before)
  }

  ghost predicate IsOrder(before: (Unit, Unit) -> bool)
  {
    && (forall a, b :: before(a, b) || before(b, a))
    && (forall a, b, c :: before(a, b) && before(b, c) ==> before(a, c))
  }

  lemma {:induction false} InsertSorted(us: seq<Unit>, u: Unit, before: (Unit, Unit) -> bool)
    requires SortedBy(us, before) && IsOrder(before)
    ensures SortedBy(InsertUnit(us, u, before), before)
  {
    if us != [] {
      var n := |us| - 1;
      var rest, last := us[..n], us[n];
      if before(last, u) {
        forall i | 0 <= i < |us| ensures before(us[i], u) { if i < n { assert before(us[i], last); } }
      } else {
        InsertSorted(rest, u, before);
        var r := InsertUnit(rest, u, before);
        forall i | 0 <= i < |r| ensures before(r[i], last)
        {
          assert r[i] in multiset(r);
          if r[i] != u {
            assert r[i] in multiset(rest + [u]);
            assert r[i] in rest;
          }
        }
      }
    }
  }

  lemma {:induction false} UnitsSorted(us: seq<Unit>, before: (Unit, Unit) -> bool)
    requires IsOrder(before)
    ensures SortedBy(SortUnits(us, before), before)
  {
    if us != [] {
      UnitsSorted(us[..|us| - 1], before);
      InsertSorted(SortUnits(us[..|us| - 1], before), us[|us| - 1], before);
    }
  }

  /** A sorting routine, for any order and for any coarser one. */
  lemma {:induction false} SorterExists(sort: Sorter, before: (Unit, Unit) -> bool, coarse: (Unit, Unit) -> bool)
    requires IsOrder(before) && (forall a, b :: before(a, b) ==> coarse(a, b)) && forall us :: sort(us) == SortUnits(us, before)
    ensures Sorts(sort, before) && Sorts(sort, coarse)
  {
    hide IsOrder;
    forall us
      ensures SortedBy(sort(us), before) && SortedBy(sort(us), coarse) && multiset(sort(us)) == multiset(us)
    {
      UnitsSorted(us, before);
    }
  }

  lemma {:induction false} SortMembers(sort: Sorter, before: (Unit, Unit) -> bool, us: seq<Unit>)
    requires Sorts(sort, before)
    ensures SortedBy(sort(us), before) && |sort(us)| == |us| && forall u :: u in sort(us) <==> u in us
  {
    var s := sort(us);
    assert multiset(s) == multiset(us);
    assert |multiset(s)| == |s| && |multiset(us)| == |us|;
    forall u
      ensures u in s <==> u in us
    {
      assert u in s <==> u in multiset(s);
      assert u in us <==> u in multiset(us);
    }
  }

  lemma {:induction false} UniqueSorted(us: seq<Unit>, before: (Unit, Unit) -> bool)
    requires SortedBy(us, before)
    ensures SortedBy(Unique(us), before)
  {
    if |us| > 1 {
      var rest := us[..|us| - 1];
      UniqueSorted(rest, before);
      var r := Unique(us);
      forall i, j | 0 <= i < j < |r|
        ensures before(r[i], r[j])
      {
        if us[|us| - 2] != us[|us| - 1] && j == |r| - 1 {
          assert r[i] in Unique(rest);
          var k :| 0 <= k < |rest| && rest[k] == r[i];
          assert before(us[k], us[|us| - 1]);
        }
      }
    }
  }

  // ----- merging -----

  /** Same distance from RVA to offset. */
  predicate SameShift(s: Unit, f: Unit)
    requires s.rvaBegin <= f.rvaBegin
  {
    f.offsetBegin >= s.offsetBegin && f.offsetBegin - s.offsetBegin == f.rvaBegin - s.rvaBegin
  }

  predicate DanglingClash(s: Unit, f: Unit)
  {
    (f.HasDanglingRva() && f.OffsetEnd() < s.OffsetEnd()) || (s.HasDanglingRva() && s.OffsetEnd() < f.OffsetEnd())
  }

  function Merged(s: Unit, f: Unit): (m: Unit)
    requires s.rvaBegin <= f.rvaBegin && s.offsetBegin <= f.offsetBegin
  {
    s.(rvaSize := Max(s.rvaSize, f.RvaEnd() - s.rvaBegin), offsetSize := Max(s.offsetSize, f.OffsetEnd() - s.offsetBegin))
  }

  /** One unit meets the last merged one. */
  datatype Meeting = Apart | Joined | Refused(status: Status)

  function Meet(s: Unit, f: Unit): (m: Meeting)
    requires s.rvaBegin <= f.rvaBegin
  {
    if s.RvaEnd() < f.rvaBegin then Apart
    else
      var optional := s.RvaEnd() == f.rvaBegin;
      if !SameShift(s, f) then (if optional then Apart else Refused(ErrorBadOverlap))
      else if DanglingClash(s, f) then (if optional then Apart else Refused(ErrorBadOverlapDanglingRva))
      else Joined
  }

  /** A merged unit translates what either unit translated, as it did. */
  lemma {:induction false} MergeImage(s: Unit, f: Unit, rva: nat, t: Target)
    requires Tidy(s) && Tidy(f) && s.rvaBegin <= f.rvaBegin <= s.RvaEnd() && SameShift(s, f) && !DanglingClash(s, f)
    ensures Image(Merged(s, f), rva) == Some(t) <==> Image(s, rva) == Some(t) || Image(f, rva) == Some(t)
    ensures Tidy(Merged(s, f)) && Merged(s, f).RvaEnd() >= s.RvaEnd()
  {
  }

  /** An RVA that overlapping units translate differently when they cannot be merged. */
  function Witness(s: Unit, f: Unit): (rva: nat)
    requires s.rvaBegin <= f.rvaBegin
  {
    if !SameShift(s, f) then f.rvaBegin
    else if f.HasDanglingRva() && f.OffsetEnd() < s.OffsetEnd() then f.rvaBegin + f.offsetSize
    else if s.OffsetEnd() >= f.offsetBegin then s.rvaBegin + s.offsetSize
    else f.rvaBegin
  }

  lemma {:induction false} MeetConflict(s: Unit, f: Unit)
    requires Tidy(s) && Tidy(f) && s.rvaBegin <= f.rvaBegin < s.RvaEnd() && (!SameShift(s, f) || DanglingClash(s, f))
    ensures var r := Witness(s, f); Image(s, r).Some? && Image(f, r).Some? && Image(s, r) != Image(f, r)
  {
  }

  /** The offset an RVA gets: its own, or a fake one. */
  function Shown(t: Target, rva: nat, fake: nat): (offset: nat)
  {
    if t.Real? then t.offset else fake + rva
  }

  /** Some RVA would get two different offsets. */
  ghost predicate Differs(s: Unit, f: Unit, fake: nat)
  {
    exists rva: nat :: Image(s, rva).Some? && Image(f, rva).Some? && Shown(Image(s, rva).value, rva, fake) != Shown(Image(f, rva).value, rva, fake)
  }

  /** A conflict is one about offsets unless all RVAs that the two units share dangle in both: then they
      only disagree about the data before those RVAs. */
  lemma {:induction false} MeetDiffers(s: Unit, f: Unit, fake: nat)
    requires Tidy(s) && Tidy(f) && s.rvaBegin <= f.rvaBegin < s.RvaEnd() && (!SameShift(s, f) || DanglingClash(s, f))
    requires s.OffsetEnd() <= fake && f.OffsetEnd() <= fake
    ensures Differs(s, f, fake) <==> f.offsetSize > 0 || f.rvaBegin < s.rvaBegin + s.offsetSize
  {
    MeetConflict(s, f);
    var r := Witness(s, f);
    if f.offsetSize > 0 || f.rvaBegin < s.rvaBegin + s.offsetSize {
      assert Shown(Image(s, r).value, r, fake) != Shown(Image(f, r).value, r, fake);
    }
  }

  /** The exclusive upper bounds of the offsets and of the RVAs in use. */
  function OffsetBound(us: seq<Unit>): (b: nat)
  {
    if us == [] then 0 else Max(OffsetBound(us[..|us| - 1]), us[|us| - 1].OffsetEnd())
  }

  function RvaBound(us: seq<Unit>): (b: nat)
  {
    if us == [] then 0 else Max(RvaBound(us[..|us| - 1]), us[|us| - 1].RvaEnd())
  }

  lemma {:induction false} BoundLeast(us: seq<Unit>)
    ensures forall u :: u in us ==> u.OffsetEnd() <= OffsetBound(us) && u.RvaEnd() <= RvaBound(us)
    ensures OffsetBound(us) == 0 || exists u :: u in us && u.OffsetEnd() == OffsetBound(us)
    ensures RvaBound(us) == 0 || exists u :: u in us && u.RvaEnd() == RvaBound(us)
  {
    if us != [] {
      BoundLeast(us[..|us| - 1]);
      assert us[|us| - 1] in us;
    }
  }

  lemma {:induction false} BoundAppend(us: seq<Unit>, u: Unit)
    ensures OffsetBound(us + [u]) == Max(OffsetBound(us), u.OffsetEnd())
    ensures RvaBound(us + [u]) == Max(RvaBound(us), u.RvaEnd())
  {
    assert (us + [u])[..|us|] == us;
  }

  lemma {:induction false} BoundMembers(a: seq<Unit>, b: seq<Unit>)
    requires forall u :: u in a <==> u in b
    ensures OffsetBound(a) == OffsetBound(b) && RvaBound(a) == RvaBound(b)
  {
    hide OffsetBound, RvaBound;
    BoundLeast(a);
    BoundLeast(b);
  }

  /** No unit is without data. */
  ghost predicate HasData(us: seq<Unit>)
  {
    forall u :: u in us ==> u.offsetSize > 0
  }

  /** No neighbours are left that could be merged. */
  ghost predicate Unjoined(us: seq<Unit>)
  {
    forall i :: 0 <= i < |us| - 1 ==> us[i].rvaBegin <= us[i + 1].rvaBegin && Meet(us[i], us[i + 1]) == Apart
  }

  /** What the loop has to keep: disjoint units so far, of the same meaning as those read. */
  ghost predicate Merging(done: seq<Unit>, read: seq<Unit>)
  {
    && |done| > 0 && SameMeaning(done, read)
    && (forall u :: u in done ==> Tidy(u))
    && (forall i, j :: 0 <= i < j < |done| ==> done[i].RvaEnd() <= done[j].rvaBegin)
    && OffsetBound(done) == OffsetBound(read) && RvaBound(done) == RvaBound(read)
    && Unjoined(done)
  }

  lemma {:induction false} MergingOne(u: Unit)
    requires Tidy(u)
    ensures Merging([u], [u])
  {
    hide Means;
  }

  /** The next unit is kept as it is. */
  lemma {:induction false} MergingNext(done: seq<Unit>, read: seq<Unit>, f: Unit)
    requires Merging(done, read) && Tidy(f) && done[|done| - 1].RvaEnd() <= f.rvaBegin && Meet(done[|done| - 1], f) == Apart
    ensures Merging(done + [f], read + [f])
  {
    hide Means, Image, OffsetBound, RvaBound;
    var done', read' := done + [f], read + [f];
    forall rva: nat, t: Target
      ensures Means(done', rva, t) <==> Means(read', rva, t)
    {
      MeansAppend(done, f, rva, t);
      MeansAppend(read, f, rva, t);
    }
    BoundAppend(done, f);
    BoundAppend(read, f);
    var last := done[|done| - 1];
    forall i | 0 <= i < |done|
      ensures done[i].RvaEnd() <= f.rvaBegin
    {
      if i < |done| - 1 {
        assert done[i].RvaEnd() <= last.rvaBegin;
      }
    }
  }

  lemma {:induction false} UnjoinedInto(done: seq<Unit>, f: Unit)
    requires |done| > 0 && Unjoined(done) && Tidy(f) && forall u :: u in done ==> Tidy(u)
    requires var s := done[|done| - 1]; s.rvaBegin <= f.rvaBegin <= s.RvaEnd() && SameShift(s, f)
    ensures Unjoined(done[|done| - 1 := Merged(done[|done| - 1], f)])
  {
    var n := |done| - 1;
    if n > 0 { assert done[n - 1] in done && done[n] in done; }
  }

  /** The next unit is merged into the last one. */
  lemma {:induction false} MergingInto(done: seq<Unit>, read: seq<Unit>, f: Unit)
    requires Merging(done, read) && Tidy(f)
    requires var s := done[|done| - 1]; s.rvaBegin <= f.rvaBegin <= s.RvaEnd() && SameShift(s, f) && !DanglingClash(s, f)
    ensures Merging(done[|done| - 1 := Merged(done[|done| - 1], f)], read + [f])
  {
    hide Means, Image, OffsetBound, RvaBound, Unjoined, DanglingClash, Tidy;
    var n := |done| - 1;
    var s, init, read' := done[n], done[..n], read + [f];
    var m := Merged(s, f);
    var done' := done[n := m];
    assert done == init + [s] && done' == init + [m];
    assert s in done;
    MergeImage(s, f, 0, Real(0));
    UnjoinedInto(done, f);
    forall rva: nat, t: Target
      ensures Means(done', rva, t) <==> Means(read', rva, t)
    {
      MeansAppend(init, s, rva, t);
      MeansAppend(init, m, rva, t);
      MeansAppend(read, f, rva, t);
      MergeImage(s, f, rva, t);
    }
    BoundAppend(init, s);
    BoundAppend(init, m);
    BoundAppend(read, f);
  }

  /** The conflict found in the merged units is one of the units read. */
  lemma {:induction false} MergingConflict(done: seq<Unit>, read: seq<Unit>, f: Unit, all: seq<Unit>)
    requires Merging(done, read) && Tidy(f) && read + [f] <= all
    requires var s := done[|done| - 1]; s.rvaBegin <= f.rvaBegin < s.RvaEnd() && (!SameShift(s, f) || DanglingClash(s, f))
    ensures Conflict(all)
  {
    hide Image, OffsetBound, RvaBound;
    var s, some := done[|done| - 1], read + [f];
    MeetConflict(s, f);
    var r := Witness(s, f);
    var t, t' := Image(s, r).value, Image(f, r).value;
    assert s in done && Means(done, r, t) && Means(read, r, t);
    MeansAppend(read, f, r, t);
    MeansAppend(read, f, r, t');
    MeansPrefix(some, all, r, t);
    MeansPrefix(some, all, r, t');
  }

  lemma {:induction false} MeansPrefix(a: seq<Unit>, b: seq<Unit>, rva: nat, t: Target)
    requires a <= b
    ensures Means(a, rva, t) ==> Means(b, rva, t)
  {
    if Means(a, rva, t) {
      var u :| u in a && Image(u, rva) == Some(t);
      assert u in b;
    }
  }

  lemma {:induction false} SortedBegin(us: seq<Unit>, i: nat, j: nat)
    requires SortedBy(us, RvaOrder) && i < j < |us|
    ensures us[i].rvaBegin <= us[j].rvaBegin
  {
    assert RvaOrder(us[i], us[j]);
  }

  /** Scan for RVA overlaps, validate, and merge wherever possible, in place. */
  method MergeUnits(units: array<Unit>) returns (status: Status, n: nat)
    requires units.Length > 0 && SortedBy(units[..], RvaOrder) && forall u :: u in units[..] ==> Tidy(u)
    modifies units
    ensures n <= units.Length
    ensures status == Success ==> Merging(units[..n], old(units[..]))
    ensures status != Success ==> (status == ErrorBadOverlap || status == ErrorBadOverlapDanglingRva) && Conflict(old(units[..]))
  {
    hide Merging, Means, Conflict, SameMeaning, SortedBy, Tidy, Ahead, DanglingClash;
    ghost var all := units[..];
    var slow, fast := 0, 1;
    assert units[0] in all && units[..1] == [units[0]] == all[..1];
    MergingOne(units[0]);
    AheadRest(all, 0);
    while fast < units.Length
      invariant 0 <= slow < fast <= units.Length
      invariant units[fast..] == all[fast..]
      invariant Merging(units[..slow + 1], all[..fast]) && Ahead(units[slow].rvaBegin, all, fast)
    {
      var s, f := units[slow], units[fast];
      ghost var done, read := units[..slow + 1], all[..fast];
      assert f == all[fast] by { assert units[fast..][0] == all[fast..][0]; }
      assert f in all && all[..fast + 1] == read + [f] && done[|done| - 1] == s;
      AheadRest(all, fast);
      AheadNext(s.rvaBegin, all, fast);
      var meeting := Meet(s, f);
      if meeting.Refused? {
        MergingConflict(done, read, f, all);
        return meeting.status, 0;
      }
      if meeting.Apart? {
        slow := slow + 1;
        units[slow] := f;
        assert units[..slow + 1] == done + [f];
        MergingNext(done, read, f);
      } else {
        units[slow] := Merged(s, f);
        assert units[..slow + 1] == done[|done| - 1 := Merged(s, f)];
        MergingInto(done, read, f);
      }
      fast := fast + 1;
      assert units[fast..] == all[fast..];
    }
    assert all[..fast] == all;
    return Success, slow + 1;
  }

  /** From index from on, nothing begins before rva. */
  ghost predicate Ahead(rva: nat, us: seq<Unit>, from: nat)
  {
    forall i :: from <= i < |us| ==> rva <= us[i].rvaBegin
  }

  lemma {:induction false} AheadRest(us: seq<Unit>, k: nat)
    requires SortedBy(us, RvaOrder) && k < |us|
    ensures Ahead(us[k].rvaBegin, us, k + 1)
  {
    forall i | k < i < |us|
      ensures us[k].rvaBegin <= us[i].rvaBegin
    {
      SortedBegin(us, k, i);
    }
  }

  lemma {:induction false} AheadNext(rva: nat, us: seq<Unit>, k: nat)
    requires Ahead(rva, us, k) && k < |us|
    ensures rva <= us[k].rvaBegin && Ahead(rva, us, k + 1)
  {
  }
}
