/** Translation between file offsets and relative virtual addresses (RVAs): the tables, the
    look-ups, and the caches of the last unit found. */
module AddressTranslator {
  import opened Lz77
  import opened AddressUnits

  ghost predicate RvasApart(us: seq<Unit>)
  {
    forall i, j :: 0 <= i < j < |us| ==> us[i].RvaEnd() <= us[j].rvaBegin
  }

  ghost predicate OffsetsApart(us: seq<Unit>)
  {
    forall i, j :: 0 <= i < j < |us| ==> us[i].OffsetEnd() <= us[j].offsetBegin
  }

  /** Units apart translate no RVA twice. */
  lemma {:induction false} NoConflict(us: seq<Unit>)
    requires RvasApart(us)
    ensures !Conflict(us)
  {
    forall rva: nat, t, t' | Means(us, rva, t) && Means(us, rva, t')
      ensures t == t'
    {
      var u :| u in us && Image(u, rva) == Some(t);
      var v :| v in us && Image(v, rva) == Some(t');
      var i :| 0 <= i < |us| && us[i] == u;
      var j :| 0 <= j < |us| && us[j] == v;
      assert i == j;
    }
  }

  /** Units apart give no offset to two RVAs. */
  lemma {:induction false} NotShared(us: seq<Unit>)
    requires OffsetsApart(us)
    ensures !Shared(us)
  {
    hide OffsetsApart;
    forall rva: nat, rva': nat, offset: nat | Means(us, rva, Real(offset)) && Means(us, rva', Real(offset))
      ensures rva == rva'
    {
      var u :| u in us && Image(u, rva) == Some(Real(offset));
      var v :| v in us && Image(v, rva') == Some(Real(offset));
      OffsetOnce(us, u, v, offset);
    }
  }

  lemma {:induction false} OffsetOnce(us: seq<Unit>, u: Unit, v: Unit, offset: nat)
    requires OffsetsApart(us) && u in us && v in us && u.CoversOffset(offset) && v.CoversOffset(offset)
    ensures u == v
  {
    var i :| 0 <= i < |us| && us[i] == u;
    var j :| 0 <= j < |us| && us[j] == v;
    assert i == j;
  }

  // ----- from the sections to the tables -----

  /** The sections t, without overlap of RVAs. */
  ghost predicate Resolved(us: seq<Unit>, t: seq<Unit>)
  {
    && SameMeaning(us, t) && RvasApart(us) && (forall u :: u in us ==> Tidy(u))
    && OffsetBound(us) == OffsetBound(NonEmpty(t)) && RvaBound(us) == RvaBound(NonEmpty(t))
    && Unjoined(us)
  }

  /** The units to merge: sorted, and the sections but the empty ones. */
  ghost predicate Prepared(us: seq<Unit>, t: seq<Unit>)
  {
    && SortedBy(us, RvaOrder) && (forall u :: u in us ==> Tidy(u))
    && forall u :: u in us <==> u in NonEmpty(t)
  }

  lemma {:induction false} PreparedUnits(units: seq<Unit>, sort: Sorter)
    requires AllBounded(units) && Sorts(sort, RvaOrder)
    ensures Prepared(Unique(sort(NonEmpty(TrimAll(units)))), TrimAll(units))
  {
    hide Sorts, Unique, SortedBy, NonEmpty;
    var t := TrimAll(units);
    SortMembers(sort, RvaOrder, NonEmpty(t));
    UniqueSorted(sort(NonEmpty(t)), RvaOrder);
    forall u | u in NonEmpty(t)
      ensures Tidy(u)
    {
      var i :| 0 <= i < |t| && t[i] == u;
      assert units[i] in units;
    }
  }

  lemma {:induction false} PreparedMeaning(us: seq<Unit>, t: seq<Unit>)
    requires Prepared(us, t)
    ensures SameMeaning(us, t) && OffsetBound(us) == OffsetBound(NonEmpty(t)) && RvaBound(us) == RvaBound(NonEmpty(t))
  {
    hide OffsetBound, RvaBound, SortedBy, SameMeaning;
    SameMembers(us, t);
    BoundMembers(us, NonEmpty(t));
  }

  lemma {:induction false} ResolvedUnits(us: seq<Unit>, read: seq<Unit>, t: seq<Unit>)
    requires Prepared(read, t) && (Merging(us, read) || (us == read && |us| <= 1))
    ensures Resolved(us, t)
  {
    hide SameMeaning, OffsetBound, RvaBound, SortedBy, NonEmpty;
    PreparedMeaning(read, t);
    if us != read {
      MeaningTrans(us, read, t);
    }
  }

  /** Checks, trims, sorts and merges the sections. */
  method Resolve(units: seq<Unit>, sort: Sorter) returns (status: Status, us: seq<Unit>)
    requires Sorts(sort, RvaOrder)
    ensures status == ErrorOverflow <==> !AllBounded(units)
    ensures status == Success ==> Resolved(us, TrimAll(units))
    ensures status == ErrorBadOverlap || status == ErrorBadOverlapDanglingRva ==> Conflict(TrimAll(units))
    ensures status != ErrorFakeOffsetBeginTooLarge
  {
    hide AllBounded, Sorts, Merging, Means, Conflict, SortedBy, Resolved, NonEmpty, Unique;
    var ok;
    ok, us := Trim(units);
    if !ok {
      return ErrorOverflow, us;
    }
    ghost var t := us;
    PreparedUnits(units, sort);
    us := Unique(sort(NonEmpty(us)));
    PreparedMeaning(us, t);
    status := Success;
    ghost var read := us;
    if |us| > 1 {
      var a := new Unit[|us|](i requires 0 <= i < |us| => us[i]);
      assert a[..] == us;
      var n;
      status, n := MergeUnits(a);
      us := a[..n];
      if status != Success {
        MeaningConflict(read, t);
        return;
      }
    }
    ResolvedUnits(us, read, t);
  }

  /** Any offset overlap that is left is an error. */
  method CheckOffsets(us: seq<Unit>) returns (ok: bool, ghost at: nat)
    requires SortedBy(us, OffsetOrder)
    ensures ok <==> OffsetsApart(us)
    ensures !ok ==> at + 1 < |us| && us[at].OffsetEnd() > us[at + 1].offsetBegin
  {
    ok, at := true, 0;
    if |us| > 1 {
      var previous := us[0];
      for current := 1 to |us|
        invariant previous == us[current - 1] && OffsetsApart(us[..current])
      {
        if previous.OffsetEnd() > us[current].offsetBegin {
          return false, current - 1;
        }
        previous := us[current];
      }
      assert us[..|us|] == us;
    }
  }

  method Bounds(us: seq<Unit>) returns (offsetBound: nat, rvaBound: nat)
    ensures offsetBound == OffsetBound(us) && rvaBound == RvaBound(us)
  {
    offsetBound, rvaBound := 0, 0;
    for i := 0 to |us|
      invariant offsetBound == OffsetBound(us[..i]) && rvaBound == RvaBound(us[..i])
    {
      BoundAppend(us[..i], us[i]);
      assert us[..i] + [us[i]] == us[..i + 1];
      offsetBound := Max(offsetBound, us[i].OffsetEnd());
      rvaBound := Max(rvaBound, us[i].RvaEnd());
    }
    assert us[..|us|] == us;
  }

  // ----- sorted again -----

  lemma {:induction false} CountBelow(us: seq<Unit>, i: nat, j: nat)
    requires i < j < |us| && us[i] == us[j]
    ensures multiset(us)[us[i]] >= 2
  {
    var a, b := us[..j], us[j..];
    assert us == a + b && a[i] in a && b[0] in b;
    assert multiset(us) == multiset(a) + multiset(b);
  }

  lemma {:induction false} CountOne(us: seq<Unit>, u: Unit)
    requires RvasApart(us) && forall v :: v in us ==> Tidy(v)
    ensures multiset(us)[u] <= 1
  {
    if us != [] {
      var n := |us| - 1;
      CountOne(us[..n], u);
      assert us == us[..n] + [us[n]];
      if us[n] == u {
        assert u !in us[..n];
      }
    }
  }

  /** Different places hold units whose RVAs do not meet. */
  lemma {:induction false} StillApart(us: seq<Unit>, s: seq<Unit>, i: nat, j: nat)
    requires RvasApart(us) && (forall v :: v in us ==> Tidy(v)) && multiset(s) == multiset(us) && i < j < |s|
    ensures s[i].RvaEnd() <= s[j].rvaBegin || s[j].RvaEnd() <= s[i].rvaBegin
  {
    if s[i] == s[j] {
      CountBelow(s, i, j);
      CountOne(us, s[i]);
    }
    assert s[i] in multiset(s) && s[j] in multiset(s);
    var a :| 0 <= a < |us| && us[a] == s[i];
    var b :| 0 <= b < |us| && us[b] == s[j];
  }

  lemma {:induction false} SharedOffset(us: seq<Unit>, s: seq<Unit>, at: nat)
    requires RvasApart(us) && (forall v :: v in us ==> Tidy(v)) && multiset(s) == multiset(us)
    requires at + 1 < |s| && s[at].offsetBegin <= s[at + 1].offsetBegin < s[at].OffsetEnd() && s[at + 1].offsetSize > 0
    ensures Shared(us)
  {
    var a, b := s[at], s[at + 1];
    assert a in multiset(s) && b in multiset(s);
    assert a in us && b in us;
    StillApart(us, s, at, at + 1);
    var offset := b.offsetBegin;
    var r, r' := offset - a.offsetBegin + a.rvaBegin, b.rvaBegin;
    assert Image(a, r) == Some(Real(offset)) && Image(b, r') == Some(Real(offset));
    assert Means(us, r, Real(offset)) && Means(us, r', Real(offset));
  }

  // ----- units without data -----

  /** A unit without data is loose: what could be data before it would have been merged with it. */
  lemma {:induction false} DatalessLoose(us: seq<Unit>, u: Unit)
    requires RvasApart(us) && Unjoined(us) && (forall v :: v in us ==> Tidy(v)) && u in us && u.offsetSize == 0
    ensures Loose(us, u.offsetBegin - u.rvaBegin, u.offsetBegin)
  {
    var shift, end := u.offsetBegin - u.rvaBegin, u.offsetBegin;
    assert Image(u, u.rvaBegin) == Some(Dangling(shift, end));
    assert Means(us, u.rvaBegin, Dangling(shift, end));
    if Behind(us, shift, end) {
      var v :| v in us && Image(v, u.rvaBegin - 1) == Some(Real(end - 1));
      Neighbours(us, v, u);
    }
  }

  /** Units whose RVAs touch are neighbours, and not to be joined. */
  lemma {:induction false} Neighbours(us: seq<Unit>, v: Unit, u: Unit)
    requires RvasApart(us) && Unjoined(us) && (forall x :: x in us ==> Tidy(x)) && v in us && u in us
    requires v.rvaBegin < u.rvaBegin && v.RvaEnd() >= u.rvaBegin
    ensures v.RvaEnd() == u.rvaBegin && Meet(v, u) == Apart
  {
    var i :| 0 <= i < |us| && us[i] == v;
    var j :| 0 <= j < |us| && us[j] == u;
    assert i < j;
    assert us[i + 1] in us && Tidy(us[i + 1]) && us[i].RvaEnd() <= us[i + 1].rvaBegin;
    assert i + 1 == j;
  }

  /** And only a unit without data is loose. */
  lemma {:induction false} LooseDataless(us: seq<Unit>, shift: int, end: nat) returns (u: Unit)
    requires Loose(us, shift, end)
    ensures u in us && u.offsetSize == 0 && u.offsetBegin == end
  {
    var rva: nat :| Means(us, rva, Dangling(shift, end));
    u :| u in us && Image(u, rva) == Some(Dangling(shift, end));
    if u.offsetSize > 0 { DataBehind(us, u, rva, shift, end); }
  }

  lemma {:induction false} LooseSection(us: seq<Unit>, shift: int, end: nat) returns (u: Unit)
    requires Loose(us, shift, end)
    ensures u in NonEmpty(us) && u.offsetSize == 0
  {
    var rva: nat :| Means(us, rva, Dangling(shift, end));
    u :| u in us && Image(u, rva) == Some(Dangling(shift, end));
    if u.offsetSize > 0 { DataBehind(us, u, rva, shift, end); }
  }

  lemma {:induction false} DataBehind(us: seq<Unit>, u: Unit, rva: nat, shift: int, end: nat)
    requires u in us && u.offsetSize > 0 && Image(u, rva) == Some(Dangling(shift, end))
    ensures Behind(us, shift, end)
  {
    assert Image(u, end - shift - 1) == Some(Real(end - 1));
  }

  /** Perched: a unit without data begins where another unit has data. */
  ghost predicate Sits(us: seq<Unit>, u: Unit, d: Unit) { u in us && d in us && u.offsetSize == 0 && d.CoversOffset(u.offsetBegin) }

  lemma {:induction false} SitsPerched(us: seq<Unit>, u: Unit, d: Unit)
    requires RvasApart(us) && Unjoined(us) && (forall v :: v in us ==> Tidy(v)) && Sits(us, u, d)
    ensures Perched(us) && (d.offsetBegin < u.offsetBegin ==> Buried(us))
  {
    hide Loose;
    DatalessLoose(us, u);
    var end := u.offsetBegin;
    var rva := end - d.offsetBegin + d.rvaBegin;
    assert Image(d, rva) == Some(Real(end));
    assert Means(us, rva, Real(end));
    if d.offsetBegin < end {
      assert Image(d, rva - 1) == Some(Real(end - 1));
      assert Behind(us, end - rva, end);
    }
  }

  lemma {:induction false} PerchedSits(us: seq<Unit>) returns (u: Unit, d: Unit)
    requires Perched(us)
    ensures Sits(us, u, d)
  {
    hide Loose;
    var shift, end: nat, rva: nat :| Loose(us, shift, end) && Means(us, rva, Real(end));
    u := LooseDataless(us, shift, end);
    d :| d in us && Image(d, rva) == Some(Real(end));
  }

  lemma {:induction false} BuriedSits(us: seq<Unit>) returns (u: Unit, d: Unit)
    requires RvasApart(us) && Unjoined(us) && (forall v :: v in us ==> Tidy(v)) && Buried(us)
    ensures Sits(us, u, d) && d.offsetBegin < u.offsetBegin
  {
    hide Loose, RvasApart, Unjoined;
    var shift, end: nat, rva: nat :| Loose(us, shift, end) && Means(us, rva, Real(end)) && Behind(us, end - rva, end);
    u := LooseDataless(us, shift, end);
    d :| d in us && Image(d, rva) == Some(Real(end));
    var c :| c in us && Image(c, rva - 1) == Some(Real(end - 1));
    if d.offsetBegin == end {
      assert d.rvaBegin == rva;
      Neighbours(us, c, d);
    }
  }

  /** Overlapping neighbours share an offset, or one of them sits on the other. */
  lemma {:induction false} Overlap(us: seq<Unit>, s: seq<Unit>, at: nat)
    requires RvasApart(us) && Unjoined(us) && (forall v :: v in us ==> Tidy(v)) && multiset(s) == multiset(us) && SortedBy(s, OffsetOrder)
    requires at + 1 < |s| && s[at + 1].offsetBegin < s[at].OffsetEnd()
    ensures Shared(us) || (Perched(us) && (SortedBy(s, DataLast) ==> Buried(us)))
  {
    hide Shared, Perched, Buried;
    var d, u := s[at], s[at + 1];
    SortedPair(s, at);
    assert d in multiset(s) && u in multiset(s);
    assert d in us && u in us;
    if u.offsetSize > 0 {
      SharedOffset(us, s, at);
    } else {
      SitsPerched(us, u, d);
      if SortedBy(s, DataLast) { assert DataLast(d, u); }
    }
  }

  /** Where all is apart nothing sits in the middle of data, nor where data begins if data comes first. */
  lemma {:induction false} ApartSits(us: seq<Unit>, s: seq<Unit>, u: Unit, d: Unit)
    requires multiset(s) == multiset(us) && SortedBy(s, OffsetOrder) && OffsetsApart(s) && Sits(us, u, d)
    ensures d.offsetBegin == u.offsetBegin && !SortedBy(s, DataFirst)
  {
    assert u in multiset(us) && d in multiset(us);
    assert u in s && d in s;
    var i :| 0 <= i < |s| && s[i] == u;
    var j :| 0 <= j < |s| && s[j] == d;
    assert i < j;
    assert OffsetOrder(s[i], s[j]);
    assert !DataFirst(s[i], s[j]);
  }

  /** The outcome of the offset check, in terms of what the units mean. */
  lemma {:induction false} OffsetCheck(us: seq<Unit>, s: seq<Unit>, ok: bool, at: nat)
    requires RvasApart(us) && Unjoined(us) && (forall v :: v in us ==> Tidy(v)) && multiset(s) == multiset(us) && SortedBy(s, OffsetOrder)
    requires (ok <==> OffsetsApart(s)) && (!ok ==> at + 1 < |s| && s[at].OffsetEnd() > s[at + 1].offsetBegin)
    ensures ok ==> !Buried(us) && (SortedBy(s, DataFirst) ==> !Perched(us))
    ensures !ok ==> Shared(us) || (Perched(us) && (SortedBy(s, DataLast) ==> Buried(us)))
  {
    hide Shared, Perched, Buried, OffsetsApart, RvasApart, Unjoined, Tidy, SortedBy;
    if ok {
      if Buried(us) {
        var u, d := BuriedSits(us);
        ApartSits(us, s, u, d);
      }
      if Perched(us) {
        var u, d := PerchedSits(us);
        ApartSits(us, s, u, d);
      }
    } else {
      Overlap(us, s, at);
    }
  }

  lemma {:induction false} BeginsApart(us: seq<Unit>, s: seq<Unit>)
    requires RvasApart(us) && (forall v :: v in us ==> Tidy(v)) && multiset(s) == multiset(us) && SortedBy(s, BeginOrder)
    ensures RvasApart(s)
  {
    forall i, j | 0 <= i < j < |s|
      ensures s[i].RvaEnd() <= s[j].rvaBegin
    {
      StillApart(us, s, i, j);
      assert BeginOrder(s[i], s[j]);
      assert s[j] in multiset(s);
      assert s[j] in us;
    }
  }

  // ----- the tables -----

  /** Two orders of the same units, with room for fake offsets above all real ones. */
  ghost predicate Tables(byOffset: seq<Unit>, byRva: seq<Unit>, fake: nat)
  {
    && OffsetsApart(byOffset) && RvasApart(byRva) && fake <= OFFSET_BOUND
    && (forall u :: u in byOffset <==> u in byRva)
    && (forall u :: u in byRva ==> Tidy(u) && u.OffsetEnd() <= fake && fake + u.RvaEnd() <= OFFSET_BOUND)
  }

  /** The tables made of resolved units. */
  lemma {:induction false} TablesOf(us: seq<Unit>, t: seq<Unit>, byOffset: seq<Unit>, byRva: seq<Unit>)
    requires Resolved(us, t) && multiset(byOffset) == multiset(us) == multiset(byRva) && OffsetsApart(byOffset) && SortedBy(byRva, BeginOrder)
    requires RangeIsBounded(OffsetBound(us), RvaBound(us), OFFSET_BOUND)
    ensures Tables(byOffset, byRva, OffsetBound(us)) && SameMeaning(byRva, t)
    ensures !Conflict(t) && !Shared(t)
  {
    hide SameMeaning, OffsetBound, RvaBound, NonEmpty, HasData, OffsetsApart, Shared, Conflict;
    BeginsApart(us, byRva);
    BoundLeast(us);
    forall u
      ensures u in byOffset <==> u in us
      ensures u in byRva <==> u in us
    {
      assert u in byOffset <==> u in multiset(byOffset);
      assert u in us <==> u in multiset(us);
      assert u in byRva <==> u in multiset(byRva);
    }
    SameMembers(byRva, us);
    MeaningTrans(byRva, us, t);
    SameMembers(byOffset, byRva);
    NoConflict(byRva);
    NotShared(byOffset);
    MeaningConflict(byRva, t);
    MeaningConflict(byOffset, byRva);
  }

  /** std::upper_bound by the begin of the offsets. */
  function UpperOffset(us: seq<Unit>, offset: nat): (k: nat)
    requires OffsetsApart(us)
    ensures k <= |us| && (k > 0 ==> us[k - 1].offsetBegin <= offset) && forall i :: k <= i < |us| ==> offset < us[i].offsetBegin
  {
    if us == [] || us[|us| - 1].offsetBegin <= offset then |us| else UpperOffset(us[..|us| - 1], offset)
  }

  function UpperRva(us: seq<Unit>, rva: nat): (k: nat)
    requires RvasApart(us)
    ensures k <= |us| && (k > 0 ==> us[k - 1].rvaBegin <= rva) && forall i :: k <= i < |us| ==> rva < us[i].rvaBegin
  {
    if us == [] || us[|us| - 1].rvaBegin <= rva then |us| else UpperRva(us[..|us| - 1], rva)
  }

  /** The unit that covers an offset, if any. */
  function OffsetToUnit(us: seq<Unit>, offset: nat): (u: Option<Unit>)
    requires OffsetsApart(us)
    ensures u.Some? ==> u.value in us && u.value.CoversOffset(offset)
    ensures forall v :: v in us && v.CoversOffset(offset) ==> u == Some(v)
  {
    var k := UpperOffset(us, offset);
    if k > 0 && us[k - 1].CoversOffset(offset) then Some(us[k - 1]) else None
  }

  function RvaToUnit(us: seq<Unit>, rva: nat): (u: Option<Unit>)
    requires RvasApart(us)
    ensures u.Some? ==> u.value in us && u.value.CoversRva(rva)
    ensures forall v :: v in us && v.CoversRva(rva) ==> u == Some(v)
  {
    var k := UpperRva(us, rva);
    if k > 0 && us[k - 1].CoversRva(rva) then Some(us[k - 1]) else None
  }

  /** Sections that can be translated at all: within bounds, no RVA with two meanings, no offset with
      two RVAs, and room for the fake offsets. */
  ghost predicate Sound(units: seq<Unit>)
  {
    var t := TrimAll(units);
    && AllBounded(units) && !Conflict(t) && !Shared(t)
    && RangeIsBounded(OffsetBound(NonEmpty(t)), RvaBound(NonEmpty(t)), OFFSET_BOUND)
  }

  /** What the offset check says about the sections. */
  lemma {:induction false} Outcome(us: seq<Unit>, t: seq<Unit>, sort: Sorter, ok: bool, at: nat)
    requires Resolved(us, t) && Sorts(sort, OffsetOrder)
    requires var s := sort(us); (ok <==> OffsetsApart(s)) && (!ok ==> at + 1 < |s| && s[at].OffsetEnd() > s[at + 1].offsetBegin)
    ensures ok ==> !Buried(t) && (Sorts(sort, DataFirst) ==> !Perched(t))
    ensures !ok ==> Shared(t) || (Perched(t) && (Sorts(sort, DataLast) ==> Buried(t)))
  {
    hide Shared, Perched, Buried, OffsetsApart, RvasApart, Unjoined, Tidy, SortedBy, SameMeaning, Sorts;
    Sorted(sort, OffsetOrder, us);
    if Sorts(sort, DataFirst) { Sorted(sort, DataFirst, us); }
    if Sorts(sort, DataLast) { Sorted(sort, DataLast, us); }
    OffsetCheck(us, sort(us), ok, at);
    MeaningConflict(us, t);
    MeaningLoose(us, t);
    MeaningBack(us, t);
    MeaningLoose(t, us);
  }

  lemma {:induction false} MeaningBack(a: seq<Unit>, b: seq<Unit>)
    requires SameMeaning(a, b)
    ensures SameMeaning(b, a)
  {
    hide Means;
  }

  /** Sections that all have data leave nothing loose. */
  lemma {:induction false} DataNeverPerched(units: seq<Unit>)
    requires HasData(NonEmpty(units))
    ensures !Perched(units)
  {
    hide Loose;
    if Perched(units) {
      var shift, end: nat, rva: nat :| Loose(units, shift, end) && Means(units, rva, Real(end));
      var u := LooseSection(units, shift, end);
    }
  }

  class Translator {
    var byOffset: seq<Unit>
    var byRva: seq<Unit>
    var fake: nat

    ghost predicate Valid()
      reads this
    {
      Tables(byOffset, byRva, fake)
    }

    constructor ()
      ensures Valid() && byRva == []
    {
      byOffset, byRva, fake := [], [], 0;
    }

    /** Fails without change, or stores tables that mean what the sections mean. Success needs sections
        that are Sound and nothing buried; it is certain if nothing is perched; and where something is
        perched but not buried, the order that sorting leaves open decides. */
    method Initialize(units: seq<Unit>, sortRva: Sorter, sortOffset: Sorter, sortBegin: Sorter) returns (status: Status)
      requires Sorts(sortRva, RvaOrder) && Sorts(sortOffset, OffsetOrder) && Sorts(sortBegin, BeginOrder)
      modifies this
      ensures status != Success ==> unchanged(this)
      ensures status == ErrorOverflow <==> !AllBounded(units)
      ensures status == Success ==> Valid() && SameMeaning(byRva, TrimAll(units)) && fake == OffsetBound(NonEmpty(TrimAll(units)))
      ensures status == Success ==> Sound(units) && !Buried(TrimAll(units))
      ensures Sound(units) ==> status == Success || status == ErrorBadOverlap
      ensures Sound(units) && !Perched(TrimAll(units)) ==> status == Success
      ensures Sorts(sortOffset, DataFirst) ==> (status == Success <==> Sound(units) && !Perched(TrimAll(units)))
      ensures Sorts(sortOffset, DataLast) ==> (status == Success <==> Sound(units) && !Buried(TrimAll(units)))
    {
      hide AllBounded, Sorts, Conflict, Shared, SortedBy, NonEmpty, OffsetBound, RvaBound, SameMeaning, Tables, Perched, Buried;
      var us;
      status, us := Resolve(units, sortRva);
      if status != Success {
        return;
      }
      ghost var t := TrimAll(units);
      var us' := sortOffset(us);
      var ok;
      ghost var at;
      Sorted(sortOffset, OffsetOrder, us);
      ok, at := CheckOffsets(us');
      Outcome(us, t, sortOffset, ok, at);
      if !ok {
        return ErrorBadOverlap;
      }
      SortMembers(sortOffset, OffsetOrder, us);
      BoundMembers(us', us);
      var offsetBound, rvaBound := Bounds(us');
      if !RangeIsBounded(offsetBound, rvaBound, OFFSET_BOUND) {
        return ErrorFakeOffsetBeginTooLarge;
      }
      byOffset := us';
      byRva := sortBegin(us');
      Sorted(sortBegin, BeginOrder, us');
      fake := offsetBound;
      TablesOf(us, t, byOffset, byRva);
    }

    /** The RVA, possibly dangling, of an offset, possibly fake. */
    function OffsetToRva(offset: nat): (rva: nat)
      requires Valid()
      reads this
    {
      if offset >= fake then
        var r := offset - fake;
        var u := RvaToUnit(byRva, r);
        if u.Some? && u.value.HasDanglingRva() && u.value.CoversDanglingRva(r) then r else INVALID
      else
        var u := OffsetToUnit(byOffset, offset);
        if u.Some? then u.value.OffsetToRvaUnsafe(offset) else INVALID
    }

    /** The offset, possibly fake, of an RVA, possibly dangling. */
    function RvaToOffset(rva: nat): (offset: nat)
      requires Valid()
      reads this
    {
      var u := RvaToUnit(byRva, rva);
      if u.Some? then u.value.RvaToOffsetUnsafe(rva, fake) else INVALID
    }

    /** RvaToOffset finds what the units mean, and nothing else. */
    lemma {:induction false} Translates(rva: nat, offset: nat)
      requires Valid()
      ensures Means(byRva, rva, Real(offset)) <==> RvaToOffset(rva) == offset && offset < fake
      ensures (exists shift, end :: Means(byRva, rva, Dangling(shift, end))) <==> RvaToOffset(rva) == fake + rva && RvaToOffset(rva) != INVALID
      ensures RvaToOffset(rva) < OFFSET_BOUND || RvaToOffset(rva) == INVALID
    {
      var u := RvaToUnit(byRva, rva);
      if u.Some? {
        assert u.value in byRva;
        var t := Image(u.value, rva).value;
        assert Means(byRva, rva, t);
      }
    }

    /** Every RVA that translates comes back. */
    lemma {:induction false} RvaComesBack(rva: nat)
      requires Valid() && RvaToOffset(rva) != INVALID
      ensures OffsetToRva(RvaToOffset(rva)) == rva
    {
      var u := RvaToUnit(byRva, rva).value;
      assert u in byOffset;
    }

    /** Every offset, real or fake, that translates comes back. */
    lemma {:induction false} OffsetComesBack(offset: nat)
      requires Valid() && OffsetToRva(offset) != INVALID
      ensures RvaToOffset(OffsetToRva(offset)) == offset
    {
      if offset < fake {
        var u := OffsetToUnit(byOffset, offset).value;
        assert u in byRva;
      }
    }
  }

  lemma {:induction false} Sorted(sort: Sorter, before: (Unit, Unit) -> bool, us: seq<Unit>)
    requires Sorts(sort, before)
    ensures SortedBy(sort(us), before) && multiset(sort(us)) == multiset(us)
  {
  }

  lemma {:induction false} SortedPair(us: seq<Unit>, at: nat)
    requires SortedBy(us, OffsetOrder) && at + 1 < |us|
    ensures us[at].offsetBegin <= us[at + 1].offsetBegin
  {
    assert OffsetOrder(us[at], us[at + 1]);
  }

  /** The least and the most favourable order of equal offsets: Initialize succeeds for all ways to sort
      exactly if it does for the first, and for any way exactly if it does for the second. */
  method Extremes(units: seq<Unit>) returns (dataFirst: Status, dataLast: Status)
    ensures dataFirst == Success <==> Sound(units) && !Perched(TrimAll(units))
    ensures dataLast == Success <==> Sound(units) && !Buried(TrimAll(units))
    ensures Sound(units) ==> (dataFirst == Success || dataFirst == ErrorBadOverlap) && (dataLast == Success || dataLast == ErrorBadOverlap)
  {
    hide Perched, Buried, Sound, Sorts, SortUnits, IsOrder;
    var first := us => SortUnits(us, DataFirst);
    var last := us => SortUnits(us, DataLast);
    var rva := us => SortUnits(us, RvaOrder);
    var begin := us => SortUnits(us, BeginOrder);
    Orders();
    SorterExists(first, DataFirst, OffsetOrder);
    SorterExists(last, DataLast, OffsetOrder);
    SorterExists(rva, RvaOrder, RvaOrder);
    SorterExists(begin, BeginOrder, BeginOrder);
    var a := new Translator();
    var b := new Translator();
    dataFirst := a.Initialize(units, rva, first, begin);
    dataLast := b.Initialize(units, rva, last, begin);
  }

  /** One input, two ways to sort equal offsets, two outcomes: a section without data at the offset
      where the data of another begins. */
  method OrderMatters() returns (dataFirst: Status, dataLast: Status)
    ensures dataFirst == ErrorBadOverlap && dataLast == Success
  {
    hide Perched, Buried, Sound;
    TwoSections();
    dataFirst, dataLast := Extremes([Unit(5, 5, 0, 5), Unit(5, 0, 20, 5)]);
  }

  lemma {:induction false} Orders()
    ensures IsOrder(DataFirst) && IsOrder(DataLast) && IsOrder(RvaOrder) && IsOrder(BeginOrder)
  {
  }

  lemma {:induction false} TwoBounds(d: Unit, u: Unit)
    requires d == Unit(5, 5, 0, 5) && u == Unit(5, 0, 20, 5)
    ensures AllBounded([d, u]) && TrimAll([d, u]) == [d, u] == NonEmpty([d, u]) && OffsetBound([d, u]) == 10 && RvaBound([d, u]) == 25
  {
    var us := [d, u];
    assert us[..1] == [d] && [d][..0] == [];
    assert NonEmpty([d]) == [d] && OffsetBound([d]) == 10 && RvaBound([d]) == 5;
  }

  lemma {:induction false} TwoApart(d: Unit, u: Unit)
    requires d == Unit(5, 5, 0, 5) && u == Unit(5, 0, 20, 5)
    ensures RvasApart([d, u]) && OffsetsApart([u, d]) && Unjoined([d, u]) && (forall v :: v in [d, u] ==> Tidy(v)) && Sits([d, u], u, d)
  {
  }

  lemma {:induction false} TwoSections()
    ensures var units := [Unit(5, 5, 0, 5), Unit(5, 0, 20, 5)];
      Sound(units) && Perched(TrimAll(units)) && !Buried(TrimAll(units))
  {
    hide Shared, Conflict, Perched, Buried, RvasApart, OffsetsApart, Unjoined, Tidy, AllBounded, NonEmpty, OffsetBound, RvaBound, SameMeaning, TrimAll;
    var d, u := Unit(5, 5, 0, 5), Unit(5, 0, 20, 5);
    var us, us' := [d, u], [u, d];
    TwoBounds(d, u);
    TwoApart(d, u);
    NoConflict(us);
    NotShared(us');
    SameMembers(us', us);
    MeaningConflict(us', us);
    SitsPerched(us, u, d);
    if Buried(us) {
      var x, y := BuriedSits(us);
    }
  }

  // ----- caches -----

  /** Remembers the last unit found by an offset. */
  class OffsetToRvaCache {
    const translator: Translator
    var cached: Option<Unit>

    ghost predicate Valid()
      reads this, translator
    {
      translator.Valid() && (cached.Some? ==> cached.value in translator.byOffset)
    }

    constructor (t: Translator)
      requires t.Valid()
      ensures Valid() && translator == t && cached == None
    {
      translator, cached := t, None;
    }

    /** Answers as the translator does. */
    method Convert(offset: nat) returns (rva: nat)
      requires Valid()
      modifies this
      ensures Valid() && rva == translator.OffsetToRva(offset)
    {
      if offset >= translator.fake {
        return translator.OffsetToRva(offset);
      }
      if cached.Some? && cached.value.CoversOffset(offset) {
        return cached.value.OffsetToRvaUnsafe(offset);
      }
      var unit := OffsetToUnit(translator.byOffset, offset);
      if unit.None? {
        return INVALID;
      }
      cached := unit;
      return unit.value.OffsetToRvaUnsafe(offset);
    }
  }

  /** Remembers the last unit found by an RVA. */
  class RvaToOffsetCache {
    const translator: Translator
    var cached: Option<Unit>

    ghost predicate Valid()
      reads this, translator
    {
      translator.Valid() && (cached.Some? ==> cached.value in translator.byRva)
    }

    constructor (t: Translator)
      requires t.Valid()
      ensures Valid() && translator == t && cached == None
    {
      translator, cached := t, None;
    }

    method IsValid(rva: nat) returns (valid: bool)
      requires Valid()
      modifies this
      ensures Valid() && (valid <==> translator.RvaToOffset(rva) != INVALID)
    {
      if rva == INVALID {
        return false;
      }
      if cached.None? || !cached.value.CoversRva(rva) {
        var unit := RvaToUnit(translator.byRva, rva);
        if unit.None? {
          return false;
        }
        cached := unit;
      }
      return true;
    }

    method Convert(rva: nat) returns (offset: nat)
      requires Valid()
      modifies this
      ensures Valid() && offset == translator.RvaToOffset(rva)
    {
      if cached.None? || !cached.value.CoversRva(rva) {
        var unit := RvaToUnit(translator.byRva, rva);
        if unit.None? {
          return INVALID;
        }
        cached := unit;
      }
      return cached.value.RvaToOffsetUnsafe(rva, translator.fake);
    }
  }
}
