/** Removing absolute addresses that overlap an earlier one: the greedy choice keeps as many
    locations as possible. */
module Abs32 {

  const WORD: nat := 0x1_0000_0000

  /** Subtraction of 32-bit numbers. */
  function Sub32(a: nat, b: nat): (r: nat)
    requires a < WORD && b < WORD
    ensures b <= a ==> r == a - b
  {
    if b <= a then a - b else a + WORD - b
  }

  ghost predicate Words(xs: seq<nat>)
  {
    forall i :: 0 <= i < |xs| ==> xs[i] < WORD
  }

  /** The places, among the first n, that are kept: each is at least width after the last one kept. */
  ghost function Kept(xs: seq<nat>, width: nat, n: nat): (k: seq<nat>)
    requires Words(xs) && n <= |xs|
    ensures forall i :: 0 <= i < |k| ==> k[i] < n
    ensures n > 0 ==> |k| > 0
  {
    if n == 0 then [] else
      var k := Kept(xs, width, n - 1);
      if k == [] || Sub32(xs[n - 1], xs[k[|k| - 1]]) >= width then k + [n - 1] else k
  }

  ghost predicate Sorted(xs: seq<nat>)
  {
    forall i, j :: 0 <= i < j < |xs| ==> xs[i] <= xs[j]
  }

  /** Places in order, of locations that do not overlap. */
  ghost predicate Choice(xs: seq<nat>, width: nat, pick: seq<nat>)
  {
    && (forall i :: 0 <= i < |pick| ==> pick[i] < |xs|)
    && (forall i :: 0 < i < |pick| ==> pick[i - 1] < pick[i] && xs[pick[i]] - xs[pick[i - 1]] >= width)
  }

  lemma {:induction false} KeptIsChoice(xs: seq<nat>, width: nat, n: nat)
    requires Words(xs) && Sorted(xs) && n <= |xs|
    ensures Choice(xs, width, Kept(xs, width, n))
  {
    hide Choice, Sorted, Words;
    if n == 0 {
      assert Choice(xs, width, []) by { NoChoice(xs, width); }
    } else {
      KeptIsChoice(xs, width, n - 1);
      ChoiceMore(xs, width, Kept(xs, width, n - 1), n - 1);
    }
  }

  lemma {:induction false} NoChoice(xs: seq<nat>, width: nat)
    ensures Choice(xs, width, [])
  {
  }

  lemma {:induction false} ChoiceMore(xs: seq<nat>, width: nat, k: seq<nat>, i: nat)
    requires Words(xs) && Sorted(xs) && Choice(xs, width, k) && i < |xs| && (forall j :: 0 <= j < |k| ==> k[j] < i)
    ensures k == [] || Sub32(xs[i], xs[k[|k| - 1]]) >= width ==> Choice(xs, width, k + [i])
  {
  }

  /** What is dropped overlaps an earlier location that is kept. */
  lemma {:induction false} DroppedOverlap(xs: seq<nat>, width: nat, n: nat, i: nat)
    requires Words(xs) && Sorted(xs) && i < n <= |xs| && i !in Kept(xs, width, n)
    ensures exists k :: k in Kept(xs, width, n) && k < i && xs[k] <= xs[i] < xs[k] + width
    decreases n
  {
    var before := Kept(xs, width, n - 1);
    if i == n - 1 {
      var k := before[|before| - 1];
      assert k in Kept(xs, width, n) && xs[k] <= xs[i];
    } else {
      DroppedOverlap(xs, width, n - 1, i);
      var k :| k in before && k < i && xs[k] <= xs[i] < xs[k] + width;
      assert k in Kept(xs, width, n);
    }
  }

  lemma {:induction false} ChoicePrefix(xs: seq<nat>, width: nat, pick: seq<nat>, m: nat)
    requires Choice(xs, width, pick) && m <= |pick|
    ensures Choice(xs, width, pick[..m])
  {
  }

  lemma {:induction false} ChoiceOrder(xs: seq<nat>, width: nat, pick: seq<nat>, i: nat, j: nat)
    requires Choice(xs, width, pick) && i < j < |pick|
    ensures pick[i] < pick[j]
    decreases j
  {
    if i < j - 1 { ChoiceOrder(xs, width, pick, i, j - 1); }
  }

  /** The greedy choice stays ahead of every other one. */
  lemma {:induction false} StaysAhead(xs: seq<nat>, width: nat, n: nat, pick: seq<nat>)
    requires Words(xs) && Sorted(xs) && n <= |xs| && Choice(xs, width, pick) && |pick| > 0 && pick[|pick| - 1] < n
    ensures var k := Kept(xs, width, n);
      |pick| <= |k| && xs[k[|pick| - 1]] <= xs[pick[|pick| - 1]]
    decreases n
  {
    hide Choice, Sorted, Words, Kept;
    var m, k := |pick|, Kept(xs, width, n - 1);
    KeptStep(xs, width, n);
    if pick[m - 1] < n - 1 {
      StaysAhead(xs, width, n - 1, pick);
    } else if m > 1 {
      ChoicePrefix(xs, width, pick, m - 1);
      ChoiceOrder(xs, width, pick, m - 2, m - 1);
      StaysAhead(xs, width, n - 1, pick[..m - 1]);
      NextPick(xs, width, n, k, pick);
    } else if n > 1 {
      SortedPlaces(xs, k[0], n - 1);
    }
  }

  lemma {:induction false} KeptStep(xs: seq<nat>, width: nat, n: nat)
    requires Words(xs) && 0 < n <= |xs|
    ensures var k := Kept(xs, width, n - 1);
      Kept(xs, width, n) == if k == [] || Sub32(xs[n - 1], xs[k[|k| - 1]]) >= width then k + [n - 1] else k
  {
  }

  lemma {:induction false} SortedPlaces(xs: seq<nat>, i: nat, j: nat)
    requires Sorted(xs) && i <= j < |xs|
    ensures xs[i] <= xs[j]
  {
  }

  /** Either the greedy choice has already kept as many, or it keeps this one. */
  lemma {:induction false} NextPick(xs: seq<nat>, width: nat, n: nat, k: seq<nat>, pick: seq<nat>)
    requires Words(xs) && Sorted(xs) && 0 < n <= |xs| && Choice(xs, width, pick) && |pick| > 1 && pick[|pick| - 1] == n - 1
    requires |pick| - 1 <= |k| && forall i :: 0 <= i < |k| ==> k[i] < n - 1
    requires xs[k[|pick| - 2]] <= xs[pick[|pick| - 2]]
    ensures |pick| <= |k| ==> xs[k[|pick| - 1]] <= xs[n - 1]
    ensures |pick| > |k| ==> Sub32(xs[n - 1], xs[k[|k| - 1]]) >= width
  {
    var m := |pick|;
    assert xs[pick[m - 1]] - xs[pick[m - 2]] >= width;
    SortedPlaces(xs, k[m - 2], n - 1);
    if m <= |k| {
      SortedPlaces(xs, k[m - 1], n - 1);
    }
  }

  /** No choice of locations without overlap is larger. */
  lemma {:induction false} Largest(xs: seq<nat>, width: nat, pick: seq<nat>)
    requires Words(xs) && Sorted(xs) && Choice(xs, width, pick)
    ensures |pick| <= |Kept(xs, width, |xs|)|
  {
    if |pick| > 0 {
      StaysAhead(xs, width, |xs|, pick);
    }
  }

  lemma {:induction false} KeptNone(xs: seq<nat>, width: nat)
    requires Words(xs)
    ensures Kept(xs, width, 0) == [] && (|xs| > 0 ==> Kept(xs, width, 1) == [0])
  {
  }

  lemma {:induction false} KeptNext(xs: seq<nat>, width: nat, n: nat, k: seq<nat>, last: nat)
    requires Words(xs) && 0 < n < |xs| && k == Kept(xs, width, n) && |k| > 0 && last == xs[k[|k| - 1]]
    ensures Kept(xs, width, n + 1) == if Sub32(xs[n], last) < width then k else k + [n]
  {
  }

  /** The locations kept so far stand at the front. */
  ghost predicate Front(a: seq<nat>, xs: seq<nat>, k: seq<nat>)
  {
    |k| <= |a| && forall i :: 0 <= i < |k| ==> k[i] < |xs| && a[i] == xs[k[i]]
  }

  /** Find next good location. */
  method NextGood(width: nat, locations: array<nat>, from: nat, last: nat, ghost xs: seq<nat>, ghost k: seq<nat>) returns (fast: nat)
    requires Words(xs) && 0 < from <= |xs| == locations.Length && forall i :: from <= i < |xs| ==> locations[i] == xs[i]
    requires k == Kept(xs, width, from) && |k| > 0 && last == xs[k[|k| - 1]]
    ensures from <= fast <= |xs| && k == Kept(xs, width, fast)
    ensures fast < |xs| ==> Kept(xs, width, fast + 1) == k + [fast]
  {
    hide Kept;
    fast := from;
    while fast < locations.Length && Sub32(locations[fast], last) < width
      invariant from <= fast <= |xs| && k == Kept(xs, width, fast)
    {
      KeptNext(xs, width, fast, k, last);
      fast := fast + 1;
    }
    if fast < |xs| {
      KeptNext(xs, width, fast, k, last);
    }
  }

  /** Moves the locations kept to the front; returns how many they are. */
  method RemoveOverlapping(width: nat, locations: array<nat>) returns (kept: nat)
    requires Words(locations[..])
    modifies locations
    ensures kept == |Kept(old(locations[..]), width, locations.Length)|
    ensures Front(locations[..], old(locations[..]), Kept(old(locations[..]), width, locations.Length))
  {
    hide Kept;
    ghost var xs := locations[..];
    KeptNone(xs, width);
    if locations.Length <= 1 {
      return locations.Length;
    }
    var slow, fast := 0, 1;
    ghost var k: seq<nat> := [0];
    while true
      invariant 0 <= slow < fast <= |xs| == locations.Length
      invariant forall i :: fast <= i < |xs| ==> locations[i] == xs[i]
      invariant k == Kept(xs, width, fast) && |k| == slow + 1
      invariant forall i :: 0 <= i <= slow ==> k[i] < |xs| && locations[i] == xs[k[i]]
      decreases |xs| - fast
    {
      fast := NextGood(width, locations, fast, locations[slow], xs, k);
      slow := slow + 1;
      if fast == locations.Length {
        break;
      }
      if slow != fast {
        locations[slow] := locations[fast];
      }
      k := k + [fast];
      fast := fast + 1;
    }
    return slow;
  }
}
