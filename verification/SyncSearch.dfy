/** The search of inflateSync for the mark 0, 0, 0xff, 0xff that a flush leaves, over any
    number of pieces of input. */
module SyncSearch {
  import opened Lz77

  const PATTERN: seq<byte> := [0, 0, 255, 255]

  /** The bytes end with the first k bytes of the pattern. */
  predicate Ends(bytes: seq<byte>, k: nat)
  {
    k <= 4 && k <= |bytes| && bytes[|bytes| - k..] == PATTERN[..k]
  }

  lemma {:induction false} EndsSnoc(bytes: seq<byte>, b: byte, k: nat)
    requires k < 4
    ensures Ends(bytes + [b], k + 1) <==> Ends(bytes, k) && b == PATTERN[k]
  {
    var all := bytes + [b];
    if k <= |bytes| {
      assert all[|all| - (k + 1)..] == bytes[|bytes| - k..] + [b];
      assert PATTERN[..k + 1] == PATTERN[..k] + [PATTERN[k]];
    }
  }

  /** The pattern has been read, for the first time, in the first n bytes. */
  predicate Found(bytes: seq<byte>, n: nat)
  {
    n <= |bytes| && Ends(bytes[..n], 4)
  }

  /** No pattern yet, and the longest beginning of it that the bytes end with. */
  ghost predicate Tracks(bytes: seq<byte>, got: nat)
  {
    && got < 4 && Ends(bytes, got) && (forall k :: got < k < 4 ==> !Ends(bytes, k))
    && forall n :: 0 <= n <= |bytes| ==> !Found(bytes, n)
  }

  /** What one more byte does to the number of bytes found in order. */
  function Next(got: nat, b: byte): (r: nat)
    requires got < 4
    ensures r <= 4
  {
    if b == (if got < 2 then 0 else 255) then got + 1 else if b != 0 then 0 else 4 - got
  }

  lemma {:induction false} NextEnds(bytes: seq<byte>, got: nat, b: byte)
    requires got < 4 && Ends(bytes, got) && !(got < 1 && Ends(bytes, 1)) && !(got < 2 && Ends(bytes, 2)) && !(got < 3 && Ends(bytes, 3))
    ensures var r, all := Next(got, b), bytes + [b];
      Ends(all, r) && !(r < 1 && Ends(all, 1)) && !(r < 2 && Ends(all, 2)) && !(r < 3 && Ends(all, 3)) && !(r < 4 && Ends(all, 4))
  {
    hide Ends, PATTERN;
    PatternIs();
    EndsSnoc(bytes, b, 0);
    EndsSnoc(bytes, b, 1);
    EndsSnoc(bytes, b, 2);
    EndsSnoc(bytes, b, 3);
    SmallEnds(bytes, got);
    EndsNothing(bytes + [b]);
  }

  lemma {:induction false} PatternIs()
    ensures |PATTERN| == 4 && PATTERN[0] == 0 == PATTERN[1] && PATTERN[2] == 255 == PATTERN[3]
  {
  }

  lemma {:induction false} NextTracks(bytes: seq<byte>, got: nat, b: byte)
    requires Tracks(bytes, got)
    ensures Next(got, b) < 4 ==> Tracks(bytes + [b], Next(got, b))
    ensures Next(got, b) == 4 ==> Ends(bytes + [b], 4)
  {
    hide Ends, Next;
    NextEnds(bytes, got, b);
    NoneFound(bytes, got, b);
    var all := bytes + [b];
    assert all[..|all|] == all;
  }

  lemma {:induction false} EndsNothing(bytes: seq<byte>)
    ensures Ends(bytes, 0)
  {
  }

  /** Which beginnings of the pattern can come together. */
  lemma {:induction false} SmallEnds(bytes: seq<byte>, got: nat)
    requires Ends(bytes, got) && got < 4
    ensures Ends(bytes, 0) && (got == 2 ==> Ends(bytes, 1)) && (got == 3 ==> !Ends(bytes, 1) && !Ends(bytes, 2))
  {
    if got == 2 {
      assert bytes[|bytes| - 1] == bytes[|bytes| - 2..][1];
    }
    if got == 3 {
      var last := bytes[|bytes| - 1];
      assert last == bytes[|bytes| - 3..][2] && last == bytes[|bytes| - 1..][0] && last == bytes[|bytes| - 2..][1];
    }
  }

  /** syncsearch: past is what earlier calls have read. Either the pattern ends for the first time
      at the place returned, or there is none so far and the search can go on. */
  method Search(have: nat, buf: seq<byte>, ghost past: seq<byte>) returns (have': nat, next: nat)
    requires have < 4 && Tracks(past, have)
    ensures next <= |buf| && have' <= 4
    ensures have' < 4 ==> next == |buf| && Tracks(past + buf, have')
    ensures have' == 4 ==> Found(past + buf, |past| + next) && forall n :: 0 <= n < |past| + next ==> !Found(past + buf, n)
  {
    hide Tracks;
    var got := have;
    next := 0;
    assert past + buf[..0] == past;
    while next < |buf| && got < 4
      invariant 0 <= next <= |buf| && got <= 4
      invariant got < 4 ==> Tracks(past + buf[..next], got)
      invariant got == 4 ==> Ends(past + buf[..next], 4) && next > 0 && forall n :: 0 <= n < |past| + next ==> !Found(past + buf[..next], n)
    {
      NextTracks(past + buf[..next], got, buf[next]);
      NoneFound(past + buf[..next], got, buf[next]);
      assert past + buf[..next + 1] == past + buf[..next] + [buf[next]];
      got := Next(got, buf[next]);
      next := next + 1;
    }
    have' := got;
    ghost var all := past + buf;
    assert all[..|past| + next] == past + buf[..next];
    if got < 4 {
      assert buf[..next] == buf;
    } else {
      ghost var some := past + buf[..next];
      forall n | 0 <= n < |past| + next
        ensures !Found(all, n)
      {
        assert all[..n] == some[..n];
        assert !Found(some, n);
      }
    }
  }

  lemma {:induction false} NoneFound(bytes: seq<byte>, got: nat, b: byte)
    requires Tracks(bytes, got)
    ensures forall n :: 0 <= n <= |bytes| ==> !Found(bytes + [b], n)
  {
    forall n | 0 <= n <= |bytes|
      ensures !Found(bytes + [b], n)
    {
      assert (bytes + [b])[..n] == bytes[..n];
      assert !Found(bytes, n);
    }
  }

  /** At the start nothing has been found. */
  lemma {:induction false} StartTracks()
    ensures Tracks([], 0)
  {
  }

  /** The pieces of input one after the other: the place of the first pattern, if there is one,
      does not depend on how the input is cut. */
  method SearchAll(pieces: seq<seq<byte>>) returns (have: nat, read: nat, ghost all: seq<byte>)
    ensures have <= 4 && all == Joined(pieces)
    ensures have < 4 <==> forall n :: 0 <= n <= |all| ==> !Found(all, n)
    ensures have == 4 ==> Found(all, read) && forall n :: 0 <= n < read ==> !Found(all, n)
  {
    hide Tracks, Found;
    have, read := 0, 0;
    ghost var past: seq<byte> := [];
    StartTracks();
    for i := 0 to |pieces|
      invariant have < 4 && past == Joined(pieces[..i]) && read == |past| && Tracks(past, have)
    {
      var next;
      have, next := Search(have, pieces[i], past);
      JoinedNext(pieces, i);
      if have == 4 {
        read := read + next;
        all := Joined(pieces);
        FirstStays(past + pieces[i], all, read);
        return;
      }
      past, read := past + pieces[i], read + next;
    }
    assert pieces[..|pieces|] == pieces;
    all := past;
    TracksNone(all, have);
  }

  lemma {:induction false} TracksNone(bytes: seq<byte>, got: nat)
    requires Tracks(bytes, got)
    ensures forall n :: 0 <= n <= |bytes| ==> !Found(bytes, n)
  {
  }

  lemma {:induction false} FirstStays(a: seq<byte>, b: seq<byte>, n: nat)
    requires a <= b && n <= |a| && Found(a, n) && forall k :: 0 <= k < n ==> !Found(a, k)
    ensures Found(b, n) && forall k :: 0 <= k < n ==> !Found(b, k)
  {
    assert b[..n] == a[..n];
    forall k | 0 <= k < n
      ensures !Found(b, k)
    {
      assert b[..k] == a[..k];
      assert !Found(a, k);
    }
  }

  function Joined(pieces: seq<seq<byte>>): (all: seq<byte>)
  {
    if pieces == [] then [] else Joined(pieces[..|pieces| - 1]) + pieces[|pieces| - 1]
  }

  lemma {:induction false} JoinedNext(pieces: seq<seq<byte>>, i: nat)
    requires i < |pieces|
    ensures Joined(pieces[..i + 1]) == Joined(pieces[..i]) + pieces[i] <= Joined(pieces)
  {
    assert pieces[..i + 1][..i] == pieces[..i];
    JoinedPrefix(pieces, i + 1);
  }

  lemma {:induction false} JoinedPrefix(pieces: seq<seq<byte>>, i: nat)
    requires i <= |pieces|
    ensures Joined(pieces[..i]) <= Joined(pieces)
    decreases |pieces|
  {
    if i < |pieces| {
      JoinedPrefix(pieces[..|pieces| - 1], i);
      assert pieces[..|pieces| - 1][..i] == pieces[..i];
    } else {
      assert pieces[..i] == pieces;
    }
  }
}
