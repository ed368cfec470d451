/** The sliding window of deflate.c with its hash chains: fill_window, slide_hash,
    insertion of strings and longest_match. */
module Searcher {
  import opened Lz77

  const MIN_MATCH: nat := 3
  const MAX_MATCH: nat := 258
  const MIN_LOOKAHEAD: nat := MAX_MATCH + MIN_MATCH + 1

  /** The hash of three bytes. */
  type HashFn = (byte, byte, byte) -> nat

  /** Equal hashes and two equal bytes make the third byte equal. */
  ghost predicate GoodHash(hash: HashFn, size: nat)
  {
    && (forall a, b, c :: hash(a, b, c) < size)
    && (forall a, b, c, d :: hash(a, b, c) == hash(a, b, d) ==> c == d)
  }

  ghost function HashAt(hash: HashFn, input: seq<byte>, p: nat): (h: nat)
    requires p + 3 <= |input|
  {
    hash(input[p], input[p + 1], input[p + 2])
  }

  /** w_mask: window indices share the slots of prev two by two. */
  function Slot(i: nat, wsize: nat): (k: nat)
    requires i < 2 * wsize
    ensures k < wsize
  {
    if i < wsize then i else i - wsize
  }

  /** No string between lo and hi has been inserted with hash h. */
  ghost predicate Skips(hash: HashFn, input: seq<byte>, inserted: set<nat>, h: nat, lo: nat, hi: nat)
  {
    forall r :: r in inserted && lo < r < hi && r + 3 <= |input| ==> HashAt(hash, input, r) != h
  }

  /** A chain link: the last string inserted before with the same hash; none if that is not in the
      window, or at its very beginning. */
  ghost predicate Link(v: nat, base: nat, hash: HashFn, input: seq<byte>, inserted: set<nat>, h: nat, below: nat)
  {
    && (v == 0 || (base + v in inserted && base + v < below && base + v + 3 <= |input| && HashAt(hash, input, base + v) == h))
    && Skips(hash, input, inserted, h, base + v, below)
  }

  /** The hash chains over the strings inserted, all before now: heads, and the links of
      the strings whose slot has not been used again. */
  ghost predicate Chains(head: seq<nat>, prev: seq<nat>, wsize: nat, base: nat, hash: HashFn, input: seq<byte>, inserted: set<nat>, now: nat)
  {
    && |prev| == wsize
    && (forall p :: p in inserted ==> p < now && p + 3 <= |input| && p < base + 2 * wsize)
    && (forall h :: 0 <= h < |head| ==> Link(head[h], base, hash, input, inserted, h, now))
    && (forall p :: p in inserted && base <= p && now <= p + wsize ==>
          Link(prev[Slot(p - base, wsize)], base, hash, input, inserted, HashAt(hash, input, p), p))
  }

  /** More input does not disturb the chains. */
  lemma {:induction false} ChainsExtend(head: seq<nat>, prev: seq<nat>, wsize: nat, base: nat, hash: HashFn, input: seq<byte>, more: seq<byte>, inserted: set<nat>, now: nat, now': nat)
    requires Chains(head, prev, wsize, base, hash, input, inserted, now) && now <= now'
    ensures Chains(head, prev, wsize, base, hash, input + more, inserted, now')
  {
    hide HashAt, Link;
    forall p | p in inserted
      ensures HashAt(hash, input + more, p) == HashAt(hash, input, p)
    {
      HashMore(hash, input, more, p);
    }
    forall h | 0 <= h < |head|
      ensures Link(head[h], base, hash, input + more, inserted, h, now')
    {
      LinkExtend(head[h], base, hash, input, more, inserted, h, now);
      LinkLater(head[h], base, hash, input + more, inserted, h, now, now');
    }
    forall p | p in inserted && base <= p && now' <= p + wsize
      ensures Link(prev[Slot(p - base, wsize)], base, hash, input + more, inserted, HashAt(hash, input + more, p), p)
    {
      LinkExtend(prev[Slot(p - base, wsize)], base, hash, input, more, inserted, HashAt(hash, input, p), p);
    }
  }

  lemma {:induction false} HashMore(hash: HashFn, input: seq<byte>, more: seq<byte>, p: nat)
    requires p + 3 <= |input|
    ensures HashAt(hash, input + more, p) == HashAt(hash, input, p)
  {
  }

  lemma {:induction false} LinkExtend(v: nat, base: nat, hash: HashFn, input: seq<byte>, more: seq<byte>, inserted: set<nat>, h: nat, below: nat)
    requires Link(v, base, hash, input, inserted, h, below) && forall p :: p in inserted ==> p + 3 <= |input|
    ensures Link(v, base, hash, input + more, inserted, h, below)
  {
    hide HashAt;
    forall p | p in inserted
      ensures HashAt(hash, input + more, p) == HashAt(hash, input, p)
    {
      HashMore(hash, input, more, p);
    }
  }

  /** A link stays a link when strings are added. */
  lemma {:induction false} LinkMore(v: nat, base: nat, hash: HashFn, input: seq<byte>, inserted: set<nat>, h: nat, below: nat, q: nat, below': nat)
    requires Link(v, base, hash, input, inserted, h, below) && below <= below' && q + 3 <= |input| && (q < below' ==> HashAt(hash, input, q) != h)
    requires below == below' || forall p :: p in inserted ==> p < below
    ensures Link(v, base, hash, input, inserted + {q}, h, below')
  {
    hide HashAt;
  }

  /** Strings less than wsize apart have different slots. */
  lemma {:induction false} SlotsApart(i: nat, j: nat, wsize: nat)
    requires i < j < 2 * wsize && j < i + wsize
    ensures Slot(i, wsize) != Slot(j, wsize)
  {
  }

  /** INSERT_STRING: the string at window index str goes to the front of its chain. */
  lemma {:induction false} ChainsInsert(head: seq<nat>, prev: seq<nat>, wsize: nat, base: nat, hash: HashFn, input: seq<byte>, inserted: set<nat>, now: nat, str: nat)
    requires Chains(head, prev, wsize, base, hash, input, inserted, now) && GoodHash(hash, |head|)
    requires now <= base + str && str < 2 * wsize && base + str + 3 <= |input|
    ensures var h := HashAt(hash, input, base + str);
      h < |head| && Link(head[h], base, hash, input, inserted, h, base + str)
      && Chains(head[h := str], prev[Slot(str, wsize) := head[h]], wsize, base, hash, input, inserted + {base + str}, base + str + 1)
  {
    hide HashAt, Slot, Link;
    var q := base + str;
    var h := HashAt(hash, input, q);
    assert h < |head| by { HashInRange(hash, |head|, input, q); }
    var head', prev', ins' := head[h := str], prev[Slot(str, wsize) := head[h]], inserted + {q};
    assert Link(head[h], base, hash, input, inserted, h, q) by { LinkLater(head[h], base, hash, input, inserted, h, now, q); }
    forall p | p in ins' && base <= p && q + 1 <= p + wsize
      ensures Link(prev'[Slot(p - base, wsize)], base, hash, input, ins', HashAt(hash, input, p), p)
    {
      if p != q {
        SlotsApart(p - base, str, wsize);
        LinkMore(prev[Slot(p - base, wsize)], base, hash, input, inserted, HashAt(hash, input, p), p, q, p);
      } else {
        LinkMore(head[h], base, hash, input, inserted, h, now, q, q);
      }
    }
    forall k | 0 <= k < |head'|
      ensures Link(head'[k], base, hash, input, ins', k, q + 1)
    {
      if k == h {
        LinkNew(str, base, hash, input, ins', h, q + 1);
      } else {
        LinkMore(head[k], base, hash, input, inserted, k, now, q, q + 1);
      }
    }
  }

  lemma {:induction false} HashInRange(hash: HashFn, size: nat, input: seq<byte>, p: nat)
    requires GoodHash(hash, size) && p + 3 <= |input|
    ensures HashAt(hash, input, p) < size
  {
  }

  lemma {:induction false} LinkLater(v: nat, base: nat, hash: HashFn, input: seq<byte>, inserted: set<nat>, h: nat, below: nat, below': nat)
    requires Link(v, base, hash, input, inserted, h, below) && below <= below' && forall p :: p in inserted ==> p < below
    ensures Link(v, base, hash, input, inserted, h, below')
  {
    hide HashAt;
  }

  lemma {:induction false} LinkMeans(v: nat, base: nat, hash: HashFn, input: seq<byte>, inserted: set<nat>, h: nat, below: nat)
    requires Link(v, base, hash, input, inserted, h, below)
    ensures v != 0 ==> base + v in inserted && base + v < below && base + v + 3 <= |input| && HashAt(hash, input, base + v) == h
    ensures Skips(hash, input, inserted, h, base + v, below)
  {
    hide HashAt, Skips;
  }

  lemma {:induction false} LinkNew(v: nat, base: nat, hash: HashFn, input: seq<byte>, inserted: set<nat>, h: nat, below: nat)
    requires base + v in inserted && base + v < below <= base + v + 1 && base + v + 3 <= |input| && HashAt(hash, input, base + v) == h
    ensures Link(v, base, hash, input, inserted, h, below)
  {
    hide HashAt;
  }

  /** slide_hash on one entry. */
  function Slid(v: nat, wsize: nat): (r: nat) { if v >= wsize then v - wsize else 0 }

  lemma {:induction false} LinkSlides(v: nat, wsize: nat, base: nat, hash: HashFn, input: seq<byte>, inserted: set<nat>, h: nat, below: nat)
    requires Link(v, base, hash, input, inserted, h, below)
    ensures Link(Slid(v, wsize), base + wsize, hash, input, inserted, h, below)
  {
    hide HashAt;
  }

  /** Sliding window and tables by wsize keeps the chains. */
  lemma {:induction false} ChainsSlide(head: seq<nat>, prev: seq<nat>, head': seq<nat>, prev': seq<nat>, wsize: nat, base: nat, hash: HashFn, input: seq<byte>, inserted: set<nat>, now: nat)
    requires Chains(head, prev, wsize, base, hash, input, inserted, now)
    requires |head'| == |head| && forall h :: 0 <= h < |head| ==> head'[h] == Slid(head[h], wsize)
    requires |prev'| == |prev| && forall i :: 0 <= i < |prev| ==> prev'[i] == Slid(prev[i], wsize)
    ensures Chains(head', prev', wsize, base + wsize, hash, input, inserted, now)
  {
    hide Link, Slid, HashAt;
    forall h | 0 <= h < |head'|
      ensures Link(head'[h], base + wsize, hash, input, inserted, h, now)
    {
      LinkSlides(head[h], wsize, base, hash, input, inserted, h, now);
    }
    forall p | p in inserted && base + wsize <= p && now <= p + wsize
      ensures Link(prev'[Slot(p - base - wsize, wsize)], base + wsize, hash, input, inserted, HashAt(hash, input, p), p)
    {
      assert Slot(p - base - wsize, wsize) == Slot(p - base, wsize);
      LinkSlides(prev[Slot(p - base, wsize)], wsize, base, hash, input, inserted, HashAt(hash, input, p), p);
    }
  }

  // ----- the positions a search visits -----

  function MaxDist(wsize: nat): (d: nat)
    requires wsize >= MIN_LOOKAHEAD
  {
    wsize - MIN_LOOKAHEAD
  }

  /** Matches at or before this window index are too far back. */
  function Limit(strstart: nat, wsize: nat): (l: nat)
    requires wsize >= MIN_LOOKAHEAD
  {
    if strstart > MaxDist(wsize) then strstart - MaxDist(wsize) else 0
  }

  /** The positions, counted from the start of the input, that a search of at most n steps
      from window index cur looks at. */
  function Visits(prev: seq<nat>, wsize: nat, base: nat, cur: nat, limit: nat, n: nat): (ps: seq<nat>)
    requires |prev| == wsize && cur < 2 * wsize
    decreases n
  {
    if n == 0 then []
    else
      var v := prev[Slot(cur, wsize)];
      [base + cur] + if limit < v < 2 * wsize then Visits(prev, wsize, base, v, limit, n - 1) else []
  }

  lemma {:induction false} VisitsAt(prev: seq<nat>, wsize: nat, base: nat, cur: nat, limit: nat, n: nat)
    requires |prev| == wsize && cur < 2 * wsize && n > 0
    ensures var v := prev[Slot(cur, wsize)];
      Visits(prev, wsize, base, cur, limit, n) == [base + cur] + if limit < v < 2 * wsize then Visits(prev, wsize, base, v, limit, n - 1) else []
  {
  }

  lemma {:induction false} VisitsNone(prev: seq<nat>, wsize: nat, base: nat, cur: nat, limit: nat)
    requires |prev| == wsize && cur < 2 * wsize
    ensures Visits(prev, wsize, base, cur, limit, 0) == []
  {
  }

  /** A string inserted, near enough to strstart, with hash h. */
  ghost predicate Candidate(p: nat, wsize: nat, base: nat, hash: HashFn, input: seq<byte>, inserted: set<nat>, strstart: nat, h: nat)
    requires wsize >= MIN_LOOKAHEAD
  {
    p in inserted && p + 3 <= |input| && HashAt(hash, input, p) == h && base <= p && base + strstart <= p + MaxDist(wsize)
  }

  /** The link of a string that is near enough is its own. */
  lemma {:induction false} ChainNext(head: seq<nat>, prev: seq<nat>, wsize: nat, base: nat, hash: HashFn, input: seq<byte>, inserted: set<nat>, strstart: nat, cur: nat, h: nat)
    requires wsize >= MIN_LOOKAHEAD && strstart <= 2 * wsize && cur <= strstart && cur < 2 * wsize
    requires Chains(head, prev, wsize, base, hash, input, inserted, base + strstart + 1)
    requires Candidate(base + cur, wsize, base, hash, input, inserted, strstart, h)
    ensures |prev| == wsize && var v := prev[Slot(cur, wsize)];
      && v < 2 * wsize && v <= cur && (v > Limit(strstart, wsize) ==> v < cur && Candidate(base + v, wsize, base, hash, input, inserted, strstart, h))
      && Skips(hash, input, inserted, h, base + v, base + cur)
  {
    hide HashAt, Skips;
    var p := base + cur;
    assert Link(prev[Slot(p - base, wsize)], base, hash, input, inserted, HashAt(hash, input, p), p);
  }

  /** Every position visited is a string inserted with the hash searched for, near enough, and
      later than the next one: no slot on the way belongs to a newer string. */
  lemma {:induction false} VisitsSound(head: seq<nat>, prev: seq<nat>, wsize: nat, base: nat, hash: HashFn, input: seq<byte>, inserted: set<nat>, strstart: nat, cur: nat, n: nat, h: nat)
    requires wsize >= MIN_LOOKAHEAD && strstart <= 2 * wsize && cur <= strstart && cur < 2 * wsize
    requires Chains(head, prev, wsize, base, hash, input, inserted, base + strstart + 1)
    requires Candidate(base + cur, wsize, base, hash, input, inserted, strstart, h)
    ensures |prev| == wsize
    ensures var ps := Visits(prev, wsize, base, cur, Limit(strstart, wsize), n);
      && (forall i :: 0 <= i < |ps| ==> Candidate(ps[i], wsize, base, hash, input, inserted, strstart, h))
      && (forall i :: 0 < i < |ps| ==> ps[i] < ps[i - 1])
    decreases n
  {
    hide Chains, Candidate;
    ChainNext(head, prev, wsize, base, hash, input, inserted, strstart, cur, h);
    if n > 0 {
      var v, lim := prev[Slot(cur, wsize)], Limit(strstart, wsize);
      if lim < v < 2 * wsize {
        VisitsSound(head, prev, wsize, base, hash, input, inserted, strstart, v, n - 1, h);
        if n > 1 { assert Visits(prev, wsize, base, v, lim, n - 1)[0] == base + v; }
      }
    }
  }

  // ----- which positions these are -----

  /** The n last strings inserted with hash h, from position lo on and before hi, the last one first. */
  ghost function Strings(hash: HashFn, input: seq<byte>, inserted: set<nat>, h: nat, lo: nat, hi: nat, n: nat): (ps: seq<nat>)
    decreases hi
  {
    if n == 0 || hi <= lo then []
    else if hi - 1 in inserted && hi + 2 <= |input| && HashAt(hash, input, hi - 1) == h then
      [hi - 1] + Strings(hash, input, inserted, h, lo, hi - 1, n - 1)
    else Strings(hash, input, inserted, h, lo, hi - 1, n)
  }

  lemma {:induction false} StringsSkip(hash: HashFn, input: seq<byte>, inserted: set<nat>, h: nat, lo: nat, x: nat, hi: nat, n: nat)
    requires Skips(hash, input, inserted, h, x, hi) && x < hi
    ensures Strings(hash, input, inserted, h, lo, hi, n) == Strings(hash, input, inserted, h, lo, x + 1, n)
    decreases hi
  {
    hide HashAt;
    if x + 1 < hi && lo < hi && n > 0 { StringsSkip(hash, input, inserted, h, lo, x, hi - 1, n); }
  }

  lemma {:induction false} StringsAt(hash: HashFn, input: seq<byte>, inserted: set<nat>, h: nat, lo: nat, p: nat, n: nat)
    requires p in inserted && p + 3 <= |input| && HashAt(hash, input, p) == h && lo <= p && n > 0
    ensures Strings(hash, input, inserted, h, lo, p + 1, n) == [p] + Strings(hash, input, inserted, h, lo, p, n - 1)
  {
    hide HashAt;
  }

  lemma {:induction false} StringsNone(hash: HashFn, input: seq<byte>, inserted: set<nat>, h: nat, lo: nat, hi: nat, n: nat)
    requires hi <= lo || n == 0
    ensures Strings(hash, input, inserted, h, lo, hi, n) == []
  {
  }

  /** From a string on, a search visits exactly the strings with its hash that are less than MAX_DIST
      back, none left out, the nearest first. */
  lemma {:induction false} VisitsExact(head: seq<nat>, prev: seq<nat>, wsize: nat, base: nat, hash: HashFn, input: seq<byte>, inserted: set<nat>, strstart: nat, cur: nat, n: nat, h: nat)
    requires wsize >= MIN_LOOKAHEAD && strstart <= 2 * wsize && cur <= strstart && cur < 2 * wsize && n > 0
    requires Chains(head, prev, wsize, base, hash, input, inserted, base + strstart + 1)
    requires Candidate(base + cur, wsize, base, hash, input, inserted, strstart, h)
    ensures |prev| == wsize
    ensures Visits(prev, wsize, base, cur, Limit(strstart, wsize), n)
      == [base + cur] + Strings(hash, input, inserted, h, base + Limit(strstart, wsize) + 1, base + cur, n - 1)
    decreases n
  {
    hide Chains, Visits, Strings, Skips, Limit, HashAt;
    ChainNext(head, prev, wsize, base, hash, input, inserted, strstart, cur, h);
    var v, lim := prev[Slot(cur, wsize)], Limit(strstart, wsize);
    var lo := base + lim + 1;
    VisitsAt(prev, wsize, base, cur, lim, n);
    if v < cur { StringsSkip(hash, input, inserted, h, lo, base + v, base + cur, n - 1); }
    if n == 1 {
      if lim < v { VisitsNone(prev, wsize, base, v, lim); }
      StringsNone(hash, input, inserted, h, lo, base + cur, 0);
    } else if lim < v {
      VisitsExact(head, prev, wsize, base, hash, input, inserted, strstart, v, n - 1, h);
      StringsAt(hash, input, inserted, h, lo, base + v, n - 1);
    } else {
      StringsNone(hash, input, inserted, h, lo, if v < cur then base + v + 1 else base + cur, n - 1);
    }
  }

  /** What a search for a string of hash h at strstart visits: nothing unless the head of the chain is at
      most MAX_DIST back. */
  ghost function Search(head: seq<nat>, prev: seq<nat>, wsize: nat, base: nat, strstart: nat, h: nat, n: nat): (ps: seq<nat>)
    requires |prev| == wsize >= MIN_LOOKAHEAD && h < |head|
  {
    if 0 < head[h] < 2 * wsize && strstart <= head[h] + MaxDist(wsize) then Visits(prev, wsize, base, head[h], Limit(strstart, wsize), n) else []
  }

  /** The strings of hash h that can be matched at position q, in a window from base on: the n nearest of those less
      than MAX_DIST back, or one exactly MAX_DIST back if there is none. The first string of the window does not count. */
  ghost function Nearest(hash: HashFn, input: seq<byte>, inserted: set<nat>, wsize: nat, base: nat, q: nat, h: nat, n: nat): (ps: seq<nat>)
    requires wsize >= MIN_LOOKAHEAD && base <= q
  {
    var lim := Limit(q - base, wsize);
    var near := Strings(hash, input, inserted, h, base + lim + 1, q, n);
    if near == [] && lim > 0 then Strings(hash, input, inserted, h, base + lim, q, n) else near
  }

  /** So every search finds exactly what there is to find. */
  lemma {:induction false} SearchExact(head: seq<nat>, prev: seq<nat>, wsize: nat, base: nat, hash: HashFn, input: seq<byte>, inserted: set<nat>, now: nat, strstart: nat, h: nat, n: nat)
    requires wsize >= MIN_LOOKAHEAD && strstart <= 2 * wsize && h < |head| && now <= base + strstart
    requires Chains(head, prev, wsize, base, hash, input, inserted, now)
    ensures |prev| == wsize && Search(head, prev, wsize, base, strstart, h, n) == Nearest(hash, input, inserted, wsize, base, base + strstart, h, n)
  {
    hide Chains, Visits, Strings, Skips, HashAt;
    HeadMeans(head, prev, wsize, base, hash, input, inserted, now, strstart, h);
    var v, lim, q := head[h], Limit(strstart, wsize), base + strstart;
    if n == 0 {
      StringsNone(hash, input, inserted, h, base + lim + 1, q, 0);
      StringsNone(hash, input, inserted, h, base + lim, q, 0);
      if v < 2 * wsize { VisitsNone(prev, wsize, base, v, lim); }
    } else if v < strstart {
      StringsSkip(hash, input, inserted, h, base + lim + 1, base + v, q, n);
      StringsSkip(hash, input, inserted, h, base + lim, base + v, q, n);
      if v == 0 || v + MaxDist(wsize) < strstart {
        StringsNone(hash, input, inserted, h, base + lim + 1, base + v + 1, n);
        if lim > 0 { StringsNone(hash, input, inserted, h, base + lim, base + v + 1, n); }
      } else {
        VisitsExact(head, prev, wsize, base, hash, input, inserted, strstart, v, n, h);
        if lim < v {
          StringsAt(hash, input, inserted, h, base + lim + 1, base + v, n);
        } else {
          StringsNone(hash, input, inserted, h, base + lim + 1, base + v + 1, n);
          StringsNone(hash, input, inserted, h, base + lim + 1, base + v, n - 1);
          StringsAt(hash, input, inserted, h, base + lim, base + v, n);
          StringsNone(hash, input, inserted, h, base + lim, base + v, n - 1);
        }
      }
    } else {
      StringsNone(hash, input, inserted, h, base + lim + 1, q, n);
    }
  }

  lemma {:induction false} HeadMeans(head: seq<nat>, prev: seq<nat>, wsize: nat, base: nat, hash: HashFn, input: seq<byte>, inserted: set<nat>, now: nat, strstart: nat, h: nat)
    requires wsize >= MIN_LOOKAHEAD && strstart <= 2 * wsize && h < |head| && now <= base + strstart
    requires Chains(head, prev, wsize, base, hash, input, inserted, now)
    ensures |prev| == wsize && Chains(head, prev, wsize, base, hash, input, inserted, base + strstart + 1)
    ensures var v := head[h];
      && (v != 0 ==> v < strstart && v < 2 * wsize && base + v in inserted && base + v + 3 <= |input| && HashAt(hash, input, base + v) == h)
      && (v != 0 && strstart <= v + MaxDist(wsize) ==> Candidate(base + v, wsize, base, hash, input, inserted, strstart, h))
      && Skips(hash, input, inserted, h, base + v, base + strstart)
  {
    hide HashAt, Skips;
    assert input + [] == input;
    ChainsExtend(head, prev, wsize, base, hash, input, [], inserted, now, base + strstart);
    ChainsExtend(head, prev, wsize, base, hash, input, [], inserted, now, base + strstart + 1);
    LinkMeans(head[h], base, hash, input, inserted, h, base + strstart);
  }

  /** A slide changes a search just when the head of the chain is at the very beginning of the new window: slide_hash
      cannot tell it from no string. Then it is exactly MAX_DIST back, and nothing else is found. */
  lemma {:induction false} SlideSearch(head: seq<nat>, prev: seq<nat>, head': seq<nat>, prev': seq<nat>, wsize: nat, base: nat, hash: HashFn, input: seq<byte>,
                                       inserted: set<nat>, now: nat, strstart: nat, h: nat, n: nat)
    requires wsize >= MIN_LOOKAHEAD && wsize + MaxDist(wsize) <= strstart <= 2 * wsize && now <= base + strstart && h < |head| && n > 0
    requires Chains(head, prev, wsize, base, hash, input, inserted, now)
    requires |head'| == |head| && forall k :: 0 <= k < |head| ==> head'[k] == Slid(head[k], wsize)
    requires |prev'| == |prev| && forall i :: 0 <= i < |prev| ==> prev'[i] == Slid(prev[i], wsize)
    ensures |prev| == wsize
    ensures Search(head, prev, wsize, base, strstart, h, n) == Search(head', prev', wsize, base + wsize, strstart - wsize, h, n)
      <==> !(head[h] == wsize && strstart == wsize + MaxDist(wsize))
  {
    hide Chains, Visits, Strings, HashAt, Slid, Candidate, Skips;
    ChainsSlide(head, prev, head', prev', wsize, base, hash, input, inserted, now);
    HeadMeans(head, prev, wsize, base, hash, input, inserted, now, strstart, h);
    HeadMeans(head', prev', wsize, base + wsize, hash, input, inserted, now, strstart - wsize, h);
    var v := head[h];
    SlidFacts(v, wsize, strstart);
    if v != 0 && strstart <= v + MaxDist(wsize) {
      VisitsExact(head, prev, wsize, base, hash, input, inserted, strstart, v, n, h);
      if v > wsize { VisitsExact(head', prev', wsize, base + wsize, hash, input, inserted, strstart - wsize, v - wsize, n, h); }
    }
  }

  lemma {:induction false} SlidFacts(v: nat, wsize: nat, strstart: nat)
    requires wsize >= MIN_LOOKAHEAD && wsize + MaxDist(wsize) <= strstart <= 2 * wsize
    ensures Slid(v, wsize) == if v >= wsize then v - wsize else 0
    ensures Limit(strstart, wsize) == Limit(strstart - wsize, wsize) + wsize
  {
  }

  /** In terms of the strings inserted: the one string that a slide loses. */
  lemma {:induction false} NearestSlides(hash: HashFn, input: seq<byte>, inserted: set<nat>, wsize: nat, base: nat, q: nat, h: nat, n: nat)
    requires wsize >= MIN_LOOKAHEAD && base + wsize + MaxDist(wsize) <= q <= base + 2 * wsize
    ensures Nearest(hash, input, inserted, wsize, base, q, h, n) == Nearest(hash, input, inserted, wsize, base + wsize, q, h, n)
      <==> !(q == base + wsize + MaxDist(wsize) && Nearest(hash, input, inserted, wsize, base, q, h, n) == [base + wsize])
  {
    hide HashAt, Strings;
    var lim := Limit(q - base, wsize);
    SlidFacts(0, wsize, q - base);
    if lim == wsize && Strings(hash, input, inserted, h, base + lim + 1, q, n) == [] {
      StringsLast(hash, input, inserted, h, base + lim, q, n);
    }
    StringsFrom(hash, input, inserted, h, base + lim + 1, q, n);
    var near := Strings(hash, input, inserted, h, base + lim + 1, q, n);
    assert near != [] ==> near[0] in near;
  }

  /** With nothing after lo, at most lo itself. */
  lemma {:induction false} StringsLast(hash: HashFn, input: seq<byte>, inserted: set<nat>, h: nat, lo: nat, hi: nat, n: nat)
    requires Strings(hash, input, inserted, h, lo + 1, hi, n) == []
    ensures Strings(hash, input, inserted, h, lo, hi, n) == [] || Strings(hash, input, inserted, h, lo, hi, n) == [lo]
    decreases hi
  {
    hide HashAt;
    if n > 0 && lo + 1 < hi {
      StringsLast(hash, input, inserted, h, lo, hi - 1, n);
    } else if n > 0 && lo < hi {
      StringsNone(hash, input, inserted, h, lo, lo, n - 1);
      StringsNone(hash, input, inserted, h, lo, lo, n);
    }
  }

  lemma {:induction false} StringsFrom(hash: HashFn, input: seq<byte>, inserted: set<nat>, h: nat, lo: nat, hi: nat, n: nat)
    ensures forall p :: p in Strings(hash, input, inserted, h, lo, hi, n) ==> lo <= p < hi
    decreases hi
  {
    hide HashAt;
    if n > 0 && lo < hi {
      StringsFrom(hash, input, inserted, h, lo, hi - 1, n - 1);
      StringsFrom(hash, input, inserted, h, lo, hi - 1, n);
    }
  }

  /** What a slide from one state of the tables to another does to the searches. */
  ghost predicate SearchesSlid(head: seq<nat>, prev: seq<nat>, head': seq<nat>, prev': seq<nat>, wsize: nat, base: nat, strstart: nat)
  {
    && |prev| == wsize == |prev'| && wsize >= MIN_LOOKAHEAD && |head| == |head'| && wsize <= strstart
    && forall h: nat, n: nat :: h < |head| && n > 0 ==>
      (Search(head, prev, wsize, base, strstart, h, n) == Search(head', prev', wsize, base + wsize, strstart - wsize, h, n)
       <==> !(head[h] == wsize && strstart == wsize + MaxDist(wsize)))
  }

  lemma {:induction false} SlideSearches(head: seq<nat>, prev: seq<nat>, head': seq<nat>, prev': seq<nat>, wsize: nat, base: nat, hash: HashFn, input: seq<byte>,
                                         inserted: set<nat>, now: nat, strstart: nat)
    requires wsize >= MIN_LOOKAHEAD && wsize + MaxDist(wsize) <= strstart <= 2 * wsize && now <= base + strstart
    requires Chains(head, prev, wsize, base, hash, input, inserted, now)
    requires |head'| == |head| && forall k :: 0 <= k < |head| ==> head'[k] == Slid(head[k], wsize)
    requires |prev'| == |prev| && forall i :: 0 <= i < |prev| ==> prev'[i] == Slid(prev[i], wsize)
    ensures SearchesSlid(head, prev, head', prev', wsize, base, strstart)
  {
    hide Chains, Search, Slid, HashAt;
    assert |prev| == wsize by { ChainsSize(head, prev, wsize, base, hash, input, inserted, now); }
    forall h: nat, n: nat | h < |head| && n > 0
      ensures Search(head, prev, wsize, base, strstart, h, n) == Search(head', prev', wsize, base + wsize, strstart - wsize, h, n)
        <==> !(head[h] == wsize && strstart == wsize + MaxDist(wsize))
    {
      SlideSearch(head, prev, head', prev', wsize, base, hash, input, inserted, now, strstart, h, n);
    }
  }

  lemma {:induction false} ChainsSize(head: seq<nat>, prev: seq<nat>, wsize: nat, base: nat, hash: HashFn, input: seq<byte>, inserted: set<nat>, now: nat)
    requires Chains(head, prev, wsize, base, hash, input, inserted, now)
    ensures |prev| == wsize
  {
  }

  /** A string that a slide loses: the only one inserted, MAX_DIST back, at the beginning of the upper half. */
  lemma {:induction false} SlideLoses(hash: HashFn, size: nat, input: seq<byte>, wsize: nat, n: nat)
    requires GoodHash(hash, size) && wsize >= MIN_LOOKAHEAD && |input| >= wsize + MaxDist(wsize) && |input| >= wsize + 3 && MaxDist(wsize) > 0 && n > 0
    ensures var h, prev := HashAt(hash, input, wsize), seq(wsize, _ => 0);
      && h < size
      && var head, head' := seq(size, _ => 0)[h := wsize], seq(size, _ => 0);
      && Chains(head, prev, wsize, 0, hash, input, {wsize}, wsize + 1)
      && (forall k :: 0 <= k < size ==> head'[k] == Slid(head[k], wsize)) && (forall i :: 0 <= i < wsize ==> prev[i] == Slid(prev[i], wsize))
      && Search(head, prev, wsize, 0, wsize + MaxDist(wsize), h, n) == [wsize]
      && Search(head', prev, wsize, wsize, MaxDist(wsize), h, n) == []
  {
    hide HashAt, GoodHash;
    HashInRange(hash, size, input, wsize);
    var h, prev := HashAt(hash, input, wsize), seq(wsize, _ => 0);
    var head := seq(size, _ => 0)[h := wsize];
    VisitsAt(prev, wsize, 0, wsize, Limit(wsize + MaxDist(wsize), wsize), n);
  }
}
