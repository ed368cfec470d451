/** The window state of deflate.c and the search for matches in it. */
module Matcher {
  import opened Lz77
  import opened Searcher
  import R = RollingHash

  const U32: nat := 0x1_0000_0000

  /** The window holds the input from base on. */
  ghost predicate Shows(window: seq<byte>, base: nat, input: seq<byte>, n: nat)
  {
    n <= |window| && base + n <= |input| && forall i :: 0 <= i < n ==> window[i] == input[base + i]
  }

  /** No more than best bytes at window index m repeat at strstart, as far as a match can go. */
  ghost predicate NoLonger(window: seq<byte>, strstart: nat, m: nat, best: nat)
  {
    best >= MAX_MATCH || !Repeats(window, strstart, m, best + 1)
  }

  /** The len bytes at window index m repeat at strstart. */
  ghost predicate Repeats(window: seq<byte>, strstart: nat, m: nat, len: nat)
  {
    m < strstart && strstart + len <= |window| && forall i :: strstart <= i < strstart + len ==> window[i] == window[i - (strstart - m)]
  }

  function Least(a: nat, b: nat): (r: nat) { if a < b then a else b }

  /** The positions from a on and before b. */
  ghost function Between(a: int, b: int): (s: set<nat>)
    decreases b - a
  {
    if b <= a || b <= 0 then {} else Between(a, b - 1) + {b - 1}
  }

  /** The search for hash h at position q, in a window from base on, finds what could have been matched in a window from base0
      on, unless the window has slid and that is the one string that has come to its very beginning. */
  ghost predicate SearchKept(hash: HashFn, input: seq<byte>, inserted: set<nat>, wsize: nat, base0: nat, base: nat, q: nat, head: seq<nat>, prev: seq<nat>, h: nat, n: nat)
    requires |prev| == wsize >= MIN_LOOKAHEAD && h < |head| && base0 <= q && base <= q
  {
    var before := Nearest(hash, input, inserted, wsize, base0, q, h, n);
    Search(head, prev, wsize, base, q - base, h, n) == before <==> !(base != base0 && q == base + MaxDist(wsize) && before == [base])
  }

  ghost predicate SearchesKept(hash: HashFn, input: seq<byte>, inserted: set<nat>, wsize: nat, base0: nat, base: nat, q: nat, head: seq<nat>, prev: seq<nat>)
  {
    && |prev| == wsize >= MIN_LOOKAHEAD && base0 <= q && base <= q
    && forall h: nat, n: nat :: h < |head| && n > 0 ==> SearchKept(hash, input, inserted, wsize, base0, base, q, head, prev, h, n)
  }

  class Matcher {
    const wsize: nat
    const hashBits: R.bits
    ghost const hash: HashFn
    const window: array<byte>
    const head: array<nat>
    const prev: array<nat>
    var strstart: nat
    var lookahead: nat
    var insH: bv32              // ins_h, the hash of the bytes about to be inserted
    var insert: nat             // bytes before strstart still to be inserted
    var matchStart: nat         // unsigned 32 bits
    var blockStart: int
    ghost var base: nat         // input position of window index 0
    ghost var input: seq<byte>  // everything read since the last full flush
    ghost var inserted: set<nat>
    ghost var mark: nat         // just after the last string inserted

    ghost predicate Shape()
    {
      var w: object := window;
      512 <= wsize <= 32768 && window.Length == 2 * wsize && prev.Length == wsize && head != prev && w != head && w != prev && GoodHash(hash, head.Length)
      && head.Length == R.Size(hashBits) && R.IsHash(hashBits, hash)
    }

    /** The rolling hash has seen the two bytes at window index i. */
    ghost predicate PrimedAt(i: nat)
      reads this`insH, this`base, this`input
    {
      base + i + 1 < |input| ==> R.Primed(hashBits, insH, input[base + i], input[base + i + 1])
    }

    /** The string at strstart can be inserted next. */
    ghost predicate Ready()
      reads this`insH, this`base, this`input, this`strstart, this`lookahead
    {
      lookahead >= MIN_MATCH ==> PrimedAt(strstart)
    }

    ghost predicate Sound()
      reads this`strstart, this`lookahead, this`base, this`input, this`inserted, this`mark, window, head, prev
    {
      && Shape() && |input| == base + strstart + lookahead && strstart + lookahead <= 2 * wsize
      && Shows(window[..], base, input, strstart + lookahead)
      && Chains(head[..], prev[..], wsize, base, hash, input, inserted, mark) && (mark > 0 ==> mark - 1 in inserted)
    }

    /** The current block begins before strstart, and in front of the window only if the window has slid. */
    ghost predicate BlockBehind()
      reads this`blockStart, this`strstart, this`base
    {
      blockStart <= strstart && base + blockStart >= 0 && (blockStart < 0 ==> wsize <= strstart + MIN_LOOKAHEAD)
    }

    ghost predicate Valid()
      reads this, window, head, prev
    {
      && insert <= strstart && (insert > 0 ==> lookahead + insert < MIN_MATCH)
      && Sound() && mark + insert <= base + strstart
      && matchStart < U32 && BlockBehind()
    }

    /** The string at strstart has been inserted, if there is one. */
    ghost predicate Hashing()
      reads this`insH, this`base, this`input, this`strstart, this`lookahead
    {
      lookahead >= MIN_MATCH ==> PrimedAt(strstart + 1)
    }

    constructor (wsize': nat, hashBits': R.bits)
      requires 512 <= wsize' <= 32768
      ensures Valid() && wsize == wsize' && base == 0 && input == [] && strstart == 0 && blockStart == 0 && lookahead == 0
      ensures fresh(window) && fresh(head) && fresh(prev)
    {
      hide R.Hash, R.Size, GoodHash;
      ghost var hash': HashFn := (a, b, c) => R.Hash(hashBits', a, b, c);
      R.HashGood(hashBits', hash');
      wsize, hashBits, hash := wsize', hashBits', hash';
      window := new byte[2 * wsize'](_ => 0);
      head := new nat[R.Size(hashBits')](_ => 0);
      prev := new nat[wsize'](_ => 0);
      strstart, lookahead, insH, insert, matchStart, blockStart := 0, 0, 0, 0, 0, 0;
      base, input, inserted, mark := 0, [], {}, 0;
    }

    lemma {:induction false} Room()
      requires Sound()
      ensures Shape() && strstart + lookahead <= 2 * wsize && |input| == base + strstart + lookahead
    {
    }

    /** The hash of the string at str, rolled on by its third byte. */
    method Roll(str: nat) returns (h: nat)
      requires Sound() && str + MIN_MATCH <= strstart + lookahead && PrimedAt(str)
      modifies this`insH
      ensures Sound() && PrimedAt(str + 1) && h == HashAt(hash, input, base + str)
    {
      hide Shows, Chains, GoodHash, R.Primed, R.Hash, R.Update, R.Size;
      ShowsAt(window[..], base, input, strstart + lookahead, str);
      R.PrimedNext(hashBits, insH, window[str], window[str + 1], window[str + 2]);
      R.PrimedHash(hashBits, insH, window[str], window[str + 1], window[str + 2]);
      insH := R.Update(hashBits, insH, window[str + 2]);
      h := insH as nat;
    }

    /** The rolling hash starts again at window index i. */
    method Restart(i: nat)
      requires Sound() && i + 1 < 2 * wsize
      modifies this`insH
      ensures Sound() && (i + 1 < strstart + lookahead ==> PrimedAt(i))
    {
      hide Chains, GoodHash, R.Primed, R.Hash, R.Update, R.Size, R.Octet;
      R.PrimedFirst(hashBits, window[i], window[i + 1]);
      insH := R.Update(hashBits, R.Octet(window[i]), window[i + 1]);
    }

    /** insert_string: returns the previous head of the chain. */
    method InsertString(str: nat) returns (hashHead: nat)
      requires Sound() && mark <= base + str && str + MIN_MATCH <= strstart + lookahead && PrimedAt(str)
      modifies head, prev, this`insH, this`inserted, this`mark
      ensures Sound() && PrimedAt(str + 1) && inserted == old(inserted) + {base + str} && mark == base + str + 1
      ensures var h := HashAt(hash, input, base + str);
        h < head.Length && hashHead == old(head[..])[h] && head[..] == old(head[..])[h := str] && prev[..] == old(prev[..])[Slot(str, wsize) := hashHead]
      ensures Skips(hash, input, old(inserted), HashAt(hash, input, base + str), base + hashHead, base + str)
      ensures hashHead != 0 ==>
        && hashHead < str && base + hashHead in inserted && base + hashHead + 3 <= |input|
        && HashAt(hash, input, base + hashHead) == HashAt(hash, input, base + str)
    {
      hide Shows, Chains, GoodHash, R.Primed, R.IsHash, R.Size, Link, HashAt, Skips;
      ghost var h0: seq<nat>, p0: seq<nat> := head[..], prev[..];
      ChainsInsert(h0, p0, wsize, base, hash, input, inserted, mark, str);
      var h := Roll(str);
      hashHead := head[h];
      LinkMeans(h0[h], base, hash, input, inserted, h, base + str);
      prev[Slot(str, wsize)] := head[h];
      head[h] := str;
      assert head[..] == h0[h := str] && prev[..] == p0[Slot(str, wsize) := h0[h]];
      inserted, mark := inserted + {base + str}, base + str + 1;
    }

    /** The positions that a search for hash h visits, in at most n steps. */
    ghost function SearchFor(h: nat, n: nat): (ps: seq<nat>)
      requires Shape() && h < head.Length
      reads this`base, this`strstart, head, prev
    {
      Search(head[..], prev[..], wsize, base, strstart, h, n)
    }

    /** They are exactly the strings inserted that can be matched. */
    lemma {:induction false} SearchesAll(h: nat, n: nat)
      requires Valid() && h < head.Length
      ensures SearchFor(h, n) == Nearest(hash, input, inserted, wsize, base, base + strstart, h, n)
    {
      hide Chains, Search, Nearest, Shows, GoodHash;
      SearchExact(head[..], prev[..], wsize, base, hash, input, inserted, mark, strstart, h, n);
    }

    /** slide_hash. */
    method SlideHash()
      requires Shape()
      modifies head, prev
      ensures forall h :: 0 <= h < head.Length ==> head[h] == Slid(old(head[h]), wsize)
      ensures forall i :: 0 <= i < prev.Length ==> prev[i] == Slid(old(prev[i]), wsize)
    {
      hide GoodHash;
      var n := head.Length;
      while n > 0
        invariant 0 <= n <= head.Length
        invariant forall h :: 0 <= h < head.Length ==> head[h] == if h >= n then Slid(old(head[h]), wsize) else old(head[h])
        modifies head
      {
        n := n - 1;
        head[n] := Slid(head[n], wsize);
      }
      n := wsize;
      while n > 0
        invariant 0 <= n <= wsize
        invariant forall i :: 0 <= i < wsize ==> prev[i] == if i >= n then Slid(old(prev[i]), wsize) else old(prev[i])
        modifies prev
      {
        n := n - 1;
        prev[n] := Slid(prev[n], wsize);
      }
    }

    /** The upper half of the window moves to the lower half. */
    method Slide()
      requires Valid() && strstart >= wsize + MaxDist(wsize)
      modifies this, window, head, prev
      ensures Valid() && base == old(base) + wsize && strstart == old(strstart) - wsize && lookahead == old(lookahead) && insert == old(insert)
      ensures input == old(input) && inserted == old(inserted) && mark == old(mark) && blockStart == old(blockStart) - wsize
      ensures matchStart == (old(matchStart) - wsize) % U32 && insH == old(insH)
      ensures SearchesSlid(old(head[..]), old(prev[..]), head[..], prev[..], wsize, old(base), old(strstart))
    {
      hide Sound, SearchesSlid, GoodHash, R.Size, R.IsHash;
      Room();
      SlideTables();
      matchStart := (matchStart - wsize) % U32;
      blockStart := blockStart - wsize;
      insert := Least(insert, strstart);
    }

    /** The window and its tables. */
    method SlideTables()
      requires Sound() && mark <= base + strstart && strstart >= wsize + MaxDist(wsize)
      modifies this`strstart, this`base, window, head, prev
      ensures Sound() && base == old(base) + wsize && strstart == old(strstart) - wsize
      ensures SearchesSlid(old(head[..]), old(prev[..]), head[..], prev[..], wsize, old(base), old(strstart))
    {
      hide Chains, GoodHash, R.Size, R.IsHash, SearchesSlid;
      ghost var h0: seq<nat>, p0: seq<nat> := head[..], prev[..];
      MoveDown(strstart + lookahead - wsize);
      SlideHash();
      ChainsSlide(h0, p0, head[..], prev[..], wsize, base, hash, input, inserted, mark);
      SlideSearches(h0, p0, head[..], prev[..], wsize, base, hash, input, inserted, mark, strstart);
      strstart := strstart - wsize;
      base := base + wsize;
    }

    /** n bytes from the upper half to the lower half. */
    method MoveDown(n: nat)
      requires Shape() && n <= wsize
      modifies window
      ensures forall i :: 0 <= i < n ==> window[i] == old(window[wsize + i])
      ensures forall i :: wsize <= i < 2 * wsize ==> window[i] == old(window[i])
    {
      hide GoodHash;
      for k := 0 to n
        invariant forall i :: 0 <= i < k ==> window[i] == old(window[wsize + i])
        invariant forall i :: wsize <= i < 2 * wsize ==> window[i] == old(window[i])
      {
        window[k] := window[wsize + k];
      }
    }

    /** read_buf: bytes is appended to the lookahead. */
    method Append(bytes: seq<byte>)
      requires Sound() && strstart + lookahead + |bytes| <= 2 * wsize
      modifies window, this`lookahead, this`input
      ensures Sound() && input == old(input) + bytes && lookahead == old(lookahead) + |bytes|
    {
      hide Chains, GoodHash;
      ghost var at := strstart + lookahead;
      for k := 0 to |bytes|
        invariant forall i :: 0 <= i < at ==> window[i] == input[base + i]
        invariant forall i :: at <= i < at + k ==> window[i] == bytes[i - at]
        modifies window
      {
        window[strstart + lookahead + k] := bytes[k];
      }
      ChainsExtend(head[..], prev[..], wsize, base, hash, input, bytes, inserted, mark, mark);
      lookahead, input := lookahead + |bytes|, input + bytes;
    }

    /** The same, when the previous head does not matter. */
    method InsertNext(str: nat)
      requires Sound() && mark <= base + str && str + MIN_MATCH <= strstart + lookahead && PrimedAt(str)
      modifies head, prev, this`insH, this`inserted, this`mark
      ensures Sound() && PrimedAt(str + 1) && inserted == old(inserted) + {base + str} && mark == base + str + 1
    {
      hide Sound, PrimedAt, HashAt, Skips;
      var h := InsertString(str);
    }

    /** Strings left over from before are inserted as soon as three bytes are there. */
    method InsertPending()
      requires insert <= strstart && Sound() && mark + insert <= base + strstart
      modifies this`insH, this`insert, this`inserted, this`mark, head, prev
      ensures insert <= strstart && Sound() && mark + insert <= base + strstart && (insert > 0 ==> lookahead + insert < MIN_MATCH)
      ensures Ready()
      ensures insert <= old(insert) && inserted == old(inserted) + Between(base + strstart - old(insert), base + strstart - insert)
    {
      hide Sound, PrimedAt, GoodHash, R.Size, R.IsHash;
      Room();
      if lookahead + insert >= MIN_MATCH {
        var str := strstart - insert;
        Restart(str);
        while insert != 0
          invariant insert <= strstart && str == strstart - insert && Sound() && mark + insert <= base + strstart
          invariant lookahead + insert >= MIN_MATCH && PrimedAt(str)
          invariant insert <= old(insert) && inserted == old(inserted) + Between(base + strstart - old(insert), base + str)
          decreases insert
        {
          InsertNext(str);
          str, insert := str + 1, insert - 1;
          if lookahead + insert < MIN_MATCH {
            break;
          }
        }
      } else {
        NotReady();
      }
    }

    lemma {:induction false} NotReady()
      requires lookahead < MIN_MATCH
      ensures Ready()
    {
    }

    /** One read: input bytes, then the strings that can now be inserted. */
    method Refill(bytes: seq<byte>)
      requires Valid() && strstart + lookahead + |bytes| <= 2 * wsize
      modifies this`lookahead, this`input, this`insH, this`insert, this`inserted, this`mark, window, head, prev
      ensures Valid() && Ready() && input == old(input) + bytes && lookahead == old(lookahead) + |bytes|
      ensures insert <= old(insert) <= strstart && inserted == old(inserted) + Between(base + strstart - old(insert), base + strstart - insert)
    {
      hide Chains, GoodHash, Shows;
      Append(bytes);
      InsertPending();
    }

    /** The window is where it was, or has slid because it was nearly full. */
    ghost predicate Moved(base0: nat, strstart0: nat)
      reads this`base
    {
      base == base0 || (base == base0 + wsize && strstart0 >= 2 * wsize - MIN_LOOKAHEAD)
    }

    method SlideIfFull()
      requires Valid() && lookahead < MIN_LOOKAHEAD
      modifies this, window, head, prev
      ensures Valid() && lookahead == old(lookahead) && input == old(input)
      ensures base + strstart == old(base + strstart) && base + blockStart == old(base + blockStart) && Moved(old(base), old(strstart))
      ensures matchStart == (old(matchStart) - (base - old(base))) % U32 && (old(Ready()) ==> Ready())
      ensures strstart + MIN_LOOKAHEAD < 2 * wsize && (old(strstart) > 0 ==> strstart > 0)
      ensures inserted == old(inserted) && insert == old(insert)
      ensures base != old(base) ==> base == old(base) + wsize && SearchesSlid(old(head[..]), old(prev[..]), head[..], prev[..], wsize, old(base), old(strstart))
    {
      hide Chains, GoodHash, Shows, R.Primed, R.IsHash, R.Size, SearchesSlid;
      if strstart >= wsize + MaxDist(wsize) {
        Slide();
      }
    }

    /** fill_window: slides when nearly full, then reads as much as fits. The source does this in
        a loop until the lookahead is long enough or the input used up; one round always is enough. */
    method FillWindow(next: seq<byte>) returns (rest: seq<byte>)
      requires Valid() && lookahead < MIN_LOOKAHEAD
      modifies this, window, head, prev
      ensures Valid() && |rest| <= |next| && next == next[..|next| - |rest|] + rest && input == old(input) + next[..|next| - |rest|]
      ensures base + strstart == old(base + strstart) && base + blockStart == old(base + blockStart) && Moved(old(base), old(strstart))
      ensures matchStart == (old(matchStart) - (base - old(base))) % U32
      ensures lookahead >= MIN_LOOKAHEAD || rest == []
      ensures old(Ready()) ==> Ready()
      ensures strstart + MIN_LOOKAHEAD <= 2 * wsize && (old(strstart) > 0 ==> strstart > 0)
      ensures insert <= old(insert) <= old(strstart) && inserted == old(inserted) + Between(base + strstart - old(insert), base + strstart - insert)
      ensures Shape() && SearchesKept(hash, input, inserted, wsize, old(base), base, base + strstart, head[..], prev[..])
    {
      hide Sound, Ready, SearchesKept, SearchesSlid;
      Room();
      SlideIfFull();
      Room();
      rest := Read(next);
      Kept(old(base));
    }

    /** Every search finds the strings that could have been matched before a slide, with at most one exception. */
    lemma {:induction false} Kept(base0: nat)
      requires Valid() && (base == base0 || (base == base0 + wsize && base0 + wsize + MaxDist(wsize) <= base + strstart <= base0 + 2 * wsize))
      ensures Shape() && SearchesKept(hash, input, inserted, wsize, base0, base, base + strstart, head[..], prev[..])
    {
      hide Chains, Search, Nearest, Shows, GoodHash;
      Room();
      var q := base + strstart;
      forall h: nat, n: nat | h < head.Length && n > 0
        ensures SearchKept(hash, input, inserted, wsize, base0, base, q, head[..], prev[..], h, n)
      {
        SearchesAll(h, n);
        if base != base0 { NearestSlides(hash, input, inserted, wsize, base0, q, h, n); }
      }
    }

    /** As much input as there is room for. */
    method Read(next: seq<byte>) returns (rest: seq<byte>)
      requires Valid()
      modifies this`lookahead, this`input, this`insH, this`insert, this`inserted, this`mark, window, head, prev
      ensures Valid() && |rest| <= |next| && next == next[..|next| - |rest|] + rest && input == old(input) + next[..|next| - |rest|]
      ensures lookahead == old(lookahead) + |next| - |rest| && (rest == [] || strstart + lookahead == 2 * wsize)
      ensures old(Ready()) ==> Ready()
      ensures insert <= old(insert) <= strstart && inserted == old(inserted) + Between(base + strstart - old(insert), base + strstart - insert)
    {
      hide Sound, Ready;
      Room();
      rest := next;
      if next != [] {
        var more := 2 * wsize - lookahead - strstart;
        var n := Least(|next|, more);
        Refill(next[..n]);
        rest := next[n..];
      } else {
        assert input + next[..0] == input;
      }
    }

    /** The number of equal bytes, once the first three are known to be equal. */
    method Compare(cur: nat) returns (len: nat)
      requires window.Length == 2 * wsize && strstart + MIN_LOOKAHEAD <= 2 * wsize && cur < strstart
      requires window[strstart] == window[cur] && window[strstart + 1] == window[cur + 1] && window[strstart + 2] == window[cur + 2]
      ensures 3 <= len <= MAX_MATCH && Repeats(window[..], strstart, cur, len)
      ensures len == MAX_MATCH || window[strstart + len] != window[cur + len]
    {
      len := 3;
      while len < MAX_MATCH && window[strstart + len] == window[cur + len]
        invariant 3 <= len <= MAX_MATCH
        invariant forall i :: strstart <= i < strstart + len ==> window[i] == window[i - (strstart - cur)]
      {
        len := len + 1;
      }
    }

    /** A position worth comparing with the string at strstart. */
    ghost predicate Comparable(cur: nat)
      requires Shape() && base + strstart + 3 <= |input|
      reads this
    {
      && 0 < cur < strstart && strstart <= cur + MaxDist(wsize)
      && Candidate(base + cur, wsize, base, hash, input, inserted, strstart, HashAt(hash, input, base + strstart))
    }

    /** Two equal bytes and equal hashes: the third byte is equal too. */
    lemma {:induction false} ThirdByte(cur: nat)
      requires Sound() && lookahead >= MIN_MATCH && Comparable(cur)
      requires window[cur] == window[strstart] && window[cur + 1] == window[strstart + 1]
      ensures window[cur + 2] == window[strstart + 2]
    {
      hide Chains, Shows, GoodHash, R.Size, R.IsHash;
      ShowsAt(window[..], base, input, strstart + lookahead, cur);
      ShowsAt(window[..], base, input, strstart + lookahead, strstart);
      ThirdEqual(hash, head.Length, window[strstart], window[strstart + 1], window[cur + 2], window[strstart + 2]);
    }

    /** The checks before a comparison, then the comparison; 0 when the match cannot be longer than best. */
    method Try(cur: nat, best: nat) returns (l: nat)
      requires Sound() && mark == base + strstart + 1 && lookahead >= MIN_MATCH && strstart + MIN_LOOKAHEAD <= 2 * wsize
      requires Comparable(cur) && 1 <= best <= MAX_MATCH
      ensures l <= MAX_MATCH && Repeats(window[..], strstart, cur, l)
      ensures NoLonger(window[..], strstart, cur, if l > best then l else best)
    {
      hide Chains, Shows, Candidate, GoodHash, R.Size, R.IsHash;
      l := 0;
      if window[cur + best] == window[strstart + best] && window[cur + best - 1] == window[strstart + best - 1]
         && window[cur] == window[strstart] && window[cur + 1] == window[strstart + 1] {
        ThirdByte(cur);
        l := Compare(cur);
        assert l < MAX_MATCH ==> NoLonger(window[..], strstart, cur, l);
        if l < best { LongerStill(window[..], strstart, cur, l, best); }
      }
    }

    /** The next position of the chain, as long as it is near enough. */
    method Next(cur: nat) returns (next: nat)
      requires Sound() && mark == base + strstart + 1 && lookahead >= MIN_MATCH && Comparable(cur)
      ensures next == prev[Slot(cur, wsize)] < 2 * wsize && (next > Limit(strstart, wsize) ==> Comparable(next))
    {
      hide Chains, Shows, GoodHash, R.Size, R.IsHash;
      ChainNext(head[..], prev[..], wsize, base, hash, input, inserted, strstart, cur, HashAt(hash, input, base + strstart));
      next := prev[Slot(cur, wsize)];
    }

    /** The walk along the chain: the longest match found, at start, and whether it made the walk end early. */
    method Walk(cur0: nat, prevLength: nat, nice: nat, chain0: nat) returns (best: nat, start: nat)
      requires Sound() && mark == base + strstart + 1 && lookahead >= MIN_MATCH && strstart + MIN_LOOKAHEAD <= 2 * wsize
      requires Comparable(cur0) && 1 <= prevLength <= MAX_MATCH && matchStart < U32 && chain0 > 0
      ensures prevLength <= best <= MAX_MATCH && start < U32
      ensures best > prevLength ==> start < strstart && strstart <= start + MaxDist(wsize) && Repeats(window[..], strstart, start, best)
      ensures best >= nice || Beaten(window[..], strstart, base, Visits(prev[..], wsize, base, cur0, Limit(strstart, wsize), chain0), best)
    {
      hide Chains, Shows, Candidate, Repeats, GoodHash, NoLonger, Beaten, Visits, R.Size, R.IsHash;
      var chain, limit := chain0, Limit(strstart, wsize);
      var cur: nat := cur0;
      best, start := prevLength, matchStart;
      ghost var win, pv, seen: seq<nat> := window[..], prev[..], [];
      ghost var all := Visits(pv, wsize, base, cur0, limit, chain);
      assert Beaten(win, strstart, base, seen, best) by { NoneBeaten(win, strstart, base, best); }
      while true
        invariant start < U32 && Comparable(cur) && chain > 0 && prevLength <= best <= MAX_MATCH
        invariant best > prevLength ==> start < strstart && strstart <= start + MaxDist(wsize) && Repeats(win, strstart, start, best)
        invariant all == seen + Visits(pv, wsize, base, cur, limit, chain) && Beaten(win, strstart, base, seen, best)
        decreases chain
      {
        var l := Try(cur, best);
        BeatenMore(win, strstart, base, seen, best, if l > best then l else best, cur);
        VisitsStep(pv, wsize, base, cur, limit, chain);
        seen := seen + [base + cur];
        if l > best {
          start, best := cur, l;
          if l >= nice {
            break;
          }
        }
        var next := Next(cur);
        chain := chain - 1;
        if next <= limit || chain == 0 {
          assert all == seen;
          break;
        }
        cur := next;
      }
    }

    /** The string at cur and those of its hash before it that are less than MAX_DIST back, n in all. */
    ghost function Rivals(cur: nat, n: nat): (ps: seq<nat>)
      requires Shape() && base + strstart + 3 <= |input| && n > 0
      reads this
    {
      [base + cur] + Strings(hash, input, inserted, HashAt(hash, input, base + strstart), base + Limit(strstart, wsize) + 1, base + cur, n - 1)
    }

    /** longest_match: a match longer than prevLength, if the chain from cur has one; else a length
        that is not longer. No position visited has a longer match, unless the search stopped at
        a match that is long enough. */
    method LongestMatch(cur: nat, prevLength: nat, goodMatch: nat, niceMatch: nat, maxChain: nat) returns (len: nat)
      requires Sound() && mark == base + strstart + 1 && lookahead >= MIN_MATCH && strstart + MIN_LOOKAHEAD <= 2 * wsize
      requires Comparable(cur) && 1 <= prevLength <= MAX_MATCH && matchStart < U32 && maxChain >= 4
      modifies this`matchStart
      ensures Sound() && matchStart < U32 && Least(prevLength, lookahead) <= len <= lookahead && len <= MAX_MATCH
      ensures len > prevLength ==> len <= MAX_MATCH && matchStart < strstart && strstart <= matchStart + MaxDist(wsize) && Repeats(window[..], strstart, matchStart, len)
      ensures len >= niceMatch || len == lookahead ||
        Beaten(window[..], strstart, base, Rivals(cur, if prevLength >= goodMatch then maxChain / 4 else maxChain), len)
    {
      hide Chains, Shows, Candidate, Repeats, GoodHash, NoLonger, Beaten, Visits, R.Size, R.IsHash, Strings;
      var chain := if prevLength >= goodMatch then maxChain / 4 else maxChain;
      var best, start := Walk(cur, prevLength, Least(niceMatch, lookahead), chain);
      VisitsExact(head[..], prev[..], wsize, base, hash, input, inserted, strstart, cur, chain, HashAt(hash, input, base + strstart));
      len := Least(best, lookahead);
      ShorterRepeat(window[..], strstart, start, best, len);
      matchStart := start;
    }

    /** The strings at the n positions after from go into the table, up to maxInsert. */
    method InsertRun(from: nat, n: nat, maxInsert: int)
      requires Sound() && mark <= base + from + 1 && maxInsert + MIN_MATCH <= strstart + lookahead && (from <= maxInsert ==> PrimedAt(from + 1))
      modifies head, prev, this`insH, this`inserted, this`mark
      ensures Sound() && mark <= base + from + n + 1 && (from + n <= maxInsert ==> PrimedAt(from + n + 1))
      ensures inserted == old(inserted) + Between(base + from + 1, base + (if from + n <= maxInsert then from + n else maxInsert) + 1)
    {
      hide Sound, PrimedAt, GoodHash, R.Size, R.IsHash;
      for k := 0 to n
        invariant Sound() && mark <= base + from + k + 1 && (from + k <= maxInsert ==> PrimedAt(from + k + 1))
        invariant inserted == old(inserted) + Between(base + from + 1, base + (if from + k <= maxInsert then from + k else maxInsert) + 1)
      {
        if from + k + 1 <= maxInsert {
          InsertNext(from + k + 1);
        }
      }
    }

    /** The next n bytes have been dealt with. */
    method Advance(n: nat)
      requires insert <= strstart && (insert > 0 ==> lookahead + insert < MIN_MATCH) && n <= lookahead
      requires Sound() && mark + insert <= base + strstart + n && matchStart < U32 && BlockBehind()
      modifies this`strstart, this`lookahead
      ensures Valid() && strstart == old(strstart) + n && lookahead == old(lookahead) - n
    {
      hide Chains, GoodHash, Shows;
      strstart, lookahead := strstart + n, lookahead - n;
    }

    /** The next block starts at window index at. */
    method StartBlock(at: nat)
      requires Valid() && at <= strstart
      modifies this`blockStart
      ensures Valid() && blockStart == at
    {
      hide Chains, GoodHash, Shows;
      blockStart := at;
    }

    /** At the end of the input the last two bytes wait for a string to begin with them. */
    method LeaveInsert()
      requires Valid() && lookahead == 0
      modifies this`insert
      ensures Valid() && insert == Least(strstart, MIN_MATCH - 1)
    {
      hide GoodHash, Shows;
      insert := if strstart < MIN_MATCH - 1 then strstart else MIN_MATCH - 1;
    }

    method NoInsert()
      requires Valid()
      modifies this`insert
      ensures Valid() && insert == 0
    {
      hide Chains, GoodHash, Shows;
      insert := 0;
    }

    /** CLEAR_HASH, and a fresh window: nothing that comes later has to do with anything before. All input has
        been dealt with, so that lookahead is always 0 here. */
    method Forget()
      requires Valid() && blockStart == strstart && lookahead == 0
      modifies this, head
      ensures Valid() && Ready() && input == [] && inserted == {} && base == 0 && blockStart == strstart == lookahead == 0
    {
      hide GoodHash, R.Size, R.IsHash;
      for h := 0 to head.Length
        invariant forall k :: 0 <= k < h ==> head[k] == 0
        modifies head
      {
        head[h] := 0;
      }
      inserted, mark := {}, 0;
      if lookahead == 0 {
        base, input := 0, [];
        strstart, blockStart, insert := 0, 0, 0;
      }
    }
  }

  lemma {:induction false} ThirdEqual(hash: HashFn, size: nat, a: byte, b: byte, c: byte, d: byte)
    requires GoodHash(hash, size) && hash(a, b, c) == hash(a, b, d)
    ensures c == d
  {
  }

  lemma {:induction false} NoneBeaten(window: seq<byte>, strstart: nat, base: nat, best: nat)
    ensures Beaten(window, strstart, base, [], best)
  {
  }

  lemma {:induction false} VisitsStep(prev: seq<nat>, wsize: nat, base: nat, cur: nat, limit: nat, n: nat)
    requires |prev| == wsize && cur < 2 * wsize && n > 0
    ensures Slot(cur, wsize) < |prev|
    ensures var v := prev[Slot(cur, wsize)];
      Visits(prev, wsize, base, cur, limit, n) == [base + cur] + if limit < v < 2 * wsize && n > 1 then Visits(prev, wsize, base, v, limit, n - 1) else []
  {
  }

  lemma {:induction false} LongerStill(window: seq<byte>, strstart: nat, m: nat, l: nat, best: nat)
    requires NoLonger(window, strstart, m, l) && l <= best
    ensures NoLonger(window, strstart, m, best)
  {
    hide Repeats;
    if best < MAX_MATCH { ShorterRepeat(window, strstart, m, best + 1, l + 1); }
  }

  /** None of the positions has a longer match. */
  ghost predicate Beaten(window: seq<byte>, strstart: nat, base: nat, ps: seq<nat>, best: nat)
  {
    forall i :: 0 <= i < |ps| ==> ps[i] >= base && NoLonger(window, strstart, ps[i] - base, best)
  }

  lemma {:induction false} BeatenMore(window: seq<byte>, strstart: nat, base: nat, ps: seq<nat>, l: nat, best: nat, cur: nat)
    requires Beaten(window, strstart, base, ps, l) && l <= best && NoLonger(window, strstart, cur, best)
    ensures Beaten(window, strstart, base, ps + [base + cur], best)
  {
    hide NoLonger;
    forall i | 0 <= i < |ps|
      ensures NoLonger(window, strstart, ps[i] - base, best)
    {
      LongerStill(window, strstart, ps[i] - base, l, best);
    }
  }

  lemma {:induction false} ShorterRepeat(window: seq<byte>, strstart: nat, m: nat, len: nat, l: nat)
    requires l <= len
    ensures Repeats(window, strstart, m, len) ==> Repeats(window, strstart, m, l)
  {
  }

  lemma {:induction false} ShowsAt(window: seq<byte>, base: nat, input: seq<byte>, n: nat, i: nat)
    requires Shows(window, base, input, n) && i + 2 < n
    ensures n <= |window| && base + i + 2 < |input|
    ensures window[i] == input[base + i] && window[i + 1] == input[base + i + 1] && window[i + 2] == input[base + i + 2]
  {
  }
}
