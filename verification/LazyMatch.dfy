/** The match finders of deflate.c: deflate_slow, deflate_fast, deflate_rle and deflate_huff,
    one symbol at a time. */
module LazyMatch {
  import opened Lz77
  import opened Searcher
  import M = Matcher
  import L = Lossless
  import R = RollingHash

  datatype Strategy = Fast | Slow | Rle | Huff

  const TOO_FAR: nat := 4096

  /** The tuning of a level: good_match, max_lazy_match, nice_match, max_chain_length. */
  datatype Config = Config(good: nat, lazy: nat, nice: nat, chain: nat, filtered: bool)

  /** What a symbol that stands for the input at position p must be; q is the position after it. */
  ghost predicate Right(input: seq<byte>, p: nat, s: Symbol, q: nat)
  {
    match s
    case Literal(b) => p < |input| && b == input[p] && q == p + 1
    case Pair(dist, len) => L.Match(input, p, dist, len) && dist <= 32768 && 3 <= len <= 258 && q == p + len
  }

  /** Besides, no match reaches back further than the window allows, and those of the least length are
      near, except in deflate_fast. */
  ghost predicate Tame(s: Symbol, st: Strategy, wsize: nat)
  {
    s.Pair? ==> wsize >= MIN_LOOKAHEAD && s.dist <= MaxDist(wsize) && (st != Fast && s.len == MIN_MATCH ==> s.dist <= TOO_FAR)
  }

  lemma {:induction false} RightEmits(input: seq<byte>, syms: seq<Symbol>, p: nat, s: Symbol, q: nat)
    requires L.Lossless(input, syms, p) && Right(input, p, s, q)
    ensures L.Lossless(input, syms + [s], q)
  {
    hide L.Lossless, L.Match;
    match s
    case Literal(b) => L.EmitLiteral(input, syms, p);
    case Pair(dist, len) => L.EmitPair(input, syms, p, dist, len);
  }

  /** Repeated bytes in the window are repeated bytes of the input. */
  lemma {:induction false} RepeatsMatch(window: seq<byte>, base: nat, input: seq<byte>, n: nat, strstart: nat, m: nat, len: nat)
    requires M.Shows(window, base, input, n) && M.Repeats(window, strstart, m, len) && strstart + len <= n
    ensures L.Match(input, base + strstart, strstart - m, len)
  {
    forall i | base + strstart <= i < base + strstart + len
      ensures input[i] == input[i - (strstart - m)]
    {
      assert window[i - base] == window[i - base - (strstart - m)];
    }
  }

  class Finder {
    const m: M.Matcher
    const config: Config
    var matchLength: nat
    var prevLength: nat
    var prevMatch: nat
    var matchAvailable: bool
    ghost var dist: nat          // of the match waiting to be adopted

    /** Everything before this position of the input has been emitted. */
    ghost function Here(): (p: int)
      reads this, m
    {
      m.base + m.strstart - if matchAvailable then 1 else 0
    }

    /** The match found at the previous position, if any, is a match, wherever the window has slid. */
    ghost predicate Pending()
      reads this, m
    {
      && (matchAvailable ==> m.strstart >= 1)
      && matchLength <= MAX_MATCH && (!matchAvailable ==> matchLength < MIN_MATCH)
      && (matchLength >= MIN_MATCH ==> Waiting(m.input, m.base + m.strstart, m.strstart, m.matchStart, m.wsize, dist, matchLength))
      && (matchLength == MIN_MATCH ==> dist <= TOO_FAR)
    }

    ghost predicate Valid()
      reads this, m, m.window, m.head, m.prev
    {
      m.Valid() && config.chain >= 4 && Pending()
    }

    constructor (m': M.Matcher, config': Config)
      requires m'.Valid() && config'.chain >= 4
      ensures Valid() && m == m' && config == config' && !matchAvailable && matchLength == 2 == prevLength
    {
      m, config := m', config';
      matchLength, prevLength, prevMatch, matchAvailable, dist := 2, 2, 0, false, 0;
    }

    /** The current block ends at Here(). */
    method StartBlock()
      requires Valid() && m.base + m.blockStart <= Here()
      modifies m`blockStart
      ensures Valid() && m.base + m.blockStart == Here()
    {
      hide M.Matcher.Sound, Waiting;
      m.StartBlock(m.strstart - if matchAvailable then 1 else 0);
    }

    /** After a full flush all input counts as the first. */
    method Forget()
      requires Valid() && !matchAvailable && m.base + m.blockStart == Here() && m.lookahead == 0
      modifies m, m.head
      ensures Valid() && Here() == 0 == m.base && m.blockStart == 0 && m.input == [] && m.lookahead == 0
      ensures forall st :: old(Tuned(st)) ==> Tuned(st)
    {
      hide M.Matcher.Sound, M.Matcher.Ready, Waiting;
      m.Forget();
    }

    /** The text of the current block, when the window still has all of it. */
    method BlockText() returns (buf: Option<seq<byte>>)
      requires Valid() && 0 <= m.base + m.blockStart <= Here() && (m.blockStart >= 0 ==> Here() - (m.base + m.blockStart) < 65536)
      ensures Here() <= |m.input| && (buf.Some? <==> m.blockStart >= 0)
      ensures buf.Some? ==> |buf.value| < 65536 && buf.value == m.input[m.base + m.blockStart..Here()]
    {
      hide Chains, GoodHash, Waiting;
      var end := m.strstart - if matchAvailable then 1 else 0;
      if m.blockStart >= 0 {
        TextShown(m.window[..], m.base, m.input, m.strstart + m.lookahead, m.blockStart, end);
        buf := Some(m.window[m.blockStart..end]);
      } else {
        buf := None;
      }
    }

    /** More lookahead. */
    method Fill(next: seq<byte>) returns (rest: seq<byte>)
      requires Valid() && m.lookahead < MIN_LOOKAHEAD
      modifies m, m.window, m.head, m.prev
      ensures Valid() && |rest| <= |next| && next == next[..|next| - |rest|] + rest && m.input == old(m.input) + next[..|next| - |rest|]
      ensures Here() == old(Here()) && m.base + m.blockStart == old(m.base + m.blockStart) && m.Moved(old(m.base), old(m.strstart))
      ensures m.lookahead >= MIN_LOOKAHEAD || rest == []
      ensures forall st :: old(Tuned(st)) ==> Tuned(st)
      ensures m.strstart + MIN_LOOKAHEAD <= 2 * m.wsize <= 65536 && m.lookahead + |rest| == old(m.lookahead) + |next|
    {
      hide Waiting, Chains, GoodHash, M.Shows, M.Matcher.Sound, M.Matcher.Ready;
      m.Room();
      ghost var p, s, st, b, i := m.base + m.strstart, m.strstart, m.matchStart, m.base, m.input;
      rest := m.FillWindow(next);
      m.Room();
      if matchLength >= MIN_MATCH {
        WaitingSlid(i, p, s, st, m.wsize, dist, matchLength, next[..|next| - |rest|], m.base - b);
      }
    }

    /** The string at strstart goes into the table; a chain head near enough to search from, or 0. */
    method Hashed() returns (hashHead: nat)
      requires m.Valid() && m.Ready() && m.lookahead > 0
      modifies m.head, m.prev, m`insH, m`inserted, m`mark
      ensures m.Sound() && m.mark + m.insert <= m.base + m.strstart + 1 && m.Hashing()
      ensures hashHead != 0 ==> m.lookahead >= MIN_MATCH && m.mark == m.base + m.strstart + 1 && (m.strstart <= hashHead + MaxDist(m.wsize) ==> m.Comparable(hashHead))
    {
      hide Chains, GoodHash, M.Shows, M.Matcher.PrimedAt, R.Size, R.IsHash;
      hashHead := 0;
      if m.lookahead >= MIN_MATCH {
        hashHead := m.InsertString(m.strstart);
      }
    }

    /** Searches from hashHead; what is found is longer than the match waiting, or of no use. */
    method LazySearch(hashHead: nat)
      requires m.Sound() && m.mark + m.insert <= m.base + m.strstart + 1 && m.matchStart < M.U32 && m.lookahead > 0
      requires m.strstart + MIN_LOOKAHEAD <= 2 * m.wsize && config.chain >= 4 && 2 <= matchLength <= MAX_MATCH
      requires hashHead != 0 ==> m.lookahead >= MIN_MATCH && m.mark == m.base + m.strstart + 1 && (m.strstart <= hashHead + MaxDist(m.wsize) ==> m.Comparable(hashHead))
      modifies this`matchLength, this`prevLength, this`prevMatch, m`matchStart
      ensures m.Sound() && m.matchStart < M.U32 && prevLength == old(matchLength) && prevMatch == old(m.matchStart)
      ensures 2 <= matchLength <= MAX_MATCH
      ensures matchLength >= MIN_MATCH && matchLength > prevLength ==> Found(m.input, m.base + m.strstart, m.strstart, m.matchStart, m.wsize, matchLength)
      ensures matchLength == MIN_MATCH && matchLength > prevLength ==> m.strstart - m.matchStart <= TOO_FAR
    {
      hide Chains, GoodHash, M.Shows, M.Repeats, M.Beaten, Visits, L.Match, R.Size, R.IsHash, M.Matcher.Comparable, M.NoLonger;
      prevLength, prevMatch := matchLength, m.matchStart;
      matchLength := MIN_MATCH - 1;
      if hashHead != 0 && prevLength < config.lazy && m.strstart - hashHead <= MaxDist(m.wsize) {
        var len := m.LongestMatch(hashHead, prevLength, config.good, config.nice, config.chain);
        if len > prevLength {
          RepeatsMatch(m.window[..], m.base, m.input, m.strstart + m.lookahead, m.strstart, m.matchStart, len);
        }
        matchLength := len;
        if matchLength <= 5 && (config.filtered || (matchLength == MIN_MATCH && (m.strstart - m.matchStart) % M.U32 > TOO_FAR)) {
          matchLength := MIN_MATCH - 1;
        }
      }
    }

    /** The match waiting is adopted. */
    method Adopt() returns (sym: Symbol)
      requires m.Sound() && m.insert <= m.strstart && (m.insert > 0 ==> m.lookahead + m.insert < MIN_MATCH) && m.matchStart < M.U32
      requires m.mark <= m.base + m.strstart + 1 && m.BlockBehind() && m.Hashing()
      requires prevLength == MIN_MATCH ==> dist <= TOO_FAR
      requires 3 <= prevLength <= MAX_MATCH && Waiting(m.input, m.base + m.strstart, m.strstart, prevMatch, m.wsize, dist, prevLength) && config.chain >= 4
      modifies this, m, m.head, m.prev
      ensures Valid() && m.Ready() && !matchAvailable && matchLength == 2 && m.input == old(m.input) && m.base == old(m.base) && m.blockStart == old(m.blockStart)
      ensures m.strstart == old(m.strstart) + old(prevLength) - 1 && m.lookahead == old(m.lookahead) - (old(prevLength) - 1)
      ensures Right(m.input, old(m.base + m.strstart) - 1, sym, m.base + m.strstart) && Tame(sym, Slow, m.wsize)
    {
      hide Chains, GoodHash, M.Shows, M.Matcher.PrimedAt;
      sym := Pair((m.strstart - 1 - prevMatch) % M.U32, prevLength);
      assert (m.strstart - 1 - prevMatch) % M.U32 == dist;
      var maxInsert := m.strstart + m.lookahead - MIN_MATCH;
      m.InsertRun(m.strstart, prevLength - 2, maxInsert);
      matchAvailable := false;
      matchLength := MIN_MATCH - 1;
      m.Advance(prevLength - 1);
    }

    /** One round of deflate_slow: a match is adopted only if the next position has no longer one. */
    method SlowStep() returns (sym: Option<Symbol>)
      requires Valid() && m.lookahead > 0 && m.strstart + MIN_LOOKAHEAD <= 2 * m.wsize && matchLength >= 2 && m.Ready()
      modifies this, m, m.head, m.prev
      ensures Valid() && m.Ready() && matchLength >= 2 && m.input == old(m.input) && m.base == old(m.base) && m.blockStart == old(m.blockStart)
      ensures m.lookahead < old(m.lookahead) <= m.lookahead + MAX_MATCH
      ensures sym.None? ==> Here() == old(Here())
      ensures sym.Some? ==> old(Here()) >= 0 && Here() >= 0 && Right(m.input, old(Here()), sym.value, Here()) && Tame(sym.value, Slow, m.wsize)
    {
      hide Chains, GoodHash, Waiting, Found, M.Matcher.Comparable, M.Matcher.Sound, M.Matcher.PrimedAt, M.Shows, Right;
      var hashHead := Hashed();
      LazySearch(hashHead);
      if prevLength >= MIN_MATCH && matchLength <= prevLength {
        var s := Adopt();
        sym := Some(s);
      } else {
        sym := Defer();
      }
    }

    /** The match waiting, if any, is given up for a literal; the byte at strstart waits. */
    method Defer() returns (sym: Option<Symbol>)
      requires m.Sound() && m.insert <= m.strstart && (m.insert > 0 ==> m.lookahead + m.insert < MIN_MATCH) && m.matchStart < M.U32
      requires m.mark + m.insert <= m.base + m.strstart + 1 && m.BlockBehind()
      requires m.lookahead > 0 && (matchAvailable ==> m.strstart >= 1) && config.chain >= 4 && 2 <= matchLength <= MAX_MATCH
      requires matchLength >= MIN_MATCH ==> Found(m.input, m.base + m.strstart, m.strstart, m.matchStart, m.wsize, matchLength)
      requires m.Hashing() && (matchLength == MIN_MATCH ==> m.strstart - m.matchStart <= TOO_FAR)
      modifies this, m`strstart, m`lookahead
      ensures Valid() && m.Ready() && matchLength == old(matchLength) && m.strstart == old(m.strstart) + 1 && m.lookahead == old(m.lookahead) - 1
      ensures matchAvailable && (sym.Some? <==> old(matchAvailable))
      ensures sym.Some? ==> Right(m.input, old(m.base + m.strstart) - 1, sym.value, m.base + m.strstart - 1) && sym.value.Literal?
    {
      hide Chains, GoodHash, Waiting, M.Matcher.PrimedAt;
      sym := None;
      if matchAvailable {
        ShowsOne(m.window[..], m.base, m.input, m.strstart + m.lookahead, m.strstart - 1);
        sym := Some(Literal(m.window[m.strstart - 1]));
      } else {
        matchAvailable := true;
      }
      if matchLength >= MIN_MATCH {
        FoundWaits(m.input, m.base + m.strstart, m.strstart, m.matchStart, m.wsize, matchLength);
        dist := m.strstart - m.matchStart;
      }
      m.Advance(1);
    }

    /** The match at strstart is taken as it is. */
    method TakeMatch(insertAll: bool)
      requires m.Sound() && m.insert <= m.strstart && (m.insert > 0 ==> m.lookahead + m.insert < MIN_MATCH) && m.matchStart < M.U32
      requires m.mark <= m.base + m.strstart + 1 && m.BlockBehind() && !matchAvailable && config.chain >= 4
      requires MIN_MATCH <= matchLength <= MAX_MATCH && matchLength <= m.lookahead && (insertAll ==> m.lookahead >= matchLength + MIN_MATCH)
      requires m.Hashing() && m.strstart + MIN_LOOKAHEAD <= 2 * m.wsize
      modifies this`matchLength, m`strstart, m`lookahead, m`insH, m`inserted, m`mark, m.head, m.prev
      ensures Valid() && m.Ready() && matchLength == 0 && m.strstart == old(m.strstart + matchLength) && m.lookahead == old(m.lookahead) - old(matchLength)
    {
      hide Chains, GoodHash, M.Shows, M.Matcher.PrimedAt;
      if insertAll {
        m.InsertRun(m.strstart, matchLength - 1, m.strstart + matchLength - 1);
        m.Advance(matchLength);
      } else {
        m.Advance(matchLength);
        m.Restart(m.strstart);
      }
      matchLength := 0;
    }

    /** A run is taken; nothing is hashed. */
    method TakeRun()
      requires m.Sound() && m.insert <= m.strstart && (m.insert > 0 ==> m.lookahead + m.insert < MIN_MATCH) && m.matchStart < M.U32
      requires m.mark <= m.base + m.strstart + 1 && m.BlockBehind() && !matchAvailable && config.chain >= 4
      requires MIN_MATCH <= matchLength <= m.lookahead
      modifies this`matchLength, m`strstart, m`lookahead
      ensures Valid() && matchLength == 0 && m.strstart == old(m.strstart + matchLength) && m.lookahead == old(m.lookahead) - old(matchLength)
    {
      hide M.Matcher.Sound;
      m.Advance(matchLength);
      matchLength := 0;
    }

    method TakeLiteral() returns (sym: Symbol)
      requires m.Sound() && m.insert <= m.strstart && (m.insert > 0 ==> m.lookahead + m.insert < MIN_MATCH) && m.matchStart < M.U32
      requires m.mark + m.insert <= m.base + m.strstart + 1 && m.BlockBehind()
      requires m.lookahead > 0 && !matchAvailable && matchLength < MIN_MATCH && config.chain >= 4
      modifies m`strstart, m`lookahead
      ensures Valid() && m.strstart == old(m.strstart) + 1 && m.lookahead == old(m.lookahead) - 1 && (old(m.Hashing()) ==> m.Ready())
      ensures Right(m.input, old(m.base + m.strstart), sym, m.base + m.strstart) && sym.Literal?
    {
      hide Chains, GoodHash, M.Matcher.PrimedAt;
      ShowsOne(m.window[..], m.base, m.input, m.strstart + m.lookahead, m.strstart);
      sym := Literal(m.window[m.strstart]);
      m.Advance(1);
    }

    /** Searches from hashHead for any match at all. */
    method FindFast(hashHead: nat)
      requires m.Sound() && m.matchStart < M.U32 && m.strstart + MIN_LOOKAHEAD <= 2 * m.wsize && config.chain >= 4
      requires matchLength < MIN_MATCH && prevLength == 2
      requires hashHead != 0 ==> m.lookahead >= MIN_MATCH && m.mark == m.base + m.strstart + 1 && (m.strstart <= hashHead + MaxDist(m.wsize) ==> m.Comparable(hashHead))
      modifies this`matchLength, m`matchStart
      ensures m.Sound() && m.matchStart < M.U32 && matchLength <= MAX_MATCH
      ensures matchLength >= MIN_MATCH ==> matchLength <= m.lookahead && Found(m.input, m.base + m.strstart, m.strstart, m.matchStart, m.wsize, matchLength)
    {
      hide Chains, GoodHash, M.Shows, M.Repeats, M.Beaten, Visits, L.Match, R.Size, R.IsHash;
      if hashHead != 0 && m.strstart - hashHead <= MaxDist(m.wsize) {
        matchLength := m.LongestMatch(hashHead, prevLength, config.good, config.nice, config.chain);
        if matchLength >= MIN_MATCH {
          RepeatsMatch(m.window[..], m.base, m.input, m.strstart + m.lookahead, m.strstart, m.matchStart, matchLength);
        }
      }
    }

    /** One round of deflate_fast: the first match found is taken. */
    method FastStep() returns (sym: Symbol)
      requires Valid() && m.lookahead > 0 && m.strstart + MIN_LOOKAHEAD <= 2 * m.wsize && !matchAvailable && prevLength == 2 && m.Ready()
      modifies this, m, m.head, m.prev
      ensures Valid() && m.Ready() && !matchAvailable && prevLength == 2 && m.input == old(m.input) && m.base == old(m.base) && m.blockStart == old(m.blockStart)
      ensures m.lookahead < old(m.lookahead) <= m.lookahead + MAX_MATCH
      ensures Right(m.input, old(m.base + m.strstart), sym, m.base + m.strstart) && Tame(sym, Fast, m.wsize)
    {
      hide M.Matcher.Sound, M.Matcher.Comparable, Found, M.Matcher.PrimedAt;
      m.Room();
      var hashHead := Hashed();
      FindFast(hashHead);
      if matchLength >= MIN_MATCH {
        FoundRight(m.input, m.base + m.strstart, m.strstart, m.matchStart, m.wsize, matchLength);
        sym := Pair(m.strstart - m.matchStart, matchLength);
        TakeMatch(matchLength <= config.lazy && m.lookahead - matchLength >= MIN_MATCH);
      } else {
        sym := TakeLiteral();
      }
    }

    /** How often the byte before strstart repeats, at most MAX_MATCH times. */
    method RunLength() returns (len: nat)
      requires m.Shape() && 0 < m.strstart && m.strstart + MAX_MATCH < 2 * m.wsize
      ensures len <= MAX_MATCH && M.Repeats(m.window[..], m.strstart, m.strstart - 1, len)
    {
      hide GoodHash;
      var prev := m.window[m.strstart - 1];
      len := 0;
      while len < MAX_MATCH && m.window[m.strstart + len] == prev
        invariant len <= MAX_MATCH && forall i :: m.strstart - 1 <= i < m.strstart + len ==> m.window[i] == prev
      {
        len := len + 1;
      }
    }

    /** The run at strstart, or 0 if it is too short. */
    method FindRun()
      requires m.Sound() && m.strstart + MAX_MATCH < 2 * m.wsize
      modifies this`matchLength
      ensures matchLength <= MAX_MATCH && matchLength <= m.lookahead
      ensures matchLength >= MIN_MATCH ==> L.Match(m.input, m.base + m.strstart, 1, matchLength)
    {
      hide Chains, GoodHash, M.Shows, M.Repeats, L.Match, R.Size, R.IsHash;
      matchLength := 0;
      if m.lookahead >= MIN_MATCH && m.strstart > 0 {
        var len := RunLength();
        matchLength := if len < MIN_MATCH then 0 else M.Least(len, m.lookahead);
        M.ShorterRepeat(m.window[..], m.strstart, m.strstart - 1, len, matchLength);
        RepeatsMatch(m.window[..], m.base, m.input, m.strstart + m.lookahead, m.strstart, m.strstart - 1, matchLength);
      }
    }

    /** One round of deflate_rle: only runs of a byte are matched. */
    method RleStep() returns (sym: Symbol)
      requires Valid() && m.lookahead > 0 && m.strstart + MAX_MATCH < 2 * m.wsize && !matchAvailable
      modifies this, m, m.head, m.prev
      ensures Valid() && !matchAvailable && m.input == old(m.input) && m.base == old(m.base) && m.blockStart == old(m.blockStart)
      ensures m.lookahead < old(m.lookahead) <= m.lookahead + MAX_MATCH
      ensures Right(m.input, old(m.base + m.strstart), sym, m.base + m.strstart) && Tame(sym, Rle, m.wsize)
    {
      hide M.Matcher.Sound, L.Match;
      m.Room();
      FindRun();
      if matchLength >= MIN_MATCH {
        sym := Pair(1, matchLength);
        TakeRun();
      } else {
        sym := TakeLiteral();
      }
    }

    /** At the end of the input the byte still waiting is a literal. */
    method GiveUp() returns (sym: Symbol)
      requires Valid() && m.lookahead == 0 && matchAvailable && matchLength >= 2
      modifies this
      ensures Valid() && !matchAvailable && matchLength == 2
      ensures Right(m.input, old(Here()), sym, Here()) && sym.Literal?
    {
      hide Chains, GoodHash;
      ShowsOne(m.window[..], m.base, m.input, m.strstart + m.lookahead, m.strstart - 1);
      sym := Literal(m.window[m.strstart - 1]);
      matchAvailable := false;
    }

    /** What each way of matching keeps between rounds. */
    ghost predicate Tuned(strategy: Strategy)
      reads this, m`insH, m`base, m`input, m`strstart, m`lookahead
    {
      match strategy
      case Slow => matchLength >= 2 && m.Ready()
      case Fast => !matchAvailable && prevLength == 2 && m.Ready()
      case Rle => !matchAvailable
      case Huff => !matchAvailable && matchLength < MIN_MATCH
    }

    /** One round: at most one symbol, and the right one for the input at Here(). */
    method Step(strategy: Strategy) returns (sym: Option<Symbol>)
      requires Valid() && Tuned(strategy) && m.lookahead > 0
      requires m.lookahead >= Need(strategy) || m.strstart + MIN_LOOKAHEAD <= 2 * m.wsize
      modifies this, m, m.head, m.prev
      ensures Valid() && Tuned(strategy) && m.input == old(m.input) && m.base == old(m.base) && m.blockStart == old(m.blockStart)
      ensures m.lookahead < old(m.lookahead) && (strategy == Huff || m.strstart < 65536)
      ensures sym.None? ==> Here() == old(Here())
      ensures sym.Some? ==> old(Here()) >= 0 && Here() >= 0 && Right(m.input, old(Here()), sym.value, Here()) && Tame(sym.value, strategy, m.wsize)
      ensures strategy == Huff ==> sym.Some? && Here() == old(Here()) + 1
    {
      hide M.Matcher.Sound, M.Matcher.Ready, Right, Waiting;
      m.Room();
      match strategy {
        case Slow => sym := SlowStep();
        case Fast =>
          var s := FastStep();
          sym := Some(s);
        case Rle =>
          var s := RleStep();
          sym := Some(s);
        case Huff =>
          var s := TakeLiteral();
          sym := Some(s);
      }
      m.Room();
    }
  }

  /** The lookahead below which more input is read first. */
  function Need(strategy: Strategy): (n: nat)
  {
    match strategy
    case Slow => MIN_LOOKAHEAD
    case Fast => MIN_LOOKAHEAD
    case Rle => MAX_MATCH + 1
    case Huff => 1
  }

  /** A match found at window index strstart, start bytes into the window. */
  ghost predicate Found(input: seq<byte>, p: nat, strstart: nat, start: nat, wsize: nat, len: nat)
  {
    && wsize >= MIN_LOOKAHEAD && start < strstart <= start + MaxDist(wsize) && L.Match(input, p, strstart - start, len)
  }

  lemma {:induction false} FoundRight(input: seq<byte>, p: nat, strstart: nat, start: nat, wsize: nat, len: nat)
    requires Found(input, p, strstart, start, wsize, len) && wsize <= 32768 && 3 <= len <= 258
    ensures start < strstart && Right(input, p, Pair(strstart - start, len), p + len) && Tame(Pair(strstart - start, len), Fast, wsize)
  {
    hide L.Match;
  }

  lemma {:induction false} FoundWaits(input: seq<byte>, p: nat, strstart: nat, start: nat, wsize: nat, len: nat)
    requires Found(input, p, strstart, start, wsize, len) && start < M.U32
    ensures Waiting(input, p + 1, strstart + 1, start, wsize, strstart - start, len)
  {
    hide L.Match;
  }

  lemma {:induction false} TextShown(window: seq<byte>, base: nat, input: seq<byte>, n: nat, a: nat, b: nat)
    requires M.Shows(window, base, input, n) && a <= b <= n
    ensures b <= |window| && base + b <= |input| && window[a..b] == input[base + a..base + b]
  {
  }

  lemma {:induction false} ShowsOne(window: seq<byte>, base: nat, input: seq<byte>, n: nat, i: nat)
    requires M.Shows(window, base, input, n) && i < n
    ensures i < |window| && base + i < |input| && window[i] == input[base + i]
  {
  }

  lemma {:induction false} WaitingSlid(input: seq<byte>, p: nat, strstart: nat, start: nat, wsize: nat, dist: nat, len: nat, more: seq<byte>, shift: nat)
    requires Waiting(input, p, strstart, start, wsize, dist, len) && shift <= strstart
    ensures Waiting(input + more, p, strstart - shift, (start - shift) % M.U32, wsize, dist, len)
  {
    hide L.Match;
    L.MatchMore(input, more, p - 1, dist, len);
  }

  /** A match of the byte before position p, dist back; start is its window index in 32 bits. */
  ghost predicate Waiting(input: seq<byte>, p: nat, strstart: nat, start: nat, wsize: nat, dist: nat, len: nat)
  {
    && wsize >= MIN_LOOKAHEAD && 1 <= dist <= MaxDist(wsize) && p >= 1 && L.Match(input, p - 1, dist, len)
    && start == (strstart - 1 - dist) % M.U32
  }
}
