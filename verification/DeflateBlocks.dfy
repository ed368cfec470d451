/** Compressing: matches are found, symbols tallied, blocks written and
    delivered, over any sequence of calls. */
module DeflateBlocks {
  import opened Bits
  import opened Lz77
  import opened InflateSpec
  import opened Distances
  import opened BlockCodec
  import opened Searcher
  import opened LazyMatch
  import L = Lossless
  import C = Compress
  import M = Matcher
  import T = TreeCoder
  import B = BitWriter
  import Z = BlockBound
  import G = GreedyBound
  import O = StaticOverrun
  import StaticTables
  import BlockStats

  /** inflate turns the bits into the text: all of it and the end of the stream, or so far. It
      looks back at most d bytes. */
  ghost predicate Coded(bits: BitString, finished: bool, text: seq<byte>, d: nat)
  {
    if finished then Calm(Conf(Type(false), bits, []), Conf(Done, [], text), d)
    else Delivers(bits, 0, false, [], text, d)
  }

  /** The symbols emitted, in blocks and since the last block, stand for the input. */
  ghost predicate Told(input: seq<byte>, flushed: seq<Symbol>, syms: seq<Symbol>, here: int, blockAt: int)
  {
    && 0 <= blockAt <= here <= |input|
    && L.Lossless(input, flushed, blockAt) && L.Lossless(input, flushed + syms, here)
  }

  lemma {:induction false} ToldMore(input: seq<byte>, more: seq<byte>, flushed: seq<Symbol>, syms: seq<Symbol>, here: int, blockAt: int)
    requires Told(input, flushed, syms, here, blockAt)
    ensures Told(input + more, flushed, syms, here, blockAt)
  {
    hide L.Lossless;
    L.LosslessMore(input, more, flushed, blockAt);
    L.LosslessMore(input, more, flushed + syms, here);
  }

  lemma {:induction false} ToldSymbol(input: seq<byte>, flushed: seq<Symbol>, syms: seq<Symbol>, here: int, blockAt: int, s: Symbol, q: nat)
    requires Told(input, flushed, syms, here, blockAt) && Right(input, here, s, q)
    ensures Told(input, flushed, syms + [s], q, blockAt)
  {
    hide L.Lossless;
    RightEmits(input, flushed + syms, here, s, q);
    assert flushed + (syms + [s]) == flushed + syms + [s];
    LosslessPlace(input, flushed + syms + [s], q);
    RightMoves(input, here, s, q);
  }

  lemma {:induction false} RightMoves(input: seq<byte>, p: nat, s: Symbol, q: nat)
    requires Right(input, p, s, q)
    ensures p < q
  {
  }

  lemma {:induction false} LosslessPlace(input: seq<byte>, syms: seq<Symbol>, p: nat)
    requires L.Lossless(input, syms, p)
    ensures p <= |input|
  {
  }

  /** Everything since the last block goes into one. */
  lemma {:induction false} ToldFlush(input: seq<byte>, flushed: seq<Symbol>, syms: seq<Symbol>, here: int, blockAt: int)
    requires Told(input, flushed, syms, here, blockAt)
    ensures Told(input, flushed + syms, [], here, here)
    ensures ValidAll(input[..blockAt], syms) && Expand(input[..blockAt], syms) == input[..here] == input[..blockAt] + input[blockAt..here]
  {
    hide ValidAll, Expand;
    assert flushed + syms + [] == flushed + syms;
    ExpandConcat([], flushed, syms);
    ValidConcat([], flushed, syms);
  }

  /** One more block. */
  lemma {:induction false} CodedBlock(sent: BitString, e: T.Encoding, t: StaticTables.Tables, last: bool, syms: seq<Symbol>, at: nat, pad: nat, before: seq<byte>, after: seq<byte>, d: nat)
    requires Coded(sent, false, before, d) && ReachAll(syms, d) && T.EncodingOk(e, t, syms, at) && at % 8 == |sent| % 8
    requires ValidAll(before, syms) && Expand(before, syms) == after && (e.AsStored? ==> after == before + e.buf)
    requires pad < 8 && (if last then (|sent| + |T.EncodingBits(e, t, last, syms, at)| + pad) % 8 == 0 else pad == 0)
    ensures Coded(sent + T.EncodingBits(e, t, last, syms, at) + B.Zeros(pad), last, after, d)
  {
    hide Calm, ReachAll, Delivers, T.EncodingOk, T.EncodingBits, ValidAll, Expand, Reaches;
    var b := T.EncodingBits(e, t, last, syms, at);
    T.EncodingDelivers(e, t, last, syms, at, before, d);
    L.DeliversShift(b, at, |sent|, last, before, after, d);
    L.DeliversTrans(sent, b, last, [], before, after, d);
    if last {
      L.DeliversAll(sent + b, pad, after, d);
    } else {
      assert sent + b + B.Zeros(0) == sent + b;
    }
  }

  /** What decodes alone decodes after anything else as well. */
  lemma {:induction false} CodedJoin(before: BitString, since: BitString, finished: bool, x: seq<byte>, y: seq<byte>, d: nat)
    requires Coded(before, false, x, d) && Coded(since, finished, y, d) && |before| % 8 == 0 && (finished ==> |since| % 8 == 0)
    ensures Coded(before + since, finished, x + y, d)
  {
    hide Delivers, Calm;
    if finished {
      L.DeliversRest(before, 0, false, [], x, since, d);
      CalmUnder(x, Conf(Type(false), since, []), Conf(Done, [], y), d);
      assert x + [] == x;
      CalmTrans(Conf(Type(false), before + since, []), Conf(Type(false), since, x), Conf(Done, [], x + y), d);
    } else {
      L.DeliversUnder(since, |before|, x, y, d);
      L.DeliversTrans(before, since, false, [], x, x + y, d);
    }
  }

  /** How the symbols, the bits written and the input belong together. */
  ghost predicate Story(input: seq<byte>, flushed: seq<Symbol>, syms: seq<Symbol>, here: int, blockAt: int, sent: BitString, finished: bool, huff: bool, d: nat)
  {
    && Told(input, flushed, syms, here, blockAt)
    && Coded(sent, finished, input[..blockAt], d)
    && (huff ==> here - blockAt == |syms|)
    && (finished ==> syms == [] && here == blockAt)
  }

  datatype BlockState = NeedMore | BlockDone | FinishStarted | FinishDone

  datatype Flush = NoFlush | PartialFlush | SyncFlush | FullFlush | BlockFlush | Finish

  /** What has been done since the stream began: symbols in blocks, bytes delivered, whether
      the last block has been written; how many blocks there are before it, and whether all of
      those were full and no flush has left a mark; whether all blocks had their text at hand and
      a free choice, and were full by the default settings; the bits up to the last full flush, which
      only the bytes delivered go back before; and whether the one block there is, the last, has been
      written with fixed trees and its text at hand. */
  datatype Log = Log(flushed: seq<Symbol>, delivered: seq<byte>, finished: bool, blocks: nat, plain: bool, tight: bool, before: BitString, heavy: bool)

  /** At the start. */
  const EMPTY_LOG: Log := Log([], [], false, 0, true, true, [], false)

  /** The least number of symbols in a full block. */
  const FULL_BLOCK: nat := 127

  /** The number of symbols in a full block with the default settings. */
  const DEFAULT_FULL: nat := 16383

  /** What full blocks, and at last one more, can take. */
  ghost predicate Sized(bits: nat, blockAt: int, g: Log, full: nat)
  {
    g.plain ==>
      && FULL_BLOCK * g.blocks <= blockAt && (if g.blocks > 0 then full <= blockAt else blockAt == 0 || g.finished)
      && bits <= 9 * blockAt + 10 * g.blocks + (if g.finished then 34 else 0)
      && (g.tight ==> DEFAULT_FULL * g.blocks <= blockAt && Z.Up(bits) <= blockAt + 5 * g.blocks + if g.finished then 5 else 0)
  }

  /** With fixed trees a text can take nine bits a byte even so. */
  ghost predicate Heavy(bits: nat, text: seq<byte>, g: Log) { g.heavy ==> g.finished && (O.Bulky(text) ==> bits >= 9 * |text| + 10) }

  lemma {:induction false} SizedBlock(bits: nat, blockAt: nat, g: Log, n: nat, last: bool, bits': nat, g': Log, full: nat)
    requires Sized(bits, blockAt, g, full) && full >= FULL_BLOCK && !g.finished && bits' <= bits + 9 * n + Z.Overhead(n) + if last then 7 else 0
    requires g'.finished == last && g'.blocks == g.blocks + (if last then 0 else 1) && g'.plain == (g.plain && (last || n >= full))
    requires g'.tight ==> g.tight && (last || n >= DEFAULT_FULL) && Z.Up(bits') <= Z.Up(bits) + n + 5
    ensures Sized(bits', blockAt + n, g', full)
  {
  }

  ghost predicate Apart(f: Finder, c: T.Coder)
  {
    var win: object := f.m.window;
    win !in T.AllOf(c.a) && f.m.head !in T.AllOf(c.a) && f.m.prev !in T.AllOf(c.a)
  }

  /** The trees' arrays, and what they are not. */
  lemma {:induction false} OnlyArrays(f: Finder, c: T.Coder)
    ensures var finder: object, m: object, coder: object, w: object := f, f.m, c, c.w;
      finder !in T.AllOf(c.a) && m !in T.AllOf(c.a) && coder !in T.AllOf(c.a) && w !in T.AllOf(c.a)
    ensures c.a.lfc in T.AllOf(c.a) && c.a.dfc in T.AllOf(c.a) && c.a.bfc in T.AllOf(c.a)
  {
  }

  /** Where the current block begins in the input. */
  ghost function BlockAt(f: Finder): (p: int)
    reads f.m
  {
    f.m.base + f.m.blockStart
  }

  /** Everything written, delivered or not. */
  ghost function All(c: T.Coder, g: Log): (b: BitString)
    reads c.w
  {
    ByteBits(g.delivered) + c.w.Bits()
  }

  /** Of this, what has been written since the last full flush. */
  ghost function Sent(c: T.Coder, g: Log): (b: BitString)
    reads c.w
  {
    Since(g.before, All(c, g))
  }

  ghost function Since(before: BitString, all: BitString): (b: BitString) { if |before| <= |all| then all[|before|..] else [] }

  lemma {:induction false} SinceMore(before: BitString, all: BitString, more: BitString)
    requires before <= all
    ensures before <= all + more && Since(before, all + more) == Since(before, all) + more && |Since(before, all)| == |all| - |before|
  {
  }

  /** The text of the current block, if at hand, fits in a stored block. */
  ghost predicate Fits(f: Finder)
    reads f, f.m
  {
    f.m.blockStart >= 0 ==> f.Here() - BlockAt(f) < 65536
  }

  /** Without matches the text of a block never leaves the window, unless the blocks are very long. */
  ghost predicate Nearby(f: Finder, c: T.Coder, st: Strategy)
    reads f.m
  {
    st == Huff && c.symEnd / 3 + MIN_LOOKAHEAD < f.m.wsize ==> f.m.blockStart >= 0
  }

  /** The symbols are tame. */
  ghost predicate AllTame(syms: seq<Symbol>, st: Strategy, wsize: nat)
  {
    forall i :: 0 <= i < |syms| ==> Tame(syms[i], st, wsize)
  }

  lemma {:induction false} TameReach(syms: seq<Symbol>, st: Strategy, wsize: nat)
    requires AllTame(syms, st, wsize)
    ensures ReachAll(syms, wsize)
  {
  }

  lemma {:induction false} TameMore(syms: seq<Symbol>, s: Symbol, st: Strategy, wsize: nat)
    requires AllTame(syms, st, wsize) && Tame(s, st, wsize)
    ensures AllTame(syms + [s], st, wsize)
  {
    hide Tame;
  }

  /** With the window at base, the text of the current block is at hand, or long for its symbols. */
  ghost predicate AtHand(f: Finder, c: T.Coder, st: Strategy, base: nat)
  {
    || base == 0 || (st == Huff && c.symEnd / 3 + MIN_LOOKAHEAD < f.m.wsize)
    || (c.symEnd / 3 < 16384 && 7 * (c.symEnd / 3) + 43800 <= 5 * (f.m.wsize - MIN_LOOKAHEAD))
  }

  /** Text of n bytes for which the symbols are few. */
  ghost predicate Dense(syms: seq<Symbol>, n: int) { |syms| < 16384 && 7 * |syms| + 43800 <= 5 * n }

  /** The text of the block is at hand, or long for its symbols. */
  ghost predicate Handy(f: Finder, c: T.Coder)
    reads f, f.m, c
  {
    f.m.blockStart >= 0 || Dense(c.Syms(), f.Here() - BlockAt(f))
  }

  /** Blocks are as long as with the default settings. */
  ghost predicate Big(c: T.Coder) { c.symEnd / 3 >= DEFAULT_FULL }

  /** With a free choice, the text at hand and full blocks, what was tight has stayed so. */
  ghost predicate StaysTight(f: Finder, c: T.Coder, st: Strategy, base: nat, fixed: bool, g: Log, g': Log)
  {
    g.tight && !fixed && Big(c) && AtHand(f, c, st, base) ==> g'.tight
  }

  lemma {:induction false} TightTrans(f: Finder, c: T.Coder, st: Strategy, base: nat, base': nat, fixed: bool, g: Log, h: Log, g': Log)
    requires StaysTight(f, c, st, base, fixed, g, h) && StaysTight(f, c, st, base', fixed, h, g') && base <= base'
    ensures StaysTight(f, c, st, base', fixed, g, g')
  {
  }

  lemma {:induction false} TightNone(f: Finder, c: T.Coder, st: Strategy, base: nat, fixed: bool, g: Log)
    ensures StaysTight(f, c, st, base, fixed, g, g)
  {
  }

  /** What the finder, the coder and the log have to do with each other between symbols. */
  ghost predicate Sound(f: Finder, c: T.Coder, st: Strategy, g: Log)
    reads f, f.m, f.m.window, f.m.head, f.m.prev, c, c.w, c.a.lfc, c.a.dfc, c.a.bfc
  {
    && Apart(f, c) && f.Valid() && f.Tuned(st) && c.Valid() && g.before <= All(c, g) && |g.before| % 8 == 0
    && Story(f.m.input, g.flushed, c.Syms(), f.Here(), BlockAt(f), Sent(c, g), g.finished, st == Huff, f.m.wsize)
    && (g.finished ==> f.m.lookahead == 0 && !f.matchAvailable && c.w.valid == 0)
    && Sized(|Sent(c, g)|, BlockAt(f), g, c.symEnd / 3) && Heavy(|Sent(c, g)|, f.m.input[..BlockAt(f)], g) && Nearby(f, c, st) && AllTame(c.Syms(), st, f.m.wsize)
  }

  /** There is room for another symbol, too. */
  ghost predicate Open(f: Finder, c: T.Coder, st: Strategy, g: Log)
    reads f, f.m, f.m.window, f.m.head, f.m.prev, c, c.w, c.a.lfc, c.a.dfc, c.a.bfc
  {
    Sound(f, c, st, g) && |c.symBuf| < c.symEnd
  }

  /** flush_pending: as many bytes as there is space for. */
  method FlushPending(f: Finder, c: T.Coder, st: Strategy, room: nat, ghost g: Log) returns (bytes: seq<byte>, ghost g': Log)
    requires Open(f, c, st, g)
    modifies c.w
    ensures g' == g.(delivered := g.delivered + bytes) && Open(f, c, st, g') && All(c, g') == old(All(c, g))
    ensures |bytes| <= room && (c.w.pending == 0 || |bytes| == room) && c.w.valid < 8 && (old(c.w.valid) == 0 ==> c.w.valid == 0)
    ensures old(c.w.valid) < 8 ==> c.w.pending + |bytes| == old(c.w.pending)
  {
    hide T.Coder.Valid, T.Coder.Syms, Finder.Valid, Finder.Tuned, B.BitWriter.Bits, Story, ByteBits, Apart, Since;
    bytes := c.TakePending(room);
    g' := g.(delivered := g.delivered + bytes);
    ByteBitsConcat(g.delivered, bytes);
    assert All(c, g') == ByteBits(g.delivered) + (ByteBits(bytes) + c.w.Bits());
  }

  /** The symbols since the last block are written. */
  method Encode(c: T.Coder, buf: Option<seq<byte>>, last: bool, fixed: bool, ghost g: Log, ghost input: seq<byte>, ghost at: nat, ghost here: nat, ghost d: nat)
    requires c.Valid() && ReachAll(c.Syms(), d) && |c.w.Bits()| < 8 && Told(input, g.flushed, c.Syms(), here, at) && at <= |input| && Coded(Sent(c, g), false, input[..at], d)
    requires buf.Some? ==> at <= here <= |input| && |buf.value| < 65536 && buf.value == input[at..here]
    requires g.before <= All(c, g) && |g.before| % 8 == 0
    modifies c`symBuf, T.AllOf(c.a), c.w
    ensures c.Valid() && c.Syms() == [] && |c.symBuf| < c.symEnd && here <= |input| && (last ==> c.w.valid == 0) && g.before <= All(c, g)
    ensures Coded(Sent(c, g), last, input[..here], d)
    ensures fixed && buf.Some? && at == 0 && O.Bulky(input[..here]) ==> |Sent(c, g)| >= 9 * here + 10
    ensures at <= here && |Sent(c, g)| <= |old(Sent(c, g))| + 9 * (here - at) + Z.Overhead(here - at) + if last then 7 else 0
    ensures (buf.Some? || Dense(old(c.Syms()), here - at)) && !fixed ==> Z.Up(|Sent(c, g)|) <= Z.Up(|old(Sent(c, g))|) + (here - at) + 5
  {
    hide T.Coder.Valid, T.Coder.Syms, B.BitWriter.Bits, Told, Coded, ByteBits, T.EncodingOk, T.EncodingBits, T.Chosen, T.Tuned, B.Zeros, Expand, ValidAll, T.AllOf, Z.Up, ReachAll, Dense, Z.Span, Z.Overhead, StaticTables.TablesFit, BlockStats.SymbolsOk, L.Lossless, T.Coder.Shape, O.Bulky;
    ghost var all, sent, syms, bits := All(c, g), Sent(c, g), c.Syms(), c.w.Bits();
    SinceMore(g.before, all, []);
    ToldOrder(input, g.flushed, syms, here, at);
    ToldFlush(input, g.flushed, syms, here, at);
    ToldSpan(input, g.flushed, syms, here, at);
    CoderFacts(c);
    ghost var e, p, pad := c.FlushBlock(buf, last, fixed);
    NoSyms(c);
    ghost var b := T.EncodingBits(e, c.t, last, syms, |bits|);
    assert All(c, g) == all + (b + B.Zeros(pad));
    SinceMore(g.before, all, b + B.Zeros(pad));
    assert Sent(c, g) == sent + b + B.Zeros(pad);
    SentLength(c, g, last);
    Z.CheapestSize(e, c.t, last, syms, |bits|, buf, fixed, p);
    if (buf.Some? || Dense(syms, here - at)) && !fixed {
      TightBlock(e, c.t, last, syms, |bits|, buf, p, |sent|, pad);
    }
    if fixed && buf.Some? && at == 0 && O.Bulky(input[..here]) {
      FirstText(input, g.flushed, syms, here);
      O.BulkyBlock(e, c.t, last, syms, |bits|, buf.value, p, input[..here]);
    }
    CodedBlock(sent, e, c.t, last, syms, |bits|, pad, input[..at], input[..here], d);
  }

  /** The first block stands for all text so far. */
  lemma {:induction false} FirstText(input: seq<byte>, flushed: seq<Symbol>, syms: seq<Symbol>, here: int)
    requires Told(input, flushed, syms, here, 0)
    ensures 0 <= here <= |input| && L.Lossless(input[..here], syms, here)
  {
    hide ValidAll, Expand;
    ToldFlush(input, flushed, syms, here, 0);
    assert input[..0] == [] && input[..here][..here] == input[..here];
  }

  /** With a free choice, a block whose text is at hand or long takes at most five bytes more than its text. */
  lemma {:induction false} TightBlock(e: T.Encoding, t: StaticTables.Tables, last: bool, syms: seq<Symbol>, at: nat, buf: Option<seq<byte>>, p: T.Plan, sent: nat, pad: nat)
    requires StaticTables.TablesFit(t) && BlockStats.SymbolsOk(syms) && T.EncodingOk(T.AsFixed, t, syms, at) && T.EncodingOk(T.AsDynamic(p), t, syms, at) && T.EncodingOk(e, t, syms, at)
    requires T.Tuned(p, t, syms) && T.Chosen(e, t, last, syms, at, buf, false, p) && (e.AsStored? ==> buf == Some(e.buf)) && (buf.Some? ==> |buf.value| == Z.Span(syms))
    requires sent % 8 == at % 8 && (buf.Some? || Dense(syms, Z.Span(syms)))
    requires pad < 8 && (if last then (sent + |T.EncodingBits(e, t, last, syms, at)| + pad) % 8 == 0 else pad == 0)
    ensures Z.Up(sent + |T.EncodingBits(e, t, last, syms, at)| + pad) <= Z.Up(sent) + Z.Span(syms) + 5
  {
    hide T.EncodingOk, T.EncodingBits, T.Chosen, StaticTables.TablesFit, BlockStats.SymbolsOk, T.Tuned, Z.Up, Z.Span;
    PadUp(sent + |T.EncodingBits(e, t, last, syms, at)|, pad, last);
    if buf.Some? {
      Z.FreeSize(e, t, last, syms, at, buf.value, p, sent);
    } else {
      G.DenseSize(e, t, last, syms, at, p, sent);
    }
  }

  lemma {:induction false} SentLength(c: T.Coder, g: Log, last: bool)
    requires (last ==> |c.w.Bits()| % 8 == 0) && |g.before| % 8 == 0
    ensures last ==> |Sent(c, g)| % 8 == 0
  {
    hide B.BitWriter.Bits;
  }

  lemma {:induction false} PadUp(bits: nat, pad: nat, last: bool)
    requires pad < 8 && (if last then (bits + pad) % 8 == 0 else pad == 0)
    ensures Z.Up(bits + pad) == Z.Up(bits)
  {
  }

  /** All symbols since the last block become one block. The pending buffer is empty then, so
      the block starts at the front of the buffer. */
  method WriteOut(f: Finder, c: T.Coder, st: Strategy, last: bool, fixed: bool, ghost g: Log) returns (ghost g': Log)
    requires Sound(f, c, st, g) && !g.finished && c.w.pending == 0 && c.w.valid < 8 && Fits(f) && (last ==> f.m.lookahead == 0 && !f.matchAvailable)
    modifies f.m`blockStart, c`symBuf, T.AllOf(c.a), c.w
    ensures Open(f, c, st, g') && c.Syms() == [] && BlockAt(f) == f.Here()
    ensures g'.before == g.before && g'.delivered == g.delivered && g'.finished == last && g'.plain == (g.plain && (last || old(f.Here() - BlockAt(f)) >= c.symEnd / 3))
    ensures g'.blocks == g.blocks + (if last then 0 else 1) && g'.heavy == (last && fixed && old(f.m.blockStart) >= 0 && g.plain && g.blocks == 0)
    ensures g'.tight == (g.tight && !fixed && old(Handy(f, c)) && (last || old(f.Here() - BlockAt(f)) >= DEFAULT_FULL))
  {
    hide Sound, Open, Story, Sized, T.Coder.Valid, T.Coder.Syms, Finder.Valid, Finder.Tuned, B.BitWriter.Bits, Told, Coded, ByteBits, Dense, Tame, ReachAll, L.Lossless, T.AllOf;
    OnlyArrays(f, c);
    Parts(f, c, st, g);
    var buf := f.BlockText();
    g' := EmitBlock(c, buf, last, fixed, g, f.m.input, BlockAt(f), f.Here(), f.m.wsize);
    OpenBlock(f, c, st, g');
  }

  /** The next block begins here. */
  method OpenBlock(f: Finder, c: T.Coder, st: Strategy, ghost g: Log)
    requires Apart(f, c) && f.Valid() && f.Tuned(st) && c.Valid() && |c.symBuf| < c.symEnd && c.Syms() == [] && 0 <= BlockAt(f) <= f.Here() <= |f.m.input|
    requires Told(f.m.input, g.flushed, [], f.Here(), f.Here()) && Coded(Sent(c, g), g.finished, f.m.input[..f.Here()], f.m.wsize)
    requires Sized(|Sent(c, g)|, f.Here(), g, c.symEnd / 3) && Heavy(|Sent(c, g)|, f.m.input[..f.Here()], g) && (g.finished ==> f.m.lookahead == 0 && !f.matchAvailable && c.w.valid == 0)
    requires (f.matchAvailable ==> f.m.strstart >= 1) && g.before <= All(c, g) && |g.before| % 8 == 0
    modifies f.m`blockStart
    ensures Open(f, c, st, g) && BlockAt(f) == f.Here()
  {
    hide Open, Story, Sized, T.Coder.Valid, T.Coder.Syms, Finder.Valid, Finder.Tuned, B.BitWriter.Bits, Told, Coded, ByteBits;
    f.StartBlock();
    NearStart(f, c, st);
    assert AllTame([], st, f.m.wsize);
    Reopened(f, c, st, g);
  }

  lemma {:induction false} NearStart(f: Finder, c: T.Coder, st: Strategy)
    requires f.m.base + f.m.blockStart == f.Here() && (f.matchAvailable ==> f.m.strstart >= 1)
    ensures Nearby(f, c, st)
  {
  }

  /** The block and its entry in the log. */
  method EmitBlock(c: T.Coder, buf: Option<seq<byte>>, last: bool, fixed: bool, ghost g: Log, ghost input: seq<byte>, ghost at: nat, ghost here: nat, ghost d: nat) returns (ghost g': Log)
    requires c.Valid() && ReachAll(c.Syms(), d) && c.w.pending == 0 && c.w.valid < 8 && Told(input, g.flushed, c.Syms(), here, at) && at <= |input| && !g.finished
    requires Coded(Sent(c, g), false, input[..at], d) && Sized(|Sent(c, g)|, at, g, c.symEnd / 3) && g.before <= All(c, g) && |g.before| % 8 == 0
    requires buf.Some? ==> at <= here <= |input| && |buf.value| < 65536 && buf.value == input[at..here]
    modifies c`symBuf, T.AllOf(c.a), c.w
    ensures c.Valid() && c.Syms() == [] && |c.symBuf| < c.symEnd && at <= here <= |input| && (last ==> c.w.valid == 0) && g'.before == g.before <= All(c, g')
    ensures Told(input, g'.flushed, [], here, here) && Coded(Sent(c, g'), last, input[..here], d) && Sized(|Sent(c, g')|, here, g', c.symEnd / 3)
    ensures Heavy(|Sent(c, g')|, input[..here], g') && g'.heavy == (last && fixed && buf.Some? && g.plain && g.blocks == 0) && g'.blocks == g.blocks + (if last then 0 else 1)
    ensures g'.before == g.before && g'.delivered == g.delivered && g'.finished == last && g'.plain == (g.plain && (last || here - at >= c.symEnd / 3))
    ensures g'.tight == (g.tight && !fixed && (buf.Some? || Dense(old(c.Syms()), here - at)) && (last || here - at >= DEFAULT_FULL))
  {
    hide Sized, T.Coder.Valid, T.Coder.Syms, B.BitWriter.Bits, Told, Coded, ByteBits, Dense, T.AllOf, Z.Up, Expand, ValidAll, L.Lossless, B.BitWriter.Valid, B.BitWriter.Waiting, ReachAll;
    ghost var syms, bits := c.Syms(), |Sent(c, g)|;
    ToldOrder(input, g.flushed, syms, here, at);
    ToldFlush(input, g.flushed, syms, here, at);
    IdleBits(c);
    FullEnough(c);
    Encode(c, buf, last, fixed, g, input, at, here, d);
    g' := g.(flushed := g.flushed + syms, finished := last, blocks := g.blocks + (if last then 0 else 1), plain := g.plain && (last || here - at >= c.symEnd / 3),
      heavy := last && fixed && buf.Some? && g.plain && g.blocks == 0,
      tight := g.tight && !fixed && (buf.Some? || Dense(syms, here - at)) && (last || here - at >= DEFAULT_FULL));
    assert All(c, g') == All(c, g);
    SizedBlock(bits, at, g, here - at, last, |Sent(c, g')|, g', c.symEnd / 3);
    if g'.heavy { FirstAt(bits, at, g, c.symEnd / 3); }
  }

  lemma {:induction false} FirstAt(bits: nat, at: nat, g: Log, full: nat)
    requires Sized(bits, at, g, full) && g.plain && g.blocks == 0 && !g.finished
    ensures at == 0
  {
  }

  lemma {:induction false} FullEnough(c: T.Coder)
    requires c.Valid()
    ensures c.symEnd / 3 >= FULL_BLOCK
  {
  }

  lemma {:induction false} Parts(f: Finder, c: T.Coder, st: Strategy, g: Log)
    requires Sound(f, c, st, g)
    ensures Apart(f, c) && f.Valid() && f.Tuned(st) && c.Valid() && Told(f.m.input, g.flushed, c.Syms(), f.Here(), BlockAt(f))
    ensures 0 <= BlockAt(f) <= |f.m.input| && Coded(Sent(c, g), g.finished, f.m.input[..BlockAt(f)], f.m.wsize) && Sized(|Sent(c, g)|, BlockAt(f), g, c.symEnd / 3)
    ensures ReachAll(c.Syms(), f.m.wsize) && g.before <= All(c, g) && |g.before| % 8 == 0
    ensures BlockAt(f) <= f.Here() && (f.matchAvailable ==> f.m.strstart >= 1)
  {
    hide Sized, T.Coder.Valid, T.Coder.Syms, M.Matcher.Sound, Waiting, Finder.Tuned, B.BitWriter.Bits, Coded, ByteBits, AllTame, ReachAll;
    TameReach(c.Syms(), st, f.m.wsize);
  }

  /** A new block has just begun. */
  lemma {:induction false} Reopened(f: Finder, c: T.Coder, st: Strategy, g: Log)
    requires Apart(f, c) && f.Valid() && f.Tuned(st) && c.Valid() && |c.symBuf| < c.symEnd && c.Syms() == [] && BlockAt(f) == f.Here()
    requires Told(f.m.input, g.flushed, [], f.Here(), BlockAt(f)) && 0 <= BlockAt(f) <= |f.m.input| && Coded(Sent(c, g), g.finished, f.m.input[..BlockAt(f)], f.m.wsize)
    requires Sized(|Sent(c, g)|, BlockAt(f), g, c.symEnd / 3) && Heavy(|Sent(c, g)|, f.m.input[..BlockAt(f)], g) && (g.finished ==> f.m.lookahead == 0 && !f.matchAvailable && c.w.valid == 0) && Nearby(f, c, st)
    requires AllTame(c.Syms(), st, f.m.wsize) && g.before <= All(c, g) && |g.before| % 8 == 0
    ensures Open(f, c, st, g)
  {
    hide Sized, T.Coder.Valid, T.Coder.Syms, Finder.Valid, Finder.Tuned, B.BitWriter.Bits, Coded, ByteBits, Told;
  }

  /** A stream of one block, written with fixed trees before the window has slid, is known as such. */
  ghost predicate Weighed(f: Finder, fixed: bool, g: Log)
    reads f.m`base
  {
    g.finished && g.plain && g.blocks == 0 && fixed && f.m.base == 0 ==> g.heavy
  }

  /** FLUSH_BLOCK_ONLY. */
  method FlushBlockOnly(f: Finder, c: T.Coder, st: Strategy, last: bool, fixed: bool, room: nat, ghost g: Log) returns (bytes: seq<byte>, ghost g': Log)
    requires Sound(f, c, st, g) && !g.finished && c.w.pending == 0 && c.w.valid < 8 && Fits(f) && (last ==> f.m.lookahead == 0 && !f.matchAvailable)
    modifies f.m`blockStart, c`symBuf, T.AllOf(c.a), c.w
    ensures Open(f, c, st, g') && c.Syms() == [] && BlockAt(f) == f.Here()
    ensures g'.before == g.before && g'.delivered == g.delivered + bytes && g'.finished == last && g'.plain == (g.plain && (last || old(f.Here() - BlockAt(f)) >= c.symEnd / 3))
    ensures |bytes| <= room && (c.w.pending == 0 || |bytes| == room) && c.w.valid < 8
    ensures last ==> Weighed(f, fixed, g')
    ensures last || !Big(c) || old(f.Here() - BlockAt(f)) >= DEFAULT_FULL ==> StaysTight(f, c, st, f.m.base, fixed, g, g')
  {
    hide Sound, Open, T.Coder.Syms, Handy, StaysTight, Weighed, B.BitWriter.Bits, ByteBits;
    g' := WriteRated(f, c, st, last, fixed, g);
    ghost var h := g';
    bytes, g' := FlushPending(f, c, st, room, g');
    RatedStill(f, c, st, fixed, g, h, g');
  }

  /** The block, and what it means for the size of the output. */
  method WriteRated(f: Finder, c: T.Coder, st: Strategy, last: bool, fixed: bool, ghost g: Log) returns (ghost g': Log)
    requires Sound(f, c, st, g) && !g.finished && c.w.pending == 0 && c.w.valid < 8 && Fits(f) && (last ==> f.m.lookahead == 0 && !f.matchAvailable)
    modifies f.m`blockStart, c`symBuf, T.AllOf(c.a), c.w
    ensures Open(f, c, st, g') && c.Syms() == [] && BlockAt(f) == f.Here()
    ensures g'.before == g.before && g'.delivered == g.delivered && g'.finished == last && g'.plain == (g.plain && (last || old(f.Here() - BlockAt(f)) >= c.symEnd / 3))
    ensures last ==> Weighed(f, fixed, g')
    ensures last || !Big(c) || old(f.Here() - BlockAt(f)) >= DEFAULT_FULL ==> StaysTight(f, c, st, f.m.base, fixed, g, g')
  {
    hide Sound, Open, T.Coder.Syms, Handy;
    if f.m.base == 0 { InWindow(f, c, st, g); }
    if AtHand(f, c, st, f.m.base) { HandText(f, c, st, g); }
    g' := WriteOut(f, c, st, last, fixed, g);
  }

  lemma {:induction false} RatedStill(f: Finder, c: T.Coder, st: Strategy, fixed: bool, g: Log, h: Log, g': Log)
    requires g' == h.(delivered := g'.delivered)
    ensures Weighed(f, fixed, h) ==> Weighed(f, fixed, g')
    ensures StaysTight(f, c, st, f.m.base, fixed, g, h) ==> StaysTight(f, c, st, f.m.base, fixed, g, g')
  {
  }

  lemma {:induction false} InWindow(f: Finder, c: T.Coder, st: Strategy, g: Log)
    requires Sound(f, c, st, g) && f.m.base == 0
    ensures f.m.blockStart >= 0
  {
    hide Story, T.Coder.Valid, T.Coder.Syms, Finder.Tuned, Waiting, M.Matcher.Sound, Sized, Heavy;
  }

  /** One round of matching: at most one more symbol. */
  method Round(f: Finder, c: T.Coder, st: Strategy, ghost g: Log) returns (full: bool)
    requires Open(f, c, st, g) && !g.finished && f.m.lookahead > 0 && (f.m.lookahead >= Need(st) || f.m.strstart + MIN_LOOKAHEAD <= 2 * f.m.wsize)
    modifies f, f.m, f.m.head, f.m.prev, c`symBuf, c.a.lfc, c.a.dfc
    ensures Sound(f, c, st, g) && Fits(f) && (!full ==> Open(f, c, st, g)) && f.m.lookahead < old(f.m.lookahead) && f.m.input == old(f.m.input)
    ensures full ==> f.Here() - BlockAt(f) >= c.symEnd / 3 && (Big(c) ==> f.Here() - BlockAt(f) >= DEFAULT_FULL)
    ensures f.m.base == old(f.m.base) && f.m.blockStart == old(f.m.blockStart)
  {
    hide T.Coder.Valid, T.Coder.Syms, Finder.Valid, Finder.Tuned, B.BitWriter.Bits, Told, Coded, ByteBits, Right, Sized, L.Lossless, AllTame, Tame;
    ghost var at, here, syms, input := BlockAt(f), f.Here(), c.Syms(), f.m.input;
    ToldOrder(input, g.flushed, syms, here, at);
    full := false;
    var sym := f.Step(st);
    if sym.Some? {
      RightOk(input, here, sym.value, f.Here());
      full := c.TallySymbol(sym.value);
      ToldSymbol(input, g.flushed, syms, here, at, sym.value, f.Here());
      TameMore(syms, sym.value, st, f.m.wsize);
    }
    FewSyms(c);
    if full {
      FullSyms(c);
      ToldSpan(f.m.input, g.flushed, c.Syms(), f.Here(), at);
    }
  }

  /** More input into the window. */
  method Fill(f: Finder, c: T.Coder, st: Strategy, next: seq<byte>, ghost g: Log) returns (rest: seq<byte>)
    requires Open(f, c, st, g) && !g.finished && f.m.lookahead < MIN_LOOKAHEAD
    modifies f.m, f.m.window, f.m.head, f.m.prev
    ensures Open(f, c, st, g) && Consumed(old(f.m.input), next, rest, f.m.input)
    ensures f.m.lookahead >= MIN_LOOKAHEAD || rest == []
    ensures f.m.strstart + MIN_LOOKAHEAD <= 2 * f.m.wsize <= 65536 && f.m.lookahead + |rest| == old(f.m.lookahead) + |next|
    ensures Unslid(f, old(f.m.base))
  {
    hide T.Coder.Valid, T.Coder.Syms, Finder.Valid, Finder.Tuned, B.BitWriter.Bits, Told, Coded, ByteBits;
    ghost var at, here, syms, input := BlockAt(f), f.Here(), c.Syms(), f.m.input;
    ToldOrder(input, g.flushed, syms, here, at);
    FewSyms(c);
    ghost var b0, s0, k0 := f.m.base, f.m.strstart, f.m.blockStart;
    rest := f.Fill(next);
    SamePlace(f, b0, s0, k0, here, at);
    WindowEnd(f, b0, s0);
    StaysNear(f, c, st, b0, s0, k0, |syms|);
    ghost var more := next[..|next| - |rest|];
    ToldMore(input, more, g.flushed, syms, here, at);
    assert (input + more)[..at] == input[..at];
  }

  /** The window has slid only if there was as much input. */
  ghost predicate Unslid(f: Finder, base0: nat)
    reads f.m
  {
    f.m.base >= base0 && (f.m.base == base0 || |f.m.input| >= 2 * f.m.wsize - MIN_LOOKAHEAD)
  }

  lemma {:induction false} SamePlace(f: Finder, base0: nat, strstart0: nat, blockStart0: int, here: int, at: int)
    requires f.Here() == here && BlockAt(f) == at && at == base0 + blockStart0 && here == base0 + strstart0 - if f.matchAvailable then 1 else 0
    ensures f.m.base + f.m.strstart == base0 + strstart0 && f.m.base + f.m.blockStart == base0 + blockStart0
  {
  }

  lemma {:induction false} WindowEnd(f: Finder, base0: nat, strstart0: nat)
    requires f.Valid() && f.m.Moved(base0, strstart0) && f.m.base + f.m.strstart == base0 + strstart0
    ensures Unslid(f, base0)
  {
    hide Finder.Pending;
    f.m.Room();
  }

  lemma {:induction false} UnslidNone(f: Finder)
    ensures Unslid(f, f.m.base)
  {
  }

  lemma {:induction false} UnslidFacts(f: Finder, base0: nat)
    requires Unslid(f, base0)
    ensures f.m.base >= base0 && (f.m.base == base0 || |f.m.input| >= 2 * f.m.wsize - MIN_LOOKAHEAD)
  {
  }

  lemma {:induction false} UnslidMore(f: Finder, base0: nat, base1: nat, input1: seq<byte>)
    requires Unslid(f, base1) && base1 >= base0 && (base1 == base0 || |input1| >= 2 * f.m.wsize - MIN_LOOKAHEAD) && |f.m.input| >= |input1|
    ensures Unslid(f, base0)
  {
  }

  /** A block without matches is short enough to stay in the window when it slides. */
  lemma {:induction false} StaysNear(f: Finder, c: T.Coder, st: Strategy, base0: nat, strstart0: nat, blockStart0: int, n: nat)
    requires f.m.Moved(base0, strstart0) && f.m.base + f.m.strstart == base0 + strstart0 && f.m.base + f.m.blockStart == base0 + blockStart0
    requires (st == Huff ==> f.Here() - BlockAt(f) == n) && n <= c.symEnd / 3
    requires st == Huff && c.symEnd / 3 + MIN_LOOKAHEAD < f.m.wsize ==> blockStart0 >= 0
    ensures Nearby(f, c, st)
  {
  }

  lemma {:induction false} HandText(f: Finder, c: T.Coder, st: Strategy, g: Log)
    requires Sound(f, c, st, g) && AtHand(f, c, st, f.m.base)
    ensures Handy(f, c)
  {
    hide Story, T.Coder.Valid, T.Coder.Syms, B.BitWriter.Bits, ByteBits, Sized, Finder.Tuned, M.Matcher.Sound, Waiting, AllTame;
    FewSyms(c);
  }

  /** The byte still waiting becomes a literal. */
  method LastLiteral(f: Finder, c: T.Coder, st: Strategy, ghost g: Log)
    requires Open(f, c, st, g) && !g.finished && f.m.lookahead == 0
    modifies f, c`symBuf, c.a.lfc, c.a.dfc
    ensures Sound(f, c, st, g) && !f.matchAvailable && f.m.lookahead == 0
  {
    hide T.Coder.Valid, T.Coder.Syms, B.BitWriter.Bits, Told, Coded, ByteBits, Right, M.Matcher.Sound, Waiting, AllTame;
    if f.matchAvailable {
      ghost var at, here, syms, input := BlockAt(f), f.Here(), c.Syms(), f.m.input;
      ToldOrder(input, g.flushed, syms, here, at);
      var sym := f.GiveUp();
      RightOk(input, here, sym, f.Here());
      var full := c.TallySymbol(sym);
      ToldSymbol(input, g.flushed, syms, here, at, sym, f.Here());
      TameMore(syms, sym, st, f.m.wsize);
    }
  }

  /** s->insert at the end of the input. */
  method EndInsert(f: Finder, c: T.Coder, st: Strategy, ghost g: Log)
    requires Sound(f, c, st, g) && f.m.lookahead == 0
    modifies f.m`insert
    ensures Sound(f, c, st, g)
  {
    hide T.Coder.Valid, T.Coder.Syms, B.BitWriter.Bits, Story, ByteBits, Waiting, M.Matcher.Sound, Finder.Tuned;
    if st == Slow || st == Fast {
      f.m.LeaveInsert();
    } else {
      f.m.NoInsert();
    }
  }

  /** With no input left, everything read is behind. */
  lemma {:induction false} EndPlace(f: Finder, c: T.Coder, st: Strategy, g: Log)
    requires Sound(f, c, st, g) && f.m.lookahead == 0 && !f.matchAvailable
    ensures f.Here() == |f.m.input| && (|c.symBuf| == 0 ==> c.Syms() == [] && BlockAt(f) == f.Here())
  {
    hide T.Coder.Valid, B.BitWriter.Bits, Coded, ByteBits, Waiting, Finder.Tuned;
    f.m.Room();
    if |c.symBuf| == 0 {
      assert g.flushed + [] == g.flushed;
    }
  }

  /** After the loop: the last literal, then the block, as the flush value wants it. */
  method EndOfInput(f: Finder, c: T.Coder, st: Strategy, fixed: bool, flush: Flush, room: nat, ghost g: Log) returns (state: BlockState, bytes: seq<byte>, ghost g': Log)
    requires Open(f, c, st, g) && !g.finished && c.w.pending == 0 && c.w.valid < 8 && room > 0 && f.m.lookahead == 0 && f.m.strstart < 65536
    modifies f, f.m`insert, f.m`blockStart, c`symBuf, T.AllOf(c.a), c.w
    ensures Open(f, c, st, g') && g'.before == g.before && g'.delivered == g.delivered + bytes && |bytes| <= room
    ensures g'.finished <==> state == FinishStarted || state == FinishDone
    ensures state != NeedMore ==> c.Syms() == [] && BlockAt(f) == f.Here() == |f.m.input| && !f.matchAvailable
    ensures if flush == Finish then g'.finished && g'.plain == g.plain else !g'.finished
    ensures f.m.base == old(f.m.base) && (flush == Finish ==> StaysTight(f, c, st, f.m.base, fixed, g, g')) && Weighed(f, fixed, g')
    ensures state == FinishDone || state == BlockDone <==> |bytes| < room
    ensures (c.w.pending == 0 || |bytes| == room) && c.w.valid < 8
  {
    hide Sound, T.Coder.Syms, StaysTight, Big;
    LastLiteral(f, c, st, g);
    EndInsert(f, c, st, g);
    bytes, g' := [], g;
    if flush == Finish {
      bytes, g' := FlushBlockOnly(f, c, st, true, fixed, room, g);
      EndPlace(f, c, st, g');
      return if |bytes| == room then FinishStarted else FinishDone, bytes, g';
    }
    if |c.symBuf| != 0 {
      bytes, g' := FlushBlockOnly(f, c, st, false, fixed, room, g);
      if |bytes| == room {
        return NeedMore, bytes, g';
      }
    } else {
      RoomLeft(f, c, st, g);
    }
    EndPlace(f, c, st, g');
    state := BlockDone;
  }

  lemma {:induction false} RoomLeft(f: Finder, c: T.Coder, st: Strategy, g: Log)
    requires Sound(f, c, st, g) && |c.symBuf| == 0
    ensures Open(f, c, st, g)
  {
    hide Story, Finder.Valid;
  }

  /** An empty block after a flush: inflate can decode everything before it. */
  method EmptyMark(f: Finder, c: T.Coder, st: Strategy, flush: Flush, ghost g: Log) returns (ghost g': Log)
    requires Open(f, c, st, g) && !g.finished && c.w.pending == 0 && c.Syms() == [] && BlockAt(f) == f.Here() && !f.matchAvailable
    modifies c.w
    ensures g' == g.(plain := false) && Open(f, c, st, g') && c.Syms() == []
    ensures (flush == SyncFlush || flush == FullFlush ==> c.w.valid == 0) && (old(c.w.valid) < 8 ==> c.w.valid < 8)
  {
    hide Sound, Story, Sized, T.Coder.Valid, T.Coder.Syms, Finder.Valid, Finder.Tuned, B.BitWriter.Bits, Told, Coded, ByteBits, Since, Tame, ReachAll, L.Lossless, T.AllOf, O.Bulky;
    OnlyArrays(f, c);
    Parts(f, c, st, g);
    NotHeavy(f, c, st, g);
    g' := g.(plain := false);
    assert |c.symBuf| < c.symEnd;
    MarkBits(c, flush, g', f.m.input[..BlockAt(f)], f.m.wsize);
    NearStart(f, c, st);
    assert AllTame([], st, f.m.wsize);
    Reopened(f, c, st, g');
  }

  lemma {:induction false} NotHeavy(f: Finder, c: T.Coder, st: Strategy, g: Log)
    requires Sound(f, c, st, g) && !g.finished
    ensures !g.heavy && forall bits: nat, at: int, full: nat :: Sized(bits, at, g.(plain := false), full)
  {
    hide Story, T.Coder.Valid, T.Coder.Syms, Finder.Valid, Finder.Tuned;
  }

  /** The bits of the mark. */
  method MarkBits(c: T.Coder, flush: Flush, ghost g: Log, ghost text: seq<byte>, ghost d: nat)
    requires c.Valid() && c.w.pending == 0 && g.before <= All(c, g) && |g.before| % 8 == 0 && Coded(Sent(c, g), false, text, d)
    modifies c.w
    ensures c.Valid() && c.Syms() == old(c.Syms()) && g.before <= All(c, g) && Coded(Sent(c, g), false, text, d)
    ensures (flush == SyncFlush || flush == FullFlush ==> c.w.valid == 0) && (old(c.w.valid) < 8 ==> c.w.valid < 8)
  {
    hide T.Coder.Valid, T.Coder.Syms, B.BitWriter.Bits, Coded, ByteBits, T.EncodingOk, T.EncodingBits, Since;
    ghost var all, sent, bits := All(c, g), Sent(c, g), c.w.Bits();
    SinceMore(g.before, all, []);
    ghost var b: BitString := [];
    if flush == PartialFlush {
      c.Align();
      b := T.EncodingBits(T.AsFixed, c.t, false, [], |bits|);
      EmptyBlock(sent, T.AsFixed, c.t, |bits|, text, d);
    } else if flush != BlockFlush {
      ghost var pad := c.EmptyStored();
      b := T.EncodingBits(T.AsStored(pad, []), c.t, false, [], |bits|);
      EmptyBlock(sent, T.AsStored(pad, []), c.t, |bits|, text, d);
    } else {
      assert sent + [] == sent;
    }
    assert All(c, g) == all + b;
    SinceMore(g.before, all, b);
  }

  /** After a full flush everything begins anew: what comes then has nothing to do with anything before. */
  method Restart(f: Finder, c: T.Coder, st: Strategy, ghost g: Log) returns (ghost g': Log)
    requires Open(f, c, st, g) && !g.finished && !g.plain && c.w.valid == 0 && c.Syms() == [] && BlockAt(f) == f.Here() && !f.matchAvailable && f.m.lookahead == 0
    modifies f.m, f.m.head
    ensures g' == g.(flushed := [], before := All(c, g)) && Open(f, c, st, g') && f.m.input == [] && f.Here() == 0 == BlockAt(f) && f.m.base == 0 == f.m.lookahead
  {
    hide T.Coder.Valid, T.Coder.Syms, Finder.Valid, Finder.Tuned, B.BitWriter.Bits, Story, ByteBits;
    WholeBytes(c, g);
    f.Forget();
    g' := g.(flushed := [], before := All(c, g));
    assert Sent(c, g') == [];
    FirstStory(st == Huff, f.m.wsize);
  }

  lemma {:induction false} WholeBytes(c: T.Coder, g: Log)
    requires c.Valid() && c.w.valid == 0
    ensures |All(c, g)| % 8 == 0
  {
    hide ByteBits;
    c.w.Lengths();
  }

  lemma {:induction false} FirstStory(huff: bool, d: nat)
    ensures Story([], [], [], 0, 0, [], false, huff, d)
  {
    L.LosslessNone([]);
    L.DeliversNone([], d);
  }

  /** The mark of a flush. */
  method FlushMark(f: Finder, c: T.Coder, st: Strategy, flush: Flush, ghost g: Log) returns (ghost g': Log)
    requires Open(f, c, st, g) && !g.finished && c.w.pending == 0 && c.Syms() == [] && BlockAt(f) == f.Here() && !f.matchAvailable && f.m.lookahead == 0
    modifies f.m, f.m.head, c.w
    ensures Open(f, c, st, g') && c.Syms() == [] && BlockAt(f) == f.Here() == |f.m.input|
    ensures (flush == SyncFlush || flush == FullFlush ==> c.w.valid == 0) && (old(c.w.valid) < 8 ==> c.w.valid < 8)
    ensures flush != FullFlush ==> g' == g.(plain := false) && f.m.input == old(f.m.input) && f.m.base == old(f.m.base)
    ensures flush == FullFlush ==> g' == g.(plain := false, flushed := [], before := All(c, g)) && f.m.input == [] && f.m.base == 0
    ensures flush == FullFlush ==> g.before <= All(c, g) && Coded(Since(g.before, All(c, g)), false, old(f.m.input), f.m.wsize)
  {
    hide Sound, T.Coder.Syms, Coded, Since, B.BitWriter.Bits, ByteBits;
    InputEnd(f, c, st, g);
    g' := EmptyMark(f, c, st, flush, g);
    if flush == FullFlush {
      SoFar(f, c, st, g');
      g' := Restart(f, c, st, g');
    }
  }

  lemma {:induction false} InputEnd(f: Finder, c: T.Coder, st: Strategy, g: Log)
    requires Sound(f, c, st, g) && f.m.lookahead == 0 && !f.matchAvailable
    ensures f.Here() == |f.m.input|
  {
    hide Story, T.Coder.Valid, T.Coder.Syms, Finder.Tuned, Waiting, Chains, M.Shows;
  }

  /** All input since the last full flush has been coded. */
  lemma {:induction false} SoFar(f: Finder, c: T.Coder, st: Strategy, g: Log)
    requires Sound(f, c, st, g) && BlockAt(f) == |f.m.input|
    ensures g.before <= All(c, g) && Coded(Since(g.before, All(c, g)), g.finished, f.m.input, f.m.wsize)
  {
    hide Coded, Told, Finder.Valid, Finder.Tuned, T.Coder.Valid, Since, ByteBits;
    assert f.m.input[..|f.m.input|] == f.m.input;
  }

  lemma {:induction false} EmptyBlock(sent: BitString, e: T.Encoding, t: StaticTables.Tables, at: nat, text: seq<byte>, d: nat)
    requires T.EncodingOk(e, t, [], at) && at % 8 == |sent| % 8 && (e.AsStored? ==> e.buf == []) && Coded(sent, false, text, d)
    ensures Coded(sent + T.EncodingBits(e, t, false, [], at), false, text, d)
  {
    hide T.EncodingOk, T.EncodingBits, Coded;
    CodedBlock(sent, e, t, false, [], at, 0, text, text, d);
    assert sent + T.EncodingBits(e, t, false, [], at) + B.Zeros(0) == sent + T.EncodingBits(e, t, false, [], at);
  }

  /** Go on, return to the caller, or finish with the input used up. */
  datatype Turn = Again | Return | End

  /** One round, and the block if it is full now. */
  method Play(f: Finder, c: T.Coder, st: Strategy, fixed: bool, room: nat, ghost g: Log) returns (bytes: seq<byte>, ghost g': Log)
    requires Open(f, c, st, g) && !g.finished && c.w.pending == 0 && c.w.valid < 8 && room > 0
    requires f.m.lookahead > 0 && (f.m.lookahead >= Need(st) || f.m.strstart + MIN_LOOKAHEAD <= 2 * f.m.wsize)
    modifies f, f.m, f.m.head, f.m.prev, c`symBuf, T.AllOf(c.a), c.w
    ensures Open(f, c, st, g') && !g'.finished && g'.before == g.before && g'.delivered == g.delivered + bytes && |bytes| <= room
    ensures f.m.input == old(f.m.input) && f.m.base == old(f.m.base) && f.m.lookahead < old(f.m.lookahead)
    ensures (c.w.pending == 0 || |bytes| == room) && c.w.valid < 8 && g'.plain == g.plain && StaysTight(f, c, st, f.m.base, fixed, g, g')
  {
    hide Sound, T.Coder.Syms, StaysTight, Big;
    bytes, g' := [], g;
    TightNone(f, c, st, f.m.base, fixed, g);
    var full := Round(f, c, st, g);
    assert g.delivered + [] == g.delivered;
    if full {
      bytes, g' := FlushBlockOnly(f, c, st, false, fixed, room, g);
    }
  }

  /** One turn of the loops of deflate_slow, deflate_fast, deflate_rle and deflate_huff. */
  method TakeTurn(f: Finder, c: T.Coder, st: Strategy, fixed: bool, next: seq<byte>, flush: Flush, room: nat, ghost g: Log)
      returns (turn: Turn, rest: seq<byte>, bytes: seq<byte>, ghost g': Log)
    requires Open(f, c, st, g) && !g.finished && c.w.pending == 0 && c.w.valid < 8 && room > 0
    modifies f, f.m, f.m.window, f.m.head, f.m.prev, c`symBuf, T.AllOf(c.a), c.w
    ensures Open(f, c, st, g') && !g'.finished && g'.before == g.before && g'.delivered == g.delivered + bytes && |bytes| <= room
    ensures Consumed(old(f.m.input), next, rest, f.m.input) && (c.w.pending == 0 || |bytes| == room) && c.w.valid < 8
    ensures turn == Again ==> |bytes| < room && |rest| + f.m.lookahead < |next| + old(f.m.lookahead)
    ensures turn == Return ==> (flush == NoFlush && rest == []) || |bytes| == room
    ensures g'.plain == g.plain && Unslid(f, old(f.m.base)) && StaysTight(f, c, st, f.m.base, fixed, g, g')
    ensures turn == End ==> flush != NoFlush && bytes == [] && rest == [] && f.m.lookahead == 0 && f.m.strstart < 65536 && c.w.pending == 0
  {
    hide Sound, Consumed, T.Coder.Syms, StaysTight, Big, Unslid;
    rest, bytes, g' := next, [], g;
    ConsumedNone(f.m.input, next);
    UnslidNone(f);
    assert g.delivered + [] == g.delivered;
    TightNone(f, c, st, f.m.base, fixed, g);
    if f.m.lookahead < Need(st) {
      rest := Fill(f, c, st, next, g);
      TightNone(f, c, st, f.m.base, fixed, g);
      if f.m.lookahead < Need(st) && flush == NoFlush {
        return Return, rest, bytes, g';
      }
      if f.m.lookahead == 0 {
        return End, rest, bytes, g';
      }
    }
    ghost var b1, i1 := f.m.base, f.m.input;
    UnslidFacts(f, old(f.m.base));
    bytes, g' := Play(f, c, st, fixed, room, g);
    UnslidNone(f);
    UnslidMore(f, old(f.m.base), b1, i1);
    turn := if |bytes| == room then Return else Again;
  }

  /** The loop and what follows it: all input that can be used now. */
  method Compress(f: Finder, c: T.Coder, st: Strategy, fixed: bool, next: seq<byte>, flush: Flush, room: nat, ghost g: Log)
      returns (state: BlockState, rest: seq<byte>, bytes: seq<byte>, ghost g': Log)
    requires Open(f, c, st, g) && !g.finished && c.w.pending == 0 && c.w.valid < 8 && room > 0
    modifies f, f.m, f.m.window, f.m.head, f.m.prev, c`symBuf, T.AllOf(c.a), c.w
    ensures Open(f, c, st, g') && g'.before == g.before && g'.delivered == g.delivered + bytes && |bytes| <= room
    ensures Consumed(old(f.m.input), next, rest, f.m.input)
    ensures g'.finished <==> state == FinishStarted || state == FinishDone
    ensures state != NeedMore ==> rest == [] && c.Syms() == [] && BlockAt(f) == f.Here() == |f.m.input|
    ensures flush == Finish ==> state != BlockDone
    ensures state == NeedMore || state == FinishStarted ==> (flush == NoFlush && rest == []) || |bytes| == room
    ensures g'.finished ==> flush == Finish
    ensures flush == NoFlush || flush == Finish ==> g'.plain == g.plain && state != BlockDone
    ensures Unslid(f, old(f.m.base)) && (flush == NoFlush || flush == Finish ==> StaysTight(f, c, st, f.m.base, fixed, g, g')) && Weighed(f, fixed, g')
    ensures state == FinishDone || state == BlockDone ==> |bytes| < room && !f.matchAvailable
    ensures (c.w.pending == 0 || |bytes| == room) && c.w.valid < 8
  {
    hide Sound, Open, Consumed, T.Coder.Syms, StaysTight, Unslid;
    var more;
    more, rest, bytes, g' := TakeTurns(f, c, st, fixed, next, flush, room, g);
    if more {
      return NeedMore, rest, bytes, g';
    }
    ghost var b0, i0, h := f.m.base, f.m.input, g';
    UnslidFacts(f, old(f.m.base));
    var b;
    state, b, g' := EndOfInput(f, c, st, fixed, flush, room - |bytes|, g');
    UnslidNone(f);
    UnslidMore(f, old(f.m.base), b0, i0);
    if flush == Finish { TightTrans(f, c, st, b0, b0, fixed, g, h, g'); }
    bytes := bytes + b;
  }

  /** The loop: until there is more to come, or the input has ended. */
  method TakeTurns(f: Finder, c: T.Coder, st: Strategy, fixed: bool, next: seq<byte>, flush: Flush, room: nat, ghost g: Log)
      returns (more: bool, rest: seq<byte>, bytes: seq<byte>, ghost g': Log)
    requires Open(f, c, st, g) && !g.finished && c.w.pending == 0 && c.w.valid < 8 && room > 0
    modifies f, f.m, f.m.window, f.m.head, f.m.prev, c`symBuf, T.AllOf(c.a), c.w
    ensures Open(f, c, st, g') && !g'.finished && g'.before == g.before && g'.delivered == g.delivered + bytes && |bytes| <= room && g'.plain == g.plain
    ensures Consumed(old(f.m.input), next, rest, f.m.input) && Unslid(f, old(f.m.base)) && StaysTight(f, c, st, f.m.base, fixed, g, g')
    ensures more ==> (flush == NoFlush && rest == []) || |bytes| == room
    ensures !more ==> flush != NoFlush && rest == [] && |bytes| < room && f.m.lookahead == 0 && f.m.strstart < 65536 && c.w.pending == 0
    ensures (c.w.pending == 0 || |bytes| == room) && c.w.valid < 8
  {
    hide Sound, Open, Consumed, T.Coder.Syms, StaysTight, Unslid;
    rest, bytes, g' := next, [], g;
    ghost var input := f.m.input;
    ConsumedNone(input, next);
    TightNone(f, c, st, f.m.base, fixed, g);
    UnslidNone(f);
    while true
      invariant Open(f, c, st, g') && !g'.finished && c.w.pending == 0 && c.w.valid < 8 && |bytes| < room
      invariant g'.before == g.before && g'.delivered == g.delivered + bytes && g'.plain == g.plain
      invariant Unslid(f, old(f.m.base)) && StaysTight(f, c, st, f.m.base, fixed, g, g')
      invariant Consumed(input, next, rest, f.m.input)
      decreases |rest| + f.m.lookahead
    {
      ghost var r0, i0, b0, h := rest, f.m.input, f.m.base, g';
      UnslidFacts(f, old(f.m.base));
      var turn, b;
      turn, rest, b, g' := TakeTurn(f, c, st, fixed, rest, flush, room - |bytes|, g');
      ConsumedFacts(i0, r0, rest, f.m.input);
      UnslidFacts(f, b0);
      UnslidMore(f, old(f.m.base), b0, i0);
      TightTrans(f, c, st, b0, f.m.base, fixed, g, h, g');
      ConsumedMore(input, next, r0, i0, rest, f.m.input);
      bytes := bytes + b;
      if turn != Again {
        return turn == Return, rest, bytes, g';
      }
    }
  }

  /** All of next but rest has been read. */
  ghost predicate Consumed(input: seq<byte>, next: seq<byte>, rest: seq<byte>, input': seq<byte>)
  {
    |rest| <= |next| && next == next[..|next| - |rest|] + rest && input' == input + next[..|next| - |rest|]
  }

  lemma {:induction false} ConsumedNone(input: seq<byte>, next: seq<byte>)
    ensures Consumed(input, next, next, input)
  {
  }

  lemma {:induction false} ConsumedMore(input: seq<byte>, next: seq<byte>, r: seq<byte>, i: seq<byte>, r': seq<byte>, i': seq<byte>)
    requires Consumed(input, next, r, i) && Consumed(i, r, r', i')
    ensures Consumed(input, next, r', i')
  {
    var a, b := next[..|next| - |r|], r[..|r| - |r'|];
    assert next == a + b + r';
    assert next[..|next| - |r'|] == a + b;
  }

  lemma {:induction false} ConsumedFacts(input: seq<byte>, next: seq<byte>, rest: seq<byte>, input': seq<byte>)
    requires Consumed(input, next, rest, input')
    ensures |rest| <= |next| && next == next[..|next| - |rest|] + rest && input' == input + next[..|next| - |rest|]
  {
  }

  lemma {:induction false} FewSyms(c: T.Coder)
    requires c.Valid()
    ensures |c.Syms()| <= 32767 && |c.Syms()| <= c.symEnd / 3
  {
    T.SymsBound(c.symBuf, 0);
  }

  lemma {:induction false} RightOk(input: seq<byte>, p: nat, s: Symbol, q: nat)
    requires Right(input, p, s, q)
    ensures BlockStats.SymbolOk(s)
  {
  }

  lemma {:induction false} ToldOrder(input: seq<byte>, flushed: seq<Symbol>, syms: seq<Symbol>, here: int, blockAt: int)
    requires Told(input, flushed, syms, here, blockAt)
    ensures 0 <= blockAt <= here <= |input|
  {
  }

  /** The text since the last block is as long as its symbols say. */
  lemma {:induction false} ToldSpan(input: seq<byte>, flushed: seq<Symbol>, syms: seq<Symbol>, here: int, blockAt: int)
    requires Told(input, flushed, syms, here, blockAt)
    ensures here - blockAt == Z.Span(syms) >= |syms|
  {
    hide ValidAll, Expand, Z.Span;
    ToldFlush(input, flushed, syms, here, blockAt);
    Z.SpanExpand(input[..blockAt], syms);
  }

  lemma {:induction false} FullSyms(c: T.Coder)
    requires c.Valid() && |c.symBuf| == c.symEnd
    ensures |c.Syms()| >= FULL_BLOCK && |c.Syms()| >= c.symEnd / 3
  {
    T.SymsBound(c.symBuf, 0);
  }

  lemma {:induction false} CoderFacts(c: T.Coder)
    requires c.Valid()
    ensures StaticTables.TablesFit(c.t) && BlockStats.SymbolsOk(c.Syms())
  {
  }

  lemma {:induction false} IdleBits(c: T.Coder)
    requires c.Valid() && c.w.pending == 0 && c.w.valid < 8
    ensures |c.w.Bits()| < 8
  {
    WriterFacts(c);
    c.w.Lengths();
  }

  lemma {:induction false} WriterFacts(c: T.Coder)
    requires c.Valid()
    ensures c.w.Valid()
  {
    hide T.Coder.Syms, T.Counted, B.BitWriter.Valid;
  }

  lemma {:induction false} NoSyms(c: T.Coder)
    requires c.Valid() && c.Syms() == []
    ensures |c.symBuf| < c.symEnd
  {
  }
}
