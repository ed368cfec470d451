/** The deflate stream object and its calls. */
module DeflateStream {
  import opened Bits
  import opened Lz77
  import opened InflateSpec
  import opened Searcher
  import R = RollingHash
  import opened LazyMatch
  import opened DeflateBlocks
  import L = Lossless
  import M = Matcher
  import T = TreeCoder
  import B = BitWriter
  import Z = BlockBound
  import O = StaticOverrun

  /** Return codes of a call. */
  datatype Ret = OK | STREAM_END | STREAM_ERROR | BUF_ERROR

  /** The numbers of the flush values, ranked as RANK does. */
  function FlushRank(f: Flush): (r: int)
  {
    match f
    case NoFlush => 0
    case BlockFlush => 1
    case PartialFlush => 2
    case SyncFlush => 4
    case FullFlush => 6
    case Finish => 8
  }

  /** A call that brings nothing to do: no pending output, no input, no new kind of flush. */
  predicate Idles(next: seq<byte>, flush: Flush, pending: nat, lastRank: int)
  {
    pending == 0 && next == [] && flush != Finish && FlushRank(flush) <= lastRank
  }

  /** The bits up to one full flush and those up to a later one: what is in between decodes alone to the input in between. */
  ghost predicate Grown(before: BitString, text: seq<byte>, before': BitString, text': seq<byte>, d: nat)
  {
    && before <= before' && text <= text' && (|before'| - |before|) % 8 == 0
    && Coded(before'[|before|..], false, text'[|text|..], d)
  }

  lemma {:induction false} GrownNone(before: BitString, text: seq<byte>, d: nat)
    ensures Grown(before, text, before, text, d)
  {
    hide Coded;
    CodedNone(d);
    assert before[|before|..] == [] && text[|text|..] == [];
  }

  lemma {:induction false} GrownOnce(before: BitString, text: seq<byte>, since: BitString, more: seq<byte>, d: nat)
    requires Coded(since, false, more, d) && |before| % 8 == 0 && |before + since| % 8 == 0
    ensures Grown(before, text, before + since, text + more, d)
  {
    hide Coded;
    assert (before + since)[|before|..] == since && (text + more)[|text|..] == more;
  }

  lemma {:induction false} GrownTrans(b0: BitString, t0: seq<byte>, b1: BitString, t1: seq<byte>, b2: BitString, t2: seq<byte>, d: nat)
    requires Grown(b0, t0, b1, t1, d) && Grown(b1, t1, b2, t2, d)
    ensures Grown(b0, t0, b2, t2, d)
  {
    hide Coded;
    var x, y := b1[|b0|..], b2[|b1|..];
    CodedJoin(x, y, false, t1[|t0|..], t2[|t1|..], d);
    assert x + y == b2[|b0|..] && t1[|t0|..] + t2[|t1|..] == t2[|t0|..];
  }

  class Deflater {
    const f: Finder
    const c: T.Coder
    const strategy: Strategy
    const fixed: bool
    var finishing: bool        // status == FINISH_STATE
    var lastRank: int          // of the flush value of the last call, -2 for none
    ghost var log: Log
    ghost var earlier: seq<byte>  // the input up to the last full flush
    ghost var from: BitString     // the bits up to some full flush, and the input up to it
    ghost var fromText: seq<byte>

    /** All input taken. */
    ghost function Text(): (t: seq<byte>)
      reads this`earlier, f.m`input
    {
      earlier + f.m.input
    }

    ghost function LzSet(): set<object> { {f, f.m, f.m.window, f.m.head, f.m.prev} }
    ghost function CodeSet(): set<object> { {c, c.w} + T.AllOf(c.a) }

    ghost predicate Valid()
      reads this, LzSet(), CodeSet()
    {
      var me: object := this;
      && me !in LzSet() + CodeSet() && Open(f, c, strategy, log) && finishing == log.finished && c.w.valid < 8 && Snug()
      && Coded(log.before, false, earlier, f.m.wsize) && (log.plain ==> log.before == [] && earlier == []) && Weighed(f, fixed, log) && Unmoved()
      && Grown(from, fromText, log.before, earlier, f.m.wsize)
    }

    /** The window slides only when there is enough input. */
    ghost predicate Unmoved()
      reads f, f.m
    {
      |f.m.input| < 2 * f.m.wsize - MIN_LOOKAHEAD ==> f.m.base == 0
    }

    /** With the default settings and a free choice of the encoding, all is tight as long as the window has
        not slid, or if there are no matches. */
    ghost predicate Snug()
      reads this`log, f, f.m
    {
      log.plain && !fixed && Big(c) && (|f.m.input| < 2 * f.m.wsize - MIN_LOOKAHEAD || AtHand(f, c, strategy, 1)) ==>
        log.tight && AtHand(f, c, strategy, f.m.base)
    }

    constructor (f': Finder, c': T.Coder, strategy': Strategy, fixed': bool)
      requires Open(f', c', strategy', EMPTY_LOG) && c'.w.valid < 8 && f'.m.base == 0
      ensures Valid() && f == f' && c == c' && strategy == strategy' && fixed == fixed' && log == EMPTY_LOG && earlier == []
    {
      hide Sound, Coded, Grown, T.AllOf;
      OnlyArrays(f', c');
      f, c, strategy, fixed := f', c', strategy', fixed';
      finishing, lastRank, log, earlier := false, -2, EMPTY_LOG, [];
      from, fromText := [], [];
      new;
      CodedNone(f.m.wsize);
      GrownNone([], [], f.m.wsize);
      var me: object := this;
      assert me != f && me != f.m && me != f.m.window && me != f.m.head && me != f.m.prev;
      assert me != c && me != c.w && me !in T.AllOf(c.a) by { NotArray(this, c); }
    }

    /** From here on. */
    ghost method Mind()
      requires Valid()
      modifies this`from, this`fromText
      ensures Valid() && from == log.before && fromText == earlier
    {
      hide Sound, Open, Coded, Grown, Snug;
      from, fromText := log.before, earlier;
      GrownNone(from, fromText, f.m.wsize);
    }

    lemma {:induction false} HasGrown()
      requires Valid()
      ensures Grown(from, fromText, log.before, earlier, f.m.wsize)
    {
    }

    method Remember(rank: int)
      requires Valid()
      modifies this`lastRank
      ensures Valid() && lastRank == rank
    {
      hide Sound, Coded, Open, Grown;
      lastRank := rank;
    }

    /** A call that has left no mark keeps it so. */
    lemma {:induction false} StillSnug(log0: Log, base0: nat, input0: seq<byte>)
      requires log0.plain && !fixed && Big(c) && (|input0| < 2 * f.m.wsize - MIN_LOOKAHEAD || AtHand(f, c, strategy, 1)) ==> log0.tight && AtHand(f, c, strategy, base0)
      requires Unslid(f, base0) && StaysTight(f, c, strategy, f.m.base, fixed, log0, log) && |input0| <= |f.m.input| && (log.plain ==> log0.plain)
      ensures Snug()
    {
    }

    /** The pending bytes first. */
    method Drain(room: nat) returns (bytes: seq<byte>)
      requires Valid()
      modifies this`log, c.w
      ensures Valid() && log == old(log).(delivered := old(log).delivered + bytes) && |bytes| <= room && c.w.pending + |bytes| == old(c.w.pending) && (c.w.pending == 0 || |bytes| == room)
      ensures f.m.input == old(f.m.input)
    {
      hide Sound, Big, AtHand, Coded, Grown;
      bytes, log := FlushPending(f, c, strategy, room, log);
    }

    /** All the input that can be used. */
    method Work(next: seq<byte>, flush: Flush, room: nat) returns (state: BlockState, rest: seq<byte>, bytes: seq<byte>)
      requires Valid() && !finishing && c.w.pending == 0 && room > 0
      modifies this`log, this`finishing, LzSet(), CodeSet()
      ensures Valid() && log.delivered == old(log).delivered + bytes && |bytes| <= room && log.before == old(log).before
      ensures Consumed(old(f.m.input), next, rest, f.m.input)
      ensures (c.w.pending == 0 || |bytes| == room) && (state == FinishDone ==> log.finished && c.w.pending == 0 && |bytes| < room)
      ensures state == FinishDone || state == FinishStarted <==> log.finished
      ensures state == BlockDone ==> |bytes| < room && c.Syms() == [] && BlockAt(f) == f.Here() && !f.matchAvailable
      ensures flush == Finish ==> state != BlockDone
      ensures log.finished ==> flush == Finish && rest == []
      ensures flush == NoFlush || flush == Finish ==> log.plain == old(log).plain && state != BlockDone
      ensures state == NeedMore || state == FinishStarted ==> (flush == NoFlush && rest == []) || |bytes| == room
      ensures state == BlockDone ==> rest == [] && BlockAt(f) == |f.m.input|
    {
      hide Sound, Consumed, AtHand, Big, StaysTight, Unslid, Coded, Grown;
      ghost var log0, base0, input0 := log, f.m.base, f.m.input;
      state, rest, bytes, log := Compress(f, c, strategy, fixed, next, flush, room, log);
      ConsumedFacts(input0, next, rest, f.m.input);
      UnslidFacts(f, base0);
      if flush == NoFlush || flush == Finish {
        StillSnug(log0, base0, input0);
      } else {
        NotPlain(f, c, strategy, log);
        log := log.(plain := false);
      }
      finishing := state == FinishStarted || state == FinishDone;
    }

    /** The mark of a flush, then as much as there is space for. */
    method Mark(flush: Flush, room: nat) returns (bytes: seq<byte>)
      requires Valid() && !finishing && c.w.pending == 0 && c.Syms() == [] && BlockAt(f) == f.Here() && !f.matchAvailable && BlockAt(f) == |f.m.input|
      modifies this`log, this`earlier, f.m, f.m.head, c.w
      ensures Valid() && Text() == old(Text()) && log.delivered == old(log).delivered + bytes && !log.plain && !log.finished && |bytes| <= room
      ensures flush == FullFlush ==> f.m.input == [] && (|bytes| < room ==> log.before == ByteBits(log.delivered))
      ensures |bytes| < room && (flush == SyncFlush || flush == FullFlush) ==> Delivered(false)
    {
      hide Sound, Open, Coded, Grown, ByteBits, T.Coder.Syms;
      MakeMark(flush);
      ghost var aligned := c.w.valid == 0;
      bytes, log := FlushPending(f, c, strategy, room, log);
      if aligned && |bytes| < room {
        WholeText();
      }
    }

    /** The mark itself. */
    method MakeMark(flush: Flush)
      requires Valid() && !finishing && c.w.pending == 0 && c.Syms() == [] && BlockAt(f) == f.Here() && !f.matchAvailable && BlockAt(f) == |f.m.input|
      modifies this`log, this`earlier, f.m, f.m.head, c.w
      ensures Valid() && Text() == old(Text()) && log.delivered == old(log).delivered && !log.plain && !log.finished && BlockAt(f) == |f.m.input|
      ensures flush == FullFlush ==> f.m.input == [] && log.before == All(c, log)
      ensures flush == SyncFlush || flush == FullFlush ==> c.w.valid == 0
    {
      hide Sound, Coded, Grown, ByteBits, Since, T.Coder.Syms, B.BitWriter.Bits;
      AllDealt();
      ghost var log0, text := log, f.m.input;
      BeforeWhole(f, c, strategy, log);
      log := FlushMark(f, c, strategy, flush, log);
      if flush == FullFlush {
        ghost var since := Since(log0.before, log.before);
        SincePrefix(log0.before, log.before);
        CodedJoin(log0.before, since, false, earlier, text, f.m.wsize);
        earlier := earlier + text;
        assert Text() == old(Text());
        BeforeWhole(f, c, strategy, log);
        GrownOnce(log0.before, old(earlier), since, text, f.m.wsize);
        GrownTrans(from, fromText, log0.before, old(earlier), log.before, earlier, f.m.wsize);
      }
    }

    lemma {:induction false} AllDealt()
      requires Valid() && BlockAt(f) == f.Here() == |f.m.input| && !f.matchAvailable
      ensures f.m.lookahead == 0
    {
      hide Coded, Story, Finder.Tuned, T.Coder.Valid, Waiting, T.Coder.Syms, Sized;
    }

    /** The bytes delivered are the coded input, and those after the last full flush alone that of the input after it. */
    ghost predicate Delivered(finished: bool)
      reads this`log, this`earlier, f.m`input
    {
      && Coded(ByteBits(log.delivered), finished, Text(), f.m.wsize)
      && log.before <= ByteBits(log.delivered) && Coded(ByteBits(log.delivered)[|log.before|..], finished, f.m.input, f.m.wsize)
    }

    /** With nothing pending and all input in blocks. */
    lemma {:induction false} WholeText()
      requires Valid() && c.w.pending == 0 && c.w.valid == 0 && BlockAt(f) == |f.m.input|
      ensures Delivered(log.finished) && All(c, log) == ByteBits(log.delivered)
    {
      hide Coded, Told, Finder.Valid, Finder.Tuned, T.Coder.Valid;
      WriterFacts(c);
      c.w.Empty();
      assert f.m.input[..|f.m.input|] == f.m.input;
      assert All(c, log) == ByteBits(log.delivered);
      var since := ByteBits(log.delivered)[|log.before|..];
      assert log.before + since == ByteBits(log.delivered);
      CodedJoin(log.before, since, log.finished, earlier, f.m.input, f.m.wsize);
    }

    /** As long as only Z_NO_FLUSH and Z_FINISH have been used, the output stays below the bound. */
    lemma {:induction false} WithinBound()
      requires Valid() && log.plain
      ensures earlier == [] && |log.delivered| + c.w.pending < DeflateBound(|f.m.input|)
      ensures log.tight ==> |log.delivered| + c.w.pending + (if log.finished then 0 else 5) <= TightBound(|f.m.input|)
      ensures !fixed && Big(c) && (|f.m.input| < 2 * f.m.wsize - MIN_LOOKAHEAD || AtHand(f, c, strategy, 1)) ==> log.tight
    {
      hide Finder.Valid, Finder.Tuned, T.Coder.Valid, Coded, DeflateBound, TightBound;
      ToldOrder(f.m.input, log.flushed, c.Syms(), f.Here(), BlockAt(f));
      WriterFacts(c);
      c.w.Lengths();
      assert Sent(c, log) == All(c, log);
      assert 8 * (|log.delivered| + c.w.pending) <= |Sent(c, log)|;
      BoundBits(|log.delivered| + c.w.pending, |Sent(c, log)|, BlockAt(f), log.blocks, |f.m.input|);
      if log.tight { TightBits(|log.delivered| + c.w.pending, |Sent(c, log)|, BlockAt(f), log.blocks, |f.m.input|, log.finished); }
    }

    /** A text without matches for which fixed trees are bad, in one block: the tight value is not enough. */
    lemma {:induction false} Overruns()
      requires Valid() && log.plain && log.finished && fixed && c.w.pending == 0 && O.Bulky(f.m.input)
      requires |f.m.input| < c.symEnd / 3 && |f.m.input| < 2 * f.m.wsize - MIN_LOOKAHEAD
      ensures 8 * |log.delivered| >= 9 * |f.m.input| + 10 && |log.delivered| > TightBound(|f.m.input|)
    {
      hide Finder.Valid, Finder.Tuned, T.Coder.Valid, Coded, O.Bulky, Told;
      Idle();
      EndPlace(f, c, strategy, log);
      WriterFacts(c);
      c.w.Lengths();
      assert f.m.input[..BlockAt(f)] == f.m.input;
      assert Sent(c, log) == All(c, log);
      assert |Sent(c, log)| == 8 * |log.delivered|;
      BulkyLength(f.m.input);
    }

    lemma {:induction false} NotYet()
      requires Valid()
      ensures finishing == log.finished && var me: object := this; me !in LzSet() + CodeSet()
    {
      hide Open, Coded, Grown;
    }

    /** Nothing is left to do after the last block. */
    lemma {:induction false} Idle()
      requires Valid() && finishing
      ensures f.m.lookahead == 0
    {
      hide Story, Finder.Valid, T.Coder.Valid;
    }

    lemma {:induction false} EndText()
      requires Valid() && finishing && c.w.pending == 0
      ensures Delivered(true)
    {
      hide Coded, T.Coder.Valid, ByteBits, B.BitWriter.Bits, Finder.Tuned;
      EndPlace(f, c, strategy, log);
      WholeText();
    }

    /** The blocks of a call, and the mark of a flush; over says that there is no more to do in this call. */
    method Run(next: seq<byte>, room: nat, flush: Flush) returns (over: bool, rest: seq<byte>, bytes: seq<byte>)
      requires Valid() && !finishing && c.w.pending == 0 && room > 0
      modifies this`log, this`finishing, this`earlier, LzSet(), CodeSet()
      ensures Valid() && Consumed(old(Text()), next, rest, Text())
      ensures log.delivered == old(log).delivered + bytes && |bytes| <= room
      ensures log.finished ==> flush == Finish && rest == []
      ensures flush == NoFlush || flush == Finish ==> log.plain == old(log).plain
      ensures over ==> (flush == NoFlush && rest == []) || |bytes| == room
      ensures !over ==> |bytes| < room && rest == [] && (flush == Finish ==> log.finished && c.w.pending == 0)
      ensures !over && (flush == SyncFlush || flush == FullFlush) ==> Delivered(false)
      ensures !over && flush == FullFlush ==> f.m.input == [] && log.before == ByteBits(log.delivered)
    {
      hide Snug, Grown, Sound, Open, Consumed, Coded, Delivered, ByteBits, T.Coder.Syms, T.AllOf;
      var state;
      ghost var input := f.m.input;
      state, rest, bytes := Work(next, flush, room);
      ConsumedLater(earlier, input, next, rest, f.m.input);
      over := state == NeedMore || state == FinishStarted;
      if state == BlockDone {
        var b := Mark(flush, room - |bytes|);
        bytes := bytes + b;
        over := |bytes| == room;
      }
    }

    /** What deflate does once nothing is pending. */
    method Proceed(next: seq<byte>, room: nat, flush: Flush) returns (ret: Ret, rest: seq<byte>, bytes: seq<byte>)
      requires Valid() && c.w.pending == 0 && room > 0 && (finishing ==> flush == Finish && next == [])
      modifies this, LzSet(), CodeSet()
      ensures Valid() && Consumed(old(Text()), next, rest, Text())
      ensures log.delivered == old(log).delivered + bytes && |bytes| <= room
      ensures ret == OK || ret == STREAM_END
      ensures lastRank == if ret == OK && |bytes| == room then -2 else old(lastRank)
      ensures ret == STREAM_END ==> log.finished && c.w.pending == 0 && rest == []
      ensures log.finished ==> flush == Finish || old(log).finished
      ensures log.finished && !old(log).finished ==> rest == []
      ensures flush == NoFlush || flush == Finish ==> log.plain == old(log).plain
      ensures ret == OK ==> (flush != Finish && rest == []) || |bytes| == room
      ensures ret == OK && |bytes| < room && (flush == SyncFlush || flush == FullFlush) ==> rest == [] && Delivered(false)
      ensures from == old(from) && fromText == old(fromText)
      ensures ret == OK && |bytes| < room && flush == FullFlush ==> f.m.input == [] && log.before == ByteBits(log.delivered)
      ensures ret == STREAM_END ==> Delivered(true)
    {
      hide Valid, Sound, Open, Consumed, Coded, Delivered, ByteBits, T.Coder.Syms, T.AllOf;
      rest, bytes := next, [];
      ConsumedNone(Text(), next);
      NotYet();
      if finishing { Idle(); }
      if next != [] || f.m.lookahead != 0 || (flush != NoFlush && !finishing) {
        var over;
        over, rest, bytes := Run(next, room, flush);
        NotYet();
        if over {
          if |bytes| == room {
            Remember(-2);
          }
          return OK, rest, bytes;
        }
      }
      ret := if flush != Finish then OK else STREAM_END;
      if ret == STREAM_END { EndText(); }
    }

    /** deflate(): takes input, gives output; rest is the input not yet taken. */
    method Deflate(next: seq<byte>, room: nat, flush: Flush) returns (ret: Ret, rest: seq<byte>, bytes: seq<byte>)
      requires Valid()
      modifies this, LzSet(), CodeSet()
      ensures Valid() && Consumed(old(Text()), next, rest, Text())
      ensures log.delivered == old(log).delivered + bytes && |bytes| <= room
      ensures ret == STREAM_ERROR <==> old(finishing) && flush != Finish
      ensures ret == STREAM_ERROR || ret == BUF_ERROR ==> rest == next
      ensures ret == BUF_ERROR <==>
        && !(old(finishing) && flush != Finish)
        && (room == 0 || Idles(next, flush, old(c.w.pending), old(lastRank)) || (old(finishing) && next != [] && old(c.w.pending) < room))
      ensures lastRank == if ret == STREAM_ERROR || room == 0 then old(lastRank) else if ret == OK && |bytes| == room then -2 else FlushRank(flush)
      ensures ret == STREAM_END ==> log.finished && c.w.pending == 0 && rest == []
      ensures log.finished ==> flush == Finish || old(log).finished
      ensures log.finished && !old(log).finished ==> rest == []
      ensures flush == NoFlush || flush == Finish ==> log.plain == old(log).plain
      ensures ret == OK ==> (flush != Finish && rest == []) || |bytes| == room
      ensures ret == OK && |bytes| < room && (flush == SyncFlush || flush == FullFlush) ==> rest == [] && Delivered(false)
      ensures from == old(from) && fromText == old(fromText)
      ensures ret == OK && |bytes| < room && flush == FullFlush ==> f.m.input == [] && log.before == ByteBits(log.delivered)
      ensures ret == STREAM_END ==> Delivered(true)
    {
      hide Valid, Grown, Sound, Open, Consumed, Coded, Delivered, ByteBits, FlushRank, T.Coder.Syms, T.AllOf;
      rest, bytes := next, [];
      ConsumedNone(Text(), next);
      if finishing && flush != Finish {
        return STREAM_ERROR, rest, bytes;
      }
      if room == 0 {
        return BUF_ERROR, rest, bytes;
      }
      var oldRank := lastRank;
      Remember(FlushRank(flush));
      if c.w.pending != 0 {
        bytes := Drain(room);
        if |bytes| == room {
          Remember(-2);
          return OK, rest, bytes;
        }
      } else if next == [] && FlushRank(flush) <= oldRank && flush != Finish {
        return BUF_ERROR, rest, bytes;
      }
      if finishing && next != [] {
        return BUF_ERROR, rest, bytes;
      }
      var b;
      ret, rest, b := Proceed(next, room - |bytes|, flush);
      bytes := bytes + b;
    }
  }

  /** deflateBound for raw deflate data and settings that are not the default ones. */
  function DeflateBound(sourceLen: nat): (n: nat)
  {
    sourceLen + (sourceLen + 7) / 8 + (sourceLen + 63) / 64 + 5
  }

  /** deflateBound for raw deflate data and the default settings. */
  function TightBound(sourceLen: nat): (n: nat)
  {
    sourceLen + sourceLen / 4096 + sourceLen / 16384 + sourceLen / 0x200_0000 + 7
  }

  lemma {:induction false} BulkyLength(text: seq<byte>)
    requires O.Bulky(text)
    ensures |text| >= 756
  {
  }

  /** Five bytes for each full block and for the last one is just what the tight bound allows. */
  lemma {:induction false} TightBits(bytes: nat, bits: nat, at: nat, blocks: nat, n: nat, finished: bool)
    requires 8 * bytes <= bits && Z.Up(bits) <= at + 5 * blocks + (if finished then 5 else 0) && DEFAULT_FULL * blocks <= at <= n
    ensures bytes + (if finished then 0 else 5) <= TightBound(n)
  {
  }

  lemma {:induction false} NotPlain(f: Finder, c: T.Coder, st: Strategy, g: Log)
    requires Open(f, c, st, g)
    ensures Open(f, c, st, g.(plain := false))
  {
    hide Finder.Valid, Finder.Tuned, T.Coder.Valid, T.Coder.Syms, Story;
    assert Sent(c, g.(plain := false)) == Sent(c, g);
  }

  lemma {:induction false} BoundBits(bytes: nat, bits: nat, at: nat, blocks: nat, n: nat)
    requires 8 * bytes <= bits <= 9 * at + 10 * blocks + 34 && FULL_BLOCK * blocks <= at <= n
    ensures bytes < DeflateBound(n)
  {
  }

  /** deflateInit2 for raw deflate data. */
  method Init(wsize: nat, hashBits: R.bits, litBufsize: nat, strategy: Strategy, config: Config, fixed: bool) returns (d: Deflater)
    requires 512 <= wsize <= 32768 && 128 <= litBufsize <= 32768 && config.chain >= 4
    ensures fresh(d) && fresh(d.LzSet()) && fresh(d.CodeSet())
    ensures d.Valid() && d.Text() == [] && d.log == EMPTY_LOG && d.earlier == []
    ensures d.f.m.wsize == wsize && d.c.symEnd == 3 * (litBufsize - 1) && d.strategy == strategy && d.fixed == fixed
  {
    hide Deflater.Valid, Sound, Open, Finder.Valid, T.Coder.Valid, M.Matcher.Valid, T.Coder.Syms, B.BitWriter.Bits;
    var m := new M.Matcher(wsize, hashBits);
    var f := new Finder(m, config);
    var c := new T.Coder(litBufsize);
    FirstOpen(f, c, strategy);
    d := new Deflater(f, c, strategy, fixed);
  }

  lemma {:induction false} FirstOpen(f: Finder, c: T.Coder, st: Strategy)
    requires f.Valid() && !f.matchAvailable && f.matchLength == 2 == f.prevLength && f.m.input == [] && f.m.base == 0 && f.m.strstart == 0 && f.m.blockStart == 0 && f.m.lookahead == 0
    requires c.Valid() && c.Syms() == [] && c.w.Bits() == [] && Apart(f, c)
    ensures Open(f, c, st, EMPTY_LOG) && c.w.valid < 8
  {
    hide Finder.Valid, T.Coder.Valid, Story, T.Coder.Syms;
    NoSyms(c);
    assert ByteBits([]) + [] == [];
    FirstStory(st == Huff, f.m.wsize);
  }

  /** Input before does not matter. */
  lemma {:induction false} ConsumedLater(earlier: seq<byte>, input: seq<byte>, next: seq<byte>, rest: seq<byte>, input': seq<byte>)
    requires Consumed(input, next, rest, input')
    ensures Consumed(earlier + input, next, rest, earlier + input')
  {
  }

  lemma {:induction false} SincePrefix(before: BitString, all: BitString)
    requires before <= all
    ensures before + Since(before, all) == all
  {
  }

  lemma {:induction false} BeforeWhole(f: Finder, c: T.Coder, st: Strategy, g: Log)
    requires Open(f, c, st, g)
    ensures |g.before| % 8 == 0
  {
    hide Story, Finder.Valid, T.Coder.Valid, T.Coder.Syms;
  }

  lemma {:induction false} CodedNone(d: nat)
    ensures Coded([], false, [], d)
  {
    L.DeliversNone([], d);
  }

  lemma {:induction false} NotArray(d: Deflater, c: T.Coder)
    ensures var me: object := d; me !in T.AllOf(c.a)
  {
  }
}
