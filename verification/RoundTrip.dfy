/** What deflate writes, inflate reads back: for every input, every schedule of calls on the
    compressing side and every schedule of calls on the decompressing side. */
module RoundTrip {
  import opened Bits
  import opened Lz77
  import opened InflateSpec
  import opened Distances
  import opened BlockCodec
  import opened Searcher
  import R = RollingHash
  import opened LazyMatch
  import opened DeflateBlocks
  import D = DeflateStream
  import S = StoredStream
  import Z = InflateStream
  import O = StaticOverrun

  /** Where decoding ends. */
  function Goal(finished: bool, text: seq<byte>): (z: Conf)
  {
    Conf(if finished then Done else Type(false), [], text)
  }

  lemma {:induction false} CodedGoal(data: seq<byte>, finished: bool, text: seq<byte>, d: nat)
    requires Coded(ByteBits(data), finished, text, d)
    ensures Calm(Conf(Type(false), ByteBits(data), []), Goal(finished, text), d)
    ensures Ok(Goal(finished, text).st) && Step(Goal(finished, text)).None?
  {
    hide Calm, ByteBits, Step, Delivers;
    if finished {
      AtBad(Goal(true, text));
    } else {
      AtType(Goal(false, text));
      DeliversNow(ByteBits(data), text, d);
    }
  }

  lemma {:induction false} DeliversNow(bits: BitString, text: seq<byte>, d: nat)
    requires Delivers(bits, 0, false, [], text, d) && |bits| % 8 == 0
    ensures Calm(Conf(Type(false), bits, []), Conf(Type(false), [], text), d)
  {
    hide Calm;
    var rest: BitString := [];
    assert (0 + |bits| + |rest|) % 8 == 0;
    assert bits + rest == bits;
  }

  /** A window as large as deflate's is large enough for inflate. */
  lemma {:induction false} CodedFits(data: seq<byte>, finished: bool, text: seq<byte>, d: nat, windowBits: nat)
    requires Coded(ByteBits(data), finished, text, d) && d <= Pow2(windowBits)
    ensures Z.WindowFits(data, windowBits)
  {
    hide Coded, Calm, Within, ByteBits, Step, Ok, Pow2;
    var x := Conf(Type(false), ByteBits(data), []);
    CodedGoal(data, finished, text, d);
    CalmWithin(x, Goal(finished, text), d);
    WithinMore(x, d, Pow2(windowBits));
  }

  /** Every run can be continued to where another run has come to an end. */
  lemma {:induction false} Onward(x: Conf, y: Conf, z: Conf)
    requires Reaches(x, y) && Reaches(x, z) && Ok(z.st) && Step(z).None?
    ensures Reaches(y, z) && y.out <= z.out
  {
    hide Step, Ok;
    var n: nat :| Run(x, n) == Some(y);
    var m: nat :| Run(x, m) == Some(z);
    if m < n {
      RunAdd(x, m, n - m);
    } else {
      RunAdd(x, n, m - n);
      RunOutput(y, m - n);
    }
  }

  /** The last call was offered all the input that was left and did not run out of space. */
  ghost predicate Settled(data: seq<byte>, streams: seq<Stream>, calls: seq<(nat, nat)>)
    requires |streams| == |calls| + 1
  {
    var n := |calls|;
    n > 0 && streams[n - 1].pos + calls[n - 1].0 == |data| && |streams[n].out| < |streams[n - 1].out| + calls[n - 1].1
  }

  /** A settled session has nothing left to do. */
  lemma {:induction false} SettledEnds(data: seq<byte>, streams: seq<Stream>, calls: seq<(nat, nat)>)
    requires Session(data, streams, calls) && Settled(data, streams, calls)
    ensures var t := streams[|calls|];
      t.pos <= |data| && Ok(t.st) && Step(View(data, t, |data|)).None?
  {
    hide Step, Ok, Reaches, ByteBits, NeedsSpace;
    var n := |calls|;
    assert Call(data, streams[n - 1], calls[n - 1].0, calls[n - 1].1, streams[n]);
  }

  /** Any two settled sessions over the same bytes agree. */
  lemma {:induction false} SettledAgree(data: seq<byte>, a: seq<Stream>, ca: seq<(nat, nat)>, b: seq<Stream>, cb: seq<(nat, nat)>)
    requires Session(data, a, ca) && Session(data, b, cb) && Settled(data, a, ca) && Settled(data, b, cb)
    requires a[0] == b[0] == Stream(Type(false), [], 0, [])
    ensures a[|ca|].st == b[|cb|].st && a[|ca|].out == b[|cb|].out
  {
    hide Session, Settled, Step, ByteBits;
    SettledEnds(data, a, ca);
    SettledEnds(data, b, cb);
    ChunkIndependence(data, a, ca, b, cb);
  }

  /** Every session over the compressed bytes gives a beginning of the text and no error, and all
      of the text once it is at the end or settled. */
  lemma {:induction false} SessionReads(data: seq<byte>, finished: bool, text: seq<byte>, d: nat, streams: seq<Stream>, calls: seq<(nat, nat)>)
    requires Coded(ByteBits(data), finished, text, d) && Session(data, streams, calls) && streams[0] == Stream(Type(false), [], 0, [])
    ensures var t := streams[|calls|];
      && t.out <= text && !t.st.Bad?
      && (t.st.Done? ==> finished && t.out == text)
      && (Settled(data, streams, calls) ==> t.out == text && (t.st.Done? <==> finished))
  {
    hide Coded, Settled, Reaches, Step, Call, ByteBits;
    var x, z, t := Conf(Type(false), ByteBits(data), []), Goal(finished, text), streams[|calls|];
    CodedGoal(data, finished, text, d);
    SessionRuns(data, streams, calls);
    assert View(data, streams[0], |data|) == x by {
      assert data[0..|data|] == data;
      assert [] + ByteBits(data) == ByteBits(data);
    }
    var y := View(data, t, |data|);
    Onward(x, y, z);
    if y.st.Bad? || y.st.Done? {
      AtBad(y);
      Confluent(x, y, z);
    }
    if Settled(data, streams, calls) {
      SettledEnds(data, streams, calls);
      Confluent(x, y, z);
    }
  }

  /** A last call with everything left and more space than the text is long settles the session. */
  lemma {:induction false} EnoughSettles(data: seq<byte>, finished: bool, text: seq<byte>, d: nat, streams: seq<Stream>, calls: seq<(nat, nat)>)
    requires Coded(ByteBits(data), finished, text, d) && Session(data, streams, calls) && streams[0] == Stream(Type(false), [], 0, [])
    requires |calls| > 0 && streams[|calls| - 1].pos + calls[|calls| - 1].0 == |data| && calls[|calls| - 1].1 > |text|
    ensures Settled(data, streams, calls)
  {
    hide Coded, Session, ByteBits;
    SessionReads(data, finished, text, d, streams, calls);
  }

  lemma {:induction false} Joins(data: seq<byte>, i: nat, j: nat, k: nat)
    requires i <= k <= j <= |data|
    ensures data[..i] + data[i..j][..k - i] == data[..k]
  {
    assert data[i..j][..k - i] == data[i..k];
  }

  /** Any schedule of calls of deflate over the data, from the start or after a full flush that has been completed: at the
      end of the stream the bytes that have come since are by themselves a coding of the data taken since. */
  method Compressed(d: D.Deflater, data: seq<byte>, plan: seq<(nat, nat, Flush)>) returns (out: seq<byte>, pos: nat, ret: D.Ret)
    requires d.Valid() && d.f.m.input == [] && d.log.before == ByteBits(d.log.delivered)
    modifies d, d.LzSet(), d.CodeSet()
    ensures pos <= |data| && (ret == D.STREAM_END ==> Coded(ByteBits(out), true, data[..pos], d.f.m.wsize))
  {
    hide D.Deflater.Valid, D.Deflater.LzSet, D.Deflater.CodeSet, D.Deflater.Delivered, D.Grown, Coded, ByteBits, Consumed;
    out, pos, ret := [], 0, D.OK;
    d.Mind();
    ghost var first, earlier := d.log.delivered, d.earlier;
    assert data[..0] == [] && first + [] == first && earlier + [] == earlier;
    for i := 0 to |plan|
      invariant d.Valid() && pos <= |data| && d.from == ByteBits(first) && d.fromText == earlier && d.Text() == earlier + data[..pos] && d.log.delivered == first + out
      invariant ret == D.STREAM_END ==> Coded(ByteBits(out), true, data[..pos], d.f.m.wsize)
    {
      var avail := Z.Offered(plan[i].0, |data|, pos);
      var rest, bytes;
      ret, rest, bytes := d.Deflate(data[pos..pos + avail], plan[i].1, plan[i].2);
      TakenSince(earlier, data, pos, avail, rest, d.Text());
      assert first + out + bytes == first + (out + bytes);
      pos, out := pos + avail - |rest|, out + bytes;
      if ret == D.STREAM_END {
        d.HasGrown();
        ResumedText(d, first, earlier, out, data[..pos]);
      }
    }
  }

  lemma {:induction false} TakenSince(earlier: seq<byte>, data: seq<byte>, pos: nat, avail: nat, rest: seq<byte>, text: seq<byte>)
    requires pos + avail <= |data| && Consumed(earlier + data[..pos], data[pos..pos + avail], rest, text)
    ensures |rest| <= avail && text == earlier + data[..pos + avail - |rest|]
  {
    hide Consumed;
    ConsumedFacts(earlier + data[..pos], data[pos..pos + avail], rest, text);
    Joins(data, pos, pos + avail, pos + avail - |rest|);
  }

  lemma {:induction false} ResumedText(d: D.Deflater, first: seq<byte>, earlier: seq<byte>, out: seq<byte>, text: seq<byte>)
    requires d.Delivered(true) && d.log.delivered == first + out && d.Text() == earlier + text
    requires D.Grown(ByteBits(first), earlier, d.log.before, d.earlier, d.f.m.wsize)
    ensures Coded(ByteBits(out), true, text, d.f.m.wsize)
  {
    hide Coded, ByteBits;
    Tail(first, out);
    var k, all := |ByteBits(first)|, ByteBits(first + out);
    var x, y := d.log.before[k..], all[|d.log.before|..];
    CodedJoin(x, y, true, d.earlier[|earlier|..], d.f.m.input, d.f.m.wsize);
    assert x + y == all[k..];
    assert d.earlier[|earlier|..] + d.f.m.input == text by { Same(earlier, d.earlier[|earlier|..] + d.f.m.input, text); }
  }

  lemma {:induction false} Same(a: seq<byte>, x: seq<byte>, y: seq<byte>)
    requires a + x == a + y
    ensures x == y
  {
    assert x == (a + x)[|a|..] && y == (a + y)[|a|..];
  }

  lemma {:induction false} Tail(first: seq<byte>, out: seq<byte>)
    ensures ByteBits(first + out)[|ByteBits(first)|..] == ByteBits(out)
  {
    hide ByteBits;
    ByteBitsConcat(first, out);
  }

  /** After a full flush decoding can start anew: what follows decodes without what went before. */
  method RestartHere(wsize: nat, hashBits: R.bits, litBufsize: nat, strategy: Strategy, config: Config, fixed: bool,
      first: seq<byte>, room: nat, data: seq<byte>, plan: seq<(nat, nat, Flush)>, windowBits: nat, sizes: seq<(nat, nat)>)
      returns (flushed: bool, deflated: D.Ret, pos: nat, packed: seq<byte>, inflated: Z.Ret, out: seq<byte>)
    requires 512 <= wsize <= 32768 && 128 <= litBufsize <= 32768 && config.chain >= 4 && Wide(windowBits, wsize)
    ensures pos <= |data|
    ensures flushed && deflated == D.STREAM_END ==> out <= data[..pos] && inflated != Z.DATA_ERROR && (|sizes| > 0 && inflated == Z.STREAM_END ==> out == data[..pos])
    ensures flushed && deflated == D.STREAM_END && |sizes| > 0 && sizes[|sizes| - 1].0 >= |packed| && sizes[|sizes| - 1].1 > pos ==>
      inflated == Z.STREAM_END && out == data[..pos]
  {
    hide Coded, ByteBits, Call, Settled, Z.WindowFits, D.Deflater.Valid, D.Deflater.LzSet, D.Deflater.CodeSet, Consumed, D.Deflater.Delivered;
    var d := D.Init(wsize, hashBits, litBufsize, strategy, config, fixed);
    var ret, rest, bytes := d.Deflate(first, room, FullFlush);
    flushed, deflated, pos, packed, inflated, out := ret == D.OK && |bytes| < room, ret, 0, [], Z.OK, [];
    if flushed {
      packed, pos, deflated := Compressed(d, data, plan);
      ghost var streams, calls;
      out, inflated, streams, calls := Z.Decompress(windowBits, packed, sizes);
      if deflated == D.STREAM_END {
        CodedFits(packed, true, data[..pos], wsize, windowBits);
        SessionReads(packed, true, data[..pos], wsize, streams, calls);
        if |sizes| > 0 && sizes[|sizes| - 1].0 >= |packed| && sizes[|sizes| - 1].1 > pos {
          assert calls[|sizes| - 1].0 == Z.Offered(sizes[|sizes| - 1].0, |packed|, streams[|sizes| - 1].pos);
          EnoughSettles(packed, true, data[..pos], wsize, streams, calls);
        }
      }
    }
  }

  /** A single call with all input, Z_FINISH and as much space as the conservative value of deflateBound. */
  method SinglePass(wsize: nat, hashBits: R.bits, litBufsize: nat, strategy: Strategy, config: Config, fixed: bool, data: seq<byte>, room: nat)
      returns (ret: D.Ret, packed: seq<byte>)
    requires 512 <= wsize <= 32768 && 128 <= litBufsize <= 32768 && config.chain >= 4
    requires room >= D.DeflateBound(|data|)
    ensures ret == D.STREAM_END && |packed| < D.DeflateBound(|data|) && Coded(ByteBits(packed), true, data, wsize)
  {
    hide Coded, ByteBits, D.Deflater.Valid, D.Deflater.LzSet, D.Deflater.CodeSet, Consumed, D.DeflateBound;
    var d := D.Init(wsize, hashBits, litBufsize, strategy, config, fixed);
    assert D.DeflateBound(|data|) > 0 by { PositiveBound(|data|); }
    assert !d.finishing by { d.NotYet(); }
    var rest;
    ret, rest, packed := d.Deflate(data, room, Finish);
    ConsumedFacts([], data, rest, d.Text());
    d.WithinBound();
    assert |d.f.m.input| <= |data| && D.DeflateBound(|d.f.m.input|) <= D.DeflateBound(|data|) by { BoundGrows(|data| - |rest|, |data|); }
    assert data[..|data|] == data && [] + data == data && [] + packed == packed;
  }

  /** With fixed trees, the tight value of deflateBound is not enough for a text without matches in a few values only. */
  method FixedExceeds(wsize: nat, hashBits: R.bits, litBufsize: nat, strategy: Strategy, config: Config, data: seq<byte>) returns (ret: D.Ret, packed: seq<byte>)
    requires 512 <= wsize <= 32768 && 128 <= litBufsize <= 32768 && config.chain >= 4
    requires O.Bulky(data) && |data| < litBufsize - 1 && |data| < 2 * wsize - MIN_LOOKAHEAD
    ensures ret == D.STREAM_END && Coded(ByteBits(packed), true, data, wsize) && |packed| > D.TightBound(|data|) && 8 * |packed| >= 9 * |data| + 10
  {
    hide Coded, ByteBits, D.Deflater.Valid, D.Deflater.LzSet, D.Deflater.CodeSet, Consumed, D.DeflateBound, D.TightBound, O.Bulky;
    var d := D.Init(wsize, hashBits, litBufsize, strategy, config, true);
    assert D.DeflateBound(|data|) > 0 by { PositiveBound(|data|); }
    assert !d.finishing by { d.NotYet(); }
    var rest;
    ret, rest, packed := d.Deflate(data, D.DeflateBound(|data|), Finish);
    ConsumedFacts([], data, rest, d.Text());
    d.WithinBound();
    assert |d.f.m.input| <= |data| && D.DeflateBound(|d.f.m.input|) <= D.DeflateBound(|data|) by { BoundGrows(|data| - |rest|, |data|); }
    assert data[..|data|] == data && [] + data == data && [] + packed == packed;
    assert d.f.m.input == data by { assert [] + d.f.m.input == d.f.m.input; }
    d.Overruns();
  }

  /** Settings and input for which the tight value of deflateBound is proved: the default memory level or
      more, a free choice of the encoding, and either input that never slides the window, or blocks that are not
      too long for the window: as with the default settings. */
  predicate Tight(wsize: nat, litBufsize: nat, strategy: Strategy, fixed: bool, n: nat)
  {
    !fixed && litBufsize > DEFAULT_FULL &&
      (n < 2 * wsize - MIN_LOOKAHEAD || (strategy == Huff && litBufsize + MIN_LOOKAHEAD <= wsize) || (litBufsize <= 16384 && 7 * litBufsize + 43793 <= 5 * (wsize - MIN_LOOKAHEAD)))
  }

  /** A single call with as much space as the tight value: it always takes all input and delivers the whole
      stream, and says so unless the stream fills the space to the last byte. */
  method TightPass(wsize: nat, hashBits: R.bits, litBufsize: nat, strategy: Strategy, config: Config, fixed: bool, data: seq<byte>)
      returns (ret: D.Ret, packed: seq<byte>)
    requires 512 <= wsize <= 32768 && 128 <= litBufsize <= 32768 && config.chain >= 4 && Tight(wsize, litBufsize, strategy, fixed, |data|)
    ensures |packed| <= D.TightBound(|data|) && Coded(ByteBits(packed), true, data, wsize)
    ensures ret == D.STREAM_END || (ret == D.OK && |packed| == D.TightBound(|data|))
  {
    hide Coded, ByteBits, D.Deflater.Valid, D.Deflater.LzSet, D.Deflater.CodeSet, Consumed, D.TightBound;
    var d := D.Init(wsize, hashBits, litBufsize, strategy, config, fixed);
    assert D.TightBound(|data|) > 0 by { TightGrows(0, |data|); }
    assert !d.finishing by { d.NotYet(); }
    var rest;
    ret, rest, packed := d.Deflate(data, D.TightBound(|data|), Finish);
    ConsumedFacts([], data, rest, d.Text());
    d.WithinBound();
    TightGrows(|data| - |rest|, |data|);
    assert data[..|data|] == data && [] + data == data && [] + packed == packed;
    if ret == D.OK {
      assert d.log.finished && d.c.w.pending == 0;
      d.NotYet();
      d.EndText();
    }
  }

  /** With the default settings and a free choice of the encoding, it is for all input. */
  lemma {:induction false} TightByDefault(strategy: Strategy, n: nat)
    ensures Tight(32768, 16384, strategy, false, n)
  {
  }

  lemma {:induction false} TightGrows(m: nat, n: nat)
    requires m <= n
    ensures 0 < D.TightBound(m) <= D.TightBound(n)
  {
  }

  /** Enough space for a single call: the tight value of deflateBound, or else the conservative one. */
  function Space(wsize: nat, litBufsize: nat, strategy: Strategy, fixed: bool, n: nat): (b: nat)
  {
    if Tight(wsize, litBufsize, strategy, fixed, n) then D.TightBound(n) else D.DeflateBound(n)
  }

  /** What windowBits may be for inflate: at least what it was for deflate. */
  predicate Wide(windowBits: nat, wsize: nat)
  {
    8 <= windowBits <= 15 && wsize <= Pow2(windowBits)
  }

  /** One call of deflate and one call of inflate give back every input. */
  method OneShot(wsize: nat, hashBits: R.bits, litBufsize: nat, strategy: Strategy, config: Config, fixed: bool, data: seq<byte>, windowBits: nat)
      returns (packed: seq<byte>, out: seq<byte>)
    requires 512 <= wsize <= 32768 && 128 <= litBufsize <= 32768 && config.chain >= 4 && Wide(windowBits, wsize)
    ensures |packed| <= Space(wsize, litBufsize, strategy, fixed, |data|) && out == data
  {
    hide Coded, ByteBits, Call, Settled, Z.WindowFits, Tight, D.TightBound, D.DeflateBound;
    var ret;
    if Tight(wsize, litBufsize, strategy, fixed, |data|) {
      ret, packed := TightPass(wsize, hashBits, litBufsize, strategy, config, fixed, data);
    } else {
      ret, packed := SinglePass(wsize, hashBits, litBufsize, strategy, config, fixed, data, D.DeflateBound(|data|));
    }
    CodedFits(packed, true, data, wsize, windowBits);
    var inflated;
    ghost var streams, calls;
    out, inflated, streams, calls := Z.Decompress(windowBits, packed, [(|packed|, |data| + 1)]);
    assert calls[0].0 == Z.Offered(|packed|, |packed|, streams[0].pos);
    EnoughSettles(packed, true, data, wsize, streams, calls);
    SessionReads(packed, true, data, wsize, streams, calls);
  }

  lemma {:induction false} PositiveBound(n: nat)
    ensures D.DeflateBound(n) > 0
  {
  }

  lemma {:induction false} BoundGrows(m: nat, n: nat)
    requires m <= n
    ensures D.DeflateBound(m) <= D.DeflateBound(n)
  {
  }

  /** inflate(deflate(x)) == x. */
  method ThereAndBack(wsize: nat, hashBits: R.bits, litBufsize: nat, strategy: Strategy, config: Config, fixed: bool,
      data: seq<byte>, plan: seq<(nat, nat, Flush)>, windowBits: nat, sizes: seq<(nat, nat)>)
      returns (deflated: D.Ret, pos: nat, packed: seq<byte>, inflated: Z.Ret, out: seq<byte>)
    requires 512 <= wsize <= 32768 && 128 <= litBufsize <= 32768 && config.chain >= 4 && Wide(windowBits, wsize)
    ensures pos <= |data|
    ensures deflated == D.STREAM_END ==> out <= data[..pos] && inflated != Z.DATA_ERROR && (|sizes| > 0 && inflated == Z.STREAM_END ==> out == data[..pos])
    ensures deflated == D.STREAM_END && |sizes| > 0 && sizes[|sizes| - 1].0 >= |packed| && sizes[|sizes| - 1].1 > pos ==>
      inflated == Z.STREAM_END && out == data[..pos]
  {
    hide Coded, ByteBits, Call, Settled, Z.WindowFits, D.Deflater.Valid, D.Deflater.LzSet, D.Deflater.CodeSet;
    var d := D.Init(wsize, hashBits, litBufsize, strategy, config, fixed);
    assert d.f.m.input == [] && ByteBits([]) == [] by { assert |d.Text()| == 0; }
    packed, pos, deflated := Compressed(d, data, plan);
    ghost var streams, calls;
    out, inflated, streams, calls := Z.Decompress(windowBits, packed, sizes);
    if deflated == D.STREAM_END {
      CodedFits(packed, true, data[..pos], wsize, windowBits);
      SessionReads(packed, true, data[..pos], wsize, streams, calls);
      if |sizes| > 0 && sizes[|sizes| - 1].0 >= |packed| && sizes[|sizes| - 1].1 > pos {
        assert calls[|sizes| - 1].0 == Z.Offered(sizes[|sizes| - 1].0, |packed|, streams[|sizes| - 1].pos);
        EnoughSettles(packed, true, data[..pos], wsize, streams, calls);
      }
    }
  }

  /** Any schedule of calls of deflate at level 0. */
  method Stored(d: S.Storer, data: seq<byte>, plan: seq<(nat, nat, Flush)>) returns (out: seq<byte>, pos: nat, ret: D.Ret)
    requires d.Valid() && d.g == S.Account([], [], false, 0, true)
    modifies d, d.m, d.m.window, d.w
    ensures pos <= |data| && (ret == D.STREAM_END ==> Coded(ByteBits(out), true, data[..pos], 0))
  {
    hide S.Storer.Valid, Coded, ByteBits, Consumed;
    out, pos, ret := [], 0, D.OK;
    assert data[..0] == [];
    for i := 0 to |plan|
      invariant d.Valid() && pos <= |data| && d.g.input == data[..pos] && d.g.delivered == out
      invariant ret == D.STREAM_END ==> Coded(ByteBits(out), true, data[..pos], 0)
    {
      var avail := Z.Offered(plan[i].0, |data|, pos);
      var next := data[pos..pos + avail];
      var rest, bytes;
      ret, rest, bytes := d.Deflate(next, plan[i].1, plan[i].2);
      ConsumedFacts(data[..pos], next, rest, d.g.input);
      Joins(data, pos, pos + avail, pos + avail - |rest|);
      pos := pos + avail - |rest|;
      out := out + bytes;
    }
  }

  /** inflate(deflate(x)) == x at level 0. */
  method StoredThereAndBack(wsize: nat, litBufsize: nat, data: seq<byte>, plan: seq<(nat, nat, Flush)>, windowBits: nat, sizes: seq<(nat, nat)>)
      returns (deflated: D.Ret, pos: nat, packed: seq<byte>, inflated: Z.Ret, out: seq<byte>)
    requires 512 <= wsize <= 32768 && 128 <= litBufsize <= 32768 && 8 <= windowBits <= 15
    ensures pos <= |data|
    ensures deflated == D.STREAM_END ==> out <= data[..pos] && inflated != Z.DATA_ERROR && (|sizes| > 0 && inflated == Z.STREAM_END ==> out == data[..pos])
    ensures deflated == D.STREAM_END && |sizes| > 0 && sizes[|sizes| - 1].0 >= |packed| && sizes[|sizes| - 1].1 > pos ==>
      inflated == Z.STREAM_END && out == data[..pos]
  {
    hide Coded, ByteBits, Call, Settled, Z.WindowFits, S.Storer.Valid;
    var d := S.InitStored(wsize, litBufsize);
    packed, pos, deflated := Stored(d, data, plan);
    ghost var streams, calls;
    out, inflated, streams, calls := Z.Decompress(windowBits, packed, sizes);
    if deflated == D.STREAM_END {
      CodedFits(packed, true, data[..pos], 0, windowBits);
      SessionReads(packed, true, data[..pos], 0, streams, calls);
      if |sizes| > 0 && sizes[|sizes| - 1].0 >= |packed| && sizes[|sizes| - 1].1 > pos {
        assert calls[|sizes| - 1].0 == Z.Offered(sizes[|sizes| - 1].0, |packed|, streams[|sizes| - 1].pos);
        EnoughSettles(packed, true, data[..pos], 0, streams, calls);
      }
    }
  }

  /** deflateBound at level 0: the tight value for the default settings, and wherever blocks are as long. */
  function StoredBound(wsize: nat, litBufsize: nat, n: nat): (b: nat)
  {
    if S.Roomy(wsize, 4 * litBufsize) then D.TightBound(n) else D.DeflateBound(n)
  }

  /** A single call at level 0 with all input, Z_FINISH and as much space as deflateBound says. */
  method StoredPass(wsize: nat, litBufsize: nat, data: seq<byte>) returns (packed: seq<byte>)
    requires 512 <= wsize <= 32768 && 128 <= litBufsize <= 32768
    ensures |packed| <= StoredBound(wsize, litBufsize, |data|) && Coded(ByteBits(packed), true, data, 0)
  {
    hide Coded, ByteBits, S.Storer.Valid, Consumed, S.RoomToFinish, StoredBound;
    var d := S.InitStored(wsize, litBufsize);
    FinishFits(wsize, litBufsize, |data|);
    var ret, rest;
    ret, rest, packed := d.Deflate(data, StoredBound(wsize, litBufsize, |data|), Finish);
    ConsumedFacts([], data, rest, d.g.input);
    assert data[..|data|] == data && [] + data == data && [] + packed == packed;
  }

  /** The same at level 0, in a single call each. */
  method StoredOneShot(wsize: nat, litBufsize: nat, data: seq<byte>, windowBits: nat) returns (packed: seq<byte>, out: seq<byte>)
    requires 512 <= wsize <= 32768 && 128 <= litBufsize <= 32768 && 8 <= windowBits <= 15
    ensures |packed| <= StoredBound(wsize, litBufsize, |data|) && out == data
  {
    hide Coded, ByteBits, Call, Settled, Z.WindowFits, StoredBound;
    packed := StoredPass(wsize, litBufsize, data);
    CodedFits(packed, true, data, 0, windowBits);
    var inflated;
    ghost var streams, calls;
    out, inflated, streams, calls := Z.Decompress(windowBits, packed, [(|packed|, |data| + 1)]);
    assert calls[0].0 == Z.Offered(|packed|, |packed|, streams[0].pos);
    EnoughSettles(packed, true, data, 0, streams, calls);
    SessionReads(packed, true, data, 0, streams, calls);
  }

  lemma {:induction false} FinishFits(wsize: nat, litBufsize: nat, n: nat)
    ensures 0 < S.RoomToFinish(n, S.HeaderBytes(0), S.Roomy(wsize, 4 * litBufsize)) <= StoredBound(wsize, litBufsize, n)
  {
  }
}
