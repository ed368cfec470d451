/** Streams of level 0: deflate_stored copies the input into stored blocks, directly from the caller's
    input to the caller's output where it can, and through the window and the pending buffer where
    it cannot. */
module StoredStream {
  import opened Bits
  import opened Lz77
  import opened InflateSpec
  import opened Distances
  import opened BlockCodec
  import opened DeflateBlocks
  import opened DeflateStream
  import L = Lossless
  import T = TreeCoder
  import B = BitWriter
  import C = Compress
  import S = StaticTables
  import StaticTrees

  const MAX_STORED: nat := 65535

  function Min(a: nat, b: nat): (m: nat) { if a > b then b else a }

  // ----- blocks -----

  /** One more stored block. */
  lemma {:induction false} CodedStored(sent: BitString, last: bool, pad: nat, buf: seq<byte>, text: seq<byte>)
    requires Coded(sent, false, text, 0) && |buf| < 65536 && pad < 8 && (|sent| + 3 + pad) % 8 == 0
    ensures Coded(sent + StoredBits(last, pad, buf), last, text + buf, 0)
  {
    hide Delivers, StoredBits, Calm;
    var b := StoredBits(last, pad, buf);
    StoredDelivers(last, pad, buf, |sent|, text, 0);
    L.DeliversTrans(sent, b, last, [], text, text + buf, 0);
    if last {
      StoredSize(last, pad, buf);
      L.DeliversAll(sent + b, 0, text + buf, 0);
      assert sent + b + B.Zeros(0) == sent + b;
    }
  }

  /** The bits of a stored block up to its bytes. */
  ghost function StoredHead(last: bool, pad: nat, len: nat): (b: BitString)
    requires len < 65536
  {
    TypeOf(0, last) + B.Zeros(pad) + ToBits(len, 16) + ToBits(65535 - len, 16)
  }

  lemma {:induction false} HeadAndBytes(last: bool, pad: nat, buf: seq<byte>)
    requires |buf| < 65536
    ensures StoredHead(last, pad, |buf|) + ByteBits(buf) == StoredBits(last, pad, buf)
    ensures |buf| == 0 ==> StoredHead(last, pad, 0) == StoredBits(last, pad, buf)
  {
    hide ToBits, TypeOf, B.Zeros, ByteBits;
    if |buf| == 0 {
      assert buf == [];
      B.NoBytes();
    }
  }

  /** Cutting whole bytes off the end. */
  lemma {:induction false} CutBytes(p: seq<byte>, q: seq<byte>, x: BitString, y: BitString)
    requires ByteBits(p + q) == x + y && |y| == 8 * |q|
    ensures ByteBits(p) == x
  {
    hide ByteBits;
    ByteBitsConcat(p, q);
    assert ByteBits(p) == (x + y)[..|x|];
  }

  /** The four length bytes. */
  function LengthBytes(len: nat): (b: seq<byte>)
    requires len < 65536
    ensures |b| == 4
  {
    [len % 256, len / 256, 255 - len % 256, 255 - len / 256]
  }

  lemma {:induction false} LengthBits(len: nat)
    requires len < 65536
    ensures ByteBits(LengthBytes(len)) == ToBits(len, 16) + ToBits(65535 - len, 16)
  {
    hide ByteBits, ToBits;
    var a, b := [len % 256, len / 256], [255 - len % 256, 255 - len / 256];
    assert LengthBytes(len) == a + b;
    ByteBitsConcat(a, b);
    ShortBits(len);
    ShortBits(65535 - len);
    assert (65535 - len) % 256 == 255 - len % 256 && (65535 - len) / 256 == 255 - len / 256;
  }

  lemma {:induction false} ShortBits(v: nat)
    requires v < 65536
    ensures ByteBits([v % 256, v / 256]) == ToBits(v, 16)
  {
    hide ByteBits, ToBits, Low, Shr;
    B.BytesOf(v);
    LowByte(v);
  }

  lemma {:induction false} LowByte(v: nat)
    ensures Low(v, 8) == v % 256 && Shr(v, 8) == v / 256
  {
    hide Low, Shr, Shl, Pow2;
    B.WordPowers();
    Split(v, 8);
    assert Shl(Shr(v, 8), 8) == 256 * Shr(v, 8) by { ShlEight(Shr(v, 8)); }
  }

  lemma {:induction false} ShlEight(v: nat)
    ensures Shl(v, 8) == 256 * v
  {
    assert Shl(v, 2) == 4 * v by { assert Shl(v, 1) == 2 * v; }
    assert Shl(v, 4) == 16 * v by { assert Shl(v, 3) == 8 * v; }
    assert Shl(v, 6) == 64 * v by { assert Shl(v, 5) == 32 * v; }
    assert Shl(v, 7) == 128 * v;
  }

  lemma {:induction false} HeadSplit(before: BitString, last: bool, pad: nat, len: nat)
    requires len < 65536
    ensures before + StoredHead(last, pad, len) == before + TypeOf(0, last) + B.Zeros(pad) + (ToBits(len, 16) + ToBits(65535 - len, 16))
  {
    hide ToBits, B.Zeros, TypeOf;
    var h, z, a, c := TypeOf(0, last), B.Zeros(pad), ToBits(len, 16), ToBits(65535 - len, 16);
    assert before + (h + z + a + c) == before + h + z + (a + c);
  }

  /** A dummy stored block in pending, with its lengths replaced by len. */
  method StoredHeader(w: B.BitWriter, len: nat, last: bool) returns (ghost pad: nat)
    requires w.Valid() && len < 65536 && w.out == 0 && w.pending + (w.valid + 42) / 8 <= w.limit
    modifies w`store, w`pending, w`buf, w`valid
    ensures w.Valid() && w.valid == 0 && pad < 8 && (|old(w.Bits())| + 3 + pad) % 8 == 0
    ensures w.Bits() == ByteBits(w.Waiting()) == old(w.Bits()) + StoredHead(last, pad, len)
  {
    hide ByteBits, ToBits, B.Zeros, StoredBits, TypeOf, B.BitWriter.Waiting, B.BitWriter.Bits, B.BitWriter.Valid;
    ghost var before := w.Bits();
    pad := T.StoredBlock(w, [], last);
    w.Aligned();
    ghost var was := w.Waiting();
    HeaderPatch(before, last, pad, len, was);
    w.Patch(LengthBytes(len));
    w.Aligned();
  }

  /** Other lengths in the last four bytes. */
  lemma {:induction false} HeaderPatch(before: BitString, last: bool, pad: nat, len: nat, was: seq<byte>)
    requires len < 65536 && ByteBits(was) == before + StoredBits(last, pad, [])
    ensures |was| >= 4 && |LengthBytes(len)| == 4 && ByteBits(was[..|was| - 4] + LengthBytes(len)) == before + StoredHead(last, pad, len)
  {
    hide ByteBits, ToBits, B.Zeros, StoredBits, TypeOf;
    HeadAndBytes(last, pad, []);
    var head, n := before + TypeOf(0, last) + B.Zeros(pad), |was|;
    assert before + (StoredHead(last, pad, 0) + ByteBits([])) == before + StoredHead(last, pad, 0) by { B.NoBytes(); }
    HeadSplit(before, last, pad, 0);
    assert was == was[..n - 4] + was[n - 4..];
    CutBytes(was[..n - 4], was[n - 4..], head, ToBits(0, 16) + ToBits(65535, 16));
    ByteBitsConcat(was[..n - 4], LengthBytes(len));
    LengthBits(len);
    HeadSplit(before, last, pad, len);
  }

  // ----- the window -----

  /** The window holds the most recent input. */
  ghost predicate Recent(win: seq<byte>, strstart: nat, input: seq<byte>)
  {
    strstart <= |win| && strstart <= |input| && win[..strstart] == input[|input| - strstart..]
  }

  lemma {:induction false} RecentText(win: seq<byte>, strstart: nat, input: seq<byte>, i: nat, j: nat)
    requires Recent(win, strstart, input) && i <= j <= strstart
    ensures win[i..j] == input[|input| - strstart + i..|input| - strstart + j]
  {
    assert win[i..j] == win[..strstart][i..j];
  }

  class Store {
    const wsize: nat
    const window: array<byte>
    var strstart: nat
    var blockStart: nat
    var insert: nat

    ghost predicate Shape()
      reads this
    {
      && 512 <= wsize <= 32768 && window.Length == 2 * wsize
      && blockStart <= strstart <= 2 * wsize && insert <= wsize
    }

    /** Bytes of the window not yet in a block. */
    function Left(): (n: nat)
      requires blockStart <= strstart
      reads this
    {
      strstart - blockStart
    }

    constructor (wsize': nat)
      requires 512 <= wsize' <= 32768
      ensures Shape() && strstart == blockStart == 0 && wsize == wsize' && fresh(window)
    {
      wsize := wsize';
      window := new byte[2 * wsize'](_ => 0);
      strstart, blockStart, insert := 0, 0, 0;
    }

    method Put(at: nat, bytes: seq<byte>)
      requires at + |bytes| <= window.Length
      modifies window
      ensures window[..at] == old(window[..at]) && window[at..at + |bytes|] == bytes
    {
      for i := 0 to |bytes|
        invariant window[..at] == old(window[..at]) && window[at..at + i] == bytes[..i]
      {
        window[at + i] := bytes[i];
        assert window[at..at + i + 1] == window[at..at + i] + [bytes[i]];
      }
    }

    /** Slide the window down; strstart has been lowered. */
    method MoveDown(n: nat)
      requires n <= wsize && window.Length == 2 * wsize
      modifies window
      ensures window[..n] == old(window[wsize..wsize + n])
    {
      for i := 0 to n
        invariant window[..i] == old(window[wsize..wsize + i])
        invariant forall k :: wsize <= k < window.Length ==> window[k] == old(window[k])
      {
        window[i] := window[wsize + i];
        assert window[..i + 1] == window[..i] + [window[i]];
        assert old(window[wsize..wsize + i + 1]) == old(window[wsize..wsize + i]) + [old(window[wsize + i])];
      }
    }

    /** Slides by wsize. */
    method Slide(ghost input: seq<byte>)
      requires Shape() && strstart >= wsize && Recent(window[..], strstart, input)
      modifies this`strstart, this`insert, window
      ensures window.Length == 2 * wsize && strstart == old(strstart) - wsize && insert <= wsize && Recent(window[..], strstart, input)
    {
      RecentText(window[..], strstart, input, wsize, strstart);
      assert window[..][wsize..strstart] == window[wsize..strstart];
      strstart := strstart - wsize;
      MoveDown(strstart);
      assert window[..][..strstart] == window[..strstart];
      if insert > strstart {
        insert := strstart;
      }
    }

    /** Appends input to the window. */
    method Append(bytes: seq<byte>, ghost input: seq<byte>)
      requires window.Length == 2 * wsize && insert <= wsize && strstart + |bytes| <= 2 * wsize && Recent(window[..], strstart, input)
      modifies this`strstart, this`insert, window
      ensures strstart == old(strstart) + |bytes| && insert <= wsize && Recent(window[..], strstart, input + bytes)
    {
      assert window[..][..strstart] == window[..strstart];
      Put(strstart, bytes);
      ghost var was := strstart;
      strstart := strstart + |bytes|;
      insert := insert + Min(|bytes|, wsize - insert);
      assert window[..][..strstart] == window[..was] + window[was..strstart];
    }

    /** Supplants the history with the last wsize bytes. */
    method Supplant(bytes: seq<byte>, ghost input: seq<byte>)
      requires window.Length == 2 * wsize && |bytes| >= wsize
      modifies this`strstart, this`insert, window
      ensures strstart == insert == wsize && Recent(window[..], strstart, input + bytes)
    {
      Put(0, bytes[|bytes| - wsize..]);
      strstart := wsize;
      insert := strstart;
      assert window[..][..strstart] == window[0..0 + wsize];
    }

    /** The window after bytes have been copied past it. */
    method Follow(bytes: seq<byte>, ghost input: seq<byte>)
      requires Shape() && Recent(window[..], strstart, input) && (bytes != [] ==> blockStart == strstart)
      modifies this, window
      ensures Shape() && Recent(window[..], strstart, input + bytes) && Left() == old(Left())
    {
      if bytes == [] {
        assert input + bytes == input;
        return;
      }
      if |bytes| >= wsize {
        Supplant(bytes, input);
      } else {
        if 2 * wsize - strstart <= |bytes| {
          Slide(input);
        }
        Append(bytes, input);
      }
      blockStart := strstart;
    }

    /** The rest of the input goes into the window, as far as there is room. */
    method FillRest(next: seq<byte>, ghost input: seq<byte>) returns (n: nat)
      requires Shape() && Recent(window[..], strstart, input)
      modifies this, window
      ensures Shape() && n <= |next| && Recent(window[..], strstart, input + next[..n]) && Left() == old(Left()) + n
      ensures n < |next| ==> Left() >= wsize
    {
      var have := 2 * wsize - strstart;
      if |next| > have && blockStart >= wsize {
        blockStart := blockStart - wsize;
        Slide(input);
        have := have + wsize;
      }
      n := Min(have, |next|);
      Append(next[..n], input);
    }
  }

  // ----- deflate_stored -----

  /** Everything written codes the input but for the bytes still waiting in the window. */
  ghost predicate Kept(sent: BitString, finished: bool, input: seq<byte>, left: nat)
  {
    left <= |input| && Coded(sent, finished, input[..|input| - left], 0) && (finished ==> left == 0)
  }

  /** More input that waits. */
  lemma {:induction false} KeptMore(sent: BitString, input: seq<byte>, left: nat, more: seq<byte>)
    requires Kept(sent, false, input, left)
    ensures Kept(sent, false, input + more, left + |more|)
  {
    hide Coded;
    assert (input + more)[..|input + more| - (left + |more|)] == input[..|input| - left];
  }

  /** A block of the next n bytes that wait. */
  lemma {:induction false} KeptBlock(sent: BitString, last: bool, pad: nat, input: seq<byte>, left: nat, buf: seq<byte>)
    requires Kept(sent, false, input, left) && |buf| <= left && |buf| < 65536 && pad < 8 && (|sent| + 3 + pad) % 8 == 0
    requires buf == input[|input| - left..|input| - left + |buf|] && (last ==> |buf| == left)
    ensures Kept(sent + StoredBits(last, pad, buf), last, input, left - |buf|)
  {
    hide Coded, StoredBits;
    CodedStored(sent, last, pad, buf, input[..|input| - left]);
    assert input[..|input| - left] + buf == input[..|input| - left + |buf|];
  }

  /** Header bytes of a stored block. */
  function HeaderBytes(valid: nat): (n: nat) { (valid + 42) / 8 }

  lemma {:induction false} HeaderRange(valid: nat)
    requires valid < 8
    ensures 5 <= HeaderBytes(valid) <= 6
  {
  }

  lemma {:induction false} HeaderLength(valid: nat, pad: nat, n: nat)
    requires 8 * n == valid + 35 + pad && pad < 8
    ensures n == HeaderBytes(valid)
  {
  }

  lemma {:induction false} HeadSize(last: bool, pad: nat, len: nat)
    requires len < 65536
    ensures |StoredHead(last, pad, len)| == 35 + pad
  {
    hide ToBits, B.Zeros;
  }

  /** What is written when header and bytes have been handed out. */
  lemma {:induction false} HandedOut(delivered: seq<byte>, before: BitString, head: seq<byte>, buf: seq<byte>, last: bool, pad: nat)
    requires |buf| < 65536 && ByteBits(head) == before + StoredHead(last, pad, |buf|)
    ensures ByteBits(delivered + (head + buf)) == ByteBits(delivered) + before + StoredBits(last, pad, buf)
  {
    hide ByteBits, StoredHead, StoredBits;
    ByteBitsConcat(delivered, head + buf);
    ByteBitsConcat(head, buf);
    HeadAndBytes(last, pad, buf);
    var d, h, b := ByteBits(delivered), StoredHead(last, pad, |buf|), ByteBits(buf);
    assert d + ((before + h) + b) == d + before + (h + b);
  }

  lemma {:induction false} NothingHeld(w: B.BitWriter)
    requires w.Valid() && w.pending == 0 && w.valid == 0
    ensures w.Bits() == []
  {
  }

  /** The bytes of a block: some of the window, and then, if all of it was taken, some of the input. */
  lemma {:induction false} BlockBytes(win: seq<byte>, strstart: nat, bs: nat, left: nat, input: seq<byte>, next: seq<byte>, taken: nat, taken': nat)
    requires Recent(win, strstart, input) && bs + left <= strstart && taken <= taken' <= |next|
    requires (taken > 0 ==> bs == strstart) && (taken' > taken ==> bs + left == strstart)
    ensures var all, wait := input + next[..taken'], strstart - bs + (taken' - taken);
      wait <= |all| && win[bs..bs + left] + next[taken..taken'] == all[|all| - wait..|all| - wait + left + (taken' - taken)]
  {
    var all, wait := input + next[..taken'], strstart - bs + (taken' - taken);
    RecentText(win, strstart, input, bs, bs + left);
    if taken > 0 {
      assert all[|all| - wait..] == next[taken..taken'];
    } else {
      assert |all| - wait == |input| - (strstart - bs);
      if taken' > 0 {
        assert all[|input| - left..] == input[|input| - left..] + next[..taken'];
      }
    }
  }

  /** One block straight to the output: header, bytes from the window, bytes from the input. */
  method DirectBlock(m: Store, w: B.BitWriter, next: seq<byte>, taken: nat, len: nat, last: bool, ghost input: seq<byte>, ghost delivered: seq<byte>)
      returns (taken': nat, bytes: seq<byte>)
    requires m.Shape() && w.Valid() && w.valid < 8 && w.pending == 0 && w.limit == w.size >= 512 && taken <= |next|
    requires len < 65536 && len <= m.Left() + (|next| - taken) && (last ==> len == m.Left() + (|next| - taken))
    requires Recent(m.window[..], m.strstart, input) && (taken > 0 ==> m.Left() == 0)
    requires Kept(ByteBits(delivered) + w.Bits(), false, input + next[..taken], m.Left())
    modifies m`blockStart, w`store, w`pending, w`out, w`buf, w`valid
    ensures m.Shape() && w.Valid() && w.valid == 0 && w.pending == 0 && taken <= taken' <= |next|
    ensures m.Left() + len == old(m.Left()) + (taken' - taken)
    ensures |bytes| == HeaderBytes(old(w.valid)) + len && (taken' > 0 ==> m.Left() == 0) && (last ==> taken' == |next|)
    ensures Kept(ByteBits(delivered + bytes) + w.Bits(), last, input + next[..taken'], m.Left())
  {
    hide Coded, ByteBits, StoredHead, Kept, StoredBits;
    ghost var before, left0, bs := w.Bits(), m.Left(), m.blockStart;
    var head;
    ghost var pad;
    head, pad := HeaderOut(w, len, last);
    var left := Min(m.Left(), len);
    var fromWindow := m.window[m.blockStart..m.blockStart + left];
    m.blockStart := m.blockStart + left;
    taken' := taken + (len - left);
    var buf := fromWindow + next[taken..taken'];
    bytes := head + buf;
    NothingHeld(w);
    assert m.window[..][bs..bs + left] == fromWindow;
    KeptDirect(delivered, before, head, last, pad, m.window[..], m.strstart, bs, left, input, next, taken, taken', buf);
    assert ByteBits(delivered + bytes) + w.Bits() == ByteBits(delivered + (head + buf));
  }

  /** Header bytes, handed out at once. */
  method HeaderOut(w: B.BitWriter, len: nat, last: bool) returns (head: seq<byte>, ghost pad: nat)
    requires w.Valid() && w.valid < 8 && w.pending == 0 && w.limit == w.size >= 512 && len < 65536
    modifies w`store, w`pending, w`out, w`buf, w`valid
    ensures w.Valid() && w.valid == 0 && w.pending == 0 && |head| == HeaderBytes(old(w.valid))
    ensures pad < 8 && (|old(w.Bits())| + 3 + pad) % 8 == 0 && ByteBits(head) == old(w.Bits()) + StoredHead(last, pad, len)
  {
    hide ByteBits, StoredHead;
    ghost var before, v0 := w.Bits(), w.valid;
    w.Lengths();
    pad := StoredHeader(w, len, last);
    HeadSize(last, pad, len);
    w.Lengths();
    assert |before| == v0;
    HeaderLength(v0, pad, w.pending);
    head := w.Take(w.pending);
  }

  /** A block handed out directly keeps the account. */
  lemma {:induction false} KeptDirect(delivered: seq<byte>, before: BitString, head: seq<byte>, last: bool, pad: nat, win: seq<byte>, strstart: nat, bs: nat, left: nat,
                                      input: seq<byte>, next: seq<byte>, taken: nat, taken': nat, buf: seq<byte>)
    requires Recent(win, strstart, input) && bs + left <= strstart && taken <= taken' <= |next|
    requires (taken > 0 ==> bs == strstart) && (taken' > taken ==> bs + left == strstart)
    requires buf == win[bs..bs + left] + next[taken..taken'] && |buf| < 65536 && (last ==> bs + left == strstart && taken' == |next|)
    requires pad < 8 && (|before| + 3 + pad) % 8 == 0 && ByteBits(head) == before + StoredHead(last, pad, |buf|)
    requires Kept(ByteBits(delivered) + before, false, input + next[..taken], strstart - bs)
    ensures Kept(ByteBits(delivered + (head + buf)), last, input + next[..taken'], strstart - bs - left)
  {
    hide Coded, ByteBits, StoredHead, Kept, StoredBits, Recent;
    var sent, more, all := ByteBits(delivered) + before, next[taken..taken'], input + next[..taken'];
    HandedOut(delivered, before, head, buf, last, pad);
    BlockBytes(win, strstart, bs, left, input, next, taken, taken');
    KeptMore(sent, input + next[..taken], strstart - bs, more);
    assert input + next[..taken] + more == all;
    KeptBlock(sent, last, pad, all, strstart - bs + |more|, buf);
  }

  /** Whether a direct block of len bytes is worth while, wait bytes being at hand. */
  predicate Worthy(len: nat, wait: nat, minBlock: nat, flush: Flush)
  {
    !(len < minBlock && ((len == 0 && flush != Finish) || flush == NoFlush || len != wait))
  }

  /** No direct block is possible or worth while. */
  ghost predicate Stopped(room: nat, header: nat, wait: nat, minBlock: nat, flush: Flush)
  {
    room < header || !Worthy(Min(Min(MAX_STORED, wait), room - header), wait, minBlock, flush)
  }

  /** The least length of a block that neither a flush nor the end asks for. */
  const LEAST_BLOCK: nat := 506

  /** With the default settings blocks are longer. */
  const DEFAULT_BLOCK: nat := 32768

  predicate Roomy(wsize: nat, pendingSize: nat) { wsize >= DEFAULT_BLOCK && pendingSize >= DEFAULT_BLOCK + 6 }

  /** k blocks of n bytes in all are as long as they must be. */
  ghost predicate LongBlocks(k: nat, n: int, big: bool) { LEAST_BLOCK * k <= n && (big ==> DEFAULT_BLOCK * k <= n) }

  /** What k blocks of n bytes have added to the output, the last of them perhaps the last of the stream. */
  ghost predicate Grown(v0: nat, bytes: nat, v: nat, n: nat, k: nat, last: bool, flush: Flush, big: bool)
  {
    && 8 * bytes + v <= v0 + 8 * n + 42 * k && bytes <= n + 6 * k && v <= v0
    && (last ==> k > 0) && (flush == NoFlush || flush == Finish ==> LongBlocks(if last then k - 1 else k, n, big))
  }

  lemma {:induction false} GrownNone(v0: nat, flush: Flush, big: bool)
    ensures Grown(v0, 0, v0, 0, 0, false, flush, big)
  {
  }

  lemma {:induction false} GrownBlock(v0: nat, bytes: nat, v: nat, n: nat, k: nat, flush: Flush, len: nat, wait: nat, minBlock: nat, big: bool)
    requires Grown(v0, bytes, v, n, k, false, flush, big) && v0 < 8 && Worthy(len, wait, minBlock, flush) && len <= wait
    requires minBlock >= LEAST_BLOCK && (big ==> minBlock >= DEFAULT_BLOCK)
    ensures Grown(v0, bytes + HeaderBytes(v) + len, 0, n + len, k + 1, flush == Finish && len == wait, flush, big)
  {
  }

  /** Direct blocks as long as they are worth while and there is space. */
  method CopyOut(m: Store, w: B.BitWriter, next: seq<byte>, flush: Flush, room: nat, ghost input: seq<byte>, ghost delivered: seq<byte>)
      returns (last: bool, taken: nat, bytes: seq<byte>, ghost k: nat)
    requires m.Shape() && w.Valid() && w.valid < 8 && w.pending == 0 && w.limit == w.size >= 512
    requires Recent(m.window[..], m.strstart, input) && Kept(ByteBits(delivered) + w.Bits(), false, input, m.Left())
    modifies m`blockStart, w`store, w`pending, w`out, w`buf, w`valid
    ensures m.Shape() && w.Valid() && w.valid < 8 && w.pending == 0 && taken <= |next| && |bytes| <= room
    ensures (taken > 0 ==> m.Left() == 0) && (last ==> taken == |next| && flush == Finish && w.valid == 0)
    ensures Kept(ByteBits(delivered + bytes) + w.Bits(), last, input + next[..taken], m.Left())
    ensures !last ==> Stopped(room - |bytes|, HeaderBytes(w.valid), m.Left() + (|next| - taken), Min(w.size - 5, m.wsize), flush)
    ensures m.Left() <= old(m.Left()) + taken && Grown(old(w.valid), |bytes|, w.valid, old(m.Left()) + taken - m.Left(), k, last, flush, Roomy(m.wsize, w.size))
  {
    hide Recent, Kept, ByteBits, Worthy, Grown, HeaderBytes, B.BitWriter.Valid;
    var minBlock := Min(w.size - 5, m.wsize);
    last, taken, bytes, k := false, 0, [], 0;
    ghost var v0, left0 := w.valid, m.Left();
    assert input + next[..0] == input && delivered + [] == delivered;
    ghost var big := Roomy(m.wsize, w.size);
    GrownNone(v0, flush, big);
    while true
      invariant m.Shape() && w.Valid() && w.valid < 8 && w.pending == 0 && 0 <= taken <= |next| && |bytes| <= room && !last
      invariant taken > 0 ==> m.Left() == 0
      invariant Kept(ByteBits(delivered + bytes) + w.Bits(), false, input + next[..taken], m.Left())
      invariant m.Left() <= left0 + taken && Grown(v0, |bytes|, w.valid, left0 + taken - m.Left(), k, false, flush, big)
      decreases room - |bytes|
    {
      HeaderRange(w.valid);
      var have := HeaderBytes(w.valid);
      if room - |bytes| < have {
        break;
      }
      have := room - |bytes| - have;
      var wait := m.Left() + (|next| - taken);
      var len := Min(Min(MAX_STORED, wait), have);
      if !Worthy(len, wait, minBlock, flush) {
        break;
      }
      last := flush == Finish && len == wait;
      var b;
      GrownBlock(v0, |bytes|, w.valid, left0 + taken - m.Left(), k, flush, len, wait, minBlock, big);
      k := k + 1;
      taken, b := DirectBlock(m, w, next, taken, len, last, input, delivered + bytes);
      assert delivered + bytes + b == delivered + (bytes + b);
      bytes := bytes + b;
      if last {
        break;
      }
    }
  }

  /** Whether the bytes that wait in the window go to the pending buffer, which can take have. */
  predicate GoesOut(left: nat, have: nat, wsize: nat, flush: Flush, more: bool)
  {
    left >= Min(have, wsize) || ((left > 0 || flush == Finish) && flush != NoFlush && !more && left <= have)
  }

  function PendingBytes(left: nat, wsize: nat, header: nat, pendingSize: nat, flush: Flush, more: bool): (n: nat)
    requires header <= pendingSize
  {
    var have := Min(pendingSize - header, MAX_STORED);
    if GoesOut(left, have, wsize, flush, more) then header + Min(left, have) else 0
  }

  /** A block of bytes that wait in the window, to the pending buffer. */
  method WindowBlock(m: Store, w: B.BitWriter, len: nat, last: bool, ghost input: seq<byte>, ghost delivered: seq<byte>)
    requires m.Shape() && w.Valid() && w.valid < 8 && w.pending == 0 && w.limit == w.size && HeaderBytes(w.valid) + len <= w.size
    requires len <= m.Left() && len < 65536 && (last ==> len == m.Left())
    requires Recent(m.window[..], m.strstart, input) && Kept(ByteBits(delivered) + w.Bits(), false, input, m.Left())
    modifies m`blockStart, w`store, w`pending, w`out, w`buf, w`valid
    ensures m.Shape() && w.Valid() && w.valid == 0 && w.pending == HeaderBytes(old(w.valid)) + len && m.Left() == old(m.Left()) - len
    ensures Kept(ByteBits(delivered) + w.Bits(), last, input, m.Left())
  {
    hide ByteBits, Kept, StoredBits, Recent, B.BitWriter.Bits, B.BitWriter.Waiting;
    var buf := m.window[m.blockStart..m.blockStart + len];
    ghost var before, left0, bs, v0 := w.Bits(), m.Left(), m.blockStart, w.valid;
    w.Lengths();
    ghost var pad := T.StoredBlock(w, buf, last);
    StoredSize(last, pad, buf);
    w.Lengths();
    HeaderLength(v0, pad, w.pending - len);
    m.blockStart := m.blockStart + len;
    WaitFits(ByteBits(delivered) + before, input, left0);
    RecentText(m.window[..], m.strstart, input, bs, bs + len);
    RecentFits(m.window[..], m.strstart, input);
    assert m.window[..][bs..bs + len] == buf;
    KeptBlock(ByteBits(delivered) + before, last, pad, input, left0, buf);
    assert ByteBits(delivered) + w.Bits() == ByteBits(delivered) + before + StoredBits(last, pad, buf);
  }

  lemma {:induction false} RecentFits(win: seq<byte>, strstart: nat, input: seq<byte>)
    requires Recent(win, strstart, input)
    ensures strstart <= |input|
  {
  }

  /** If there is enough for a worthy block, or a flush asks for it. */
  method PendingBlock(m: Store, w: B.BitWriter, flush: Flush, more: bool, ghost input: seq<byte>, ghost delivered: seq<byte>) returns (last: bool)
    requires m.Shape() && w.Valid() && w.valid < 8 && w.pending == 0 && w.limit == w.size >= 512
    requires Recent(m.window[..], m.strstart, input) && Kept(ByteBits(delivered) + w.Bits(), false, input, m.Left())
    modifies m`blockStart, w`store, w`pending, w`out, w`buf, w`valid
    ensures w.valid < 8 && w.pending == PendingBytes(old(m.Left()), m.wsize, HeaderBytes(old(w.valid)), w.size, flush, more)
    ensures m.Shape() && w.Valid() && w.valid == (if w.pending > 0 then 0 else old(w.valid))
    ensures last <==> w.pending > 0 && flush == Finish && !more && w.pending == HeaderBytes(old(w.valid)) + old(m.Left())
    ensures m.Left() + w.pending == old(m.Left()) + if w.pending > 0 then HeaderBytes(old(w.valid)) else 0
    ensures Kept(ByteBits(delivered) + w.Bits(), last, input, m.Left())
  {
    hide ByteBits, Kept, Recent, GoesOut;
    last := false;
    var have := Min(w.size - HeaderBytes(w.valid), MAX_STORED);
    if GoesOut(m.Left(), have, m.wsize, flush, more) {
      var len := Min(m.Left(), have);
      last := flush == Finish && !more && len == m.Left();
      WindowBlock(m, w, len, last, input, delivered);
    }
  }

  lemma {:induction false} WaitFits(sent: BitString, input: seq<byte>, left: nat)
    requires Kept(sent, false, input, left)
    ensures left <= |input|
  {
  }

  /** With input left over, or a flush that is not complete, all space has been used. */
  lemma {:induction false} AllSpaceUsed(room: nat, header: nat, wsize: nat, pendingSize: nat, left0: nat, avail: nat, n: nat, flush: Flush)
    requires 512 <= wsize <= 32768 && 512 <= pendingSize && 5 <= header <= 6 && n <= avail && (n < avail ==> left0 + n >= wsize)
    requires Stopped(room, header, left0 + avail, Min(pendingSize - 5, wsize), flush)
    requires flush == NoFlush || flush == Finish || left0 + avail > 0
    ensures (flush == NoFlush && n == avail) || PendingBytes(left0 + n, wsize, header, pendingSize, flush, n < avail) >= room
  {
  }

  /** The account of a stream: input taken, bytes delivered, whether the last block has been written;
      how many blocks there are before it, and whether all of those were worthy and no flush has
      left a mark. */
  datatype Account = Account(input: seq<byte>, delivered: seq<byte>, finished: bool, blocks: nat, plain: bool)

  /** What worthy blocks, and at last one more, can take. */
  ghost predicate Sized(bits: nat, left: nat, g: Account, big: bool)
  {
    g.plain ==>
      && left <= |g.input| && LongBlocks(g.blocks, |g.input| - left, big)
      && bits <= 8 * (|g.input| - left) + 42 * g.blocks + if g.finished then 42 else 0
  }

  /** All bits written. */
  ghost function Written(w: B.BitWriter, g: Account): (n: nat)
    reads w
  {
    8 * (|g.delivered| + w.pending) + w.valid
  }

  ghost predicate Balanced(m: Store, w: B.BitWriter, g: Account)
    reads m, m.window, w
  {
    && m.Shape() && w.Valid() && w.valid < 8 && w.limit == w.size >= 512 && Recent(m.window[..], m.strstart, g.input)
    && Kept(ByteBits(g.delivered) + w.Bits(), g.finished, g.input, m.Left()) && (g.finished ==> w.valid == 0)
    && Sized(Written(w, g), m.Left(), g, Roomy(m.wsize, w.size))
  }

  /** The second half: what is left goes into the window, and from there to the pending buffer. */
  method ThroughWindow(m: Store, w: B.BitWriter, next: seq<byte>, flush: Flush, room: nat, ghost g: Account)
      returns (last: bool, rest: seq<byte>, bytes: seq<byte>, ghost g': Account)
    requires Balanced(m, w, g) && !g.finished && w.pending == 0
    requires Stopped(room, HeaderBytes(w.valid), m.Left() + |next|, Min(w.size - 5, m.wsize), flush)
    requires flush == NoFlush || flush == Finish || m.Left() + |next| > 0
    modifies m, m.window, w
    ensures Balanced(m, w, g') && g'.delivered == g.delivered + bytes && |bytes| <= room && Consumed(g.input, next, rest, g'.input)
    ensures (w.pending == 0 || |bytes| == room) && g'.finished == last && (last ==> flush == Finish && rest == [])
    ensures (flush == NoFlush && rest == []) || |bytes| == room || last
    ensures flush == NoFlush || flush == Finish ==> g'.plain == g.plain
  {
    hide Sized, Kept, ByteBits, Recent, Stopped, PendingBytes, Consumed, HeaderBytes;
    HeaderRange(w.valid);
    ghost var left0, v0 := m.Left(), w.valid;
    var n := m.FillRest(next, g.input);
    AllSpaceUsed(room, HeaderBytes(v0), m.wsize, w.size, left0, |next|, n, flush);
    KeptMore(ByteBits(g.delivered) + w.Bits(), g.input, left0, next[..n]);
    TakenPart(g.input, next, n);
    rest := next[n..];
    ghost var input := g.input + next[..n];
    last := PendingBlock(m, w, flush, rest != [], input, g.delivered);
    g' := Account(input, g.delivered, last, g.blocks + (if w.pending > 0 && !last then 1 else 0), g.plain && (flush == NoFlush || flush == Finish));
    SizedPending(8 * |g.delivered| + v0, left0, g, n, v0, m.wsize, w.size, flush, rest != [], last, g');
    bytes, g' := HandOver(m, w, room, g');
  }

  /** A block in the pending buffer. */
  lemma {:induction false} SizedPending(bits: nat, left0: nat, g: Account, n: nat, v0: nat, wsize: nat, pendingSize: nat, flush: Flush, more: bool, last: bool, g': Account)
    requires Sized(bits, left0, g, Roomy(wsize, pendingSize)) && !g.finished && v0 < 8 && v0 <= bits && 512 <= wsize && 512 <= pendingSize && |g'.input| == |g.input| + n
    requires var size := PendingBytes(left0 + n, wsize, HeaderBytes(v0), pendingSize, flush, more);
      && (last <==> size > 0 && flush == Finish && !more && size == HeaderBytes(v0) + left0 + n)
      && g'.finished == last && g'.blocks == g.blocks + (if size > 0 && !last then 1 else 0) && g'.plain == (g.plain && (flush == NoFlush || flush == Finish))
    ensures var size := PendingBytes(left0 + n, wsize, HeaderBytes(v0), pendingSize, flush, more);
      var len := if size > 0 then size - HeaderBytes(v0) else 0;
      len <= left0 + n && Sized(bits - v0 + 8 * size + (if size > 0 then 0 else v0), left0 + n - len, g', Roomy(wsize, pendingSize))
  {
  }

  /** flush_pending. */
  method HandOver(m: Store, w: B.BitWriter, room: nat, ghost g: Account) returns (bytes: seq<byte>, ghost g': Account)
    requires Balanced(m, w, g)
    modifies w
    ensures g' == g.(delivered := g.delivered + bytes) && Balanced(m, w, g') && |bytes| <= room && (w.pending == 0 || |bytes| == room)
    ensures w.pending + |bytes| == old(w.pending) && (|bytes| == room <==> old(w.pending) >= room)
    ensures w.valid == old(w.valid)
  {
    hide Kept, ByteBits, Recent, Sized, B.BitWriter.Bits, B.BitWriter.Waiting;
    ghost var bits := w.Bits();
    bytes := w.Take(room);
    g' := g.(delivered := g.delivered + bytes);
    SameSent(g.delivered, bytes, bits, w.Bits());
    SizedSame(Written(w, g'), m.Left(), g, g', Roomy(m.wsize, w.size));
  }

  /** Bytes handed over are the first that waited. */
  lemma {:induction false} SameSent(delivered: seq<byte>, bytes: seq<byte>, bits: BitString, bits': BitString)
    requires ByteBits(bytes) + bits' == bits
    ensures ByteBits(delivered + bytes) + bits' == ByteBits(delivered) + bits
  {
    hide ByteBits;
    ByteBitsConcat(delivered, bytes);
  }

  /** What has been delivered is not part of the account. */
  lemma {:induction false} SizedSame(bits: nat, left: nat, g: Account, g': Account, roomy: bool)
    requires Sized(bits, left, g, roomy) && g' == g.(delivered := g'.delivered)
    ensures Sized(bits, left, g', roomy)
  {
  }

  /** The first half: direct blocks, and the window after them. */
  method Direct(m: Store, w: B.BitWriter, next: seq<byte>, flush: Flush, room: nat, ghost g: Account)
      returns (last: bool, rest: seq<byte>, bytes: seq<byte>, ghost g': Account)
    requires Balanced(m, w, g) && !g.finished && w.pending == 0
    modifies m, m.window, w
    ensures Balanced(m, w, g') && g'.delivered == g.delivered + bytes && |bytes| <= room && Consumed(g.input, next, rest, g'.input)
    ensures w.pending == 0 && g'.finished == last && (last ==> flush == Finish && rest == [])
    ensures !last ==> Stopped(room - |bytes|, HeaderBytes(w.valid), m.Left() + |rest|, Min(w.size - 5, m.wsize), flush)
    ensures flush == NoFlush || flush == Finish ==> g'.plain == g.plain
    ensures flush == Finish && !last ==> room < RoomToFinish(old(m.Left()) + |next|, HeaderBytes(old(w.valid)), Roomy(m.wsize, w.size))
  {
    hide Sized, Kept, ByteBits, Recent, Stopped, Consumed, Grown, RoomToFinish, HeaderBytes, B.BitWriter.Bits, B.BitWriter.Waiting, Roomy, LongBlocks, Coded;
    var taken;
    ghost var k, v0, left0, bits := 0, w.valid, m.Left(), Written(w, g);
    last, taken, bytes, k := CopyOut(m, w, next, flush, room, g.input, g.delivered);
    ghost var n := left0 + taken - m.Left();
    GrownLast(v0, |bytes|, w.valid, n, k, last, flush, Roomy(m.wsize, w.size));
    if flush == Finish && !last {
      FinishRoom(room, |bytes|, v0, w.valid, n, k, left0 + |next|, Min(w.size - 5, m.wsize), Roomy(m.wsize, w.size));
    }
    g' := Account(g.input + next[..taken], g.delivered + bytes, last, g.blocks + (if last then k - 1 else k), g.plain && (flush == NoFlush || flush == Finish));
    SizedCopy(bits, left0, g, |bytes|, v0, w.valid, taken, m.Left(), k, last, flush, g', Roomy(m.wsize, w.size));
    m.Follow(next[..taken], g.input);
    rest := next[taken..];
    TakenPart(g.input, next, taken);
  }

  /** deflate_stored. */
  method DeflateStored(m: Store, w: B.BitWriter, next: seq<byte>, flush: Flush, room: nat, ghost g: Account)
      returns (state: BlockState, rest: seq<byte>, bytes: seq<byte>, ghost g': Account)
    requires Balanced(m, w, g) && !g.finished && w.pending == 0
    modifies m, m.window, w
    ensures Balanced(m, w, g') && g'.delivered == g.delivered + bytes && |bytes| <= room && Consumed(g.input, next, rest, g'.input)
    ensures (w.pending == 0 || |bytes| == room) && (g'.finished <==> state == FinishStarted || state == FinishDone)
    ensures state == FinishDone ==> w.pending == 0
    ensures g'.finished ==> flush == Finish && rest == []
    ensures state == BlockDone ==> rest == [] && m.Left() == 0 && w.pending == 0 && flush != Finish
    ensures state == NeedMore ==> (flush == NoFlush && rest == []) || |bytes| == room
    ensures flush == NoFlush || flush == Finish ==> g'.plain == g.plain && state != BlockDone
    ensures flush == Finish && state != FinishDone ==> room < RoomToFinish(old(m.Left()) + |next|, HeaderBytes(old(w.valid)), Roomy(m.wsize, w.size))
  {
    hide Balanced, Stopped, Consumed, RoomToFinish, HeaderBytes;
    assert m.Shape() by { BalancedShape(m, w, g); }
    var last;
    last, rest, bytes, g' := Direct(m, w, next, flush, room, g);
    BalancedShape(m, w, g');
    if last {
      return FinishDone, rest, bytes, g';
    }
    if flush != NoFlush && flush != Finish && rest == [] && m.strstart == m.blockStart {
      return BlockDone, rest, bytes, g';
    }
    var b;
    ghost var r0, g0 := rest, g';
    last, rest, b, g' := ThroughWindow(m, w, rest, flush, room - |bytes|, g');
    BalancedShape(m, w, g');
    ConsumedMore(g.input, next, r0, g0.input, rest, g'.input);
    bytes := bytes + b;
    state := if last then FinishStarted else NeedMore;
  }

  lemma {:induction false} BalancedShape(m: Store, w: B.BitWriter, g: Account)
    requires Balanced(m, w, g)
    ensures m.Shape() && w.Valid() && w.valid < 8
  {
  }

  lemma {:induction false} GrownLast(v0: nat, bytes: nat, v: nat, n: nat, k: nat, last: bool, flush: Flush, big: bool)
    requires Grown(v0, bytes, v, n, k, last, flush, big)
    ensures last ==> k > 0
  {
  }

  /** Space that is enough to end a stream with wait bytes to go. */
  function RoomToFinish(wait: nat, header: nat, big: bool): (n: nat) { wait + header + 6 * (if big then wait / DEFAULT_BLOCK else wait / LEAST_BLOCK) }

  lemma {:induction false} FinishRoom(room: nat, bytes: nat, v0: nat, v: nat, n: nat, k: nat, all: nat, minBlock: nat, big: bool)
    requires Grown(v0, bytes, v, n, k, false, Finish, big) && n <= all && bytes <= room && v0 < 8 && minBlock <= 32768
    requires Stopped(room - bytes, HeaderBytes(v), all - n, minBlock, Finish)
    ensures room < RoomToFinish(all, HeaderBytes(v0), big)
  {
    assert k <= all / LEAST_BLOCK && (big ==> k <= all / DEFAULT_BLOCK);
  }

  /** Direct blocks. */
  lemma {:induction false} SizedCopy(bits: nat, left0: nat, g: Account, bytes: nat, v0: nat, v: nat, taken: nat, left: nat, k: nat, last: bool, flush: Flush, g': Account, big: bool)
    requires Sized(bits, left0, g, big) && !g.finished && left <= left0 + taken && Grown(v0, bytes, v, left0 + taken - left, k, last, flush, big) && v0 <= bits && v0 < 8
    requires |g'.input| == |g.input| + taken && g'.finished == last && g'.blocks == g.blocks + (if last then k - 1 else k)
    requires g'.plain == (g.plain && (flush == NoFlush || flush == Finish))
    ensures Sized(bits - v0 + 8 * bytes + v, left, g', big)
  {
  }

  lemma {:induction false} TakenPart(input: seq<byte>, next: seq<byte>, n: nat)
    requires n <= |next|
    ensures Consumed(input, next, next[n..], input + next[..n])
  {
    assert next == next[..n] + next[n..];
  }

  // ----- the stream -----

  /** A block that leaves nothing waiting keeps the account. */
  lemma {:induction false} KeptEmpty(delivered: seq<byte>, before: BitString, e: T.Encoding, t: S.Tables, at: nat, input: seq<byte>, after: BitString)
    requires T.EncodingOk(e, t, [], at) && at == |before| && (e.AsStored? ==> e.buf == []) && after == before + T.EncodingBits(e, t, false, [], at)
    requires Kept(ByteBits(delivered) + before, false, input, 0)
    ensures Kept(ByteBits(delivered) + after, false, input, 0)
  {
    hide T.EncodingOk, T.EncodingBits, Coded, ByteBits;
    EmptyBlock(ByteBits(delivered) + before, e, t, at, input[..|input|], 0);
    assert ByteBits(delivered) + after == ByteBits(delivered) + before + T.EncodingBits(e, t, false, [], at);
  }

  /** The mark of a flush. */
  method StoredMark(m: Store, w: B.BitWriter, t: S.Tables, sl: C.CodeTree, flush: Flush, ghost g: Account) returns (ghost g': Account)
    requires Balanced(m, w, g) && !g.finished && w.pending == 0 && m.Left() == 0 && S.TablesFit(t) && C.TreeOk(sl) && sl.lens == FixedCodes().llens
    modifies m, w
    ensures g' == g.(plain := false) && Balanced(m, w, g') && m.Left() == 0 && (flush == SyncFlush || flush == FullFlush ==> w.valid == 0)
  {
    hide Kept, ByteBits, Recent, T.EncodingOk, T.EncodingBits, S.TablesFit, C.TreeOk, FixedCodes;
    ghost var before := w.Bits();
    w.Lengths();
    g' := g.(plain := false);
    if flush == PartialFlush {
      T.AlignBlock(w, t, sl);
      KeptEmpty(g.delivered, before, T.AsFixed, t, |before|, g.input, w.Bits());
    } else if flush != BlockFlush {
      ghost var pad := T.StoredBlock(w, [], false);
      StoredEmpty(t, pad, |before|);
      KeptEmpty(g.delivered, before, T.AsStored(pad, []), t, |before|, g.input, w.Bits());
      if flush == FullFlush {
        m.strstart, m.blockStart, m.insert := 0, 0, 0;
        RecentNone(m.window[..], g.input);
      }
    }
  }

  lemma {:induction false} StoredEmpty(t: S.Tables, pad: nat, at: nat)
    requires pad < 8 && (at + 3 + pad) % 8 == 0
    ensures T.EncodingOk(T.AsStored(pad, []), t, [], at) && T.EncodingBits(T.AsStored(pad, []), t, false, [], at) == StoredBits(false, pad, [])
  {
    hide StoredBits;
  }

  lemma {:induction false} RecentNone(win: seq<byte>, input: seq<byte>)
    ensures Recent(win, 0, input)
  {
  }

  /** With nothing pending and nothing waiting, the bytes delivered are the coded input. */
  lemma {:induction false} WholeInput(m: Store, w: B.BitWriter, g: Account)
    requires Balanced(m, w, g) && w.pending == 0 && w.valid == 0 && m.Left() == 0
    ensures Coded(ByteBits(g.delivered), g.finished, g.input, 0)
  {
    hide Coded, Recent;
    NothingHeld(w);
    assert ByteBits(g.delivered) + w.Bits() == ByteBits(g.delivered) && g.input[..|g.input|] == g.input;
  }

  lemma {:induction false} FinishedWaits(m: Store, w: B.BitWriter, g: Account)
    requires Balanced(m, w, g) && g.finished
    ensures m.Left() == 0 && w.valid == 0
  {
    hide Coded, Recent;
  }

  class Storer {
    const m: Store
    const w: B.BitWriter
    const t: S.Tables
    const sl: C.CodeTree
    var finishing: bool
    var lastRank: int
    ghost var g: Account

    ghost predicate Valid()
      reads this, m, m.window, w
    {
      && Balanced(m, w, g) && finishing == g.finished
      && S.TablesFit(t) && C.TreeOk(sl) && sl.lens == FixedCodes().llens
    }

    constructor (m': Store, w': B.BitWriter, t': S.Tables, sl': C.CodeTree)
      requires Balanced(m', w', Account([], [], false, 0, true))
      requires S.TablesFit(t') && C.TreeOk(sl') && sl'.lens == FixedCodes().llens
      ensures Valid() && m == m' && w == w' && g == Account([], [], false, 0, true) && !finishing
    {
      hide Balanced, S.TablesFit, C.TreeOk;
      m, w, t, sl := m', w', t', sl';
      finishing, lastRank, g := false, -2, Account([], [], false, 0, true);
    }

    /** Stores, marks a flush. */
    method Proceed(next: seq<byte>, room: nat, flush: Flush) returns (ret: Ret, rest: seq<byte>, bytes: seq<byte>)
      requires Valid() && w.pending == 0 && room > 0 && (finishing ==> flush == Finish && next == [])
      modifies this, m, m.window, w
      ensures Valid() && Consumed(old(g.input), next, rest, g.input) && g.delivered == old(g.delivered) + bytes && |bytes| <= room
      ensures ret == OK || ret == STREAM_END
      ensures lastRank == if ret == OK && |bytes| == room then -2 else old(lastRank)
      ensures !old(finishing) && flush == Finish && room >= RoomToFinish(old(m.Left()) + |next|, HeaderBytes(old(w.valid)), Roomy(m.wsize, w.size)) ==> ret == STREAM_END
      ensures ret == OK ==> rest == [] || |bytes| == room
      ensures flush == NoFlush || flush == Finish ==> g.plain == old(g).plain
      ensures ret == OK && |bytes| < room && (flush == SyncFlush || flush == FullFlush) ==> Coded(ByteBits(g.delivered), false, g.input, 0)
      ensures ret == STREAM_END ==> rest == [] && Coded(ByteBits(g.delivered), true, g.input, 0)
    {
      hide Balanced, Consumed, Coded, ByteBits, S.TablesFit, C.TreeOk, FixedCodes;
      rest, bytes := next, [];
      ConsumedNone(g.input, next);
      if next != [] || (flush != NoFlush && !finishing) {
        var state;
        state, rest, bytes, g := DeflateStored(m, w, next, flush, room, g);
        finishing := state == FinishStarted || state == FinishDone;
        if state == NeedMore || state == FinishStarted {
          if |bytes| == room {
            lastRank := -2;
          }
          return OK, rest, bytes;
        }
        if state == BlockDone {
          var b := Mark(flush, room - |bytes|);
          bytes := bytes + b;
          if |bytes| == room {
            lastRank := -2;
            return OK, rest, bytes;
          }
        }
      }
      ret := if flush != Finish then OK else STREAM_END;
      if ret == STREAM_END {
        FinishedWaits(m, w, g);
        WholeInput(m, w, g);
      }
    }

    /** As long as only Z_NO_FLUSH and Z_FINISH have been used, the output stays below the bound. */
    lemma {:induction false} WithinBound()
      requires Valid() && g.plain
      ensures |g.delivered| + w.pending <= DeflateBound(|g.input|)
      ensures Roomy(m.wsize, w.size) ==> |g.delivered| + w.pending <= TightBound(|g.input|)
    {
      hide Kept, Recent, S.TablesFit, C.TreeOk;
      BoundBytes(|g.delivered| + w.pending, |g.input| - m.Left(), g.blocks, |g.input|, Roomy(m.wsize, w.size));
    }

    method Mark(flush: Flush, room: nat) returns (bytes: seq<byte>)
      requires Valid() && !finishing && w.pending == 0 && m.Left() == 0
      modifies this`g, m, w
      ensures Valid() && g == old(g).(delivered := old(g).delivered + bytes, plain := false) && |bytes| <= room
      ensures |bytes| < room && (flush == SyncFlush || flush == FullFlush) ==> Coded(ByteBits(g.delivered), false, g.input, 0)
    {
      hide Balanced, Coded, ByteBits, S.TablesFit, C.TreeOk, FixedCodes;
      g := StoredMark(m, w, t, sl, flush, g);
      bytes, g := HandOver(m, w, room, g);
      if |bytes| < room && (flush == SyncFlush || flush == FullFlush) {
        WholeInput(m, w, g);
      }
    }

    /** deflate() at level 0. */
    method Deflate(next: seq<byte>, room: nat, flush: Flush) returns (ret: Ret, rest: seq<byte>, bytes: seq<byte>)
      requires Valid()
      modifies this, m, m.window, w
      ensures Valid() && Consumed(old(g.input), next, rest, g.input) && g.delivered == old(g.delivered) + bytes && |bytes| <= room
      ensures ret == STREAM_ERROR <==> old(finishing) && flush != Finish
      ensures ret == STREAM_ERROR || ret == BUF_ERROR ==> rest == next
      ensures ret == BUF_ERROR <==>
        && !(old(finishing) && flush != Finish)
        && (room == 0 || Idles(next, flush, old(w.pending), old(lastRank)) || (old(finishing) && next != [] && old(w.pending) < room))
      ensures lastRank == if ret == STREAM_ERROR || room == 0 then old(lastRank) else if ret == OK && |bytes| == room then -2 else FlushRank(flush)
      ensures old(w.pending) == 0 && !old(finishing) && flush == Finish && room > 0 && room >= RoomToFinish(old(m.Left()) + |next|, HeaderBytes(old(w.valid)), Roomy(m.wsize, w.size)) ==> ret == STREAM_END
      ensures ret == OK ==> rest == [] || |bytes| == room
      ensures flush == NoFlush || flush == Finish ==> g.plain == old(g).plain
      ensures ret == OK && |bytes| < room && (flush == SyncFlush || flush == FullFlush) ==> Coded(ByteBits(g.delivered), false, g.input, 0)
      ensures ret == STREAM_END ==> rest == [] && Coded(ByteBits(g.delivered), true, g.input, 0)
    {
      hide Balanced, Consumed, Coded, ByteBits, FlushRank, S.TablesFit, C.TreeOk, FixedCodes;
      rest, bytes := next, [];
      ConsumedNone(g.input, next);
      if finishing && flush != Finish {
        return STREAM_ERROR, rest, bytes;
      }
      if room == 0 {
        return BUF_ERROR, rest, bytes;
      }
      var oldRank := lastRank;
      lastRank := FlushRank(flush);
      if w.pending != 0 {
        bytes, g := HandOver(m, w, room, g);
        if |bytes| == room {
          lastRank := -2;
          return OK, rest, bytes;
        }
      } else if next == [] && FlushRank(flush) <= oldRank && flush != Finish {
        return BUF_ERROR, rest, bytes;
      }
      if finishing && next != [] {
        return BUF_ERROR, rest, bytes;
      }
      var b;
      ret, rest, b := Proceed(next, room - |bytes|, flush);
      bytes := bytes + b;
    }
  }

  lemma {:induction false} BoundBytes(bytes: nat, emitted: nat, blocks: nat, n: nat, big: bool)
    requires 8 * bytes <= 8 * emitted + 42 * blocks + 42 && LongBlocks(blocks, emitted, big) && emitted <= n
    ensures bytes <= DeflateBound(n) && (big ==> bytes <= TightBound(n))
  {
  }

  /** deflateInit2 for raw deflate data at level 0. */
  method InitStored(wsize: nat, litBufsize: nat) returns (d: Storer)
    requires 512 <= wsize <= 32768 && 128 <= litBufsize <= 32768
    ensures fresh(d) && fresh(d.m) && fresh(d.m.window) && fresh(d.w) && d.Valid() && d.g == Account([], [], false, 0, true) && !d.finishing
    ensures d.m.strstart == 0 == d.m.blockStart && d.w.pending == 0 && d.w.valid == 0 && d.m.wsize == wsize && d.w.size == 4 * litBufsize
  {
    hide S.TablesFit, C.TreeOk, FixedCodes;
    var m := new Store(wsize);
    var w := new B.BitWriter(4 * litBufsize);
    var t := S.StaticInit();
    var sl := StaticTrees.LiteralTree();
    FirstSound(m, w);
    d := new Storer(m, w, t, sl);
  }

  lemma {:induction false} FirstSound(m: Store, w: B.BitWriter)
    requires m.Shape() && m.strstart == 0 == m.blockStart && w.Valid() && w.Bits() == [] && w.limit == w.size >= 512
    ensures Balanced(m, w, Account([], [], false, 0, true))
  {
    w.Lengths();
    L.DeliversNone([], 0);
    assert ByteBits([]) + [] == [];
  }
}
