/** inflate_fast of inffast.c: the decode loop without availability checks, proved to stay
    inside its buffers and to be a run of the checked machine. */
module InflateFast {
  import opened Bits
  import opened Canonical
  import opened InflateTable
  import opened Lz77
  import opened InflateSpec
  import opened Inflate
  import W = Window

  const MIN_INPUT: nat := 6
  const MIN_OUTPUT: nat := 258

  /** Two bytes more when fewer than 15 bits are held. */
  function Refill(r: Regs): (r': Regs)
    requires r.hold < Pow2(r.bits) && (r.bits < 15 ==> |r.next| >= 2)
    ensures r'.hold < Pow2(r'.bits) && r'.bits >= 15 && Unread(r') == Unread(r)
    ensures r'.output == r.output && r'.left == r.left
    ensures Suffix(r.next, r'.next)
  {
    if r.bits < 15 then PullByte(PullByte(r)) else r
  }

  /** Looks up and drops one code; the accumulator holds at least its bits. */
  method FastCode(kind: CodeType, ghost lens: seq<nat>, tab: seq<Entry>, root: nat, r: Regs)
      returns (here: Entry, r': Regs)
    requires |lens| <= Symbols(kind) && Acceptable(kind, lens) && TableFor(kind, lens, tab, root)
    requires r.hold < Pow2(r.bits) && Decode(kind, lens, r.hold).bits <= r.bits
    ensures here == Decode(kind, lens, Lsb(Unread(r)))
    ensures r'.hold < Pow2(r'.bits) && r'.bits == r.bits - here.bits
    ensures r'.next == r.next && r'.output == r.output && r'.left == r.left
    ensures Unread(r') == Unread(r)[here.bits..]
  {
    hide Pow2, Low, Shr, Shl, Held, Unread, Decode, Acceptable, TableFor, Lsb;
    Lookup(kind, lens, tab, root, r.hold);
    WholeCode(kind, lens, r);
    here := tab[Low(r.hold, root)];
    r' := DropBits(r, here.bits);
    if IsLink(here) {
      LowShr(r.hold, here.bits, here.op);
      var second := tab[here.val + Low(r'.hold, here.op)];
      r' := DropBits(r', second.bits);
      here := Entry(second.op, here.bits + second.bits, second.val);
    }
  }

  /** Copies a whole match: what is in the window first, in one or two pieces, the rest from
      the output. bad when it reaches back further than both. */
  method FastCopy(output: seq<byte>, dist: nat, length: nat, win: W.Window, ghost past: seq<byte>)
      returns (bad: bool, bytes: seq<byte>)
    requires 1 <= dist && length >= 1
    requires win.Recalls(past)
    ensures bad <==> dist > |past| + |output|
    ensures !bad ==> past + bytes == CopyBack(past + output, dist, length)
  {
    hide CopyBack, Pow2, W.Holds;
    bad, bytes := false, output;
    WindowSizes(win, past);
    if dist <= |output| {
      bytes := CopyFromOutput(output, dist, length);
      FromOutput(past, output, dist, bytes);
      return;
    }
    var op := dist - |output|;
    if op > win.whave {
      bad := true;
      return;
    }
    var len := length;
    if win.wnext < op && win.wnext != 0 {
      // wraps around the end of the window
      var first := op - win.wnext;
      if first >= len {
        bytes := FromPiece(output, dist, len, win, past);
        return;
      }
      bytes := FromPiece(output, dist, first, win, past);
      len := len - first;
      CopyBackSplit(past + output, dist, first, len);
      op := win.wnext;
    }
    // contiguous in the window
    ghost var before := bytes;
    if op >= len {
      bytes := FromPiece(bytes, dist, len, win, past);
      return;
    }
    bytes := FromPiece(bytes, dist, op, win, past);
    CopyBackSplit(past + before, dist, op, len - op);
    ghost var mid := bytes;
    bytes := CopyFromOutput(bytes, dist, len - op);
    FromOutput(past, mid, dist, bytes);
  }

  /** A piece of a match that is contiguous in the window. */
  method FromPiece(output: seq<byte>, dist: nat, n: nat, win: W.Window, ghost past: seq<byte>) returns (bytes: seq<byte>)
    requires win.Recalls(past)
    requires |output| < dist && dist - |output| <= win.whave
    requires n <= (if dist - |output| > win.wnext then dist - |output| - win.wnext else dist - |output|)
    ensures |bytes| == |output| + n && past + bytes == CopyBack(past + output, dist, n)
  {
    hide CopyBack, Pow2, W.Holds;
    WindowSizes(win, past);
    var op := dist - |output|;
    var from := if op > win.wnext then win.wsize + win.wnext - op else win.wnext - op;
    FromWindow(win.data[..], win.wsize, win.wnext, win.whave, past, output, dist, from, n);
    bytes := CopyFromWindow(win.data, from, n, output);
    assert win.data[..][from..from + n] == win.data[from..from + n];
  }

  /** What the loop keeps between codes; the bound on bits does not matter here. */
  ghost predicate Ready(s: Fields, m: Meaning, r: Regs)
  {
    Shape(s) && ValidLens(s.lens) && CodesReady(s, m) && r.hold < Pow2(r.bits)
  }

  /** One pass of the loop body. */
  ghost predicate Passed(s: Fields, m: Meaning, r: Regs, s': Fields, r': Regs, past: seq<byte>)
    requires Shape(s)
  {
    && Ready(s', m, r') && (s'.mode == LEN || s'.mode == TYPE || s'.mode == BAD)
    && Suffix(r.next, r'.next)
    && |r'.output| + r'.left == |r.output| + r.left
    && Moves(Abs(s, m, r, past), Abs(s', m, r', past))
  }

  lemma {:induction false} CodesReadyFacts(s: Fields, m: Meaning)
    requires CodesReady(s, m)
    ensures CodesOk(m.codes)
    ensures |m.codes.llens| <= Symbols(LENS) && |m.codes.dlens| <= Symbols(DISTS)
    ensures TableFor(LENS, m.codes.llens, s.lencode, s.lenbits)
    ensures TableFor(DISTS, m.codes.dlens, s.distcode, s.distbits)
    ensures forall mode :: CodesReady(s.(mode := mode), m)
  {
  }

  /** The distance code of a match and its extra bits. */
  method ReadDistance(s: Fields, ghost m: Meaning, r: Regs, length: nat, ghost out: seq<byte>)
      returns (bad: bool, dist: nat, r': Regs)
    requires Ready(s, m, r) && 3 <= length <= 258 && |Unread(r)| >= 28
    ensures r'.hold < Pow2(r'.bits) && r'.output == r.output && r'.left == r.left && Suffix(r.next, r'.next)
    ensures !bad ==> 1 <= dist <= 32768
    ensures Moves(Conf(Dist(s.last, m.codes, length), Unread(r), out),
                  Conf(if bad then Bad else Match(s.last, m.codes, length, dist), Unread(r'), out))
  {
    hide Pow2, Low, Shr, Lsb, Held, Step, Ok, TableFor, ByteBits, Unread, Moves, Acceptable, Decode, CodesOk, Bit6, ValidLens,
      PullByte, Refill, CodesReady, Shape, Suffix;
    CodesReadyFacts(s, m);
    CodesSizes(m.codes);
    ghost var x := Conf(Dist(s.last, m.codes, length), Unread(r), out);
    OkDist(x.st);
    r' := Refill(r);
    DecodeDistance(m.codes.dlens, r'.hold);
    var here;
    here, r' := FastCode(DISTS, m.codes.dlens, s.distcode, s.distbits, r');
    AtDist(x);
    dist, bad := 1, Bit6(here.op);
    ghost var mid := r'.next;
    if bad {
      StepMoves(x, Conf(Bad, Unread(r'), out));
      return;
    }
    DecodeDistance(m.codes.dlens, Lsb(Unread(r)));
    ghost var y := Conf(DistExt(s.last, m.codes, length, here.val, here.op % 16), Unread(r'), out);
    StepMoves(x, y);
    AtDistExt(y);
    dist, r' := FastExtra(r', here.val, here.op % 16);
    ghost var z := Conf(Match(s.last, m.codes, length, dist), Unread(r'), out);
    StepMoves(y, z);
    OkMatch(z.st);
    MovesTrans(x, y, z);
    SuffixTrans(r.next, mid, r'.next);
  }

  lemma {:induction false} OkDist(st: State)
    requires st.Dist? && CodesOk(st.codes) && 3 <= st.length <= 258
    ensures Ok(st)
  {
  }

  lemma {:induction false} OkMatch(st: State)
    requires st.Match? && Ok(st)
    ensures 1 <= st.offset <= 32768
  {
  }

  /** The distance half of a match: code, extra bits, copy. */
  method FastDistance(s: Fields, ghost m: Meaning, r: Regs, length: nat, ghost past: seq<byte>, win: W.Window)
      returns (s': Fields, r': Regs)
    requires Ready(s, m, r) && s.mode == LEN && 3 <= length <= 258 && length <= r.left
    requires win.Recalls(past)
    requires |Unread(r)| >= 28
    ensures Ready(s', m, r') && (s'.mode == LEN || s'.mode == BAD)
    ensures Suffix(r.next, r'.next) && |r'.output| + r'.left == |r.output| + r.left
    ensures Moves(Conf(Dist(s.last, m.codes, length), Unread(r), past + r.output), Abs(s', m, r', past))
  {
    hide Pow2, Unread, Moves, CodesOk, ValidLens, CodesReady;
    CodesReadyFacts(s, m);
    ghost var x := Conf(Dist(s.last, m.codes, length), Unread(r), past + r.output);
    var bad, dist;
    s' := s;
    bad, dist, r' := ReadDistance(s, m, r, length, past + r.output);
    if bad {
      s' := s.(mode := BAD);
      return;
    }
    ghost var z := Conf(Match(s.last, m.codes, length, dist), Unread(r'), past + r.output);
    s', r' := FastMatch(s, m, r', length, dist, past, win);
    MovesTrans(x, z, Abs(s', m, r', past));
  }

  method FastMatch(s: Fields, ghost m: Meaning, r: Regs, length: nat, dist: nat, ghost past: seq<byte>, win: W.Window)
      returns (s': Fields, r': Regs)
    requires Ready(s, m, r) && s.mode == LEN && 3 <= length <= 258 && length <= r.left && 1 <= dist <= 32768
    requires win.Recalls(past)
    ensures Ready(s', m, r') && (s'.mode == LEN || s'.mode == BAD)
    ensures r'.next == r.next && |r'.output| + r'.left == |r.output| + r.left
    ensures Moves(Conf(Match(s.last, m.codes, length, dist), Unread(r), past + r.output), Abs(s', m, r', past))
  {
    hide Pow2, Held, Step, TableFor, ByteBits, Unread, Moves, CodesOk, ValidLens, CopyBack;
    ghost var z := Conf(Match(s.last, m.codes, length, dist), Unread(r), past + r.output);
    s', r' := s, r;
    var bad, bytes := FastCopy(r.output, dist, length, win, past);
    AtMatch(z);
    if bad {
      s' := s.(mode := BAD);
      StepMoves(z, Abs(s', m, r', past));
    } else {
      r' := r.(output := bytes, left := r.left - length);
      SameBits(r, r');
      MatchSteps(s.last, m.codes, length, dist, z.bits, z.out, length);
    }
  }

  /** Extra bits of a length or a distance: at most two more bytes. */
  method FastExtra(r: Regs, base: nat, extra: nat) returns (v: nat, r': Regs)
    requires r.hold < Pow2(r.bits) && extra <= 13 && |Unread(r)| >= extra
    ensures v == base + Lsb(Unread(r)[..extra])
    ensures r'.hold < Pow2(r'.bits) && Unread(r') == Unread(r)[extra..]
    ensures r'.output == r.output && r'.left == r.left && Suffix(r.next, r'.next)
  {
    hide Pow2, Low, Shr, Lsb, Held, ByteBits, Unread, PullByte;
    r' := r;
    if r'.bits < extra {
      r' := PullByte(r');
      if r'.bits < extra {
        r' := PullByte(r');
      }
    }
    v := base + BitsOf(r', extra);
    r' := DropBits(r', extra);
  }

  method FastLiteral(s: Fields, ghost m: Meaning, r: Regs, lit: nat, ghost past: seq<byte>) returns (r': Regs)
    requires Ready(s, m, r) && s.mode == LEN && lit < 256 && r.left > 0
    ensures Ready(s, m, r') && r'.next == r.next && |r'.output| + r'.left == |r.output| + r.left
    ensures Moves(Conf(Lit(s.last, m.codes, lit), Unread(r), past + r.output), Abs(s, m, r', past))
  {
    hide Pow2, Held, Step, TableFor, Unread, Moves, CodesOk, ValidLens;
    ghost var x := Conf(Lit(s.last, m.codes, lit), Unread(r), past + r.output);
    AtLit(x);
    r' := r.(output := r.output + [lit as byte], left := r.left - 1);
    SameBits(r, r');
    assert past + r'.output == past + r.output + [lit as byte];
    StepMoves(x, Abs(s, m, r', past));
  }

  /** A match, from its length base on. */
  method FastPair(s: Fields, ghost m: Meaning, r: Regs, base: nat, extra: nat, ghost past: seq<byte>, win: W.Window)
      returns (s': Fields, r': Regs)
    requires Ready(s, m, r) && s.mode == LEN && r.left >= MIN_OUTPUT
    requires 3 <= base && extra <= 5 && base + Pow2(extra) <= 259
    requires win.Recalls(past)
    requires |Unread(r)| >= 33
    ensures Ready(s', m, r') && (s'.mode == LEN || s'.mode == BAD)
    ensures Suffix(r.next, r'.next) && |r'.output| + r'.left == |r.output| + r.left
    ensures Moves(Conf(LenExt(s.last, m.codes, base, extra), Unread(r), past + r.output), Abs(s', m, r', past))
  {
    hide Pow2, Unread, Moves, CodesOk, ValidLens, Lsb, Step, TableFor;
    ghost var x := Conf(LenExt(s.last, m.codes, base, extra), Unread(r), past + r.output);
    AtLenExt(x);
    var length;
    length, r' := FastExtra(r, base, extra);
    assert Lsb(Unread(r)[..extra]) < Pow2(extra);
    ghost var y := Conf(Dist(s.last, m.codes, length), Unread(r'), past + r.output);
    StepMoves(x, y);
    s', r' := FastDistance(s, m, r', length, past, win);
    MovesTrans(x, y, Abs(s', m, r', past));
  }

  /** The state that a literal/length entry leads to. */
  ghost function AfterEntry(last: bool, codes: Codes, here: Entry): (st: State)
  {
    if here.op == 0 then Lit(last, codes, here.val)
    else if Bit5(here.op) then Type(last)
    else if Bit6(here.op) then Bad
    else LenExt(last, codes, here.val, here.op % 16)
  }

  /** The literal/length code at the front of the input. */
  method FastSymbol(s: Fields, ghost m: Meaning, r: Regs, ghost past: seq<byte>) returns (here: Entry, r': Regs)
    requires Ready(s, m, r) && s.mode == LEN && |r.next| >= MIN_INPUT
    ensures |m.codes.llens| <= Symbols(LENS) && here == Decode(LENS, m.codes.llens, Lsb(Unread(r)))
    ensures r'.hold < Pow2(r'.bits) && Suffix(r.next, r'.next) && r'.output == r.output && r'.left == r.left
    ensures |Unread(r')| + here.bits <= |Unread(r)| && |Unread(r')| >= 33
    ensures Moves(Abs(s, m, r, past), Conf(AfterEntry(s.last, m.codes, here), Unread(r'), past + r.output))
  {
    hide Pow2, Low, Shr, Lsb, Held, Step, Ok, TableFor, ByteBits, Unread, Moves, Acceptable, Decode, CodesOk, Bit4, Bit5, Bit6, ValidLens,
      PullByte, Refill, CodesReady, Suffix;
    CodesReadyFacts(s, m);
    CodesSizes(m.codes);
    ghost var x := Abs(s, m, r, past);
    OkLen(x.st);
    r' := Refill(r);
    DecodeLength(m.codes.llens, r'.hold);
    here, r' := FastCode(LENS, m.codes.llens, s.lencode, s.lenbits, r');
    DecodeLength(m.codes.llens, Lsb(Unread(r)));
    AtLen(x);
    StepMoves(x, Step(x).value);
  }

  /** The loop body: a literal, a match, the end of the block, or an error. */
  method FastStep(s: Fields, ghost m: Meaning, r: Regs, ghost past: seq<byte>, win: W.Window)
      returns (s': Fields, r': Regs)
    requires Ready(s, m, r) && s.mode == LEN && |r.next| >= MIN_INPUT && r.left >= MIN_OUTPUT
    requires win.Recalls(past)
    ensures Passed(s, m, r, s', r', past)
    ensures |m.codes.llens| <= Symbols(LENS)
      && |Unread(r')| + Decode(LENS, m.codes.llens, Lsb(Unread(r))).bits <= |Unread(r)|
  {
    hide Pow2, Low, Shr, Lsb, Held, Step, Ok, TableFor, ByteBits, Unread, Moves, Acceptable, Decode, CodesOk, Bit4, Bit5, Bit6, ValidLens,
      CodesReady, Suffix;
    var here;
    here, r' := FastSymbol(s, m, r, past);
    CodesReadyFacts(s, m);
    DecodeLength(m.codes.llens, Lsb(Unread(r)));
    ghost var x, y, mid := Abs(s, m, r, past), Conf(AfterEntry(s.last, m.codes, here), Unread(r'), past + r.output), r'.next;
    s' := s;
    if here.op == 0 {
      r' := FastLiteral(s, m, r', here.val, past);
    } else if Bit4(here.op) {
      s', r' := FastPair(s, m, r', here.val, here.op % 16, past, win);
      SuffixTrans(r.next, mid, r'.next);
    } else if Bit5(here.op) {
      s' := s.(mode := TYPE);
      return;
    } else {
      s' := s.(mode := BAD);
      return;
    }
    MovesTrans(x, y, Abs(s', m, r', past));
    MovesBits(y, Abs(s', m, r', past));
  }

  lemma {:induction false} MovesBits(x: Conf, y: Conf)
    requires Moves(x, y)
    ensures |y.bits| <= |x.bits|
  {
    hide Reaches;
  }

  lemma {:induction false} OkLen(st: State)
    requires st.Len? && CodesOk(st.codes)
    ensures Ok(st)
  {
  }

  /** Whole bytes left in the accumulator go back to the input. */
  function GiveBack(r0: Regs, r: Regs): (r': Regs)
    requires |r.next| <= |r0.next| && r.bits / 8 <= |r0.next| - |r.next|
  {
    var n := r.bits / 8;
    r.(hold := Low(r.hold, r.bits - 8 * n), bits := r.bits - 8 * n, next := r0.next[|r0.next| - |r.next| - n..])
  }

  /** The end of the unread bits, from whole bytes of the input on. */
  lemma {:induction false} BackBytes(r0: Regs, r: Regs, j: nat, k: nat)
    requires j <= |r0.next| && Tail(Unread(r0), Unread(r)) && k + 8 * (|r0.next| - j) == |Unread(r)|
    ensures Unread(r)[k..] == ByteBits(r0.next[j..])
  {
    hide ToBits, ByteBits;
    ByteBitsConcat(r0.next[..j], r0.next[j..]);
    assert r0.next == r0.next[..j] + r0.next[j..];
    var all, e := Unread(r0), ByteBits(r0.next[j..]);
    assert all == ToBits(r0.hold, r0.bits) + ByteBits(r0.next[..j]) + e;
    assert all[|all| - |e|..] == e;
    assert Unread(r)[k..] == all[|all| - |e|..];
  }

  /** The first bits are the low bits of the accumulator. */
  lemma {:induction false} BackBits(r: Regs, k: nat)
    requires k <= r.bits
    ensures Unread(r)[..k] == ToBits(r.hold, k)
  {
    hide ToBits, ByteBits;
    ToBitsConcat(r.hold, k, r.bits - k);
  }

  lemma {:induction false} GiveBackKeeps(r0: Regs, r: Regs)
    requires r.hold < Pow2(r.bits)
    requires |r.next| <= |r0.next| && r.bits / 8 <= |r0.next| - |r.next|
    requires Tail(Unread(r0), Unread(r))
    ensures var r' := GiveBack(r0, r);
      r'.hold < Pow2(r'.bits) && r'.bits < 8 && Unread(r') == Unread(r)
  {
    hide Pow2, Low, ToBits, ByteBits;
    var r' := GiveBack(r0, r);
    var b := Unread(r);
    BackBytes(r0, r, |r0.next| - |r'.next|, r'.bits);
    BackBits(r, r'.bits);
    assert b == b[..r'.bits] + b[r'.bits..];
    assert b == ToBits(r'.hold, r'.bits) + ByteBits(r'.next) by { ToBitsLow(r.hold, r'.bits); }
  }

  /** From the entry state the first code uses up all but at most 7 of the bits held. */
  lemma {:induction false} FirstCodeBits(s: Fields, m: Meaning, r: Regs, past: seq<byte>)
    requires Inv(s, m, r, past) && s.mode == LEN
    ensures |m.codes.llens| <= Symbols(LENS)
    ensures Decode(LENS, m.codes.llens, Lsb(Unread(r))).bits + 7 >= r.bits
  {
    hide Pow2, Lsb, TableFor, ByteBits, Acceptable, Decode, CodesOk, ValidLens, Step, ToBits;
    CodesSizes(m.codes);
    var e := Decode(LENS, m.codes.llens, Lsb(Unread(r)));
    if e.bits + 7 < r.bits {
      DecodeRestrict(LENS, m.codes.llens, Held(r), ByteBits(r.next));
      AtLen(Conf(Len(s.last, m.codes), Held(r), past + r.output));
    }
  }

  /** inflate_fast: passes while at least 6 input bytes and 258 bytes of space remain, then
      unused bytes returned. */
  method InflateFast(s: Fields, ghost m: Meaning, r: Regs, ghost past: seq<byte>, win: W.Window)
      returns (s': Fields, r': Regs)
    requires Inv(s, m, r, past) && s.mode == LEN && |r.next| >= MIN_INPUT && r.left >= MIN_OUTPUT
    requires win.Recalls(past)
    ensures s'.mode == LEN || s'.mode == TYPE || s'.mode == BAD
    ensures Visited(s, m, r, false, s', m, r', past)
  {
    hide Pow2, Lsb, Unread, Moves, TableFor, ByteBits, Acceptable, Decode, CodesOk, ValidLens, Step, Ok, Tight, CodesReady;
    FirstCodeBits(s, m, r, past);
    EntryReady(s, m, r, past);
    s', r' := FastStep(s, m, r, past, win);
    while s'.mode == LEN && |r'.next| >= MIN_INPUT && r'.left >= MIN_OUTPUT
      invariant Passed(s, m, r, s', r', past)
      invariant |Unread(r')| + Decode(LENS, m.codes.llens, Lsb(Unread(r))).bits <= |Unread(r)|
      decreases |Unread(r')|
    {
      ghost var y := Abs(s', m, r', past);
      DecodeLength(m.codes.llens, Lsb(Unread(r')));
      s', r' := FastStep(s', m, r', past, win);
      MovesTrans(Abs(s, m, r, past), y, Abs(s', m, r', past));
    }
    Returned(s, m, r, s', r', past);
    r' := GiveBack(r, r');
  }

  lemma {:induction false} EntryReady(s: Fields, m: Meaning, r: Regs, past: seq<byte>)
    requires Inv(s, m, r, past) && s.mode == LEN
    ensures Ready(s, m, r)
  {
  }

  lemma {:induction false} Returned(s: Fields, m: Meaning, r: Regs, s': Fields, r': Regs, past: seq<byte>)
    requires Inv(s, m, r, past) && Passed(s, m, r, s', r', past)
    requires |Unread(r')| + r.bits <= |Unread(r)| + 7
    ensures |r'.next| <= |r.next| && r'.bits / 8 <= |r.next| - |r'.next|
    ensures Visited(s, m, r, false, s', m, GiveBack(r, r'), past)
  {
    hide Pow2, TableFor, ByteBits, CodesOk, ValidLens, Step, Ok, Held, Unread, Reaches, Tail, ToBits;
    var x, y := Abs(s, m, r, past), Abs(s', m, r', past);
    ReachesTail(x, y);
    GiveBackKeeps(r, r');
    MovesGrow(x, y);
  }
}
