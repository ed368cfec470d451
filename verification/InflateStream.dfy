/** The inflate stream object: the state kept between calls, and a call. */
module InflateStream {
  import opened Bits
  import opened Canonical
  import opened InflateTable
  import opened Lz77
  import opened InflateSpec
  import opened Distances
  import opened Inflate
  import F = InflateFast
  import W = Window

  /** Return codes of a call. */
  datatype Ret = OK | STREAM_END | DATA_ERROR | BUF_ERROR

  predicate Finished(s: Fields)
  {
    s.mode == CHECK || s.mode == LENGTH || s.mode == DONE
  }

  /** A mode that is left without doing anything. */
  lemma {:induction false} Rest(s: Fields, m: Meaning, r: Regs, s': Fields, past: seq<byte>)
    requires Inv(s, m, r, past) && (Finished(s) || s.mode == BAD)
    requires s' == s.(mode := if s.mode == BAD then BAD else DONE)
    ensures Visited(s, m, r, true, s', m, r, past)
  {
    hide Held, Unread, ValidLens, Pow2, Received, Step, Suffix, Moves, CodesOk, TableFor;
    SuffixRefl(r.next);
    AtBad(Conf(AbsState(s', m), Held(r), past + r.output));
    AtBad(Abs(s, m, r, past));
  }

  /** LEN_ falls through to LEN. */
  lemma {:induction false} EnterLen(s: Fields, m: Meaning, r: Regs, past: seq<byte>)
    requires Inv(s, m, r, past) && (s.mode == LEN_ || s.mode == LEN)
    ensures Inv(s.(mode := LEN), m, r, past) && Abs(s.(mode := LEN), m, r, past) == Abs(s, m, r, past)
  {
    hide Held, Unread, ValidLens, Pow2, Step, TableFor, CodesOk;
  }

  lemma {:induction false} VisitedFrom(s: Fields, m: Meaning, r: Regs, leave: bool, s': Fields, m': Meaning, r': Regs, past: seq<byte>, s0: Fields)
    requires Shape(s) && Visited(s, m, r, leave, s', m', r', past)
    requires Shape(s0) && Abs(s0, m, r, past) == Abs(s, m, r, past)
    ensures Visited(s0, m, r, leave, s', m', r', past)
  {
    hide Inv, Abs, Moves, Step, Suffix;
  }

  lemma {:induction false} StillOpen(s: Fields, m: Meaning, r: Regs, s': Fields, m': Meaning, r': Regs, past: seq<byte>)
    requires Shape(s) && Visited(s, m, r, true, s', m', r', past) && !Finished(s) && s.mode != BAD
    ensures s'.mode != BAD && !Finished(s')
  {
    hide Inv, Moves, Step, Suffix, Received, AbsState, Unread;
    InvShape(s', m', r', past);
    assert AbsState(s', m') == AbsState(s, m);
    ModeState(s, m);
    ModeState(s', m');
  }

  /** One turn of the switch in inflate(). */
  method Visit(s: Fields, ghost m: Meaning, r: Regs, ghost past: seq<byte>, win: W.Window)
      returns (leave: bool, ret: Ret, s': Fields, ghost m': Meaning, r': Regs)
    requires Inv(s, m, r, past)
    requires s.mode == MATCH || s.mode == LEN_ || s.mode == LEN ==> win.Recalls(past)
    ensures Visited(s, m, r, leave, s', m', r', past)
    ensures ret == if Finished(s) then STREAM_END else if s.mode == BAD then DATA_ERROR else OK
    ensures leave && ret == OK ==> s'.mode != BAD && !Finished(s')
    ensures ret != OK ==> r' == r
    ensures ret != OK ==> leave && s'.mode == if ret == STREAM_END then DONE else BAD
  {
    hide Inv, Visited, Moves, Step, Suffix, Received, Pow2, StateInv, TablesOk;
    assert Shape(s) by { InvShape(s, m, r, past); }
    m', ret := m, OK;
    match s.mode {
      case TYPE => leave, s', m', r' := DoType(s, m, r, past);
      case TYPEDO => leave, s', m', r' := DoType(s, m, r, past);
      case STORED =>
        if r.bits % 8 != 0 {
          leave, s' := false, s;
          r' := AlignStored(s, m, r, past);
        } else {
          leave, s', r' := DoStored(s, m, r, past);
        }
      case COPY_ => leave, s', r' := DoCopy(s, m, r, past);
      case COPY => leave, s', r' := DoCopy(s, m, r, past);
      case TABLE => leave, s', r' := DoTable(s, m, r, past);
      case LENLENS => leave, s', m', r' := DoLenLens(s, m, r, past);
      case CODELENS => leave, s', m', r' := DoCodeLens(s, m, r, past);
      case LEN_ => leave, s', r' := VisitLen(s, m, r, past, win);
      case LEN => leave, s', r' := VisitLen(s, m, r, past, win);
      case LENEXT => leave, s', r' := DoLenExt(s, m, r, past);
      case DIST => leave, s', r' := DoDist(s, m, r, past);
      case DISTEXT => leave, s', r' := DoDistExt(s, m, r, past);
      case MATCH => leave, s', r' := DoMatch(s, m, r, past, win);
      case LIT => leave, s', r' := DoLit(s, m, r, past);
      case BAD =>
        leave, ret, s', r' := true, DATA_ERROR, s, r;
        Rest(s, m, r, s', past);
      case _ =>
        leave, ret, s', r' := true, STREAM_END, s.(mode := DONE), r;
        Rest(s, m, r, s', past);
    }
    if leave && ret == OK { StillOpen(s, m, r, s', m', r', past); }
  }

  lemma {:induction false} InvShape(s: Fields, m: Meaning, r: Regs, past: seq<byte>)
    requires Inv(s, m, r, past)
    ensures Shape(s) && Ok(AbsState(s, m))
  {
  }

  method VisitLen(s: Fields, ghost m: Meaning, r: Regs, ghost past: seq<byte>, win: W.Window)
      returns (leave: bool, s': Fields, r': Regs)
    requires Inv(s, m, r, past) && (s.mode == LEN_ || s.mode == LEN)
    requires win.Recalls(past)
    ensures Visited(s, m, r, leave, s', m, r', past)
  {
    hide Inv, Visited, Moves, Step, Suffix, Received, Pow2, StateInv, TablesOk;
    InvShape(s, m, r, past);
    EnterLen(s, m, r, past);
    if |r.next| >= F.MIN_INPUT && r.left >= F.MIN_OUTPUT {
      leave := false;
      s', r' := F.InflateFast(s.(mode := LEN), m, r, past, win);
      VisitedFrom(s.(mode := LEN), m, r, false, s', m, r', past, s);
    } else {
      leave, s', r' := DoLen(s, m, r, past);
    }
  }

  /** Input, output and space are not part of what a state keeps. */
  lemma {:induction false} Keep(s: Fields, m: Meaning, r: Regs, past: seq<byte>, r': Regs, past': seq<byte>)
    requires Inv(s, m, r, past)
    requires r'.hold == r.hold && r'.bits == r.bits
    ensures Inv(s, m, r', past')
  {
    hide Step, Pow2, ToBits, Ok, ValidLens, TablesOk;
    StuckUnder(Conf(AbsState(s, m), Held(r), past + r.output), past' + r'.output);
  }

  lemma {:induction false} UnreadOf(r: Regs)
    ensures Unread(r) == ToBits(r.hold, r.bits) + ByteBits(r.next)
  {
  }

  /** The states of a call so far: from x, reached. */
  ghost predicate Progress(x: Conf, y: Conf)
  {
    x == y || Moves(x, y)
  }

  lemma {:induction false} Advance(x: Conf, y: Conf, z: Conf)
    requires Progress(x, y) && (y == z || Moves(y, z))
    ensures Progress(x, z)
  {
    hide Moves;
    if x != y && y != z { MovesTrans(x, y, z); }
  }

  lemma {:induction false} CallDone(x: Conf, y: Conf, room: nat)
    requires Ok(x.st) && Progress(x, y) && |y.out| <= |x.out| + room
    requires Ok(y.st) && (Step(y).None? || (NeedsSpace(y.st) && |y.out| == |x.out| + room))
    ensures CallSpec(x, y, room)
  {
    hide Step, Ok, Run;
    ReachesSelf(x);
  }

  /** Where a call that started at x with registers r0 has got to. */
  ghost predicate Reached(x: Conf, r0: Regs, s: Fields, m: Meaning, r: Regs, past: seq<byte>)
  {
    && Inv(s, m, r, past)
    && |r.output| + r.left == r0.left && Suffix(r0.next, r.next)
    && Progress(x, Abs(s, m, r, past))
  }

  /** No step is possible without more input or more space. */
  ghost predicate AtRest(s: Fields, m: Meaning, r: Regs, past: seq<byte>)
    requires Inv(s, m, r, past)
  {
    Step(Abs(s, m, r, past)).None? || (NeedsSpace(AbsState(s, m)) && r.left == 0)
  }

  ghost function StateRank(s: Fields, m: Meaning): (n: nat)
    requires Shape(s)
  {
    Rank(AbsState(s, m))
  }

  lemma {:induction false} Turned(x: Conf, r0: Regs, s: Fields, m: Meaning, r: Regs, leave: bool, s': Fields, m': Meaning, r': Regs, past: seq<byte>)
    requires Reached(x, r0, s, m, r, past) && Visited(s, m, r, leave, s', m', r', past)
    ensures Reached(x, r0, s', m', r', past) && Inv(s', m', r', past) && Shape(s')
    ensures leave ==> AtRest(s', m', r', past)
    ensures !leave ==>
      || |Unread(r')| < |Unread(r)|
      || (|Unread(r')| == |Unread(r)| && (r'.left < r.left || (r'.left == r.left && StateRank(s', m') < StateRank(s, m))))
  {
    hide Inv, Suffix, Step, Reaches, Progress, Rank, Unread, Ok, Moves;
    InvShape(s, m, r, past);
    SuffixTrans(r0.next, r.next, r'.next);
    InvShape(s', m', r', past);
    var y, z := Abs(s, m, r, past), Abs(s', m', r', past);
    Advance(x, y, z);
    if !leave { MovesAfter(y, z); }
  }

  lemma {:induction false} Started(s: Fields, m: Meaning, r: Regs, past: seq<byte>)
    requires Inv(s, m, r, past) && r.output == []
    ensures Shape(s) && Reached(Abs(s, m, r, past), r, s, m, r, past)
  {
    hide Inv, Step, Reaches, Unread, Ok;
    InvShape(s, m, r, past);
  }

  lemma {:induction false} Ended(s0: Fields, m0: Meaning, r0: Regs, s: Fields, m: Meaning, r: Regs, past: seq<byte>)
    requires Inv(s0, m0, r0, past) && r0.output == []
    requires Reached(Abs(s0, m0, r0, past), r0, s, m, r, past) && AtRest(s, m, r, past)
    ensures Shape(s0) && Shape(s) && Inv(s, m, r, past) && Suffix(r0.next, r.next) && |r.output| + r.left == r0.left
    ensures CallSpec(Abs(s0, m0, r0, past), Abs(s, m, r, past), r0.left)
  {
    hide Inv, Step, Reaches, Unread, Ok, Suffix, Progress, CallSpec;
    InvShape(s0, m0, r0, past);
    InvShape(s, m, r, past);
    CallDone(Abs(s0, m0, r0, past), Abs(s, m, r, past), r0.left);
  }

  /** The loop of inflate(): modes are visited until one cannot go on. */
  method Work(s: Fields, ghost m: Meaning, r: Regs, ghost past: seq<byte>, win: W.Window)
      returns (ret: Ret, s': Fields, ghost m': Meaning, r': Regs)
    requires Inv(s, m, r, past) && r.output == []
    requires !Finished(s) && s.mode != BAD ==> win.Recalls(past)
    ensures Shape(s) && Inv(s', m', r', past) && Shape(s') && Suffix(r.next, r'.next)
    ensures |r'.output| + r'.left == r.left
    ensures CallSpec(Abs(s, m, r, past), Abs(s', m', r', past), r.left)
    ensures ret == if s'.mode == DONE then STREAM_END else if s'.mode == BAD then DATA_ERROR else OK
    ensures s'.mode != CHECK && s'.mode != LENGTH
    ensures Finished(s) || s.mode == BAD ==> (Finished(s') || s'.mode == BAD) && r'.output == []
  {
    hide Inv, Visited, Suffix, Reached, AtRest, Abs, StateRank, Unread, CallSpec, Shape;
    Started(s, m, r, past);
    ghost var x := Abs(s, m, r, past);
    s', m', r' := s, m, r;
    var leave;
    leave, ret := false, OK;
    while !leave
      invariant Reached(x, r, s', m', r', past) && Inv(s', m', r', past) && Shape(s')
      invariant Finished(s) || s.mode == BAD ==> (Finished(s') || s'.mode == BAD) && r'.output == []
      invariant leave ==> AtRest(s', m', r', past)
      invariant leave ==> s'.mode != CHECK && s'.mode != LENGTH
      invariant leave ==> ret == if s'.mode == DONE then STREAM_END else if s'.mode == BAD then DATA_ERROR else OK
      decreases !leave, |Unread(r')|, r'.left, StateRank(s', m')
    {
      ghost var s0, m0, r0 := s', m', r';
      leave, ret, s', m', r' := Visit(s', m', r', past, win);
      Turned(x, r, s0, m0, r0, leave, s', m', r', past);
    }
    Ended(s, m, r, s', m', r', past);
  }

  lemma {:induction false} MovesAfter(x: Conf, y: Conf)
    requires Moves(x, y)
    ensures After(x, y)
  {
    hide Reaches, After;
  }

  /** What a state and an accumulator stand for between calls, about to see input. */
  ghost function Between(s: Fields, m: Meaning, hold: nat, bits: nat, input: seq<byte>, past: seq<byte>): (x: Conf)
    requires Shape(s)
  {
    Conf(AbsState(s, m), ToBits(hold, bits) + ByteBits(input), past)
  }

  lemma {:induction false} BetweenAbs(s: Fields, m: Meaning, r: Regs, past: seq<byte>)
    requires Shape(s)
    ensures Between(s, m, r.hold, r.bits, r.next, past + r.output) == Abs(s, m, r, past)
  {
    UnreadOf(r);
  }

  lemma {:induction false} ModeState(s: Fields, m: Meaning)
    requires Shape(s)
    ensures AbsState(s, m).Done? <==> Finished(s)
    ensures AbsState(s, m).Bad? <==> s.mode == BAD
  {
  }

  lemma {:induction false} SuffixDrop(a: seq<byte>, b: seq<byte>)
    requires Suffix(a, b)
    ensures |b| <= |a| && a[|a| - |b|..] == b
  {
  }

  /** The values of a call. */
  method CallOn(s: Fields, ghost m: Meaning, hold: nat, bits: nat, ghost past: seq<byte>, input: seq<byte>, room: nat, win: W.Window)
      returns (ret: Ret, s': Fields, ghost m': Meaning, hold': nat, bits': nat, consumed: nat, written: seq<byte>)
    requires Inv(s, m, Regs(hold, bits, [], [], 0), past)
    requires !Finished(s) && s.mode != BAD ==> win.Valid(past)
    ensures Inv(s', m', Regs(hold', bits', [], [], 0), past + written)
    ensures Shape(s) && Shape(s') && consumed <= |input|
    ensures var near := W.Recent(past, Pow2(win.wbits));
      CallSpec(Between(s, m, hold, bits, input, near), Between(s', m', hold', bits', input[consumed..], near + written), room)
    ensures ret == if AbsState(s', m').Done? then STREAM_END else if AbsState(s', m').Bad? then DATA_ERROR else OK
    ensures Finished(s) || s.mode == BAD ==> (Finished(s') || s'.mode == BAD) && written == []
  {
    hide Inv, Shape, Abs, Between, CallSpec, AbsState, Suffix, W.Window.Valid, W.Window.Recalls, W.Recent, Pow2, Step, Ok;
    ghost var r0, near := Regs(hold, bits, [], [], 0), W.Recent(past, Pow2(win.wbits));
    if !Finished(s) && s.mode != BAD { win.RecallsRecent(past); }
    InvShape(s, m, r0, past);
    var r := Regs(hold, bits, input, [], room);
    Keep(s, m, r0, past, r, near);
    BetweenAbs(s, m, r, near);
    assert near + [] == near;
    var r';
    ret, s', m', r' := Work(s, m, r, near, win);
    SuffixDrop(input, r'.next);
    consumed, written, hold', bits' := |input| - |r'.next|, r'.output, r'.hold, r'.bits;
    Keep(s', m', r', near, Regs(hold', bits', [], [], 0), past + written);
    BetweenAbs(s', m', r', near);
    ModeState(s', m');
  }

  /** What the window has is all that is needed when no match reaches back further. */
  lemma {:induction false} Remembered(s: Fields, m: Meaning, hold: nat, bits: nat, input: seq<byte>, past: seq<byte>,
      s': Fields, m': Meaning, hold': nat, bits': nat, rest: seq<byte>, written: seq<byte>, room: nat, w: nat)
    requires Shape(s) && Shape(s') && Within(Between(s, m, hold, bits, input, past), w)
    requires CallSpec(Between(s, m, hold, bits, input, W.Recent(past, w)), Between(s', m', hold', bits', rest, W.Recent(past, w) + written), room)
    ensures CallSpec(Between(s, m, hold, bits, input, past), Between(s', m', hold', bits', rest, past + written), room)
  {
    hide Shape, CallSpec, AbsState, Within, ToBits, ByteBits;
    var near := W.Recent(past, w);
    var far := past[..|past| - |near|];
    assert far + near == past && far + (near + written) == past + written;
    CallUnder(far, Between(s, m, hold, bits, input, near), Between(s', m', hold', bits', rest, near + written), room, w);
  }

  /** The same, also as seen from all that has been written. */
  method CallWith(s: Fields, ghost m: Meaning, hold: nat, bits: nat, ghost past: seq<byte>, input: seq<byte>, room: nat, win: W.Window)
      returns (ret: Ret, s': Fields, ghost m': Meaning, hold': nat, bits': nat, consumed: nat, written: seq<byte>)
    requires Inv(s, m, Regs(hold, bits, [], [], 0), past)
    requires !Finished(s) && s.mode != BAD ==> win.Valid(past)
    ensures Inv(s', m', Regs(hold', bits', [], [], 0), past + written)
    ensures Shape(s) && Shape(s') && consumed <= |input|
    ensures var near := W.Recent(past, Pow2(win.wbits));
      CallSpec(Between(s, m, hold, bits, input, near), Between(s', m', hold', bits', input[consumed..], near + written), room)
    ensures Within(Between(s, m, hold, bits, input, past), Pow2(win.wbits)) ==>
      CallSpec(Between(s, m, hold, bits, input, past), Between(s', m', hold', bits', input[consumed..], past + written), room)
    ensures ret == if AbsState(s', m').Done? then STREAM_END else if AbsState(s', m').Bad? then DATA_ERROR else OK
    ensures Finished(s) || s.mode == BAD ==> (Finished(s') || s'.mode == BAD) && written == []
  {
    hide Inv, Shape, Between, CallSpec, AbsState, W.Window.Valid, W.Recent, Pow2, Within;
    ret, s', m', hold', bits', consumed, written := CallOn(s, m, hold, bits, past, input, room, win);
    if Within(Between(s, m, hold, bits, input, past), Pow2(win.wbits)) {
      Remembered(s, m, hold, bits, input, past, s', m', hold', bits', input[consumed..], written, room, Pow2(win.wbits));
    }
  }

  /** A raw inflate stream. */
  class Inflater {
    var s: Fields
    var hold: nat
    var bits: nat
    const window: W.Window
    ghost var m: Meaning
    ghost var past: seq<byte>    // everything written so far

    ghost predicate Valid()
      reads this, window, window.data
    {
      && Inv(s, m, Regs(hold, bits, [], [], 0), past)
      && ((!Finished(s) && s.mode != BAD) || window.wsize != 0 ==> window.Valid(past))
    }

    /** The stream, about to see input. */
    ghost function Facing(input: seq<byte>): (x: Conf)
      requires Shape(s)
      reads this
    {
      Between(s, m, hold, bits, input, past)
    }

    /** The same, as far back as the window goes. */
    ghost function Seeing(input: seq<byte>): (x: Conf)
      requires Shape(s)
      reads this
    {
      Between(s, m, hold, bits, input, W.Recent(past, Pow2(window.wbits)))
    }

    /** inflateInit2 for raw deflate data. */
    constructor (windowBits: nat)
      requires 8 <= windowBits <= 15
      ensures window.wbits == windowBits && Valid() && Shape(s) && past == [] && StreamOf(s, m, hold, bits, 0, past) == Stream(Type(false), [], 0, [])
      ensures fresh(window) && fresh(window.data)
    {
      s := Fields(TYPE, false, 0, 0, 0, [], [], 0, 0, 0, 0, 0, 0, seq(320, _ => 0));
      hold, bits := 0, 0;
      window := new W.Window(windowBits);
      m, past := Meaning([], Codes([], [])), [];
    }

    /** A call of inflate() with Z_NO_FLUSH, or with Z_FINISH. It decodes as if nothing had been
        written before what the window still has; nothing is missed if no match reaches back
        further than the window is long. */
    method Inflate(input: seq<byte>, room: nat, finish: bool) returns (ret: Ret, consumed: nat, written: seq<byte>)
      requires Valid()
      modifies this, window, window.data
      ensures window.data == old(window.data)
      ensures Valid() && Shape(s) && old(Shape(s)) && consumed <= |input|
      ensures past == old(past) + written
      ensures CallSpec(old(Seeing(input)), Between(s, m, hold, bits, input[consumed..], W.Recent(old(past), Pow2(window.wbits)) + written), room)
      ensures Within(old(Facing(input)), Pow2(window.wbits)) ==> CallSpec(old(Facing(input)), Facing(input[consumed..]), room)
      ensures ret == STREAM_END <==> AbsState(s, m).Done?
      ensures ret == DATA_ERROR <==> AbsState(s, m).Bad?
      ensures ret == BUF_ERROR <==> !AbsState(s, m).Done? && !AbsState(s, m).Bad? && (finish || (consumed == 0 && written == []))
    {
      hide Inv, Shape, Between, CallSpec, AbsState, W.Window.Valid, W.Recent, Pow2, Within;
      var s', hold', bits';
      ghost var m';
      ret, s', m', hold', bits', consumed, written := CallWith(s, m, hold, bits, past, input, room, window);
      UpdateWindow(s', written, finish);
      s, m, hold, bits, past := s', m', hold', bits', past + written;
      if ((consumed == 0 && written == []) || finish) && ret == OK {
        ret := BUF_ERROR;
      }
    }

    /** The window follows the output, unless it can no longer be needed. */
    method UpdateWindow(s': Fields, written: seq<byte>, finish: bool)
      requires (!Finished(s) && s.mode != BAD) || window.wsize != 0 ==> window.Valid(past)
      requires Finished(s) || s.mode == BAD ==> (Finished(s') || s'.mode == BAD) && written == []
      modifies window, window.data
      ensures window.data == old(window.data)
      ensures (!Finished(s') && s'.mode != BAD) || window.wsize != 0 ==> window.Valid(past + written)
    {
      if window.wsize != 0 || (written != [] && s'.mode != BAD && (!Finished(s') || !finish)) {
        window.Update(written, past);
      } else if written == [] {
        assert past + written == past;
      }
    }
  }

  /** The stream of InflateSpec that an Inflater stands for, pos bytes of data into the input. */
  ghost function StreamOf(s: Fields, m: Meaning, hold: nat, bits: nat, pos: nat, past: seq<byte>): (t: Stream)
    requires Shape(s)
  {
    Stream(AbsState(s, m), ToBits(hold, bits), pos, past)
  }

  lemma {:induction false} StreamView(s: Fields, m: Meaning, hold: nat, bits: nat, pos: nat, past: seq<byte>, data: seq<byte>, upto: nat)
    requires Shape(s) && pos <= upto <= |data|
    ensures View(data, StreamOf(s, m, hold, bits, pos, past), upto) == Between(s, m, hold, bits, data[pos..upto], past)
    ensures StreamOf(s, m, hold, bits, pos, past).pos == pos && StreamOf(s, m, hold, bits, pos, past).out == past
  {
    hide AbsState, ToBits, ByteBits;
  }

  /** One call of a session, with avail bytes of data offered. */
  method OneCall(z: Inflater, data: seq<byte>, pos: nat, avail: nat, room: nat) returns (ret: Ret, pos': nat, written: seq<byte>, ghost t: Stream)
    requires z.Valid() && pos + avail <= |data|
    modifies z, z.window, z.window.data
    ensures z.window.data == old(z.window.data)
    ensures z.Valid() && Shape(z.s) && old(Shape(z.s)) && pos' <= |data|
    ensures t == StreamOf(z.s, z.m, z.hold, z.bits, pos', z.past) && t.pos == pos' && t.out == z.past && z.past == old(z.past) + written
    ensures Within(View(data, old(StreamOf(z.s, z.m, z.hold, z.bits, pos, z.past)), |data|), Pow2(z.window.wbits)) ==>
      Call(data, old(StreamOf(z.s, z.m, z.hold, z.bits, pos, z.past)), avail, room, t)
    ensures ret == STREAM_END <==> t.st.Done?
    ensures ret == DATA_ERROR <==> t.st.Bad?
  {
    hide Inv, Shape, CallSpec, AbsState, View, Between, Within, Pow2, W.Recent;
    var consumed;
    ghost var s, m, hold, bits, past := z.s, z.m, z.hold, z.bits, z.past;
    ret, consumed, written := z.Inflate(data[pos..pos + avail], room, false);
    pos' := pos + consumed;
    t := StreamOf(z.s, z.m, z.hold, z.bits, pos', z.past);
    StreamView(s, m, hold, bits, pos, past, data, pos + avail);
    StreamView(z.s, z.m, z.hold, z.bits, pos', z.past, data, pos + avail);
    assert data[pos..pos + avail][consumed..] == data[pos'..pos + avail];
    ghost var t0 := StreamOf(s, m, hold, bits, pos, past);
    if Within(View(data, t0, |data|), Pow2(z.window.wbits)) { WithinOffered(data, t0, pos + avail, Pow2(z.window.wbits)); }
  }

  /** The input offered is part of the data. */
  lemma {:induction false} WithinOffered(data: seq<byte>, t: Stream, upto: nat, d: nat)
    requires t.pos <= upto <= |data| && Within(View(data, t, |data|), d)
    ensures Within(View(data, t, upto), d)
  {
    hide Within, View, ByteBits;
    ViewExtend(data, t, upto);
    WithinPart(View(data, t, upto), ByteBits(data[upto..]), d);
  }

  /** What is still to come is part of the whole. */
  lemma {:induction false} WithinNext(data: seq<byte>, t: Stream, avail: nat, room: nat, t': Stream, d: nat)
    requires Call(data, t, avail, room, t') && Within(View(data, t, |data|), d)
    ensures t'.pos <= |data| && Within(View(data, t', |data|), d)
  {
    hide Within, View, Call;
    CallRuns(data, t, avail, room, t');
    WithinFrom(View(data, t, |data|), View(data, t', |data|), d);
  }

  /** The data, from the start, has no match that reaches back further than the window is long. */
  ghost predicate WindowFits(data: seq<byte>, windowBits: nat)
  {
    Within(Conf(Type(false), ByteBits(data), []), Pow2(windowBits))
  }

  /** A window of 15 bits is always large enough. */
  lemma {:induction false} FullWindow(data: seq<byte>)
    ensures WindowFits(data, 15)
  {
    hide Within, ByteBits;
    FullIsPow2();
    WithinAlways(Conf(Type(false), ByteBits(data), []));
  }

  lemma {:induction false} FirstView(data: seq<byte>)
    ensures View(data, Stream(Type(false), [], 0, []), |data|) == Conf(Type(false), ByteBits(data), [])
  {
    hide ByteBits;
    assert data[0..|data|] == data && [] + ByteBits(data) == ByteBits(data);
  }

  /** At most what is left. */
  function Offered(size: nat, total: nat, pos: nat): (avail: int)
  {
    if size < total - pos then size else total - pos
  }

  /** Any schedule of input and output sizes: the calls made form a session of InflateSpec, if
      the window is large enough for the data. */
  method Decompress(windowBits: nat, data: seq<byte>, sizes: seq<(nat, nat)>)
      returns (out: seq<byte>, ret: Ret, ghost streams: seq<Stream>, ghost calls: seq<(nat, nat)>)
    requires 8 <= windowBits <= 15
    ensures WindowFits(data, windowBits) ==> Session(data, streams, calls)
    ensures |calls| == |sizes| && |streams| == |calls| + 1
    ensures streams[0] == Stream(Type(false), [], 0, [])
    ensures out == streams[|calls|].out
    ensures forall i :: 0 <= i < |sizes| ==> calls[i].1 == sizes[i].1 && calls[i].0 == Offered(sizes[i].0, |data|, streams[i].pos)
    ensures if |sizes| == 0 then ret == OK else (ret == STREAM_END <==> streams[|calls|].st.Done?) && (ret == DATA_ERROR <==> streams[|calls|].st.Bad?)
  {
    hide Inv, Shape, CallSpec, AbsState, View, Between, Call, ToBits, StreamOf, Within, Pow2, W.Recent, ByteBits;
    var z := new Inflater(windowBits);
    var pos: nat := 0;
    ret := OK;
    streams, calls := [StreamOf(z.s, z.m, z.hold, z.bits, 0, z.past)], [];
    assert View(data, streams[0], |data|) == Conf(Type(false), ByteBits(data), []) by { FirstView(data); }
    out := [];
    for i := 0 to |sizes|
      invariant fresh(z) && fresh(z.window) && fresh(z.window.data) && z.Valid() && Shape(z.s)
      invariant z.window.wbits == windowBits && pos <= |data| && |calls| == i && |streams| == i + 1
      invariant streams[0] == Stream(Type(false), [], 0, [])
      invariant streams[i] == StreamOf(z.s, z.m, z.hold, z.bits, pos, z.past) && streams[i].pos == pos
      invariant WindowFits(data, windowBits) ==> Session(data, streams, calls) && Within(View(data, streams[i], |data|), Pow2(windowBits))
      invariant out == z.past == streams[i].out
      invariant forall k :: 0 <= k < i ==> calls[k].1 == sizes[k].1 && calls[k].0 == Offered(sizes[k].0, |data|, streams[k].pos)
      invariant if i == 0 then ret == OK else (ret == STREAM_END <==> streams[i].st.Done?) && (ret == DATA_ERROR <==> streams[i].st.Bad?)
    {
      var avail := Offered(sizes[i].0, |data|, pos);
      ghost var t;
      var written;
      ret, pos, written, t := OneCall(z, data, pos, avail, sizes[i].1);
      if WindowFits(data, windowBits) { WithinNext(data, streams[i], avail, sizes[i].1, t, Pow2(windowBits)); }
      out := out + written;
      streams, calls := streams + [t], calls + [(avail, sizes[i].1)];
    }
  }
}
