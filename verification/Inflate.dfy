/** inflate() of inflate.c on raw deflate data: a resumable mode machine that pulls input
    byte by byte into a bit accumulator, decodes through tables, and copies matches from
    its output or from the circular window. Every call is a run of InflateSpec. */
module Inflate {
  import opened Bits
  import opened Canonical
  import opened InflateTable
  import opened Lz77
  import opened InflateSpec
  import W = Window

  datatype Mode =
    | TYPE | TYPEDO | STORED | COPY_ | COPY | TABLE | LENLENS | CODELENS
    | LEN_ | LEN | LENEXT | DIST | DISTEXT | MATCH | LIT | CHECK | LENGTH | DONE | BAD

  // ----- the bit accumulator: hold has the bits of ToBits(hold, bits), zeros above -----

  lemma {:induction false} PullBits(hold: nat, bits: nat, b: byte)
    requires hold < Pow2(bits)
    ensures hold + Shl(b, bits) < Pow2(bits + 8)
    ensures ToBits(hold + Shl(b, bits), bits + 8) == ToBits(hold, bits) + ToBits(b, 8)
  {
    hide Low, Shr, Shl, ToBits;
    var v := hold + Shl(b, bits);
    Join(hold, b, bits);
    ToBitsConcat(v, bits, 8);
    ToBitsLow(v, bits);
    ShlMonotone(b, 256, bits);
    assert Pow2(8) == 256;
    ShlPow2(8, bits);
  }

  lemma {:induction false} DropHeld(hold: nat, bits: nat, n: nat)
    requires hold < Pow2(bits) && n <= bits
    ensures Shr(hold, n) < Pow2(bits - n)
    ensures ToBits(Shr(hold, n), bits - n) == ToBits(hold, bits)[n..]
    ensures Low(hold, n) == Lsb(ToBits(hold, bits)[..n])
  {
    hide Low, Shr, ToBits, Lsb, Pow2;
    ShrBound(hold, n, bits - n);
    ToBitsConcat(hold, n, bits - n);
    LsbToBits(hold, n);
  }

  lemma {:induction false} HeldValue(hold: nat, bits: nat)
    requires hold < Pow2(bits)
    ensures Lsb(ToBits(hold, bits)) == hold
  {
    hide Low, ToBits, Lsb;
    LsbToBits(hold, bits);
    LowSmall(hold, bits);
  }

  lemma {:induction false} DropPrefix(a: BitString, b: BitString, n: nat)
    requires n <= |a|
    ensures (a + b)[n..] == a[n..] + b && (a + b)[..n] == a[..n]
  {
  }

  /** The code-length vector of a dynamic block as received in the order of ORDER. */
  function Received(lens: seq<nat>, have: nat): (cl: seq<nat>)
    requires |lens| == 320 && have <= 19
    ensures |cl| == have
  {
    if have == 0 then [] else Received(lens, have - 1) + [lens[ORDER[have - 1]]]
  }

  /** inflate_state between and during calls. */
  datatype Fields = Fields(
    mode: Mode, last: bool, length: nat, offset: nat, extra: nat,
    lencode: seq<Entry>, distcode: seq<Entry>, lenbits: nat, distbits: nat,
    ncode: nat, nlen: nat, ndist: nat, have: nat, lens: seq<nat>)

  /** The registers of a call: accumulator, input not yet read, bytes written, space left. */
  datatype Regs = Regs(hold: nat, bits: nat, next: seq<byte>, output: seq<byte>, left: nat)

  /** The codes that the tables of the state stand for. */
  datatype Meaning = Meaning(code: seq<nat>, codes: Codes)

  ghost function Held(r: Regs): (b: BitString)
    ensures |b| == r.bits
  {
    ToBits(r.hold, r.bits)
  }

  ghost function Unread(r: Regs): (b: BitString)
    ensures |b| == r.bits + 8 * |r.next|
  {
    Held(r) + ByteBits(r.next)
  }

  ghost predicate Shape(s: Fields)
  {
    && |s.lens| == 320
    && (s.mode == LENLENS ==> s.have <= 19)
    && (s.mode == CODELENS ==> s.have <= 320)
  }

  ghost function AbsState(s: Fields, m: Meaning): (st: State)
    requires Shape(s)
  {
    match s.mode
    case TYPE => Type(s.last)
    case TYPEDO => Type(s.last)
    case STORED => Stored(s.last)
    case COPY_ => Copy(s.last, s.length)
    case COPY => Copy(s.last, s.length)
    case TABLE => Table(s.last)
    case LENLENS => LenLens(s.last, s.ncode, s.nlen, s.ndist, Received(s.lens, s.have))
    case CODELENS => CodeLens(s.last, s.nlen, s.ndist, s.lens[..s.have], m.code)
    case LEN_ => Len(s.last, m.codes)
    case LEN => Len(s.last, m.codes)
    case LENEXT => LenExt(s.last, m.codes, s.length, s.extra)
    case DIST => Dist(s.last, m.codes, s.length)
    case DISTEXT => DistExt(s.last, m.codes, s.length, s.offset, s.extra)
    case MATCH => Match(s.last, m.codes, s.length, s.offset)
    case LIT => Lit(s.last, m.codes, s.length)
    case CHECK => Done
    case LENGTH => Done
    case DONE => Done
    case BAD => Bad
  }

  ghost function Abs(s: Fields, m: Meaning, r: Regs, past: seq<byte>): (x: Conf)
    requires Shape(s)
  {
    Conf(AbsState(s, m), Unread(r), past + r.output)
  }

  /** The tables in use decode the codes in use. */
  ghost predicate TablesOk(s: Fields, m: Meaning)
  {
    match s.mode
    case CODELENS =>
      && CodeOk(m.code) && TableFor(CODES, m.code, s.lencode, s.lenbits)
      && forall i :: 0 <= i < |s.lencode| ==> !IsLink(s.lencode[i])
    case LEN_ => CodesReady(s, m)
    case LEN => CodesReady(s, m)
    case LENEXT => CodesReady(s, m)
    case DIST => CodesReady(s, m)
    case DISTEXT => CodesReady(s, m)
    case MATCH => CodesReady(s, m)
    case LIT => CodesReady(s, m)
    case _ => true
  }

  ghost predicate CodesReady(s: Fields, m: Meaning)
  {
    && CodesOk(m.codes)
    && TableFor(LENS, m.codes.llens, s.lencode, s.lenbits)
    && TableFor(DISTS, m.codes.dlens, s.distcode, s.distbits)
  }

  ghost predicate StateInv(s: Fields, m: Meaning)
  {
    Shape(s) && Ok(AbsState(s, m)) && ValidLens(s.lens) && TablesOk(s, m)
  }

  /** The accumulator holds less than a byte, or too little for the next step. */
  ghost predicate Tight(s: Fields, m: Meaning, r: Regs, past: seq<byte>)
    requires StateInv(s, m)
  {
    && (r.bits < 8 || Step(Conf(AbsState(s, m), Held(r), past + r.output)).None?)
    && (s.mode == COPY_ || s.mode == COPY ==> r.bits == 0)
  }

  ghost predicate Inv(s: Fields, m: Meaning, r: Regs, past: seq<byte>)
  {
    StateInv(s, m) && r.hold < Pow2(r.bits) && Tight(s, m, r, past)
  }

  // ----- PULLBYTE, NEEDBITS, DROPBITS -----

  function PullByte(r: Regs): (r': Regs)
    requires r.next != [] && r.hold < Pow2(r.bits)
    ensures r'.hold < Pow2(r'.bits) && r'.bits == r.bits + 8 && r'.next == r.next[1..]
    ensures r'.output == r.output && r'.left == r.left
    ensures Unread(r') == Unread(r)
  {
    PullBits(r.hold, r.bits, r.next[0]);
    assert Unread(r) == ToBits(r.hold, r.bits) + (ToBits(r.next[0], 8) + ByteBits(r.next[1..]));
    r.(hold := r.hold + Shl(r.next[0], r.bits), bits := r.bits + 8, next := r.next[1..])
  }

  /** Input is only consumed from the front. */
  ghost predicate Suffix(a: seq<byte>, b: seq<byte>)
  {
    |b| <= |a| && b == a[|a| - |b|..]
  }

  lemma {:induction false} SuffixRefl(a: seq<byte>)
    ensures Suffix(a, a)
  {
  }

  lemma {:induction false} SuffixTrans(a: seq<byte>, b: seq<byte>, c: seq<byte>)
    requires Suffix(a, b) && Suffix(b, c)
    ensures Suffix(a, c)
  {
  }

  lemma {:induction false} SuffixNext(a: seq<byte>, b: seq<byte>)
    requires Suffix(a, b) && b != []
    ensures Suffix(a, b[1..])
  {
  }

  /** At least n bits in the accumulator, or no input left. */
  method NeedBits(r: Regs, n: nat) returns (r': Regs, ok: bool)
    requires r.hold < Pow2(r.bits)
    ensures r'.hold < Pow2(r'.bits) && Unread(r') == Unread(r)
    ensures r'.output == r.output && r'.left == r.left && Suffix(r.next, r'.next)
    ensures ok <==> r'.bits >= n
    ensures !ok ==> r'.next == [] && Held(r') == Unread(r)
    ensures r.bits <= r'.bits && (r'.bits < n + 8 || r' == r)
  {
    hide Pow2, Unread, Shl, Held, Suffix, PullByte;
    r' := r;
    SuffixRefl(r.next);
    while r'.bits < n
      invariant r'.hold < Pow2(r'.bits) && Unread(r') == Unread(r)
      invariant r'.output == r.output && r'.left == r.left && Suffix(r.next, r'.next)
      invariant r.bits <= r'.bits && (r'.bits < n + 8 || r' == r)
      decreases |r'.next|
    {
      if r'.next == [] {
        NothingUnread(r');
        return r', false;
      }
      SuffixNext(r.next, r'.next);
      r' := PullByte(r');
    }
    return r', true;
  }

  lemma {:induction false} NothingUnread(r: Regs)
    requires r.next == []
    ensures Unread(r) == Held(r)
  {
  }

  function DropBits(r: Regs, n: nat): (r': Regs)
    requires n <= r.bits && r.hold < Pow2(r.bits)
    ensures r'.hold < Pow2(r'.bits) && r'.bits == r.bits - n
    ensures r'.next == r.next && r'.output == r.output && r'.left == r.left
    ensures Unread(r') == Unread(r)[n..]
  {
    DropHeld(r.hold, r.bits, n);
    DropPrefix(ToBits(r.hold, r.bits), ByteBits(r.next), n);
    r.(hold := Shr(r.hold, n), bits := r.bits - n)
  }

  /** BITS(n): the value of the first n unread bits. */
  function BitsOf(r: Regs, n: nat): (v: nat)
    requires n <= r.bits && r.hold < Pow2(r.bits)
    ensures v == Lsb(Unread(r)[..n]) && v < Pow2(n)
  {
    DropHeld(r.hold, r.bits, n);
    DropPrefix(ToBits(r.hold, r.bits), ByteBits(r.next), n);
    Low(r.hold, n)
  }

  // ----- keeping the invariant -----

  /** What one visit to a mode does: leaves with nothing more to do, or moves on. */
  ghost predicate Visited(s: Fields, m: Meaning, r: Regs, leave: bool, s': Fields, m': Meaning, r': Regs, past: seq<byte>)
    requires Shape(s)
  {
    && Inv(s', m', r', past)
    && |r'.output| + r'.left == |r.output| + r.left
    && Suffix(r.next, r'.next)
    && var x, y := Abs(s, m, r, past), Abs(s', m', r', past);
    && if leave then y == x && (Step(y).None? || (NeedsSpace(y.st) && r'.left == 0)) else y != x && Moves(x, y)
  }

  /** A step has been taken and less than a byte is left in the accumulator. */
  lemma {:induction false} Stepped(s: Fields, m: Meaning, r: Regs, s': Fields, m': Meaning, r': Regs, past: seq<byte>)
    requires StateInv(s, m)
    requires Shape(s') && ValidLens(s'.lens) && TablesOk(s', m')
    requires Step(Abs(s, m, r, past)) == Some(Abs(s', m', r', past))
    requires r'.hold < Pow2(r'.bits) && (r'.bits < 8 || s'.mode == BAD)
    requires s'.mode == COPY_ || s'.mode == COPY ==> r'.bits == 0
    requires |r'.output| + r'.left == |r.output| + r.left && Suffix(r.next, r'.next)
    ensures Visited(s, m, r, false, s', m', r', past)
  {
    hide Step, Ok, TablesOk, ValidLens, Pow2, Unread, Reaches, Received;
    StepMoves(Abs(s, m, r, past), Abs(s', m', r', past));
    MovesGrow(Abs(s, m, r, past), Abs(s', m', r', past));
    if s'.mode == BAD { AtBad(Conf(Bad, Held(r'), past + r'.output)); }
  }

  lemma {:induction false} MovesGrow(x: Conf, y: Conf)
    requires Moves(x, y)
    ensures x != y
  {
    hide Reaches;
  }

  /** The input ran out before a step was possible. */
  lemma {:induction false} Stuck(s: Fields, m: Meaning, r: Regs, s': Fields, r': Regs, past: seq<byte>)
    requires StateInv(s, m) && StateInv(s', m) && AbsState(s', m) == AbsState(s, m)
    requires r'.hold < Pow2(r'.bits) && r'.output == r.output && Held(r') == Unread(r') == Unread(r)
    requires Step(Abs(s, m, r, past)).None?
    requires s'.mode != COPY_ && s'.mode != COPY
    requires r'.left == r.left && Suffix(r.next, r'.next)
    ensures Visited(s, m, r, true, s', m, r', past)
  {
    hide Step, Ok, TablesOk, AbsState, ValidLens, Pow2, Unread, Moves;
  }

  /** After pulling for a step that needs n bits, fewer than a byte will be left over. */
  lemma {:induction false} FewLeft(s: Fields, m: Meaning, r: Regs, r': Regs, n: nat, past: seq<byte>)
    requires Inv(s, m, r, past)
    requires r'.bits < n + 8 || r' == r
    requires r' == r && r.bits >= n ==> Step(Conf(AbsState(s, m), Held(r), past + r.output)).Some?
    ensures r'.bits < n + 8
  {
    hide Step, Ok, TablesOk, AbsState, ValidLens, Pow2, Unread, Held;
  }

  // ----- TYPE, TYPEDO -----

  method DoType(s: Fields, ghost m: Meaning, r: Regs, ghost past: seq<byte>)
      returns (leave: bool, s': Fields, ghost m': Meaning, r': Regs)
    requires Inv(s, m, r, past) && (s.mode == TYPE || s.mode == TYPEDO)
    ensures Visited(s, m, r, leave, s', m', r', past)
  {
    hide Visited, Tight, Suffix, Pow2, Low, Shr, Lsb, Held, Step, Ok, TableFor, CodesOk, ByteBits, FixedCodes, Unread, ValidLens, Moves;
    ghost var x := Abs(s, m, r, past);
    ghost var b := Unread(r);
    AtType(x);
    AtType(x.(bits := Held(r)));
    s', m' := s, m;
    if s.last {
      FewLeft(s, m, r, r, 0, past);
      SuffixRefl(r.next);
      r' := DropBits(r, r.bits % 8);
      s' := s.(mode := CHECK);
      Stepped(s, m, r, s', m', r', past);
      return false, s', m', r';
    }
    var ok;
    r', ok := NeedBits(r, 3);
    if !ok {
      Stuck(s, m, r, s', r', past);
      return true, s', m', r';
    }
    FewLeft(s, m, r, r', 3, past);
    s', m', r' := BlockHeader(s, m, r', past);
    Stepped(s, m, r, s', m', r', past);
    return false, s', m', r';
  }

  /** The three header bits of a block. */
  method BlockHeader(s: Fields, ghost m: Meaning, r: Regs, ghost past: seq<byte>)
      returns (s': Fields, ghost m': Meaning, r': Regs)
    requires Shape(s) && ValidLens(s.lens) && r.hold < Pow2(r.bits) && r.bits >= 3
    ensures Shape(s') && ValidLens(s'.lens) && TablesOk(s', m') && s'.mode != COPY_ && s'.mode != COPY
    ensures r'.hold < Pow2(r'.bits) && r'.bits == r.bits - 3 && r'.left == r.left && r'.output == r.output && r'.next == r.next
    ensures StepType(false, Unread(r), past + r.output) == Some(Abs(s', m', r', past))
  {
    hide Pow2, Low, Shr, Lsb, Held, TableFor, CodesOk, ByteBits, FixedCodes, Unread, ValidLens;
    TypeBits(Unread(r));
    s', m' := s.(last := BitsOf(r, 1) == 1), m;
    r' := DropBits(r, 1);
    var t := BitsOf(r', 2);
    r' := DropBits(r', 2);
    if t == 0 {
      s' := s'.(mode := STORED);
    } else if t == 1 {
      s', m' := FixedTables(s', m);
    } else if t == 2 {
      s' := s'.(mode := TABLE);
    } else {
      s' := s'.(mode := BAD);
    }
  }

  method FixedTables(s: Fields, ghost m: Meaning) returns (s': Fields, ghost m': Meaning)
    ensures m' == m.(codes := FixedCodes())
    ensures s' == s.(mode := LEN_, lencode := s'.lencode, lenbits := s'.lenbits, distcode := s'.distcode, distbits := s'.distbits)
    ensures CodesReady(s', m')
  {
    hide Pow2, Acceptable, Kraft, TableFor, TableSize, FixedCodes, Exceeds, ValidLens, RootBits;
    m' := m.(codes := FixedCodes());
    FixedFacts();
    var ok, lencode, lenbits := OneTable(LENS, FixedCodes().llens, 9);
    var ok', distcode, distbits := OneTable(DISTS, FixedCodes().dlens, 5);
    s' := s.(mode := LEN_, lencode := lencode, lenbits := lenbits, distcode := distcode, distbits := distbits);
  }

  // ----- STORED, COPY_, COPY -----

  /** BYTEBITS: to the next byte boundary. */
  method AlignStored(s: Fields, ghost m: Meaning, r: Regs, ghost past: seq<byte>) returns (r': Regs)
    requires Inv(s, m, r, past) && s.mode == STORED && r.bits % 8 != 0
    ensures Visited(s, m, r, false, s, m, r', past) && r'.bits % 8 == 0
  {
    hide Visited, Tight, Suffix, Pow2, Low, Shr, Lsb, Held, Step, Ok, TableFor, CodesOk, ByteBits, Unread, ValidLens, Moves;
    ghost var x := Abs(s, m, r, past);
    AtStored(x);
    AtStored(x.(bits := Held(r)));
    FewLeft(s, m, r, r, 0, past);
    SuffixRefl(r.next);
    r' := DropBits(r, r.bits % 8);
    Stepped(s, m, r, s, m, r', past);
  }

  method DoStored(s: Fields, ghost m: Meaning, r: Regs, ghost past: seq<byte>)
      returns (leave: bool, s': Fields, r': Regs)
    requires Inv(s, m, r, past) && s.mode == STORED && r.bits % 8 == 0
    ensures Visited(s, m, r, leave, s', m, r', past)
  {
    hide Visited, Tight, Suffix, Pow2, Low, Shr, Lsb, Held, Step, Ok, TableFor, CodesOk, ByteBits, Unread, ValidLens, Moves;
    ghost var x := Abs(s, m, r, past);
    ghost var b := Unread(r);
    AtStored(x);
    AtStored(x.(bits := Held(r)));
    var ok;
    r', ok := NeedBits(r, 32);
    s' := s;
    if !ok {
      Stuck(s, m, r, s', r', past);
      return true, s', r';
    }
    FewLeft(s, m, r, r', 32, past);
    s', r' := StoredLength(s, m, r', past);
    Stepped(s, m, r, s', m, r', past);
    return false, s', r';
  }

  /** The length of a stored block and its complement. */
  method StoredLength(s: Fields, ghost m: Meaning, r: Regs, ghost past: seq<byte>) returns (s': Fields, r': Regs)
    requires Shape(s) && ValidLens(s.lens) && s.mode == STORED && r.hold < Pow2(r.bits) && r.bits == 32
    ensures Shape(s') && ValidLens(s'.lens) && TablesOk(s', m) && (s'.mode == COPY_ || s'.mode == COPY ==> r'.bits == 0)
    ensures r'.hold < Pow2(r'.bits) && (s'.mode == BAD || r'.bits == 0) && r'.left == r.left && r'.output == r.output && r'.next == r.next
    ensures StepStored(s.last, Unread(r), past + r.output) == Some(Abs(s', m, r', past))
  {
    hide Pow2, Low, Shr, Lsb, Held, ByteBits, Unread, ValidLens;
    s', r' := s, r;
    Slices(Unread(r), 16, 32);
    var n := BitsOf(r, 16);
    var r1 := DropBits(r, 16);
    var k := BitsOf(r1, 16);
    if n + k != 65535 {
      s' := s.(mode := BAD);
    } else {
      InitBits(r);
      r' := r.(hold := 0, bits := 0);
      s' := s.(length := n, mode := COPY_);
    }
  }

  lemma {:induction false} Slices(b: BitString, i: nat, j: nat)
    requires i <= j <= |b|
    ensures b[i..][..j - i] == b[i..j] && b[i..][j - i..] == b[j..]
  {
  }

  /** INITBITS when the accumulator is used up. */
  lemma {:induction false} InitBits(r: Regs)
    ensures Unread(r.(hold := 0, bits := 0)) == Unread(r)[r.bits..]
    ensures 0 < Pow2(0)
  {
  }
  method DoCopy(s: Fields, ghost m: Meaning, r: Regs, ghost past: seq<byte>)
      returns (leave: bool, s': Fields, r': Regs)
    requires Inv(s, m, r, past) && (s.mode == COPY_ || s.mode == COPY)
    ensures Visited(s, m, r, leave, s', m, r', past)
  {
    hide Pow2, Low, Shr, Lsb, Step, Ok, TableFor, CodesOk, ByteBits, Unread, ValidLens, Moves, Held;
    ghost var x := Abs(s, m, r, past);
    AtCopy(x);
    s', r' := s.(mode := COPY), r;
    if s.length == 0 {
      s' := s.(mode := TYPE);
      Stepped(s, m, r, s', m, r', past);
      return false, s', r';
    }
    var copy := s.length;
    if copy > |r.next| {
      copy := |r.next|;
    }
    if copy > r.left {
      copy := r.left;
    }
    if copy == 0 {
      return true, s', r';
    }
    s' := s'.(length := s.length - copy);
    r' := r.(next := r.next[copy..], output := r.output + r.next[..copy], left := r.left - copy);
    CopyRun(s, m, r, past, copy);
    return false, s', r';
  }

  lemma {:induction false} CopyRun(s: Fields, m: Meaning, r: Regs, past: seq<byte>, copy: nat)
    requires Inv(s, m, r, past) && (s.mode == COPY_ || s.mode == COPY)
    requires 1 <= copy <= s.length && copy <= |r.next| && copy <= r.left
    ensures var s', r' := s.(mode := COPY, length := s.length - copy),
                          r.(next := r.next[copy..], output := r.output + r.next[..copy], left := r.left - copy);
      var x, y := Abs(s, m, r, past), Abs(s', m, r', past);
      Inv(s', m, r', past) && x != y && Moves(x, y)
  {
    hide Step, ByteBits, Moves, ValidLens;
    var a, rest := r.next[..copy], r.next[copy..];
    assert a + rest == r.next;
    ByteBitsConcat(a, rest);
    CopySteps(s.last, s.length, a, ByteBits(rest), past + r.output);
    assert Unread(r) == ByteBits(r.next) && Unread(r.(next := rest)) == ByteBits(rest);
    assert past + r.output + a == past + (r.output + a);
  }

  lemma {:induction false} CopySteps(last: bool, length: nat, a: seq<byte>, rest: BitString, out: seq<byte>)
    requires 1 <= |a| <= length
    ensures Moves(Conf(Copy(last, length), ByteBits(a) + rest, out), Conf(Copy(last, length - |a|), rest, out + a))
    decreases |a|
  {
    hide Moves, ToBits, Lsb, Step, ByteBits;
    var x := Conf(Copy(last, length), ByteBits(a) + rest, out);
    var tail := ByteBits(a[1..]) + rest;
    var y := Conf(Copy(last, length - 1), tail, out + [a[0]]);
    FirstByte(a);
    assert x.bits == ToBits(a[0], 8) + tail;
    LsbToBits(a[0], 8);
    SmallPowers();
    LowSmall(a[0], 8);
    assert x.bits[..8] == ToBits(a[0], 8) && x.bits[8..] == tail;
    AtCopy(x);
    StepMoves(x, y);
    if |a| > 1 {
      CopySteps(last, length - 1, a[1..], rest, out + [a[0]]);
      assert out + [a[0]] + a[1..] == out + a;
      MovesTrans(x, y, Conf(Copy(last, length - |a|), rest, out + a));
    } else {
      assert a == [a[0]];
      assert a[1..] == [];
      FirstByte(a);
      assert tail == rest;
    }
  }

  lemma {:induction false} FirstByte(a: seq<byte>)
    requires a != []
    ensures ByteBits(a) == ToBits(a[0], 8) + ByteBits(a[1..]) && ByteBits([]) == []
  {
    hide ToBits;
  }

  // ----- TABLE, LENLENS -----

  method DoTable(s: Fields, ghost m: Meaning, r: Regs, ghost past: seq<byte>)
      returns (leave: bool, s': Fields, r': Regs)
    requires Inv(s, m, r, past) && s.mode == TABLE
    ensures Visited(s, m, r, leave, s', m, r', past)
  {
    hide Visited, Tight, Suffix, Pow2, Low, Shr, Lsb, Held, Step, Ok, TableFor, CodesOk, ByteBits, Unread, ValidLens, Moves;
    ghost var x := Abs(s, m, r, past);
    ghost var b := Unread(r);
    AtTable(x);
    AtTable(x.(bits := Held(r)));
    var ok;
    r', ok := NeedBits(r, 14);
    s' := s;
    if !ok {
      Stuck(s, m, r, s', r', past);
      return true, s', r';
    }
    FewLeft(s, m, r, r', 14, past);
    s', r' := TableHeader(s, m, r', past);
    Stepped(s, m, r, s', m, r', past);
    return false, s', r';
  }

  /** The state after the three counts of a dynamic block. */
  function WithCounts(s: Fields, nlen: nat, ndist: nat, ncode: nat): (s': Fields)
  {
    if nlen > 286 || ndist > 30 then s.(nlen := nlen, ndist := ndist, ncode := ncode, mode := BAD)
    else s.(nlen := nlen, ndist := ndist, ncode := ncode, have := 0, mode := LENLENS)
  }

  lemma {:induction false} CountsMean(s: Fields, m: Meaning, b: BitString, out: seq<byte>, nlen: nat, ndist: nat, ncode: nat)
    requires Shape(s) && |b| >= 14 && nlen == Lsb(b[..5]) + 257 && ndist == Lsb(b[5..10]) + 1 && ncode == Lsb(b[10..14]) + 4
    ensures var s' := WithCounts(s, nlen, ndist, ncode);
      && Shape(s') && s'.lens == s.lens && TablesOk(s', m) && s'.mode != COPY_ && s'.mode != COPY
      && StepTable(s.last, b, out) == Some(Conf(AbsState(s', m), b[14..], out))
  {
    hide Lsb;
  }

  /** The three counts of a dynamic block. */
  method TableHeader(s: Fields, ghost m: Meaning, r: Regs, ghost past: seq<byte>) returns (s': Fields, r': Regs)
    requires Shape(s) && ValidLens(s.lens) && s.mode == TABLE && r.hold < Pow2(r.bits) && r.bits >= 14
    ensures Shape(s') && ValidLens(s'.lens) && TablesOk(s', m) && s'.mode != COPY_ && s'.mode != COPY
    ensures r'.hold < Pow2(r'.bits) && r'.bits == r.bits - 14 && r'.left == r.left && r'.output == r.output && r'.next == r.next
    ensures StepTable(s.last, Unread(r), past + r.output) == Some(Abs(s', m, r', past))
  {
    hide Pow2, Low, Shr, Lsb, Held, TablesOk, ByteBits, Unread, ValidLens, AbsState, StepTable, WithCounts;
    ghost var b := Unread(r);
    Slices(b, 5, 10);
    Slices(b, 10, 14);
    var nlen := BitsOf(r, 5) + 257;
    var r1 := DropBits(r, 5);
    var ndist := BitsOf(r1, 5) + 1;
    var r2 := DropBits(r1, 5);
    var ncode := BitsOf(r2, 4) + 4;
    r' := DropBits(r2, 4);
    s' := WithCounts(s, nlen, ndist, ncode);
    CountsMean(s, m, b, past + r.output, nlen, ndist, ncode);
  }

  /** The inverse of ORDER. */
  const RANK: seq<nat> := [3, 17, 15, 13, 11, 9, 7, 5, 4, 6, 8, 10, 12, 14, 16, 18, 0, 1, 2]

  lemma {:induction false} OrderIsPermutation()
    ensures |ORDER| == 19 == |RANK|
    ensures forall i :: 0 <= i < 19 ==> 0 <= ORDER[i] < 19 && RANK[ORDER[i]] == i
    ensures forall p :: 0 <= p < 19 ==> 0 <= RANK[p] < 19 && ORDER[RANK[p]] == p
  {
  }

  lemma {:induction false} ReceivedAt(lens: seq<nat>, have: nat, i: nat)
    requires |lens| == 320 && i < have <= 19
    ensures Received(lens, have)[i] == lens[ORDER[i]]
  {
    hide ORDER;
    if i < have - 1 { ReceivedAt(lens, have - 1, i); }
  }

  lemma {:induction false} ReceivedFrame(lens: seq<nat>, have: nat, v: nat, n: nat)
    requires |lens| == 320 && n <= have < 19
    ensures Received(lens[ORDER[have] := v], n) == Received(lens, n)
  {
    hide ORDER;
    if n > 0 {
      ReceivedFrame(lens, have, v, n - 1);
      OrderIsPermutation();
    }
  }

  /** The first 19 entries are the received lengths, put in place. */
  lemma {:induction false} PlacedAt(lens: seq<nat>, n: nat, i: nat)
    requires |lens| == 320 && i < n <= 19
    ensures PlaceLens(Received(lens, n))[ORDER[i]] == lens[ORDER[i]]
  {
    hide ORDER;
    OrderIsPermutation();
    var cl := Received(lens, n);
    assert cl[..n - 1] == Received(lens, n - 1);
    if i < n - 1 { PlacedAt(lens, n - 1, i); }
  }

  lemma {:induction false} PlacedAll(lens: seq<nat>)
    requires |lens| == 320
    ensures PlaceLens(Received(lens, 19)) == lens[..19]
  {
    hide ORDER, RANK, PlaceLens, Received;
    OrderIsPermutation();
    forall p | 0 <= p < 19
      ensures PlaceLens(Received(lens, 19))[p] == lens[p]
    {
      PlacedAt(lens, 19, RANK[p]);
    }
  }

  /** Trailing zero lengths change nothing. */
  lemma {:induction false} PlaceZero(cl: seq<nat>)
    requires |cl| < 19
    ensures PlaceLens(cl + [0]) == PlaceLens(cl)
  {
    hide ORDER;
    OrderIsPermutation();
    assert (cl + [0])[..|cl|] == cl;
    PlaceUntouched(cl, |cl|);
  }

  lemma {:induction false} PlaceUntouched(cl: seq<nat>, i: nat)
    requires |cl| <= i < 19
    ensures PlaceLens(cl)[ORDER[i]] == 0
  {
    hide ORDER;
    OrderIsPermutation();
    if cl != [] { PlaceUntouched(cl[..|cl| - 1], i); }
  }

  /** Sets the lengths that were not sent to zero. */
  method ZeroRest(lens: seq<nat>, have: nat) returns (lens': seq<nat>)
    requires |lens| == 320 && have <= 19 && ValidLens(lens)
    ensures |lens'| == 320 && ValidLens(lens')
    ensures lens'[..19] == PlaceLens(Received(lens, have))
  {
    hide ORDER, PlaceLens;
    lens' := lens;
    OrderIsPermutation();
    for i := have to 19
      invariant |lens'| == 320 && ValidLens(lens')
      invariant PlaceLens(Received(lens', i)) == PlaceLens(Received(lens, have))
    {
      ReceivedFrame(lens', i, 0, i);
      lens' := lens'[ORDER[i] := 0];
      PlaceZero(Received(lens', i));
    }
    PlacedAll(lens');
  }
  method DoLenLens(s: Fields, ghost m: Meaning, r: Regs, ghost past: seq<byte>)
      returns (leave: bool, s': Fields, ghost m': Meaning, r': Regs)
    requires Inv(s, m, r, past) && s.mode == LENLENS
    ensures Visited(s, m, r, leave, s', m', r', past)
  {
    hide Visited, Tight, Suffix, Pow2, Low, Shr, Lsb, Held, Step, TableFor, CodesOk, ByteBits, Unread, Moves, ORDER, PlaceLens, Acceptable;
    ghost var x := Abs(s, m, r, past);
    AtLenLens(x);
    AtLenLens(x.(bits := Held(r)));
    s', m', r' := s, m, r;
    if s.have < s.ncode {
      var ok;
      r', ok := NeedBits(r, 3);
      if !ok {
        Stuck(s, m, r, s', r', past);
        return true, s', m', r';
      }
      FewLeft(s, m, r, r', 3, past);
      OrderIsPermutation();
      SmallPowers();
      ReceivedFrame(s.lens, s.have, BitsOf(r', 3), s.have);
      s' := s'.(lens := s.lens[ORDER[s.have] := BitsOf(r', 3)], have := s.have + 1);
      r' := DropBits(r', 3);
    } else {
      FewLeft(s, m, r, r, 0, past);
      SuffixRefl(r.next);
      s', m' := CodeTable(s, m);
    }
    Stepped(s, m, r, s', m', r', past);
    return false, s', m', r';
  }

  /** Builds the table of the code-length code. */
  method CodeTable(s: Fields, ghost m: Meaning) returns (s': Fields, ghost m': Meaning)
    requires Shape(s) && s.mode == LENLENS && ValidLens(s.lens)
    requires forall i :: 0 <= i < s.have ==> Received(s.lens, s.have)[i] <= 7
    ensures Shape(s') && ValidLens(s'.lens) && TablesOk(s', m')
    ensures AbsState(s', m') ==
      var code := PlaceLens(Received(s.lens, s.have));
      if Acceptable(CODES, code) then CodeLens(s.last, s.nlen, s.ndist, [], code) else Bad
  {
    hide Pow2, TableFor, ORDER, PlaceLens, Acceptable, RootBits, TableSize, Received;
    PlaceLensSmall(Received(s.lens, s.have));
    var lens := ZeroRest(s.lens, s.have);
    var tab := new Entry[128](_ => Entry(0, 0, 0));
    RootBitsCover(lens[..19], 7);
    var ret, lenbits, used := MakeTable(CODES, lens[..19], tab, 7);
    m' := m;
    s' := s.(lens := lens, have := 0);
    if ret != 0 {
      s' := s'.(mode := BAD);
    } else {
      s' := s'.(mode := CODELENS, lencode := tab[..used], lenbits := lenbits);
      m' := m.(code := lens[..19]);
    }
  }

  /** A root request no smaller than any code leaves every code in the root table. */
  lemma {:induction false} RootBitsCover(lens: seq<nat>, bits: nat)
    requires forall s :: 0 <= s < |lens| ==> lens[s] <= bits <= MAXBITS
    ensures forall s :: 0 <= s < |lens| ==> lens[s] <= RootBits(lens, bits)
  {
    hide CountTo, LongestTo, ShortestFrom;
    forall s | 0 <= s < |lens|
      ensures lens[s] <= RootBits(lens, bits)
    {
      CountToMonotone(lens, lens[s], s, |lens|);
      LongestAtLeast(lens, lens[s], MAXBITS);
    }
  }

  lemma {:induction false} LongestAtLeast(lens: seq<nat>, l: nat, top: nat)
    requires l <= top && Count(lens, l) > 0
    ensures LongestTo(lens, top) >= l
  {
    hide Count;
    if Count(lens, top) == 0 && l < top { LongestAtLeast(lens, l, top - 1); }
  }

  // ----- decoding through a table -----

  lemma {:induction false} LowStable(hold: nat, bits: nat, b: byte, root: nat)
    requires hold < Pow2(bits) && root <= bits
    ensures Low(hold + Shl(b, bits), root) == Low(hold, root)
  {
    hide Low, Shl, Pow2;
    Join(hold, b, bits);
    LowLow(hold + Shl(b, bits), root, bits);
    LowSmall(hold, bits);
  }

  /** The accumulator does not yet hold the whole code it starts with. */
  ghost predicate Partial(kind: CodeType, lens: seq<nat>, r: Regs)
    requires |lens| <= Symbols(kind)
  {
    Decode(kind, lens, r.hold).bits > r.bits
  }

  /** One more byte, pulled because the code was not complete. */
  lemma {:induction false} PullKeeps(kind: CodeType, lens: seq<nat>, r: Regs)
    requires |lens| <= Symbols(kind) && Acceptable(kind, lens)
    requires r.next != [] && r.hold < Pow2(r.bits) && Partial(kind, lens, r)
    ensures var r' := PullByte(r);
      r'.bits < Decode(kind, lens, r'.hold).bits + 8
  {
    hide Decode, Acceptable, ToBits, Shl, Pow2, Lsb;
    var r' := PullByte(r);
    PullBits(r.hold, r.bits, r.next[0]);
    HeldValue(r.hold, r.bits);
    HeldValue(r'.hold, r'.bits);
    if Decode(kind, lens, r'.hold).bits <= r.bits {
      DecodeRestrict(kind, lens, ToBits(r.hold, r.bits), ToBits(r.next[0], 8));
    }
  }

  /** Some bytes have moved from the input to the accumulator. */
  ghost predicate Pulled(r0: Regs, r: Regs)
  {
    && r.hold < Pow2(r.bits) && Unread(r) == Unread(r0)
    && r.output == r0.output && r.left == r0.left && Suffix(r0.next, r.next)
  }

  lemma {:induction false} PulledNone(r: Regs)
    requires r.hold < Pow2(r.bits)
    ensures Pulled(r, r)
  {
    hide Unread, Pow2;
  }

  lemma {:induction false} PulledMore(r0: Regs, r: Regs)
    requires Pulled(r0, r) && r.next != []
    ensures r.hold < Pow2(r.bits) && Pulled(r0, PullByte(r))
  {
    hide Unread, Pow2, Suffix;
    var r' := PullByte(r);
    assert Suffix(r.next, r'.next) by { SuffixOne(r.next); }
    SuffixTrans(r0.next, r.next, r'.next);
  }

  lemma {:induction false} SuffixOne(a: seq<byte>)
    requires a != []
    ensures Suffix(a, a[1..])
  {
  }

  lemma {:induction false} PulledHold(r0: Regs, r: Regs)
    requires Pulled(r0, r)
    ensures r.hold < Pow2(r.bits) && (r.next == [] ==> Held(r) == Unread(r0))
  {
    hide Held, Pow2, Suffix;
    if r.next == [] { NothingUnread(r); }
  }

  /** Pulls bytes until the accumulator holds a whole code, and looks it up in both levels of
      the table. here drops the bits of both levels. */
  method PullCode(kind: CodeType, ghost lens: seq<nat>, tab: seq<Entry>, root: nat, r: Regs)
      returns (r': Regs, ok: bool, here: Entry)
    requires |lens| <= Symbols(kind) && Acceptable(kind, lens) && TableFor(kind, lens, tab, root)
    requires r.hold < Pow2(r.bits)
    ensures Pulled(r, r')
    ensures ok ==> here == Decode(kind, lens, r'.hold) && here.bits <= r'.bits
    ensures r' == r || r'.bits > r.bits
    ensures ok ==> r' == r || r'.bits < here.bits + 8
    ensures !ok ==> r'.next == [] && Partial(kind, lens, r') && Held(r') == Unread(r)
  {
    hide Pow2, Low, Shr, Shl, Held, Unread, Decode, Acceptable, TableFor, Pulled;
    r' := r;
    PulledNone(r);
    Lookup(kind, lens, tab, root, r'.hold);
    here := tab[Low(r'.hold, root)];
    while here.bits > r'.bits
      invariant Pulled(r, r')
      invariant r' == r || (r'.bits < Decode(kind, lens, r'.hold).bits + 8 && r'.bits > r.bits)
      invariant Finds(tab, root, r'.hold, Decode(kind, lens, r'.hold))
      invariant here == tab[Low(r'.hold, root)] && (IsLink(here) ==> here.bits == root)
      decreases |r'.next|
    {
      assert Partial(kind, lens, r');
      PulledHold(r, r');
      if r'.next == [] {
        return r', false, here;
      }
      PullKeeps(kind, lens, r');
      PulledMore(r, r');
      r' := PullByte(r');
      Lookup(kind, lens, tab, root, r'.hold);
      here := tab[Low(r'.hold, root)];
    }
    if IsLink(here) {
      r', ok, here := PullSecond(kind, lens, tab, root, r, r', here);
      return;
    }
    ok := true;
  }

  lemma {:induction false} Lookup(kind: CodeType, lens: seq<nat>, tab: seq<Entry>, root: nat, hold: nat)
    requires |lens| <= Symbols(kind) && TableFor(kind, lens, tab, root)
    ensures Finds(tab, root, hold, Decode(kind, lens, hold))
    ensures IsLink(tab[Low(hold, root)]) ==> tab[Low(hold, root)].bits == root
  {
    hide Low, Shr, Point, Covers, Kraft, Decode, SymEntry;
    DecodeFinds(kind, lens, tab, root, hold);
  }

  /** The second level: last links the root slot to its sub-table. */
  method PullSecond(kind: CodeType, ghost lens: seq<nat>, tab: seq<Entry>, root: nat, ghost r0: Regs, r: Regs, last: Entry)
      returns (r': Regs, ok: bool, here: Entry)
    requires |lens| <= Symbols(kind) && Acceptable(kind, lens) && TableFor(kind, lens, tab, root)
    requires Pulled(r0, r) && IsLink(last) && last.bits == root <= r.bits
    requires Low(r.hold, root) < |tab| && last == tab[Low(r.hold, root)]
    requires r == r0 || (r.bits < Decode(kind, lens, r.hold).bits + 8 && r.bits > r0.bits)
    ensures Pulled(r0, r')
    ensures ok ==> here == Decode(kind, lens, r'.hold) && here.bits <= r'.bits
    ensures r' == r0 || r'.bits > r0.bits
    ensures ok ==> r' == r0 || r'.bits < here.bits + 8
    ensures !ok ==> r'.next == [] && Partial(kind, lens, r') && Held(r') == Unread(r0)
  {
    hide Pow2, Low, Shr, Shl, Held, Unread, Decode, Acceptable, TableFor, Pulled;
    r' := r;
    Lookup(kind, lens, tab, root, r'.hold);
    here := tab[last.val + Shr(Low(r'.hold, last.bits + last.op), last.bits)];
    while last.bits + here.bits > r'.bits
      invariant Pulled(r0, r') && root <= r'.bits
      invariant r' == r0 || (r'.bits < Decode(kind, lens, r'.hold).bits + 8 && r'.bits > r0.bits)
      invariant Low(r'.hold, root) == Low(r.hold, root)
      invariant Decode(kind, lens, r'.hold) == Entry(here.op, last.bits + here.bits, here.val)
      decreases |r'.next|
    {
      assert Partial(kind, lens, r');
      PulledHold(r0, r');
      if r'.next == [] {
        return r', false, here;
      }
      PullKeeps(kind, lens, r');
      LowStable(r'.hold, r'.bits, r'.next[0], root);
      PulledMore(r0, r');
      r' := PullByte(r');
      Lookup(kind, lens, tab, root, r'.hold);
      here := tab[last.val + Shr(Low(r'.hold, last.bits + last.op), last.bits)];
    }
    ok, here := true, Entry(here.op, last.bits + here.bits, here.val);
  }

  // ----- CODELENS -----

  /** What a complete code in the accumulator means for the unread bits. */
  lemma {:induction false} WholeCode(kind: CodeType, lens: seq<nat>, r: Regs)
    requires |lens| <= Symbols(kind) && Acceptable(kind, lens) && r.hold < Pow2(r.bits)
    ensures Decode(kind, lens, Lsb(Held(r))) == Decode(kind, lens, r.hold)
    ensures !Partial(kind, lens, r) ==> Decode(kind, lens, Lsb(Unread(r))) == Decode(kind, lens, r.hold)
  {
    hide Decode, Acceptable, ToBits, Lsb, Pow2, ByteBits;
    HeldValue(r.hold, r.bits);
    if !Partial(kind, lens, r) { DecodeExtend(kind, lens, Held(r), ByteBits(r.next)); }
  }

  method FillLens(lens: seq<nat>, have: nat, copy: nat, v: nat) returns (lens': seq<nat>)
    requires have + copy <= |lens| && ValidLens(lens) && v <= MAXBITS
    ensures |lens'| == |lens| && ValidLens(lens')
    ensures lens'[..have + copy] == Repeat(lens[..have], v, copy)
  {
    lens' := lens;
    for i := 0 to copy
      invariant |lens'| == |lens| && ValidLens(lens')
      invariant lens'[..have] == lens[..have]
      invariant forall k :: have <= k < have + i ==> lens'[k] == v
    {
      lens' := lens'[have + i := v];
    }
    assert forall k :: 0 <= k < have ==> lens'[k] == lens'[..have][k] == lens[..have][k];
  }

  method DoCodeLens(s: Fields, ghost m: Meaning, r: Regs, ghost past: seq<byte>)
      returns (leave: bool, s': Fields, ghost m': Meaning, r': Regs)
    requires Inv(s, m, r, past) && s.mode == CODELENS
    ensures Visited(s, m, r, leave, s', m', r', past)
  {
    hide Visited, Tight, Suffix, Pow2, Low, Shr, Lsb, Held, Step, TableFor, ByteBits, Unread, Moves, Acceptable, Decode, DynamicOk;
    ghost var x := Abs(s, m, r, past);
    AtCodeLens(x);
    AtCodeLens(x.(bits := Held(r)));
    s', m', r' := s, m, r;
    if s.have >= s.nlen + s.ndist {
      FewLeft(s, m, r, r, 0, past);
      SuffixRefl(r.next);
      s', m' := DynamicTables(s, m);
      Stepped(s, m, r, s', m', r', past);
      return false, s', m', r';
    }
    var ok, here;
    r', ok, here := PullCode(CODES, m.code, s.lencode, s.lenbits, r);
    WholeCode(CODES, m.code, r);
    WholeCode(CODES, m.code, r');
    if !ok {
      Stuck(s, m, r, s', r', past);
      return true, s', m', r';
    }
    DecodeCodeLength(m.code, r'.hold);
    if here.val < 16 {
      FewLeft(s, m, r, r', here.bits, past);
      r' := DropBits(r', here.bits);
      s' := s.(lens := s.lens[s.have := here.val], have := s.have + 1);
      assert s'.lens[..s'.have] == s.lens[..s.have] + [here.val];
      Stepped(s, m, r, s', m, r', past);
      return false, s', m', r';
    }
    leave, s', r' := DoRepeat(s, m, r, r', here, past);
  }

  method DoRepeat(s: Fields, ghost m: Meaning, ghost r0: Regs, r: Regs, here: Entry, ghost past: seq<byte>)
      returns (leave: bool, s': Fields, r': Regs)
    requires Inv(s, m, r0, past) && s.mode == CODELENS && s.have < s.nlen + s.ndist
    requires r.hold < Pow2(r.bits) && Unread(r) == Unread(r0) && r.output == r0.output && r.left == r0.left
    requires Suffix(r0.next, r.next)
    requires here == Decode(CODES, m.code, r.hold) && here.bits <= r.bits && 16 <= here.val <= 18
    requires r == r0 || (r.bits < here.bits + 8 && r.bits > r0.bits)
    ensures Visited(s, m, r0, leave, s', m, r', past)
  {
    hide Visited, Tight, Suffix, Pow2, Low, Shr, Lsb, Held, Step, TableFor, ByteBits, Unread, Moves, Acceptable, Decode;
    ghost var x := Abs(s, m, r0, past);
    ghost var b := Unread(r0);
    WholeCode(CODES, m.code, r);
    AtRepeat(x, here);
    if r == r0 { AtRepeat(x.(bits := Held(r0)), here); }
    s', r' := s, r;
    var xb := RepeatBits(here.val);
    var ok;
    r', ok := NeedBits(r, here.bits + xb);
    SuffixTrans(r0.next, r.next, r'.next);
    if !ok {
      Stuck(s, m, r0, s', r', past);
      return true, s', r';
    }
    FewLeft(s, m, r0, r', here.bits + xb, past);
    s', r' := ApplyRepeat(s, m, r', here, past);
    Stepped(s, m, r0, s', m, r', past);
    return false, s', r';
  }

  /** What repeating means for the lengths received. */
  lemma {:induction false} RepeatMeans(s: Fields, m: Meaning, here: Entry, b: BitString, out: seq<byte>, v: nat, copy: nat, lens: seq<nat>)
    requires StateInv(s, m) && s.mode == CODELENS && 16 <= here.val <= 18 && |b| >= here.bits + RepeatBits(here.val) && !(here.val == 16 && s.have == 0)
    requires v == if here.val == 16 then s.lens[s.have - 1] else 0
    requires copy == (if here.val == 18 then 11 else 3) + Lsb(b[here.bits..here.bits + RepeatBits(here.val)])
    requires s.have + copy <= s.nlen + s.ndist ==> |lens| == 320 && lens[..s.have + copy] == Repeat(s.lens[..s.have], v, copy)
    ensures var s' := if s.have + copy > s.nlen + s.ndist then s.(mode := BAD) else s.(lens := lens, have := s.have + copy);
      && Shape(s') && TablesOk(s', m)
      && Conf(AbsState(s', m), b[here.bits + RepeatBits(here.val)..], out) == StepRepeat(AbsState(s, m), here, b, out)
  {
    hide Lsb, CodeOk, TableFor;
    var st := AbsState(s, m);
    assert st.lens == s.lens[..s.have];
    if here.val == 16 { assert st.lens[|st.lens| - 1] == s.lens[s.have - 1]; }
  }

  /** A repeat code whose bits are all in the accumulator. */
  method ApplyRepeat(s: Fields, ghost m: Meaning, r: Regs, here: Entry, ghost past: seq<byte>) returns (s': Fields, r': Regs)
    requires StateInv(s, m) && s.mode == CODELENS && s.have < s.nlen + s.ndist
    requires r.hold < Pow2(r.bits) && here.bits + RepeatBits(here.val) <= r.bits && 16 <= here.val <= 18
    ensures Shape(s') && ValidLens(s'.lens) && TablesOk(s', m)
    ensures r'.hold < Pow2(r'.bits) && r'.left == r.left && r'.output == r.output && r'.next == r.next
    ensures s'.mode == BAD || (s'.mode == CODELENS && r'.bits == r.bits - here.bits - RepeatBits(here.val))
    ensures Abs(s', m, r', past) == StepRepeat(AbsState(s, m), here, Unread(r), past + r.output)
  {
    hide Pow2, Low, Shr, Lsb, Held, TableFor, ByteBits, Unread, Acceptable, Decode, CodeOk;
    ghost var b := Unread(r);
    var xb := RepeatBits(here.val);
    Slices(b, here.bits, here.bits + xb);
    r' := DropBits(r, here.bits);
    if here.val == 16 && s.have == 0 {
      s' := s.(mode := BAD);
      return;
    }
    s', r' := RepeatLengths(s, m, r', here, b, past + r.output);
  }

  /** The count, and the copies. */
  method RepeatLengths(s: Fields, ghost m: Meaning, r: Regs, here: Entry, ghost b: BitString, ghost out: seq<byte>) returns (s': Fields, r': Regs)
    requires StateInv(s, m) && s.mode == CODELENS && s.have < s.nlen + s.ndist && 16 <= here.val <= 18 && !(here.val == 16 && s.have == 0)
    requires r.hold < Pow2(r.bits) && RepeatBits(here.val) <= r.bits && |b| >= here.bits + RepeatBits(here.val)
    requires var xb := RepeatBits(here.val);
      Unread(r)[..xb] == b[here.bits..here.bits + xb] && Unread(r)[xb..] == b[here.bits + xb..]
    ensures Shape(s') && ValidLens(s'.lens) && TablesOk(s', m)
    ensures r'.hold < Pow2(r'.bits) && r'.left == r.left && r'.output == r.output && r'.next == r.next
    ensures (s'.mode == BAD || s'.mode == CODELENS) && r'.bits == r.bits - RepeatBits(here.val)
    ensures Conf(AbsState(s', m), Unread(r'), out) == StepRepeat(AbsState(s, m), here, b, out)
  {
    hide Pow2, Low, Shr, Lsb, Held, TablesOk, ByteBits, Unread, AbsState, StepRepeat, RepeatBits;
    assert s.have <= 316 && s.nlen + s.ndist <= 316 by { CountsFit(s, m); }
    var xb := RepeatBits(here.val);
    var v := if here.val == 16 then s.lens[s.have - 1] else 0;
    var copy := (if here.val == 18 then 11 else 3) + BitsOf(r, xb);
    r' := DropBits(r, xb);
    if s.have + copy > s.nlen + s.ndist {
      s' := s.(mode := BAD);
      RepeatMeans(s, m, here, b, out, v, copy, []);
    } else {
      var lens := FillLens(s.lens, s.have, copy, v);
      s' := s.(lens := lens, have := s.have + copy);
      RepeatMeans(s, m, here, b, out, v, copy, lens);
    }
  }

  lemma {:induction false} CountsFit(s: Fields, m: Meaning)
    requires StateInv(s, m) && s.mode == CODELENS
    ensures s.nlen + s.ndist <= 316 && s.have <= s.nlen + s.ndist
  {
    hide TablesOk;
  }

  /** The lengths of a dynamic block as two codes. */
  lemma {:induction false} TwoCodes(s: Fields, m: Meaning)
    requires StateInv(s, m) && s.mode == CODELENS && s.have == s.nlen + s.ndist
    ensures CountsOk(s.nlen, s.ndist)
    ensures var all, llens, dlens := s.lens[..s.have], s.lens[..s.nlen], s.lens[s.nlen..s.nlen + s.ndist];
      && all[..s.nlen] == llens && all[s.nlen..] == dlens && ValidLens(all) && ValidLens(llens) && ValidLens(dlens)
      && all[256] == s.lens[256]
  {
    hide TablesOk;
  }

  /** Builds the literal/length and distance tables of a dynamic block. */
  method DynamicTables(s: Fields, ghost m: Meaning) returns (s': Fields, ghost m': Meaning)
    requires StateInv(s, m) && s.mode == CODELENS && s.have == s.nlen + s.ndist
    ensures Shape(s') && ValidLens(s'.lens) && TablesOk(s', m')
    ensures var lens := s.lens[..s.have];
      AbsState(s', m') ==
      if lens[256] == 0 || !DynamicOk(lens, s.nlen) then Bad
      else Len(s.last, Codes(lens[..s.nlen], lens[s.nlen..]))
  {
    hide Pow2, TableFor, Acceptable, RootBits, TableSize, Exceeds, Decode, ValidLens;
    s', m' := s.(mode := BAD), m;
    TwoCodes(s, m);
    if s.lens[256] == 0 {
      return;
    }
    var ok, lencode, lenbits := OneTable(LENS, s.lens[..s.nlen], 9);
    if !ok {
      return;
    }
    var ok', distcode, distbits := OneTable(DISTS, s.lens[s.nlen..s.nlen + s.ndist], 6);
    if !ok' {
      return;
    }
    m' := m.(codes := Codes(s.lens[..s.nlen], s.lens[s.nlen..s.nlen + s.ndist]));
    s' := s.(mode := LEN_, lencode := lencode, lenbits := lenbits, distcode := distcode, distbits := distbits);
  }

  /** One call of inflate_table. */
  method OneTable(kind: CodeType, lens: seq<nat>, bits: nat) returns (ok: bool, tab: seq<Entry>, root: nat)
    requires ValidLens(lens) && |lens| <= Symbols(kind) && !kind.CODES?
    ensures ok <==> Acceptable(kind, lens) && !Exceeds(kind, TableSize(lens, bits))
    ensures ok ==> TableFor(kind, lens, tab, root)
  {
    hide Pow2, TableFor, Acceptable, RootBits, TableSize, Exceeds, ValidLens;
    var a := new Entry[Space(kind)](_ => Entry(0, 0, 0));
    var ret, used;
    ret, root, used := MakeTable(kind, lens, a, bits);
    ok := ret == 0;
    tab := if ok then a[..used] else [];
  }

  // ----- LEN_, LEN, LENEXT, DIST, DISTEXT -----

  method DoLen(s: Fields, ghost m: Meaning, r: Regs, ghost past: seq<byte>)
      returns (leave: bool, s': Fields, r': Regs)
    requires Inv(s, m, r, past) && (s.mode == LEN_ || s.mode == LEN)
    ensures Visited(s, m, r, leave, s', m, r', past)
  {
    hide Visited, Tight, Suffix, Pow2, Low, Shr, Lsb, Held, Step, TableFor, ByteBits, Unread, Moves, Acceptable, Decode, CodesOk, Bit5, Bit6, ValidLens, Ok, DropBits, AfterLen;
    ghost var x := Abs(s, m, r, past);
    AtLen(x);
    AtLen(x.(bits := Held(r)));
    CodesSizes(m.codes);
    s' := s.(mode := LEN);
    var ok, here;
    r', ok, here := PullCode(LENS, m.codes.llens, s.lencode, s.lenbits, r);
    WholeCode(LENS, m.codes.llens, r);
    WholeCode(LENS, m.codes.llens, r');
    if !ok {
      Stuck(s, m, r, s', r', past);
      return true, s', r';
    }
    FewLeft(s, m, r, r', here.bits, past);
    r' := DropBits(r', here.bits);
    s' := AfterLen(s', m, here);
    Stepped(s, m, r, s', m, r', past);
    return false, s', r';
  }

  /** The mode a literal/length entry leads to. */
  function AfterLen(s: Fields, ghost m: Meaning, here: Entry): (s': Fields)
    requires Shape(s) && ValidLens(s.lens) && TablesOk(s, m) && s.mode == LEN
    ensures Shape(s') && ValidLens(s'.lens) && TablesOk(s', m) && s'.mode != COPY_ && s'.mode != COPY
    ensures AbsState(s', m) ==
      (if here.op == 0 then Lit(s.last, m.codes, here.val)
       else if Bit5(here.op) then Type(s.last)
       else if Bit6(here.op) then Bad
       else LenExt(s.last, m.codes, here.val, here.op % 16))
  {
    s.(length := here.val, extra := here.op % 16,
       mode := if here.op == 0 then LIT else if Bit5(here.op) then TYPE else if Bit6(here.op) then BAD else LENEXT)
  }

  method DoLenExt(s: Fields, ghost m: Meaning, r: Regs, ghost past: seq<byte>)
      returns (leave: bool, s': Fields, r': Regs)
    requires Inv(s, m, r, past) && s.mode == LENEXT
    ensures Visited(s, m, r, leave, s', m, r', past)
  {
    hide Visited, Tight, Suffix, Pow2, Low, Shr, Lsb, Held, Step, TableFor, ByteBits, Unread, Moves, CodesOk, ValidLens;
    ghost var x := Abs(s, m, r, past);
    AtLenExt(x);
    AtLenExt(x.(bits := Held(r)));
    s' := s;
    var ok;
    r', ok := NeedBits(r, s.extra);
    if !ok {
      Stuck(s, m, r, s', r', past);
      return true, s', r';
    }
    FewLeft(s, m, r, r', s.extra, past);
    s' := s.(length := s.length + BitsOf(r', s.extra), mode := DIST);
    r' := DropBits(r', s.extra);
    Stepped(s, m, r, s', m, r', past);
    return false, s', r';
  }

  method DoDist(s: Fields, ghost m: Meaning, r: Regs, ghost past: seq<byte>)
      returns (leave: bool, s': Fields, r': Regs)
    requires Inv(s, m, r, past) && s.mode == DIST
    ensures Visited(s, m, r, leave, s', m, r', past)
  {
    hide Visited, Tight, Suffix, Pow2, Low, Shr, Lsb, Held, Step, TableFor, ByteBits, Unread, Moves, Acceptable, Decode, CodesOk, Bit5, Bit6, ValidLens, Ok, DropBits;
    ghost var x := Abs(s, m, r, past);
    AtDist(x);
    AtDist(x.(bits := Held(r)));
    CodesSizes(m.codes);
    s' := s;
    var ok, here;
    r', ok, here := PullCode(DISTS, m.codes.dlens, s.distcode, s.distbits, r);
    WholeCode(DISTS, m.codes.dlens, r);
    WholeCode(DISTS, m.codes.dlens, r');
    if !ok {
      Stuck(s, m, r, s', r', past);
      return true, s', r';
    }
    FewLeft(s, m, r, r', here.bits, past);
    r' := DropBits(r', here.bits);
    if Bit6(here.op) {
      s' := s'.(mode := BAD);
    } else {
      s' := s'.(offset := here.val, extra := here.op % 16, mode := DISTEXT);
    }
    Stepped(s, m, r, s', m, r', past);
    return false, s', r';
  }

  method DoDistExt(s: Fields, ghost m: Meaning, r: Regs, ghost past: seq<byte>)
      returns (leave: bool, s': Fields, r': Regs)
    requires Inv(s, m, r, past) && s.mode == DISTEXT
    ensures Visited(s, m, r, leave, s', m, r', past)
  {
    hide Visited, Tight, Suffix, Pow2, Low, Shr, Lsb, Held, Step, TableFor, ByteBits, Unread, Moves, CodesOk, ValidLens, DropBits, Received;
    ghost var x := Abs(s, m, r, past);
    AtDistExt(x);
    AtDistExt(x.(bits := Held(r)));
    s' := s;
    var ok;
    r', ok := NeedBits(r, s.extra);
    if !ok {
      Stuck(s, m, r, s', r', past);
      return true, s', r';
    }
    FewLeft(s, m, r, r', s.extra, past);
    s' := s.(offset := s.offset + BitsOf(r', s.extra), mode := MATCH);
    r' := DropBits(r', s.extra);
    Stepped(s, m, r, s', m, r', past);
    return false, s', r';
  }
  // ----- MATCH, LIT -----

  /** Copies n bytes of output from offset back, byte by byte: they may overlap. */
  method CopyFromOutput(output: seq<byte>, offset: nat, n: nat) returns (output': seq<byte>)
    requires 1 <= offset <= |output|
    ensures |output'| == |output| + n && output <= output'
    ensures forall k :: |output| <= k < |output'| ==> output'[k] == output'[k - offset]
  {
    output' := output;
    var from := |output| - offset;
    for i := 0 to n
      invariant |output'| == |output| + i && output <= output'
      invariant from == |output'| - offset
      invariant forall k :: |output| <= k < |output'| ==> output'[k] == output'[k - offset]
    {
      output' := output' + [output'[from]];
      from := from + 1;
    }
  }

  /** Copies n bytes of the window, from index from on. */
  method CopyFromWindow(data: array<byte>, from: nat, n: nat, output: seq<byte>) returns (output': seq<byte>)
    requires from + n <= data.Length
    ensures output' == output + data[from..from + n]
  {
    output' := output;
    for i := 0 to n
      invariant output' == output + data[from..from + i]
    {
      output' := output' + [data[from + i]];
      assert data[from..from + i + 1] == data[from..from + i] + [data[from + i]];
    }
  }

  /** The bytes just read from the window are those offset back. */
  lemma {:induction false} FromWindow(data: seq<byte>, wsize: nat, wnext: nat, whave: nat, past: seq<byte>,
                                      output: seq<byte>, offset: nat, from: nat, n: nat)
    requires W.Holds(data, wsize, wnext, whave, past)
    requires |output| < offset && offset - |output| <= whave
    requires var c := offset - |output|;
      if c > wnext then from == wsize + wnext - c && n <= c - wnext else from == wnext - c && n <= c
    ensures from + n <= |data|
    ensures past + (output + data[from..from + n]) == CopyBack(past + output, offset, n)
  {
    var c := offset - |output|;
    var new_ := data[from..from + n];
    var all := past + (output + new_);
    assert past + output <= all;
    forall k | |past + output| <= k < |all|
      ensures all[k] == all[k - offset]
    {
      var i := k - |past + output|;
      assert all[k] == data[from + i];
      assert from + i == W.Back(wsize, wnext, c - i);
      assert all[k - offset] == past[|past| - (c - i)];
    }
    CopyBackUnique(past + output, offset, n, all);
  }

  lemma {:induction false} FromOutput(past: seq<byte>, output: seq<byte>, offset: nat, output': seq<byte>)
    requires 1 <= offset <= |output| && output <= output'
    requires forall k :: |output| <= k < |output'| ==> output'[k] == output'[k - offset]
    ensures past + output' == CopyBack(past + output, offset, |output'| - |output|)
  {
    var all := past + output';
    forall k | |past + output| <= k < |all|
      ensures all[k] == all[k - offset]
    {
      assert output'[k - |past|] == output'[k - |past| - offset];
    }
    CopyBackUnique(past + output, offset, |output'| - |output|, all);
  }

  lemma {:induction false} SameBits(r: Regs, r': Regs)
    requires r'.hold == r.hold && r'.bits == r.bits && r'.next == r.next
    ensures Held(r') == Held(r) && Unread(r') == Unread(r)
  {
  }

  /** Some bytes of a match have been copied. */
  lemma {:induction false} Copied(s: Fields, m: Meaning, r: Regs, past: seq<byte>, s': Fields, r': Regs, copy: nat)
    requires Inv(s, m, r, past) && s.mode == MATCH && 1 <= copy <= s.length && copy <= r.left
    requires s.offset <= |past + r.output|
    requires s' == s.(length := s.length - copy, mode := if s.length == copy then LEN else MATCH)
    requires r' == r.(output := r'.output, left := r.left - copy)
    requires past + r'.output == CopyBack(past + r.output, s.offset, copy)
    ensures Visited(s, m, r, false, s', m, r', past)
  {
    hide Step, TableFor, Moves, CodesOk, ValidLens, CopyBack, Held, Pow2;
    var x := Abs(s, m, r, past);
    AtMatch(x.(bits := Held(r)));
    SameBits(r, r');
    MatchSteps(s.last, m.codes, s.length, s.offset, x.bits, x.out, copy);
    assert Abs(s', m, r', past) == Conf(MatchRest(s.last, m.codes, s.length, s.offset, copy), x.bits, past + r'.output);
    MovesGrow(x, Abs(s', m, r', past));
  }

  /** The next bytes of a match: as many as are contiguous in the window or all that remain
      from the output, within the space left. */
  method MatchBytes(length: nat, offset: nat, output: seq<byte>, left: nat, win: W.Window, ghost past: seq<byte>)
      returns (bad: bool, copy: nat, bytes: seq<byte>)
    requires 1 <= length && 1 <= offset && left > 0
    requires win.Recalls(past)
    ensures bad <==> offset > |past| + |output|
    ensures !bad ==> 1 <= copy <= length && copy <= left
    ensures !bad ==> past + bytes == CopyBack(past + output, offset, copy)
  {
    hide CopyBack, Pow2, W.Holds;
    bad, copy, bytes := false, |output|, output;
    WindowSizes(win, past);
    if offset > copy {
      copy := offset - copy;
      if copy > win.whave {
        bad := true;
        return;
      }
      var from;
      if copy > win.wnext {
        copy := copy - win.wnext;
        from := win.wsize - copy;
      } else {
        from := win.wnext - copy;
      }
      if copy > length {
        copy := length;
      }
      if copy > left {
        copy := left;
      }
      FromWindow(win.data[..], win.wsize, win.wnext, win.whave, past, output, offset, from, copy);
      bytes := CopyFromWindow(win.data, from, copy, output);
      assert win.data[..][from..from + copy] == win.data[from..from + copy];
    } else {
      copy := length;
      if copy > left {
        copy := left;
      }
      bytes := CopyFromOutput(output, offset, copy);
      FromOutput(past, output, offset, bytes);
    }
  }

  method DoMatch(s: Fields, ghost m: Meaning, r: Regs, ghost past: seq<byte>, win: W.Window)
      returns (leave: bool, s': Fields, r': Regs)
    requires Inv(s, m, r, past) && s.mode == MATCH
    requires win.Recalls(past)
    ensures Visited(s, m, r, leave, s', m, r', past)
  {
    hide Step, TableFor, Moves, CodesOk, ValidLens, CopyBack, Held, Pow2, Unread;
    ghost var x := Abs(s, m, r, past);
    AtMatch(x);
    AtMatch(x.(bits := Held(r)));
    s', r' := s, r;
    if r.left == 0 {
      return true, s', r';
    }
    var bad, copy, bytes := MatchBytes(s.length, s.offset, r.output, r.left, win, past);
    if bad {
      s' := s.(mode := BAD);
      Stepped(s, m, r, s', m, r', past);
      return false, s', r';
    }
    s' := s.(length := s.length - copy);
    if s'.length == 0 {
      s' := s'.(mode := LEN);
    }
    r' := r.(output := bytes, left := r.left - copy);
    Copied(s, m, r, past, s', r', copy);
    return false, s', r';
  }

  /** What the window can look like then. */
  lemma {:induction false} WindowSizes(win: W.Window, past: seq<byte>)
    requires win.Recalls(past)
    ensures win.whave == |past|
    ensures win.whave > 0 ==>
      win.wsize == win.data.Length && win.wnext < win.wsize
      && W.Holds(win.data[..], win.wsize, win.wnext, win.whave, past)
      && (win.whave < win.wsize ==> win.wnext == win.whave)
  {
    hide Pow2;
  }

  method DoLit(s: Fields, ghost m: Meaning, r: Regs, ghost past: seq<byte>)
      returns (leave: bool, s': Fields, r': Regs)
    requires Inv(s, m, r, past) && s.mode == LIT
    ensures Visited(s, m, r, leave, s', m, r', past)
  {
    hide Step, TableFor, Moves, CodesOk, ValidLens, Held, Pow2, Unread;
    ghost var x := Abs(s, m, r, past);
    AtLit(x);
    AtLit(x.(bits := Held(r)));
    s', r' := s, r;
    if r.left == 0 {
      return true, s', r';
    }
    r' := r.(output := r.output + [s.length as byte], left := r.left - 1);
    s' := s.(mode := LEN);
    assert past + r'.output == past + r.output + [s.length as byte];
    SameBits(r, r');
    Stepped(s, m, r, s', m, r', past);
    return false, s', r';
  }
  lemma {:induction false} TypeBits(b: BitString)
    requires |b| >= 3
    ensures Lsb(b[..1]) == 1 <==> b[0]
    ensures b[1..][..2] == b[1..3] && b[1..][2..] == b[3..]
    ensures Lsb(b[1..3]) < 4
  {
    assert b[..1][1..] == [];
    assert Lsb([]) == 0;
    SmallPowers();
  }

  /** The fixed codes are complete and their tables fit: every code is in the root table. */
  lemma {:induction false} FixedFacts()
    ensures CodesOk(FixedCodes())
    ensures !Exceeds(LENS, TableSize(FixedCodes().llens, 9))
    ensures !Exceeds(DISTS, TableSize(FixedCodes().dlens, 5))
  {
    hide TableSize, Pow2, CodesOk, FixedCodes;
    FixedOk();
    FixedShort();
    FlatSize(FixedCodes().llens, 9);
    FlatSize(FixedCodes().dlens, 5);
    SmallPowers();
  }

  lemma {:induction false} FixedShort()
    ensures forall s :: 0 <= s < |FixedCodes().llens| ==> FixedCodes().llens[s] <= 9
    ensures forall s :: 0 <= s < |FixedCodes().dlens| ==> FixedCodes().dlens[s] <= 5
  {
  }

  lemma {:induction false} FlatSize(lens: seq<nat>, root: nat)
    requires 1 <= root <= MAXBITS && forall s :: 0 <= s < |lens| ==> lens[s] <= root
    ensures TableSize(lens, root) <= Pow2(root)
  {
    hide Pow2, TableUse;
    var max := LongestTo(lens, MAXBITS);
    LongestBound(lens, MAXBITS, root);
    Pow2Monotone(1, root);
    SmallPowers();
    if max > 0 {
      Pow2Monotone(RootBits(lens, root), root);
      TableUseFlat(lens, RootBits(lens, root), max, ShortestFrom(lens, 1, max), 0, Pow2(RootBits(lens, root)));
    }
  }

  lemma {:induction false} LongestBound(lens: seq<nat>, l: nat, root: nat)
    requires forall s :: 0 <= s < |lens| ==> lens[s] <= root
    ensures LongestTo(lens, l) <= root
  {
    hide CountTo;
    if l > 0 && Count(lens, l) == 0 {
      LongestBound(lens, l - 1, root);
    } else if l > 0 {
      var s := Nth(lens, l, 0);
    }
  }
}
