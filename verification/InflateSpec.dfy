/** Inflating a raw deflate stream, one indivisible step at a time, on an unbounded bit
    stream (section 3.2 of RFC 1951, in the order inflate.c decides things). A step is a
    piece of work inflate does entirely or not at all before it can return to its caller. */
module InflateSpec {
  import opened Bits
  import opened Canonical
  import opened InflateTable
  import opened Lz77

  /** A pair of codes in use: literal/length and distance code lengths. */
  datatype Codes = Codes(llens: seq<nat>, dlens: seq<nat>)

  datatype State =
    | Type(last: bool)
    | Stored(last: bool)
    | Copy(last: bool, length: nat)
    | Table(last: bool)
    | LenLens(last: bool, ncode: nat, nlen: nat, ndist: nat, cl: seq<nat>)
    | CodeLens(last: bool, nlen: nat, ndist: nat, lens: seq<nat>, code: seq<nat>)
    | Len(last: bool, codes: Codes)
    | LenExt(last: bool, codes: Codes, length: nat, extra: nat)
    | Dist(last: bool, codes: Codes, length: nat)
    | DistExt(last: bool, codes: Codes, length: nat, offset: nat, extra: nat)
    | Match(last: bool, codes: Codes, length: nat, offset: nat)
    | Lit(last: bool, codes: Codes, lit: nat)
    | Done
    | Bad

  /** State, unread bits, and everything written so far (dictionary included). */
  datatype Conf = Conf(st: State, bits: BitString, out: seq<byte>)

  const ORDER: seq<nat> := [16, 17, 18, 0, 8, 7, 9, 6, 10, 5, 11, 4, 12, 3, 13, 2, 14, 1, 15]

  // ----- decoding one code -----

  /** The table entry an accumulator decodes to. */
  ghost function Decode(kind: CodeType, lens: seq<nat>, hold: nat): (e: Entry)
    requires |lens| <= Symbols(kind)
  {
    if s: nat :| Used(lens, s) && Covers(lens, s, Point(hold)) then SymEntry(kind, s, lens[s]) else Entry(64, 1, 0)
  }

  lemma {:induction false} DecodeCovered(kind: CodeType, lens: seq<nat>, hold: nat, s: nat)
    requires |lens| <= Symbols(kind) && Used(lens, s) && Covers(lens, s, Point(hold))
    ensures Decode(kind, lens, hold) == SymEntry(kind, s, lens[s])
  {
    hide Point, Covers, SymEntry;
    var t: nat :| Used(lens, t) && Covers(lens, t, Point(hold)) && Decode(kind, lens, hold) == SymEntry(kind, t, lens[t]);
    CoversUnique(lens, s, t, Point(hold));
  }

  /** What a table finds is what the code decodes to. */
  lemma {:induction false} DecodeFinds(kind: CodeType, lens: seq<nat>, tab: seq<Entry>, root: nat, hold: nat)
    requires |lens| <= Symbols(kind) && TableFor(kind, lens, tab, root)
    ensures Finds(tab, root, hold, Decode(kind, lens, hold))
  {
    hide Point, Covers, SymEntry, Finds, Kraft;
    if Point(hold) < Kraft(lens) {
      var s := CoversExists(lens, Point(hold));
      DecodeCovered(kind, lens, hold, s);
    } else if exists s: nat :: Used(lens, s) && Covers(lens, s, Point(hold)) {
      var s: nat :| Used(lens, s) && Covers(lens, s, Point(hold));
      DecodeCovered(kind, lens, hold, s);
    }
  }

  /** A stream that starts with the code word of s decodes to s. */
  lemma {:induction false} DecodeWord(kind: CodeType, lens: seq<nat>, s: nat, b: BitString)
    requires |lens| <= Symbols(kind) && Used(lens, s) && Kraft(lens) <= FULL && CodeWord(lens, s) <= b
    ensures Decode(kind, lens, Lsb(b)) == SymEntry(kind, s, lens[s])
  {
    hide Point, Covers, SymEntry, Kraft, CodeWord, Lsb;
    WordCovers(lens, s, b);
    DecodeCovered(kind, lens, Lsb(b), s);
  }

  lemma {:induction false} AcceptableKraft(kind: CodeType, lens: seq<nat>)
    requires Acceptable(kind, lens)
    ensures Kraft(lens) <= FULL
    ensures Kraft(lens) == FULL || Kraft(lens) == 0 || Kraft(lens) == Pow2(14)
  {
    hide CountTo;
    if Kraft(lens) != FULL {
      forall l | 1 < l <= MAXBITS
        ensures Count(lens, l) == 0
      {
        if Count(lens, l) > 0 { var s := Nth(lens, l, 0); }
      }
      if Count(lens, 1) > 0 {
        var s := Nth(lens, 1, 0);
        LoneCode(lens);
      } else {
        NoCodes(lens, MAXBITS + 1);
      }
    }
  }

  /** Once the accumulator holds all the bits of the decoded entry, more bits do not change it. */
  lemma {:induction false} DecodeExtend(kind: CodeType, lens: seq<nat>, b: BitString, x: BitString)
    requires |lens| <= Symbols(kind) && Acceptable(kind, lens)
    requires Decode(kind, lens, Lsb(b)).bits <= |b|
    ensures Decode(kind, lens, Lsb(b + x)) == Decode(kind, lens, Lsb(b))
  {
    hide Point, SymOp, SymVal, Kraft, CodeWord, Lsb, Acceptable, Pow2;
    AcceptableKraft(kind, lens);
    if s: nat :| Used(lens, s) && Covers(lens, s, Point(Lsb(b))) {
      DecodeCovered(kind, lens, Lsb(b), s);
      WordCovers(lens, s, b);
      DecodeWord(kind, lens, s, b + x);
    } else {
      if Kraft(lens) > Point(Lsb(b)) { var s := CoversExists(lens, Point(Lsb(b))); }
      FirstBitHalf(b, x);
      if s: nat :| Used(lens, s) && Covers(lens, s, Point(Lsb(b + x))) {
        StartPlace(lens, s);
        assert false;
      }
    }
  }

  /** Bits that decode once all are in the accumulator decoded the same before more came. */
  lemma {:induction false} DecodeRestrict(kind: CodeType, lens: seq<nat>, b: BitString, x: BitString)
    requires |lens| <= Symbols(kind) && Acceptable(kind, lens)
    requires Decode(kind, lens, Lsb(b + x)).bits <= |b|
    ensures Decode(kind, lens, Lsb(b)) == Decode(kind, lens, Lsb(b + x))
  {
    hide Point, SymOp, SymVal, Kraft, CodeWord, Lsb, Acceptable, Pow2;
    AcceptableKraft(kind, lens);
    if s: nat :| Used(lens, s) && Covers(lens, s, Point(Lsb(b + x))) {
      DecodeCovered(kind, lens, Lsb(b + x), s);
      WordCovers(lens, s, b + x);
      assert CodeWord(lens, s) <= b;
      DecodeWord(kind, lens, s, b);
    } else {
      FirstBitHalf(b, x);
      FirstBitHalf(b + x, []);
      if Kraft(lens) > Point(Lsb(b + x)) { var s := CoversExists(lens, Point(Lsb(b + x))); }
      if s: nat :| Used(lens, s) && Covers(lens, s, Point(Lsb(b))) {
        StartPlace(lens, s);
        assert false;
      }
    }
  }

  /** The first bit alone decides the half of the line. */
  lemma {:induction false} FirstBitHalf(b: BitString, x: BitString)
    requires |b| >= 1
    ensures Point(Lsb(b)) < Pow2(14) <==> Point(Lsb(b + x)) < Pow2(14)
    ensures Point(Lsb(b)) < FULL
  {
    hide Lsb, Pow2;
    FullIsPow2();
    LsbSplit(b, 1);
    LsbSplit(b + x, 1);
    assert b[..1] == (b + x)[..1];
    HalfIsBit(Lsb(b));
    HalfIsBit(Lsb(b + x));
  }

  lemma {:induction false} HalfIsBit(h: nat)
    ensures Point(h) < Pow2(14) <==> Low(h, 1) == 0
  {
    var w := Point(h);
    RevShr(h, MAXBITS, 14);
    CellOf(w, 0, 14);
    ShlOne(14);
    assert Shr(w, 14) == Rev(Low(h, 1), 1);
    RevRev(Low(h, 1), 1);
    LowLow(h, 1, 1);
    RevZero(1);
  }

  // ----- states -----

  ghost predicate CodesOk(codes: Codes)
  {
    && |codes.llens| <= Symbols(LENS) && ValidLens(codes.llens) && Acceptable(LENS, codes.llens)
    && |codes.dlens| <= Symbols(DISTS) && ValidLens(codes.dlens) && Acceptable(DISTS, codes.dlens)
  }

  ghost predicate CodeOk(code: seq<nat>)
  {
    |code| == 19 && (forall i :: 0 <= i < 19 ==> code[i] <= 7) && Acceptable(CODES, code)
  }

  predicate CountsOk(nlen: nat, ndist: nat) { 257 <= nlen <= 286 && 1 <= ndist <= 30 }

  ghost predicate Ok(st: State)
  {
    match st
    case LenLens(_, ncode, nlen, ndist, cl) =>
      CountsOk(nlen, ndist) && |cl| <= ncode <= 19 && forall i :: 0 <= i < |cl| ==> cl[i] <= 7
    case CodeLens(_, nlen, ndist, lens, code) =>
      CountsOk(nlen, ndist) && |lens| <= nlen + ndist && ValidLens(lens) && CodeOk(code)
    case Len(_, codes) => CodesOk(codes)
    case LenExt(_, codes, length, extra) => CodesOk(codes) && 3 <= length && extra <= 5 && length + Pow2(extra) <= 259
    case Dist(_, codes, length) => CodesOk(codes) && 3 <= length <= 258
    case DistExt(_, codes, length, offset, extra) =>
      CodesOk(codes) && 3 <= length <= 258 && 1 <= offset && extra <= 13 && offset + Pow2(extra) <= 32769
    case Match(_, codes, length, offset) => CodesOk(codes) && 1 <= length <= 258 && 1 <= offset <= 32768
    case Lit(_, codes, lit) => CodesOk(codes) && lit < 256
    case _ => true
  }

  /** The fixed codes (section 3.2.6 of RFC 1951). */
  function FixedLength(s: int): (l: nat)
  {
    if s < 144 then 8 else if s < 256 then 9 else if s < 280 then 7 else 8
  }

  function FixedCodes(): (codes: Codes)
  {
    Codes(seq(288, s => FixedLength(s)), seq(32, _ => 5))
  }

  /** The code-length code whose lengths arrive in the order of ORDER. */
  function PlaceLens(cl: seq<nat>): (code: seq<nat>)
    requires |cl| <= 19
    ensures |code| == 19
  {
    if cl == [] then seq(19, _ => 0) else PlaceLens(cl[..|cl| - 1])[ORDER[|cl| - 1] := cl[|cl| - 1]]
  }

  predicate Bit4(op: nat) { op / 16 % 2 == 1 }
  predicate Bit5(op: nat) { op / 32 % 2 == 1 }
  predicate Bit6(op: nat) { op / 64 % 2 == 1 }

  /** Both codes of a dynamic block can be used. */
  ghost predicate DynamicOk(lens: seq<nat>, nlen: nat)
    requires nlen <= 286 && nlen <= |lens| <= nlen + 30 && ValidLens(lens)
  {
    && Acceptable(LENS, lens[..nlen]) && !Exceeds(LENS, TableSize(lens[..nlen], 9))
    && Acceptable(DISTS, lens[nlen..]) && !Exceeds(DISTS, TableSize(lens[nlen..], 6))
  }

  function Repeat(lens: seq<nat>, v: nat, n: nat): (r: seq<nat>)
  {
    lens + seq(n, _ => v)
  }

  // ----- one step -----

  ghost function StepType(last: bool, b: BitString, out: seq<byte>): (r: Option<Conf>)
  {
    if last then Some(Conf(Done, b[|b| % 8..], out))
    else if |b| < 3 then None
    else
      var t := Lsb(b[1..3]);
      Some(Conf(if t == 0 then Stored(b[0]) else if t == 1 then Len(b[0], FixedCodes())
                else if t == 2 then Table(b[0]) else Bad, b[3..], out))
  }

  ghost function StepStored(last: bool, b: BitString, out: seq<byte>): (r: Option<Conf>)
  {
    if |b| % 8 != 0 then Some(Conf(Stored(last), b[|b| % 8..], out))
    else if |b| < 32 then None
    else if Lsb(b[..16]) + Lsb(b[16..32]) != 65535 then Some(Conf(Bad, b, out))
    else Some(Conf(Copy(last, Lsb(b[..16])), b[32..], out))
  }

  ghost function StepCopy(last: bool, length: nat, b: BitString, out: seq<byte>): (r: Option<Conf>)
  {
    if length == 0 then Some(Conf(Type(last), b, out))
    else if |b| < 8 then None
    else Some(Conf(Copy(last, length - 1), b[8..], out + [ByteVal(b[..8])]))
  }

  function ByteVal(b: BitString): (r: byte)
    requires |b| == 8
    ensures r == Lsb(b)
  {
    assert Pow2(8) == 256;
    Lsb(b)
  }

  ghost function StepTable(last: bool, b: BitString, out: seq<byte>): (r: Option<Conf>)
  {
    if |b| < 14 then None
    else
      var nlen, ndist, ncode := Lsb(b[..5]) + 257, Lsb(b[5..10]) + 1, Lsb(b[10..14]) + 4;
      Some(Conf(if nlen > 286 || ndist > 30 then Bad else LenLens(last, ncode, nlen, ndist, []), b[14..], out))
  }

  ghost function StepLenLens(st: State, b: BitString, out: seq<byte>): (r: Option<Conf>)
    requires st.LenLens? && Ok(st)
  {
    if |st.cl| < st.ncode then
      if |b| < 3 then None else Some(Conf(st.(cl := st.cl + [Lsb(b[..3])]), b[3..], out))
    else
      var code := PlaceLens(st.cl);
      Some(Conf(if Acceptable(CODES, code) then CodeLens(st.last, st.nlen, st.ndist, [], code) else Bad, b, out))
  }

  /** A repeat code: the length it repeats, the smallest count, and the extra bits of the count. */
  function RepeatOf(val: nat, lens: seq<nat>): (r: (nat, nat, nat))
    requires val == 16 ==> lens != []
  {
    if val == 16 then (lens[|lens| - 1], 3, 2) else if val == 17 then (0, 3, 3) else (0, 11, 7)
  }

  function RepeatBits(val: nat): (n: nat) { if val == 16 then 2 else if val == 17 then 3 else 7 }

  /** A repeat code e with all its bits present. */
  ghost function StepRepeat(st: State, e: Entry, b: BitString, out: seq<byte>): (r: Conf)
    requires st.CodeLens? && |b| >= e.bits + RepeatBits(e.val)
  {
    if e.val == 16 && st.lens == [] then Conf(Bad, b[e.bits..], out)
    else
      var (v, least, xb) := RepeatOf(e.val, st.lens);
      var n := least + Lsb(b[e.bits..e.bits + xb]);
      Conf(if |st.lens| + n > st.nlen + st.ndist then Bad else st.(lens := Repeat(st.lens, v, n)), b[e.bits + xb..], out)
  }

  ghost function StepCodeLens(st: State, b: BitString, out: seq<byte>): (r: Option<Conf>)
    requires st.CodeLens? && Ok(st)
  {
    if |st.lens| < st.nlen + st.ndist then
      var e := Decode(CODES, st.code, Lsb(b));
      if e.val < 16 then
        if |b| < e.bits then None else Some(Conf(st.(lens := st.lens + [e.val]), b[e.bits..], out))
      else if |b| < e.bits + RepeatBits(e.val) then None
      else Some(StepRepeat(st, e, b, out))
    else
      Some(Conf(if st.lens[256] == 0 || !DynamicOk(st.lens, st.nlen) then Bad
                else Len(st.last, Codes(st.lens[..st.nlen], st.lens[st.nlen..])), b, out))
  }

  /** The step at a repeat code. */
  lemma {:induction false} AtRepeat(x: Conf, e: Entry)
    requires x.st.CodeLens? && Ok(x.st) && |x.st.lens| < x.st.nlen + x.st.ndist
    requires e == Decode(CODES, x.st.code, Lsb(x.bits)) && e.val >= 16
    ensures Step(x) == if |x.bits| < e.bits + RepeatBits(e.val) then None else Some(StepRepeat(x.st, e, x.bits, x.out))
  {
    hide Decode, Lsb;
  }

  ghost function StepLen(last: bool, codes: Codes, b: BitString, out: seq<byte>): (r: Option<Conf>)
    requires CodesOk(codes)
  {
    var e := Decode(LENS, codes.llens, Lsb(b));
    if |b| < e.bits then None
    else
      Some(Conf(if e.op == 0 then Lit(last, codes, e.val)
                else if Bit5(e.op) then Type(last)
                else if Bit6(e.op) then Bad
                else LenExt(last, codes, e.val, e.op % 16), b[e.bits..], out))
  }

  ghost function StepDist(last: bool, codes: Codes, length: nat, b: BitString, out: seq<byte>): (r: Option<Conf>)
    requires CodesOk(codes)
  {
    var e := Decode(DISTS, codes.dlens, Lsb(b));
    if |b| < e.bits then None
    else
      Some(Conf(if Bit6(e.op) then Bad else DistExt(last, codes, length, e.val, e.op % 16), b[e.bits..], out))
  }

  ghost function Step(x: Conf): (r: Option<Conf>)
    requires Ok(x.st)
  {
    var b, out := x.bits, x.out;
    match x.st
    case Type(last) => StepType(last, b, out)
    case Stored(last) => StepStored(last, b, out)
    case Copy(last, length) => StepCopy(last, length, b, out)
    case Table(last) => StepTable(last, b, out)
    case LenLens(_, _, _, _, _) => StepLenLens(x.st, b, out)
    case CodeLens(_, _, _, _, _) => StepCodeLens(x.st, b, out)
    case Len(last, codes) => StepLen(last, codes, b, out)
    case LenExt(last, codes, length, extra) =>
      if |b| < extra then None else Some(Conf(Dist(last, codes, length + Lsb(b[..extra])), b[extra..], out))
    case Dist(last, codes, length) => StepDist(last, codes, length, b, out)
    case DistExt(last, codes, length, offset, extra) =>
      if |b| < extra then None else Some(Conf(Match(last, codes, length, offset + Lsb(b[..extra])), b[extra..], out))
    case Match(last, codes, length, offset) =>
      if offset > |out| then Some(Conf(Bad, b, out))
      else Some(Conf(if length == 1 then Len(last, codes) else Match(last, codes, length - 1, offset), b,
                     out + [out[|out| - offset]]))
    case Lit(last, codes, lit) => Some(Conf(Len(last, codes), b, out + [lit as byte]))
    case Done => None
    case Bad => None
  }

  /** The step writes a byte, or looks at what has been written: it needs output space. */
  predicate NeedsSpace(st: State)
  {
    st.Lit? || st.Match? || (st.Copy? && st.length > 0)
  }

  // ----- steps stay among the states above -----

  lemma {:induction false} SmallPowers()
    ensures Pow2(0) == 1 && Pow2(1) == 2 && Pow2(2) == 4 && Pow2(3) == 8 && Pow2(4) == 16 && Pow2(5) == 32
    ensures Pow2(6) == 64 && Pow2(7) == 128 && Pow2(8) == 256 && Pow2(9) == 512 && Pow2(10) == 1024
    ensures Pow2(11) == 2048 && Pow2(12) == 4096 && Pow2(13) == 8192
  {
  }

  lemma {:induction false} LengthEntry(s: nat)
    requires 257 <= s < 286
    ensures var op, val := SymOp(LENS, s), SymVal(LENS, s);
      16 <= op <= 21 && 3 <= val && val + Pow2(op - 16) <= 259
  {
    hide Pow2;
    SmallPowers();
  }

  lemma {:induction false} NoLengthEntry(s: nat)
    requires 286 <= s < 288
    ensures !Bit4(SymOp(LENS, s)) && !Bit5(SymOp(LENS, s)) && Bit6(SymOp(LENS, s))
  {
    assert SymOp(LENS, 286) == 199 && SymOp(LENS, 287) == 202;
  }

  lemma {:induction false} DistanceEntry(s: nat)
    requires s < 32
    ensures var op, val := SymOp(DISTS, s), SymVal(DISTS, s);
      if s < 30 then 16 <= op <= 29 && 1 <= val && val + Pow2(op - 16) <= 32769 else op == 64
  {
    hide Pow2;
    SmallPowers();
  }

  /** What a literal/length code can decode to. */
  lemma {:induction false} DecodeLength(lens: seq<nat>, hold: nat)
    requires |lens| <= Symbols(LENS)
    ensures var e := Decode(LENS, lens, hold);
      && 1 <= e.bits <= MAXBITS
      && (e.op == 0 ==> e.val < 256)
      && (e.op != 0 && !Bit5(e.op) && !Bit6(e.op) ==>
            16 <= e.op <= 21 && e.op % 16 == e.op - 16 && 3 <= e.val && e.val + Pow2(e.op - 16) <= 259)
      && (Bit4(e.op) <==> e.op != 0 && !Bit5(e.op) && !Bit6(e.op))
  {
    hide Point, Covers, Pow2, LEXT, LBASE;
    if s: nat :| Used(lens, s) && Covers(lens, s, Point(hold)) {
      DecodeCovered(LENS, lens, hold, s);
      if 257 <= s < 286 { LengthEntry(s); }
      if 286 <= s { NoLengthEntry(s); }
    }
  }

  /** What a distance code can decode to. */
  lemma {:induction false} DecodeDistance(lens: seq<nat>, hold: nat)
    requires |lens| <= Symbols(DISTS)
    ensures var e := Decode(DISTS, lens, hold);
      && 1 <= e.bits <= MAXBITS
      && e.op >= 16
      && (!Bit6(e.op) ==> 16 <= e.op <= 29 && e.op % 16 == e.op - 16 && 1 <= e.val && e.val + Pow2(e.op - 16) <= 32769)
  {
    hide Point, Covers, Pow2, DEXT, DBASE;
    if s: nat :| Used(lens, s) && Covers(lens, s, Point(hold)) {
      DecodeCovered(DISTS, lens, hold, s);
      DistanceEntry(s);
    }
  }

  /** What a code-length code can decode to. */
  lemma {:induction false} DecodeCodeLength(lens: seq<nat>, hold: nat)
    requires CodeOk(lens)
    ensures var e := Decode(CODES, lens, hold);
      1 <= e.bits <= 7 && e.val <= 18 && !IsLink(e)
  {
    hide Point, Covers, Pow2, Acceptable;
    if s: nat :| Used(lens, s) && Covers(lens, s, Point(hold)) {
      DecodeCovered(CODES, lens, hold, s);
    }
  }

  // ----- the fixed codes are complete -----

  function Clamp(n: nat, lo: nat, hi: nat): (r: nat)
    requires lo <= hi
  {
    if n < lo then 0 else if n > hi then hi - lo else n - lo
  }

  lemma {:induction false} FixedCount(n: nat, l: nat)
    requires n <= 288
    ensures CountTo(FixedCodes().llens, l, n) ==
      if l == 8 then Clamp(n, 0, 144) + Clamp(n, 280, 288)
      else if l == 9 then Clamp(n, 144, 256)
      else if l == 7 then Clamp(n, 256, 280)
      else 0
  {
    if n > 0 { FixedCount(n - 1, l); }
  }

  lemma {:induction false} FixedDistCount(n: nat, l: nat)
    requires n <= 32
    ensures CountTo(FixedCodes().dlens, l, n) == if l == 5 then n else 0
  {
    if n > 0 { FixedDistCount(n - 1, l); }
  }

  lemma {:induction false} FixedKraft()
    ensures Kraft(FixedCodes().llens) == FULL
  {
    hide CountTo;
    var lens := FixedCodes().llens;
    forall l: nat
      ensures Count(lens, l) == if l == 8 then 152 else if l == 9 then 112 else if l == 7 then 24 else 0
    {
      FixedCount(288, l);
    }
    FixedLayout(lens);
  }

  lemma {:induction false} FixedLayout(lens: seq<nat>)
    requires forall l: nat :: Count(lens, l) == if l == 8 then 152 else if l == 9 then 112 else if l == 7 then 24 else 0
    ensures Kraft(lens) == FULL
  {
    hide Count;
    var l := 1;
    while l < 7
      invariant 1 <= l <= 7 && Below(lens, l) == 0
    {
      ShlOne(MAXBITS - l);
      l := l + 1;
    }
    assert Below(lens, 8) == Shl(24, 8) == 6144;
    assert Below(lens, 9) == 6144 + Shl(152, 7) == 25600;
    assert Below(lens, 10) == 25600 + Shl(112, 6) == 32768;
    l := 10;
    while l < 16
      invariant 10 <= l <= 16 && Below(lens, l) == 32768
    {
      ShlOne(MAXBITS - l);
      l := l + 1;
    }
  }

  lemma {:induction false} FixedDistKraft()
    ensures Kraft(FixedCodes().dlens) == FULL
  {
    hide CountTo;
    var lens := FixedCodes().dlens;
    forall l: nat
      ensures Count(lens, l) == if l == 5 then 32 else 0
    {
      FixedDistCount(32, l);
    }
    FixedDistLayout(lens);
  }

  lemma {:induction false} FixedDistLayout(lens: seq<nat>)
    requires forall l: nat :: Count(lens, l) == if l == 5 then 32 else 0
    ensures Kraft(lens) == FULL
  {
    hide Count;
    var l := 1;
    while l < 5
      invariant 1 <= l <= 5 && Below(lens, l) == 0
    {
      ShlOne(MAXBITS - l);
      l := l + 1;
    }
    assert Below(lens, 6) == Shl(32, 10) == 32768;
    l := 6;
    while l < 16
      invariant 6 <= l <= 16 && Below(lens, l) == 32768
    {
      ShlOne(MAXBITS - l);
      l := l + 1;
    }
  }

  lemma {:induction false} FixedOk()
    ensures CodesOk(FixedCodes())
  {
    hide Kraft;
    FixedKraft();
    FixedDistKraft();
  }

  // ----- laws of steps -----

  lemma {:induction false} PlaceLensSmall(cl: seq<nat>)
    requires |cl| <= 19 && forall i :: 0 <= i < |cl| ==> cl[i] <= 7
    ensures forall i :: 0 <= i < 19 ==> PlaceLens(cl)[i] <= 7
  {
    if cl != [] { PlaceLensSmall(cl[..|cl| - 1]); }
  }

  /** Steps lead from good states to good states. */
  lemma {:induction false} StepOk(x: Conf)
    requires Ok(x.st) && Step(x).Some?
    ensures Ok(Step(x).value.st)
  {
    hide Decode, DynamicOk, CodesOk, Acceptable, PlaceLens, FixedCodes, Bit5, Bit6, Pow2, Lsb;
    var b := x.bits;
    match x.st
    case Type(last) => FixedOk();
    case Table(last) => TableBits(b);
    case LenLens(_, _, _, _, cl) =>
      PlaceLensSmall(cl);
      if |b| >= 3 { SmallPowers(); assert Lsb(b[..3]) < Pow2(3); }
    case CodeLens(_, _, _, _, _) => StepCodeLensOk(x.st, b, x.out);
    case Len(_, codes) => StepLenOk(x);
    case LenExt(_, codes, length, extra) => assert Lsb(b[..extra]) < Pow2(extra);
    case Dist(_, codes, length) => StepDistOk(x);
    case DistExt(_, codes, length, offset, extra) => assert Lsb(b[..extra]) < Pow2(extra);
    case _ =>
  }

  lemma {:induction false} TableBits(b: BitString)
    requires |b| >= 14
    ensures Lsb(b[..5]) < 32 && Lsb(b[5..10]) < 32 && Lsb(b[10..14]) < 16
  {
    SmallPowers();
  }

  lemma {:induction false} StepLenOk(x: Conf)
    requires x.st.Len? && Ok(x.st) && Step(x).Some?
    ensures Ok(Step(x).value.st)
  {
    hide Decode, CodesOk, Bit5, Bit6, Pow2, Lsb;
    assert CodesOk(x.st.codes);
    CodesSizes(x.st.codes);
    DecodeLength(x.st.codes.llens, Lsb(x.bits));
  }

  lemma {:induction false} CodesSizes(codes: Codes)
    requires CodesOk(codes)
    ensures |codes.llens| <= Symbols(LENS) && |codes.dlens| <= Symbols(DISTS)
    ensures Acceptable(LENS, codes.llens) && Acceptable(DISTS, codes.dlens)
  {
  }

  lemma {:induction false} StepDistOk(x: Conf)
    requires x.st.Dist? && Ok(x.st) && Step(x).Some?
    ensures Ok(Step(x).value.st)
  {
    hide Decode, CodesOk, Bit5, Bit6, Pow2, Lsb;
    CodesSizes(x.st.codes);
    DecodeDistance(x.st.codes.dlens, Lsb(x.bits));
  }

  lemma {:induction false} StepCodeLensOk(st: State, b: BitString, out: seq<byte>)
    requires st.CodeLens? && Ok(st) && StepCodeLens(st, b, out).Some?
    ensures Ok(StepCodeLens(st, b, out).value.st)
  {
    hide Decode, Acceptable, Pow2, Lsb;
    DecodeCodeLength(st.code, Lsb(b));
  }

  /** Bits beyond those a step looks at stay behind it. */
  lemma {:induction false} StepMonotone(x: Conf, y: BitString)
    requires Ok(x.st) && Step(x).Some? && |y| % 8 == 0
    ensures Step(x.(bits := x.bits + y)) == Some(Step(x).value.(bits := Step(x).value.bits + y))
  {
    match x.st {
      case Type(last) => TypeMonotone(x, y);
      case Stored(last) => StoredMonotone(x, y);
      case Copy(last, length) => CopyMonotone(x, y);
      case Table(last) => TableMonotone(x, y);
      case LenLens(_, _, _, _, cl) => LenLensMonotone(x, y);
      case CodeLens(_, _, _, _, _) =>
        hide Decode, DynamicOk, CodesOk, Acceptable, Lsb, Ok, StepCodeLens;
        CodeLensMonotone(x.st, x.bits, y, x.out);
      case Len(_, codes) => LenMonotone(x, y);
      case Dist(_, codes, length) => DistMonotone(x, y);
      case _ => SimpleMonotone(x, y);
    }
  }

  lemma {:induction false} TypeMonotone(x: Conf, y: BitString)
    requires x.st.Type? && Ok(x.st) && Step(x).Some? && |y| % 8 == 0
    ensures Step(x.(bits := x.bits + y)) == Some(Step(x).value.(bits := Step(x).value.bits + y))
  {
    hide Lsb, FixedCodes;
    var b := x.bits;
    assert |b + y| % 8 == |b| % 8;
    Prefixes(b, y, 1, 3);
    Prefixes(b, y, |b| % 8, |b| % 8);
  }

  lemma {:induction false} StoredMonotone(x: Conf, y: BitString)
    requires x.st.Stored? && Ok(x.st) && Step(x).Some? && |y| % 8 == 0
    ensures Step(x.(bits := x.bits + y)) == Some(Step(x).value.(bits := Step(x).value.bits + y))
  {
    hide Lsb, Step;
    var b := x.bits;
    AtStored(x);
    AtStored(x.(bits := b + y));
    assert |b + y| % 8 == |b| % 8;
    Prefixes(b, y, 16, 32);
    Prefixes(b, y, |b| % 8, |b| % 8);
  }

  lemma {:induction false} CopyMonotone(x: Conf, y: BitString)
    requires x.st.Copy? && Ok(x.st) && Step(x).Some?
    ensures Step(x.(bits := x.bits + y)) == Some(Step(x).value.(bits := Step(x).value.bits + y))
  {
    hide Lsb, Pow2;
    Prefixes(x.bits, y, 0, 8);
  }

  lemma {:induction false} TableMonotone(x: Conf, y: BitString)
    requires x.st.Table? && Ok(x.st) && Step(x).Some?
    ensures Step(x.(bits := x.bits + y)) == Some(Step(x).value.(bits := Step(x).value.bits + y))
  {
    hide Lsb;
    Prefixes(x.bits, y, 0, 5);
    Prefixes(x.bits, y, 5, 10);
    Prefixes(x.bits, y, 10, 14);
  }

  lemma {:induction false} LenLensMonotone(x: Conf, y: BitString)
    requires x.st.LenLens? && Ok(x.st) && Step(x).Some?
    ensures Step(x.(bits := x.bits + y)) == Some(Step(x).value.(bits := Step(x).value.bits + y))
  {
    hide Lsb, PlaceLens, Acceptable;
    Prefixes(x.bits, y, 0, 3);
  }

  lemma {:induction false} SimpleMonotone(x: Conf, y: BitString)
    requires x.st.LenExt? || x.st.DistExt? || x.st.Match? || x.st.Lit? || x.st.Done? || x.st.Bad?
    requires Ok(x.st) && Step(x).Some?
    ensures Step(x.(bits := x.bits + y)) == Some(Step(x).value.(bits := Step(x).value.bits + y))
  {
    hide Lsb, CodesOk, Pow2;
    if x.st.LenExt? || x.st.DistExt? {
      Prefixes(x.bits, y, 0, x.st.extra);
    }
  }

  lemma {:induction false} Prefixes(b: BitString, y: BitString, i: nat, j: nat)
    requires i <= j
    ensures j <= |b| ==> (b + y)[i..j] == b[i..j] && (b + y)[..i] == b[..i] && (b + y)[..j] == b[..j] && (b + y)[j..] == b[j..] + y
  {
  }

  lemma {:induction false} LenMonotone(x: Conf, y: BitString)
    requires x.st.Len? && Ok(x.st) && Step(x).Some?
    ensures Step(x.(bits := x.bits + y)) == Some(Step(x).value.(bits := Step(x).value.bits + y))
  {
    hide Decode, CodesOk, Acceptable, Bit5, Bit6, Pow2, Lsb;
    CodesSizes(x.st.codes);
    DecodeExtend(LENS, x.st.codes.llens, x.bits, y);
    var n := Decode(LENS, x.st.codes.llens, Lsb(x.bits)).bits;
    Prefixes(x.bits, y, n, n);
  }

  lemma {:induction false} DistMonotone(x: Conf, y: BitString)
    requires x.st.Dist? && Ok(x.st) && Step(x).Some?
    ensures Step(x.(bits := x.bits + y)) == Some(Step(x).value.(bits := Step(x).value.bits + y))
  {
    hide Decode, CodesOk, Acceptable, Bit5, Bit6, Pow2, Lsb;
    CodesSizes(x.st.codes);
    DecodeExtend(DISTS, x.st.codes.dlens, x.bits, y);
    var n := Decode(DISTS, x.st.codes.dlens, Lsb(x.bits)).bits;
    Prefixes(x.bits, y, n, n);
  }

  lemma {:induction false} CodeLensMonotone(st: State, b: BitString, y: BitString, out: seq<byte>)
    requires st.CodeLens? && Ok(st) && StepCodeLens(st, b, out).Some?
    ensures var r := StepCodeLens(st, b, out).value;
      StepCodeLens(st, b + y, out) == Some(r.(bits := r.bits + y))
  {
    hide Decode, Acceptable, Pow2, Lsb, DynamicOk;
    if |st.lens| < st.nlen + st.ndist {
      DecodeExtend(CODES, st.code, b, y);
      var e := Decode(CODES, st.code, Lsb(b));
      Prefixes(b, y, e.bits, e.bits);
      Prefixes(b, y, e.bits, e.bits + 2);
      Prefixes(b, y, e.bits, e.bits + 3);
      Prefixes(b, y, e.bits, e.bits + 7);
    }
  }

  /** Output only grows, by at most one byte a step, and only in states that need space. */
  lemma {:induction false} StepOutput(x: Conf)
    requires Ok(x.st) && Step(x).Some?
    ensures var y := Step(x).value;
      x.out <= y.out && |y.out| <= |x.out| + 1 && (!NeedsSpace(x.st) ==> y.out == x.out)
  {
    hide Decode, DynamicOk, CodesOk, Acceptable, PlaceLens, FixedCodes, Bit5, Bit6, Pow2, Lsb, Ok;
  }

  // ----- runs -----

  /** The configuration n steps after x. */
  ghost function Run(x: Conf, n: nat): (r: Option<Conf>)
    requires Ok(x.st)
    ensures r.Some? ==> Ok(r.value.st)
    decreases n
  {
    if n == 0 then Some(x)
    else if Step(x).None? then None
    else StepOk(x); Run(Step(x).value, n - 1)
  }

  ghost predicate Reaches(x: Conf, y: Conf)
  {
    Ok(x.st) && exists n: nat :: Run(x, n) == Some(y)
  }

  lemma {:induction false} RunAdd(x: Conf, n: nat, m: nat)
    requires Ok(x.st) && Run(x, n).Some?
    ensures Run(x, n + m) == Run(Run(x, n).value, m)
    decreases n
  {
    hide Step, Ok;
    if n > 0 {
      StepOk(x);
      RunAdd(Step(x).value, n - 1, m);
    }
  }

  lemma {:induction false} ReachesSelf(x: Conf)
    requires Ok(x.st)
    ensures Reaches(x, x)
  {
    hide Step, Ok;
    assert Run(x, 0) == Some(x);
  }

  lemma {:induction false} ReachesStep(x: Conf, y: Conf)
    requires Reaches(x, y)
    ensures Ok(y.st) && (Step(y).Some? ==> Reaches(x, Step(y).value))
  {
    hide Step, Ok;
    var n: nat :| Run(x, n) == Some(y);
    if Step(y).Some? {
      RunAdd(x, n, 1);
      StepOk(y);
      assert Run(Step(y).value, 0) == Some(Step(y).value);
      assert Run(y, 1) == Some(Step(y).value);
    }
  }

  lemma {:induction false} ReachesTrans(x: Conf, y: Conf, z: Conf)
    requires Reaches(x, y) && Reaches(y, z)
    ensures Reaches(x, z)
  {
    hide Step, Ok, Run;
    var n: nat :| Run(x, n) == Some(y);
    var m: nat :| Run(y, m) == Some(z);
    RunAdd(x, n, m);
  }

  lemma {:induction false} RunMonotone(x: Conf, n: nat, y: BitString)
    requires Ok(x.st) && Run(x, n).Some? && |y| % 8 == 0
    ensures Run(x.(bits := x.bits + y), n) == Some(Run(x, n).value.(bits := Run(x, n).value.bits + y))
    decreases n
  {
    hide Step, Ok;
    if n > 0 {
      StepOk(x);
      StepMonotone(x, y);
      RunMonotone(Step(x).value, n - 1, y);
    }
  }

  /** More input does not change what has been done. */
  lemma {:induction false} ReachesMonotone(x: Conf, z: Conf, y: BitString)
    requires Reaches(x, z) && |y| % 8 == 0
    ensures Reaches(x.(bits := x.bits + y), z.(bits := z.bits + y))
  {
    hide Step, Ok, Run;
    var n: nat :| Run(x, n) == Some(z);
    RunMonotone(x, n, y);
  }

  lemma {:induction false} RunOutput(x: Conf, n: nat)
    requires Ok(x.st) && Run(x, n).Some?
    ensures x.out <= Run(x, n).value.out
    decreases n
  {
    hide Step, Ok, NeedsSpace;
    if n > 0 {
      StepOk(x);
      StepOutput(x);
      RunOutput(Step(x).value, n - 1);
    }
  }

  /** Two runs from x that cannot go on have ended in the same configuration. */
  lemma {:induction false} Confluent(x: Conf, y: Conf, z: Conf)
    requires Reaches(x, y) && Reaches(x, z)
    requires Ok(y.st) && Ok(z.st) && Step(y).None? && Step(z).None?
    ensures y == z
  {
    hide Step, Ok;
    var n: nat :| Run(x, n) == Some(y);
    var m: nat :| Run(x, m) == Some(z);
    if n < m {
      RunAdd(x, n, m - n);
    } else if m < n {
      RunAdd(x, m, n - m);
    }
  }

  // ----- calls -----

  function ByteBits(bytes: seq<byte>): (b: BitString)
    ensures |b| == 8 * |bytes|
  {
    if bytes == [] then [] else ToBits(bytes[0], 8) + ByteBits(bytes[1..])
  }

  lemma {:induction false} ByteBitsConcat(a: seq<byte>, b: seq<byte>)
    ensures ByteBits(a + b) == ByteBits(a) + ByteBits(b)
    decreases |a|
  {
    hide ToBits;
    if a == [] {
      assert a + b == b;
    } else {
      ByteBitsConcat(a[1..], b);
      assert (a + b)[1..] == a[1..] + b;
    }
  }

  /** What one call does: some steps, within the output space, until no step is possible
      with the input at hand or only one that needs more space. */
  ghost predicate CallSpec(x: Conf, y: Conf, room: nat)
  {
    && Reaches(x, y) && Ok(y.st)
    && |y.out| <= |x.out| + room
    && (Step(y).None? || (NeedsSpace(y.st) && |y.out| == |x.out| + room))
  }

  /** The stream between calls: state, bits held back, input consumed, output. */
  datatype Stream = Stream(st: State, held: BitString, pos: nat, out: seq<byte>)

  /** The configuration of a stream that can see the input up to position upto. */
  function View(data: seq<byte>, s: Stream, upto: nat): (x: Conf)
    requires s.pos <= upto <= |data|
  {
    Conf(s.st, s.held + ByteBits(data[s.pos..upto]), s.out)
  }

  /** One call with avail bytes of input and room bytes of output space. */
  ghost predicate Call(data: seq<byte>, s: Stream, avail: nat, room: nat, t: Stream)
  {
    && s.pos <= t.pos <= s.pos + avail <= |data|
    && CallSpec(View(data, s, s.pos + avail), View(data, t, s.pos + avail), room)
  }

  /** A sequence of calls, each with its own input and output space. */
  ghost predicate Session(data: seq<byte>, streams: seq<Stream>, calls: seq<(nat, nat)>)
  {
    && |streams| == |calls| + 1
    && forall i :: 0 <= i < |calls| ==> Call(data, streams[i], calls[i].0, calls[i].1, streams[i + 1])
  }

  lemma {:induction false} ViewExtend(data: seq<byte>, s: Stream, upto: nat)
    requires s.pos <= upto <= |data|
    ensures var x := View(data, s, upto);
      View(data, s, |data|) == x.(bits := x.bits + ByteBits(data[upto..]))
  {
    hide ByteBits;
    ByteBitsConcat(data[s.pos..upto], data[upto..]);
    assert data[s.pos..upto] + data[upto..] == data[s.pos..|data|];
  }

  /** A call is a run on the whole input. */
  lemma {:induction false} CallRuns(data: seq<byte>, s: Stream, avail: nat, room: nat, t: Stream)
    requires Call(data, s, avail, room, t)
    ensures s.pos <= t.pos <= |data|
    ensures Reaches(View(data, s, |data|), View(data, t, |data|))
  {
    hide Step, Ok, Reaches, View, ByteBits;
    var upto := s.pos + avail;
    ReachesMonotone(View(data, s, upto), View(data, t, upto), ByteBits(data[upto..]));
    ViewExtend(data, s, upto);
    ViewExtend(data, t, upto);
  }

  lemma {:induction false} SessionRuns(data: seq<byte>, streams: seq<Stream>, calls: seq<(nat, nat)>)
    requires Session(data, streams, calls) && Ok(streams[0].st) && streams[0].pos <= |data|
    ensures streams[0].pos <= streams[|calls|].pos <= |data|
    ensures Reaches(View(data, streams[0], |data|), View(data, streams[|calls|], |data|))
    decreases |calls|
  {
    hide Step, Ok, Reaches, View, Call;
    if |calls| == 0 {
      assert View(data, streams[0], |data|).st == streams[0].st by { ViewState(data, streams[0]); }
      ReachesSelf(View(data, streams[0], |data|));
    } else {
      var n := |calls| - 1;
      SessionRuns(data, streams[..n + 1], calls[..n]);
      assert Call(data, streams[n], calls[n].0, calls[n].1, streams[n + 1]);
      CallRuns(data, streams[n], calls[n].0, calls[n].1, streams[n + 1]);
      ReachesTrans(View(data, streams[0], |data|), View(data, streams[n], |data|), View(data, streams[n + 1], |data|));
    }
  }

  lemma {:induction false} ViewState(data: seq<byte>, s: Stream)
    requires s.pos <= |data|
    ensures View(data, s, |data|).st == s.st && View(data, s, |data|).out == s.out
  {
  }

  /** Chunk independence: however input and output space are split over calls, once all
      input has been offered and no step is left, state, output and unread bits are the same. */
  lemma {:induction false} ChunkIndependence(data: seq<byte>, a: seq<Stream>, ca: seq<(nat, nat)>, b: seq<Stream>, cb: seq<(nat, nat)>)
    requires Session(data, a, ca) && Session(data, b, cb)
    requires a[0] == b[0] && Ok(a[0].st) && a[0].pos <= |data|
    requires a[|ca|].pos <= |data| && Ok(a[|ca|].st) && Step(View(data, a[|ca|], |data|)).None?
    requires b[|cb|].pos <= |data| && Ok(b[|cb|].st) && Step(View(data, b[|cb|], |data|)).None?
    ensures a[|ca|].st == b[|cb|].st && a[|ca|].out == b[|cb|].out
    ensures View(data, a[|ca|], |data|) == View(data, b[|cb|], |data|)
  {
    hide Step, Ok, Reaches, Call;
    SessionRuns(data, a, ca);
    SessionRuns(data, b, cb);
    Confluent(View(data, a[0], |data|), View(data, a[|ca|], |data|), View(data, b[|cb|], |data|));
  }

  // ----- the step of each state, for proofs that keep Step folded -----

  lemma {:induction false} AtType(x: Conf)
    requires x.st.Type? && Ok(x.st)
    ensures Step(x) == StepType(x.st.last, x.bits, x.out)
  {
  }

  lemma {:induction false} AtBad(x: Conf)
    requires x.st.Bad? || x.st.Done?
    ensures Ok(x.st) && Step(x).None?
  {
  }

  lemma {:induction false} AtStored(x: Conf)
    requires x.st.Stored? && Ok(x.st)
    ensures Step(x) == StepStored(x.st.last, x.bits, x.out)
  {
  }

  lemma {:induction false} AtCopy(x: Conf)
    requires x.st.Copy? && Ok(x.st)
    ensures Step(x) == StepCopy(x.st.last, x.st.length, x.bits, x.out)
  {
  }

  lemma {:induction false} AtTable(x: Conf)
    requires x.st.Table? && Ok(x.st)
    ensures Step(x) == StepTable(x.st.last, x.bits, x.out)
  {
  }

  lemma {:induction false} AtLenLens(x: Conf)
    requires x.st.LenLens? && Ok(x.st)
    ensures Step(x) == StepLenLens(x.st, x.bits, x.out)
  {
  }

  lemma {:induction false} AtCodeLens(x: Conf)
    requires x.st.CodeLens? && Ok(x.st)
    ensures Step(x) == StepCodeLens(x.st, x.bits, x.out)
  {
  }

  lemma {:induction false} AtLen(x: Conf)
    requires x.st.Len? && Ok(x.st)
    ensures CodesOk(x.st.codes) && Step(x) == StepLen(x.st.last, x.st.codes, x.bits, x.out)
  {
  }

  lemma {:induction false} AtLenExt(x: Conf)
    requires x.st.LenExt? && Ok(x.st)
    ensures var LenExt(last, codes, length, extra) := x.st;
      Step(x) == if |x.bits| < extra then None
                 else Some(Conf(Dist(last, codes, length + Lsb(x.bits[..extra])), x.bits[extra..], x.out))
  {
  }

  lemma {:induction false} AtDistExt(x: Conf)
    requires x.st.DistExt? && Ok(x.st)
    ensures var DistExt(last, codes, length, offset, extra) := x.st;
      Step(x) == if |x.bits| < extra then None
                 else Some(Conf(Match(last, codes, length, offset + Lsb(x.bits[..extra])), x.bits[extra..], x.out))
  {
  }

  lemma {:induction false} AtDist(x: Conf)
    requires x.st.Dist? && Ok(x.st)
    ensures CodesOk(x.st.codes) && Step(x) == StepDist(x.st.last, x.st.codes, x.st.length, x.bits, x.out)
  {
  }

  lemma {:induction false} OkOfStep(x: Conf, y: Conf)
    requires Ok(x.st) && Step(x) == Some(y)
    ensures Ok(y.st) && Reaches(x, y)
  {
    hide Step, Ok, Run, Reaches;
    StepOk(x);
    ReachesSelf(x);
    ReachesStep(x, x);
  }

  // ----- progress -----

  function Rank(st: State): (n: nat)
  {
    match st
    case LenLens(_, _, _, _, _) => 9
    case CodeLens(_, _, _, _, _) => 8
    case LenExt(_, _, _, _) => 7
    case Dist(_, _, _) => 6
    case DistExt(_, _, _, _, _) => 5
    case Match(_, _, _, _) => 4
    case Len(_, _) => 3
    case Copy(_, _) => 2
    case Stored(_) => 2
    case Table(_) => 2
    case Lit(_, _, _) => 2
    case Type(_) => 1
    case Done => 0
    case Bad => 0
  }

  /** y comes after x: fewer unread bits, or more output, or a state further on. */
  ghost predicate After(x: Conf, y: Conf)
  {
    && |x.out| <= |y.out|
    && (|y.bits| < |x.bits|
        || (|y.bits| == |x.bits| && (|x.out| < |y.out| || Rank(y.st) < Rank(x.st))))
  }

  lemma {:induction false} StepAfter(x: Conf)
    requires Ok(x.st) && Step(x).Some?
    ensures After(x, Step(x).value)
  {
    hide Decode, DynamicOk, CodesOk, Acceptable, PlaceLens, FixedCodes, Bit5, Bit6, Pow2, Lsb;
    match x.st
    case CodeLens(_, _, _, _, _) => DecodeCodeLength(x.st.code, Lsb(x.bits));
    case Len(_, codes) =>
      CodesSizes(codes);
      DecodeLength(codes.llens, Lsb(x.bits));
    case Dist(_, codes, _) =>
      CodesSizes(codes);
      DecodeDistance(codes.dlens, Lsb(x.bits));
    case _ =>
  }

  /** One or more steps from x to y. */
  ghost predicate Moves(x: Conf, y: Conf)
  {
    Reaches(x, y) && After(x, y)
  }

  lemma {:induction false} StepMoves(x: Conf, y: Conf)
    requires Ok(x.st) && Step(x) == Some(y)
    ensures Moves(x, y) && Ok(y.st)
  {
    hide Step, Ok, After, Reaches;
    OkOfStep(x, y);
    StepAfter(x);
  }

  lemma {:induction false} MovesTrans(x: Conf, y: Conf, z: Conf)
    requires Moves(x, y) && Moves(y, z)
    ensures Moves(x, z)
  {
    hide Reaches;
    ReachesTrans(x, y, z);
  }

  // ----- copying a match -----

  lemma {:induction false} AtMatch(x: Conf)
    requires x.st.Match? && Ok(x.st)
    ensures var Match(last, codes, length, offset) := x.st;
      Step(x) == if offset > |x.out| then Some(Conf(Bad, x.bits, x.out))
                 else Some(Conf(if length == 1 then Len(last, codes) else Match(last, codes, length - 1, offset), x.bits,
                                x.out + [x.out[|x.out| - offset]]))
  {
  }

  lemma {:induction false} AtLit(x: Conf)
    requires x.st.Lit? && Ok(x.st)
    ensures x.st.lit < 256 && Step(x) == Some(Conf(Len(x.st.last, x.st.codes), x.bits, x.out + [x.st.lit as byte]))
  {
  }

  /** After n bytes of a match. */
  function MatchRest(last: bool, codes: Codes, length: nat, offset: nat, n: nat): (st: State)
    requires n <= length
  {
    if n == length then Len(last, codes) else Match(last, codes, length - n, offset)
  }

  /** n steps of a match copy n bytes from offset back. */
  lemma {:induction false} MatchSteps(last: bool, codes: Codes, length: nat, offset: nat, b: BitString, out: seq<byte>, n: nat)
    requires Ok(Match(last, codes, length, offset)) && 1 <= n <= length && offset <= |out|
    ensures Moves(Conf(Match(last, codes, length, offset), b, out),
                  Conf(MatchRest(last, codes, length, offset, n), b, CopyBack(out, offset, n)))
    decreases n
  {
    hide Reaches, After, Step, CodesOk;
    var x := Conf(Match(last, codes, length, offset), b, out);
    var next := out + [out[|out| - offset]];
    var y := Conf(MatchRest(last, codes, length, offset, 1), b, next);
    AtMatch(x);
    StepMoves(x, y);
    if n > 1 {
      MatchSteps(last, codes, length - 1, offset, b, next, n - 1);
      MovesTrans(x, y, Conf(MatchRest(last, codes, length, offset, n), b, CopyBack(out, offset, n)));
    } else {
      assert CopyBack(next, offset, 0) == next;
    }
  }

  // ----- bits are consumed from the front -----

  ghost predicate Tail(a: BitString, b: BitString)
  {
    |b| <= |a| && b == a[|a| - |b|..]
  }

  lemma {:induction false} DropTail(b: BitString, n: nat)
    ensures Tail(b, b) && (n <= |b| ==> Tail(b, b[n..]))
  {
  }

  lemma {:induction false} StepTail(x: Conf)
    requires Ok(x.st) && Step(x).Some?
    ensures Tail(x.bits, Step(x).value.bits)
  {
    hide Decode, DynamicOk, CodesOk, Acceptable, PlaceLens, FixedCodes, Bit5, Bit6, Pow2, Lsb, Ok, Tail, Repeat;
    var b := x.bits;
    DropTail(b, 0);
    match x.st {
      case Type(_) => DropTail(b, |b| % 8); DropTail(b, 3);
      case Stored(_) => DropTail(b, |b| % 8); DropTail(b, 32);
      case Copy(_, _) => DropTail(b, 8);
      case Table(_) => DropTail(b, 14);
      case LenLens(_, _, _, _, _) => DropTail(b, 3);
      case CodeLens(_, _, _, _, _) => CodeLensTail(x.st, b, x.out);
      case Len(_, codes) => LenTail(x);
      case LenExt(_, _, _, extra) => DropTail(b, extra);
      case Dist(_, codes, _) => DistTail(x);
      case DistExt(_, _, _, _, extra) => DropTail(b, extra);
      case _ =>
    }
  }

  lemma {:induction false} CodeLensTail(st: State, b: BitString, out: seq<byte>)
    requires st.CodeLens? && Ok(st) && StepCodeLens(st, b, out).Some?
    ensures Tail(b, StepCodeLens(st, b, out).value.bits)
  {
    hide Decode, DynamicOk, Acceptable, Lsb, Tail, Repeat;
    var e := Decode(CODES, st.code, Lsb(b));
    DropTail(b, e.bits);
    DropTail(b, e.bits + RepeatBits(e.val));
  }

  lemma {:induction false} LenTail(x: Conf)
    requires x.st.Len? && Ok(x.st) && Step(x).Some?
    ensures Tail(x.bits, Step(x).value.bits)
  {
    hide Decode, CodesOk, Bit5, Bit6, Lsb, Tail;
    CodesSizes(x.st.codes);
    DropTail(x.bits, Decode(LENS, x.st.codes.llens, Lsb(x.bits)).bits);
  }

  lemma {:induction false} DistTail(x: Conf)
    requires x.st.Dist? && Ok(x.st) && Step(x).Some?
    ensures Tail(x.bits, Step(x).value.bits)
  {
    hide Decode, CodesOk, Bit5, Bit6, Lsb, Tail;
    CodesSizes(x.st.codes);
    DropTail(x.bits, Decode(DISTS, x.st.codes.dlens, Lsb(x.bits)).bits);
  }

  lemma {:induction false} RunTail(x: Conf, n: nat)
    requires Ok(x.st) && Run(x, n).Some?
    ensures Tail(x.bits, Run(x, n).value.bits)
    decreases n
  {
    hide Step, Ok;
    if n > 0 {
      StepOk(x);
      StepTail(x);
      RunTail(Step(x).value, n - 1);
    }
  }

  lemma {:induction false} ReachesTail(x: Conf, y: Conf)
    requires Reaches(x, y)
    ensures Ok(y.st) && Tail(x.bits, y.bits)
  {
    hide Step, Ok, Run, Tail;
    var n: nat :| Run(x, n) == Some(y);
    RunTail(x, n);
  }
}
