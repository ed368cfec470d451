/** The compressed form of a list of symbols: what compress_block sends, and that inflate
    gets the symbols back. */
module Block {
  import opened Bits
  import opened Canonical
  import opened InflateTable
  import opened Lz77
  import opened InflateSpec
  import opened Distances
  import opened StaticTables

  const END_BLOCK: nat := 256

  /** The symbols of the two codes that stand for sym. */
  ghost predicate Encodable(t: Tables, codes: Codes, sym: Symbol)
    requires Sizes(t)
  {
    match sym
    case Literal(b) => Used(codes.llens, b)
    case Pair(dist, len) =>
      && 1 <= dist <= 32768 && 3 <= len <= 258
      && Used(codes.llens, 257 + t.lengthCode[len - 3])
      && Used(codes.dlens, DistCode(t, dist - 1))
  }

  function LengthExtra(t: Tables, lc: nat): (b: BitString)
    requires TablesFit(t) && lc < 256
  {
    var c := t.lengthCode[lc];
    assert LengthFits(t, lc);
    if EXTRA_LBITS[c] == 0 then [] else ToBits(lc - t.baseLength[c], EXTRA_LBITS[c])
  }

  function DistExtra(t: Tables, d: nat): (b: BitString)
    requires TablesFit(t) && d < 32768
  {
    var c := DistCode(t, d);
    assert DistFits(t, d);
    if EXTRA_DBITS[c] == 0 then [] else ToBits(d - t.baseDist[c], EXTRA_DBITS[c])
  }

  /** The bits of one symbol. */
  ghost function SymbolBits(t: Tables, codes: Codes, sym: Symbol): (b: BitString)
    requires TablesFit(t) && Encodable(t, codes, sym)
  {
    match sym
    case Literal(b) => CodeWord(codes.llens, b)
    case Pair(dist, len) =>
      CodeWord(codes.llens, 257 + t.lengthCode[len - 3]) + LengthExtra(t, len - 3)
      + CodeWord(codes.dlens, DistCode(t, dist - 1)) + DistExtra(t, dist - 1)
  }

  ghost predicate EncodableAll(t: Tables, codes: Codes, syms: seq<Symbol>)
    requires Sizes(t)
  {
    forall i :: 0 <= i < |syms| ==> Encodable(t, codes, syms[i])
  }

  /** The bits of a list of symbols. */
  ghost function SymbolsBits(t: Tables, codes: Codes, syms: seq<Symbol>): (b: BitString)
    requires TablesFit(t) && EncodableAll(t, codes, syms)
  {
    if syms == [] then [] else SymbolBits(t, codes, syms[0]) + SymbolsBits(t, codes, syms[1..])
  }

  // ----- decoding -----

  /** A literal/length code word takes LEN to the state of its entry. */
  lemma {:induction false} LenWord(last: bool, codes: Codes, s: nat, rest: BitString, out: seq<byte>)
    requires CodesOk(codes) && Used(codes.llens, s)
    ensures var x := Conf(Len(last, codes), CodeWord(codes.llens, s) + rest, out);
      var op, val := SymOp(LENS, s), SymVal(LENS, s);
      Step(x) == Some(Conf(if op == 0 then Lit(last, codes, val)
                           else if Bit5(op) then Type(last)
                           else if Bit6(op) then Bad
                           else LenExt(last, codes, val, op % 16), rest, out))
  {
    hide Decode, Kraft, SymOp, SymVal, Lsb, Bit5, Bit6, Step, Ok, CodeWord, CodesOk, Acceptable;
    var x := Conf(Len(last, codes), CodeWord(codes.llens, s) + rest, out);
    OkLenState(x.st);
    AtLen(x);
    CodesSizes(codes);
    AcceptableKraft(LENS, codes.llens);
    DecodeWord(LENS, codes.llens, s, x.bits);
    assert x.bits[codes.llens[s]..] == rest;
  }

  lemma {:induction false} OkLenState(st: State)
    requires st.Len? && CodesOk(st.codes)
    ensures Ok(st)
  {
  }

  lemma {:induction false} DistWord(last: bool, codes: Codes, length: nat, s: nat, rest: BitString, out: seq<byte>)
    requires CodesOk(codes) && Used(codes.dlens, s) && 3 <= length <= 258
    ensures var x := Conf(Dist(last, codes, length), CodeWord(codes.dlens, s) + rest, out);
      var op, val := SymOp(DISTS, s), SymVal(DISTS, s);
      Ok(x.st) && Step(x) == Some(Conf(if Bit6(op) then Bad else DistExt(last, codes, length, val, op % 16), rest, out))
  {
    hide Decode, Kraft, SymOp, SymVal, Lsb, Bit6, Step, CodeWord, CodesOk, Acceptable;
    var x := Conf(Dist(last, codes, length), CodeWord(codes.dlens, s) + rest, out);
    AtDist(x);
    CodesSizes(codes);
    AcceptableKraft(DISTS, codes.dlens);
    DecodeWord(DISTS, codes.dlens, s, x.bits);
    assert x.bits[codes.dlens[s]..] == rest;
  }

  lemma {:induction false} EntryBits(op: nat)
    requires 16 <= op < 32
    ensures op != 0 && !Bit5(op) && !Bit6(op) && op % 16 == op - 16
  {
  }

  /** A length code with its extra bits gives back the length. */
  lemma {:induction false} LengthSteps(t: Tables, last: bool, codes: Codes, lc: nat, rest: BitString, out: seq<byte>)
    requires TablesFit(t) && CodesOk(codes) && lc < 256 && Used(codes.llens, 257 + t.lengthCode[lc])
    ensures Reaches(Conf(Len(last, codes), CodeWord(codes.llens, 257 + t.lengthCode[lc]) + LengthExtra(t, lc) + rest, out),
                    Conf(Dist(last, codes, lc + 3), rest, out))
  {
    hide Step, Ok, CodeWord, CodesOk, Bit5, Bit6, Reaches, LBASE, LEXT, EXTRA_LBITS, ToBits, Lsb, Pow2, LengthFits, DistFits;
    var c, x := t.lengthCode[lc], LengthExtra(t, lc);
    LengthFacts(t, lc);
    var a := Conf(Len(last, codes), CodeWord(codes.llens, 257 + c) + x + rest, out);
    assert a.bits == CodeWord(codes.llens, 257 + c) + (x + rest);
    LenWord(last, codes, 257 + c, x + rest, out);
    EntryBits(16 + EXTRA_LBITS[c]);
    var b := Conf(LenExt(last, codes, LBASE[c], EXTRA_LBITS[c]), x + rest, out);
    OkLenState(a.st);
    OkOfStep(a, b);
    AtLenExt(b);
    assert (x + rest)[..EXTRA_LBITS[c]] == x && (x + rest)[EXTRA_LBITS[c]..] == rest;
    var d := Conf(Dist(last, codes, lc + 3), rest, out);
    OkOfStep(b, d);
    ReachesTrans(a, b, d);
  }

  lemma {:induction false} LengthFacts(t: Tables, lc: nat)
    requires TablesFit(t) && lc < 256
    ensures var c, x := t.lengthCode[lc], LengthExtra(t, lc);
      && c < 29 && |EXTRA_LBITS| == 29 && |LBASE| == 31 && |x| == EXTRA_LBITS[c] <= 5 && LBASE[c] + Lsb(x) == lc + 3
      && SymOp(LENS, 257 + c) == 16 + EXTRA_LBITS[c] && SymVal(LENS, 257 + c) == LBASE[c]
  {
    hide LBASE, LEXT, EXTRA_LBITS, ToBits, Lsb, Pow2;
    ExtraBits();
    TableSizes();
    assert LengthFits(t, lc);
    var c := t.lengthCode[lc];
    if EXTRA_LBITS[c] == 0 {
      EmptyLsb();
    } else {
      LsbToBits(lc - t.baseLength[c], EXTRA_LBITS[c]);
      LowSmall(lc - t.baseLength[c], EXTRA_LBITS[c]);
    }
  }

  lemma {:induction false} TableSizes()
    ensures |LBASE| == 31 == |LEXT| && |DBASE| == 32 == |DEXT|
  {
  }

  lemma {:induction false} EmptyLsb()
    ensures Lsb([]) == 0
  {
  }

  lemma {:induction false} DistFacts(t: Tables, d: nat)
    requires TablesFit(t) && d < 32768
    ensures var c, x := DistCode(t, d), DistExtra(t, d);
      && c < 30 && |EXTRA_DBITS| == 30 && |DBASE| == 32 && |x| == EXTRA_DBITS[c] <= 13 && DBASE[c] + Lsb(x) == d + 1
      && SymOp(DISTS, c) == 16 + EXTRA_DBITS[c] && SymVal(DISTS, c) == DBASE[c]
  {
    hide DBASE, DEXT, EXTRA_DBITS, ToBits, Lsb, Pow2, SymOp, SymVal, LengthFits, DistCode;
    ExtraBits();
    TableSizes();
    assert DistFits(t, d);
    var c := DistCode(t, d);
    DistSymbol(c);
    if EXTRA_DBITS[c] == 0 {
      EmptyLsb();
      PowZero();
    } else {
      LsbToBits(d - t.baseDist[c], EXTRA_DBITS[c]);
      LowSmall(d - t.baseDist[c], EXTRA_DBITS[c]);
    }
  }

  lemma {:induction false} DistSymbol(c: nat)
    requires c < 30
    ensures |EXTRA_DBITS| == 30 && |DBASE| == 32 && SymOp(DISTS, c) == 16 + EXTRA_DBITS[c] && SymVal(DISTS, c) == DBASE[c]
  {
    hide DBASE, DEXT, EXTRA_DBITS;
    ExtraBits();
    TableSizes();
  }

  lemma {:induction false} PowZero()
    ensures Pow2(0) == 1
  {
  }

  /** A distance code with its extra bits gives back the distance. */
  lemma {:induction false} DistSteps(t: Tables, last: bool, codes: Codes, length: nat, d: nat, rest: BitString, out: seq<byte>)
    requires TablesFit(t) && CodesOk(codes) && d < 32768 && 3 <= length <= 258 && Used(codes.dlens, DistCode(t, d))
    ensures Reaches(Conf(Dist(last, codes, length), CodeWord(codes.dlens, DistCode(t, d)) + DistExtra(t, d) + rest, out),
                    Conf(Match(last, codes, length, d + 1), rest, out))
  {
    hide Step, CodeWord, CodesOk, Bit6, Reaches, DBASE, DEXT, EXTRA_DBITS, ToBits, Lsb, Pow2, LengthFits, DistFits, Ok;
    var c, x := DistCode(t, d), DistExtra(t, d);
    DistFacts(t, d);
    var a := Conf(Dist(last, codes, length), CodeWord(codes.dlens, c) + x + rest, out);
    assert a.bits == CodeWord(codes.dlens, c) + (x + rest);
    DistWord(last, codes, length, c, x + rest, out);
    EntryBits(16 + EXTRA_DBITS[c]);
    var b := Conf(DistExt(last, codes, length, DBASE[c], EXTRA_DBITS[c]), x + rest, out);
    OkOfStep(a, b);
    AtDistExt(b);
    assert (x + rest)[..EXTRA_DBITS[c]] == x && (x + rest)[EXTRA_DBITS[c]..] == rest;
    var m := Conf(Match(last, codes, length, d + 1), rest, out);
    OkOfStep(b, m);
    ReachesTrans(a, b, m);
  }

  lemma {:induction false} LiteralSteps(last: bool, codes: Codes, b: byte, rest: BitString, out: seq<byte>, d: nat)
    requires CodesOk(codes) && Used(codes.llens, b)
    ensures Calm(Conf(Len(last, codes), CodeWord(codes.llens, b) + rest, out), Conf(Len(last, codes), rest, out + [b]), d)
  {
    hide Step, Ok, CodeWord, CodesOk, Bit5, Bit6, Calm, Reaches, LBASE, LEXT;
    var x, z := Conf(Len(last, codes), CodeWord(codes.llens, b) + rest, out), Conf(Len(last, codes), rest, out + [b]);
    var y := Conf(Lit(last, codes, b), rest, out);
    LenWord(last, codes, b, rest, out);
    OkLenState(x.st);
    OkOfStep(x, y);
    AtLit(y);
    OkOfStep(y, z);
    CalmSelf(z, d);
    CalmStep(y, z, z, d);
    CalmStep(x, y, z, d);
  }

  /** The bits of a match lead to its copying. */
  lemma {:induction false} PairReads(t: Tables, last: bool, codes: Codes, dist: nat, len: nat, rest: BitString, out: seq<byte>)
    requires TablesFit(t) && CodesOk(codes) && Encodable(t, codes, Pair(dist, len))
    ensures Reaches(Conf(Len(last, codes), SymbolBits(t, codes, Pair(dist, len)) + rest, out), Conf(Match(last, codes, len, dist), rest, out))
  {
    hide Step, CodeWord, CodesOk, Reaches, LengthExtra, DistExtra, LengthFits, DistFits, DistCode, After;
    var w, x := CodeWord(codes.llens, 257 + t.lengthCode[len - 3]), LengthExtra(t, len - 3);
    var v, y := CodeWord(codes.dlens, DistCode(t, dist - 1)), DistExtra(t, dist - 1);
    var tail := v + y + rest;
    var a, b := Conf(Len(last, codes), SymbolBits(t, codes, Pair(dist, len)) + rest, out), Conf(Dist(last, codes, len), tail, out);
    assert a.bits == w + x + tail;
    LengthSteps(t, last, codes, len - 3, tail, out);
    DistSteps(t, last, codes, len, dist - 1, rest, out);
    ReachesTrans(a, b, Conf(Match(last, codes, len, dist), rest, out));
  }

  lemma {:induction false} PairSteps(t: Tables, last: bool, codes: Codes, dist: nat, len: nat, rest: BitString, out: seq<byte>, d: nat)
    requires TablesFit(t) && CodesOk(codes) && Encodable(t, codes, Pair(dist, len)) && dist <= |out| && dist <= d
    ensures Calm(Conf(Len(last, codes), SymbolBits(t, codes, Pair(dist, len)) + rest, out),
                 Conf(Len(last, codes), rest, CopyBack(out, dist, len)), d)
  {
    hide Step, CodesOk, Reaches, Calm, SymbolBits, CopyBack, TablesFit, LengthFits, DistFits;
    var a, m, z := Conf(Len(last, codes), SymbolBits(t, codes, Pair(dist, len)) + rest, out), Conf(Match(last, codes, len, dist), rest, out),
      Conf(Len(last, codes), rest, CopyBack(out, dist, len));
    PairReads(t, last, codes, dist, len, rest, out);
    Still(a, m, d);
    ReachesStep(a, m);
    MatchCalm(last, codes, len, dist, rest, out, d);
    CalmTrans(a, m, z, d);
  }

  /** One symbol's bits make inflate write what the symbol stands for, reaching back no further. */
  lemma {:induction false} SymbolSteps(t: Tables, last: bool, codes: Codes, sym: Symbol, rest: BitString, out: seq<byte>, d: nat)
    requires TablesFit(t) && CodesOk(codes) && Encodable(t, codes, sym) && Valid(out, sym) && Reach(sym, d)
    ensures Calm(Conf(Len(last, codes), SymbolBits(t, codes, sym) + rest, out), Conf(Len(last, codes), rest, Apply(out, sym)), d)
  {
    hide TablesFit, CodesOk, CodeWord, Calm, LengthExtra, DistExtra;
    match sym
    case Literal(b) => LiteralSteps(last, codes, b, rest, out, d);
    case Pair(dist, len) => PairSteps(t, last, codes, dist, len, rest, out, d);
  }

  lemma {:induction false} SymbolsSteps(t: Tables, last: bool, codes: Codes, syms: seq<Symbol>, rest: BitString, out: seq<byte>, d: nat)
    requires TablesFit(t) && CodesOk(codes) && EncodableAll(t, codes, syms) && ValidAll(out, syms) && ReachAll(syms, d)
    ensures Calm(Conf(Len(last, codes), SymbolsBits(t, codes, syms) + rest, out), Conf(Len(last, codes), rest, Expand(out, syms)), d)
    decreases |syms|
  {
    hide CodesOk, Calm, Reach, SymbolBits, Apply, Encodable, Valid, LengthFits, DistFits;
    var x := Conf(Len(last, codes), SymbolsBits(t, codes, syms) + rest, out);
    if syms == [] {
      assert [] + rest == rest;
      assert Ok(x.st) by { OkLenState(x.st); }
      CalmSelf(x, d);
    } else {
      var tail := SymbolsBits(t, codes, syms[1..]) + rest;
      assert x.bits == SymbolBits(t, codes, syms[0]) + tail;
      SymbolSteps(t, last, codes, syms[0], tail, out, d);
      SymbolsSteps(t, last, codes, syms[1..], rest, Apply(out, syms[0]), d);
      CalmTrans(x, Conf(Len(last, codes), tail, Apply(out, syms[0])), Conf(Len(last, codes), rest, Expand(out, syms)), d);
    }
  }

  /** The bits of a block's symbols, then the end-of-block code. */
  ghost function BlockBits(t: Tables, codes: Codes, syms: seq<Symbol>): (b: BitString)
    requires TablesFit(t) && EncodableAll(t, codes, syms) && Used(codes.llens, END_BLOCK)
  {
    SymbolsBits(t, codes, syms) + CodeWord(codes.llens, END_BLOCK)
  }

  /** What compress_block sends, inflate expands: the symbols, then the end of the block. */
  lemma {:induction false} BlockSteps(t: Tables, last: bool, codes: Codes, syms: seq<Symbol>, rest: BitString, out: seq<byte>, d: nat)
    requires TablesFit(t) && CodesOk(codes) && EncodableAll(t, codes, syms) && Used(codes.llens, END_BLOCK)
    requires ValidAll(out, syms) && ReachAll(syms, d)
    ensures Calm(Conf(Len(last, codes), BlockBits(t, codes, syms) + rest, out), Conf(Type(last), rest, Expand(out, syms)), d)
  {
    hide CodesOk, Reaches, Calm, ReachAll, SymbolsBits, ValidAll, EncodableAll, TablesFit, CodeWord, Step, Expand, LBASE, LEXT;
    var w := CodeWord(codes.llens, END_BLOCK);
    var x := Conf(Len(last, codes), BlockBits(t, codes, syms) + rest, out);
    var y, z := Conf(Len(last, codes), w + rest, Expand(out, syms)), Conf(Type(last), rest, Expand(out, syms));
    assert x.bits == SymbolsBits(t, codes, syms) + (w + rest);
    SymbolsSteps(t, last, codes, syms, w + rest, out, d);
    LenWord(last, codes, END_BLOCK, rest, Expand(out, syms));
    assert SymOp(LENS, END_BLOCK) == 96;
    OkLenState(y.st);
    OkOfStep(y, z);
    Still(y, z, d);
    CalmTrans(x, y, z, d);
  }
}
