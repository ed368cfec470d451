/** The block coder of trees.c: symbols are tallied, then a block is written with the
    cheapest of the three encodings. */
module TreeCoder {
  import opened Bits
  import opened Canonical
  import opened InflateTable
  import opened Lz77
  import opened InflateSpec
  import opened Distances
  import opened StaticTables
  import opened TreeCodes
  import opened Block
  import opened Compress
  import opened BuildTree
  import opened CheapestCode
  import opened BitLengths
  import opened TreeTransport
  import opened BlockCodec
  import opened BlockStats
  import opened DynamicTrees
  import opened StaticTrees
  import B = BitWriter

  /** Three trees and work space: dyn_ltree, dyn_dtree, bl_tree, heap, depth. */
  datatype Arrays = Arrays(lfc: array<nat>, ldl: array<nat>, dfc: array<nat>, ddl: array<nat>, bfc: array<nat>, bdl: array<nat>,
                           heap: array<nat>, depth: array<nat>)

  ghost predicate Apart(a: Arrays)
  {
    && a.lfc.Length == 573 == a.ldl.Length && a.dfc.Length == 61 == a.ddl.Length && a.bfc.Length == 39 == a.bdl.Length
    && a.heap.Length == 573 == a.depth.Length
    && a.lfc != a.ldl && a.dfc != a.ddl && a.bfc != a.bdl && a.heap != a.depth
    && a.heap != a.lfc && a.heap != a.ldl && a.depth != a.lfc && a.depth != a.ldl
  }

  ghost function AllOf(a: Arrays): set<object> { {a.lfc, a.ldl, a.dfc, a.ddl, a.bfc, a.bdl, a.heap, a.depth} }

  /** The frequencies are those of the symbols. */
  ghost predicate Counted(a: Arrays, t: Tables, syms: seq<Symbol>)
    requires TablesFit(t) && SymbolsOk(syms) && Apart(a)
    reads a.lfc, a.dfc, a.bfc
  {
    && a.lfc[..L_CODES] == LFreqs(t, syms) && a.dfc[..D_CODES] == DFreqs(t, syms)
    && forall i :: 0 <= i < BL_CODES ==> a.bfc[i] == 0
  }

  lemma {:induction false} BuildLimits()
    ensures 286 <= Pow2(15) && 30 <= Pow2(15)
    ensures forall i :: 0 <= i <= 2 ==> ExtraOf(EXTRA_LBITS, 257, i) == 0 && ExtraOf(EXTRA_DBITS, 0, i) == 0
  {
    FullIsPow2();
    hide Pow2;
  }

  /** The literal/length and distance trees. */
  method BuildTwo(a: Arrays, t: Tables, sllens: seq<nat>, sdlens: seq<nat>, ghost syms: seq<Symbol>)
      returns (lmax: nat, dmax: nat, opt: int, stat: int)
    requires Apart(a) && TablesFit(t) && SymbolsOk(syms) && |syms| < 32768 && Counted(a, t, syms)
    requires sllens == FixedCodes().llens && sdlens == seq(30, _ => 5)
    modifies a.lfc, a.ldl, a.dfc, a.ddl, a.heap, a.depth
    ensures lmax < L_CODES && CodeFor(LFreqs(t, syms), a.lfc[..lmax + 1], a.ldl[..lmax + 1], 15)
    ensures dmax < D_CODES && CodeFor(DFreqs(t, syms), a.dfc[..dmax + 1], a.ddl[..dmax + 1], 15)
    ensures EncodableAll(t, Codes(a.ldl[..lmax + 1], a.ddl[..dmax + 1]), syms) && Used(a.ldl[..lmax + 1], END_BLOCK)
    ensures opt == |BlockBits(t, Codes(a.ldl[..lmax + 1], a.ddl[..dmax + 1]), syms)|
    ensures EncodableAll(t, FixedCodes(), syms) && Used(FixedCodes().llens, END_BLOCK)
    ensures stat == |BlockBits(t, FixedCodes(), syms)|
    ensures BestCode(LFreqs(t, syms), Full(a.ldl[..lmax + 1], L_CODES), 15) && BestCode(DFreqs(t, syms), Full(a.ddl[..dmax + 1], D_CODES), 15)
  {
    hide LFreqs, DFreqs, TotalBits, Extras, Statics, Total, CodeFor, BestCode, BlockBits, EncodableAll, FixedCodes, LengthFits, DistFits,
      EXTRA_LBITS, EXTRA_DBITS, Pow2;
    BuildLimits();
    LTotal(t, syms);
    ghost var lf: seq<nat>, df: seq<nat> := a.lfc[..], a.dfc[..];
    assert Total(lf, 286) == Total(LFreqs(t, syms), 286) by { TotalFrame(lf, LFreqs(t, syms), 286); }
    assert Total(df, 30) == Total(DFreqs(t, syms), 30) by { TotalFrame(df, DFreqs(t, syms), 30); }
    assert a.dfc[..] == df;
    lmax, opt, stat := Build(a.heap, a.depth, a.lfc, a.ldl, 286, EXTRA_LBITS, 257, sllens, 15, 0, 0);
    ghost var llens, ldl: seq<nat> := a.ldl[..lmax + 1], a.ldl[..];
    ghost var lcodes := a.lfc[..lmax + 1];
    assert Full(llens, L_CODES) == ldl[..286];
    dmax, opt, stat := Build(a.heap, a.depth, a.dfc, a.ddl, 30, EXTRA_DBITS, 0, sdlens, 15, opt, stat);
    assert lf[..286] == LFreqs(t, syms) && df[..30] == DFreqs(t, syms);
    assert Full(a.ddl[..dmax + 1], D_CODES) == a.ddl[..30];
    AllEncodable(t, syms, lcodes, llens, a.dfc[..dmax + 1], a.ddl[..dmax + 1]);
    StaticEncodable(t, syms);
    TreeSizes(t, syms, lf, df, ldl, a.ddl[..], Codes(llens, a.ddl[..dmax + 1]));
    StaticSizes(sllens, sdlens);
    TreeSizes(t, syms, lf, df, Statics(sllens, 573), Statics(sdlens, 61), Codes(sllens, sdlens));
  }

  lemma {:induction false} StaticSizes(sllens: seq<nat>, sdlens: seq<nat>)
    requires sllens == FixedCodes().llens && sdlens == seq(30, _ => 5)
    ensures LensAt(sllens, Statics(sllens, 573), L_CODES) && LensAt(sdlens, Statics(sdlens, 61), D_CODES) && sllens != [] && sdlens != []
  {
  }

  /** The totals over the trees' arrays. */
  lemma {:induction false} TreeSizes(t: Tables, syms: seq<Symbol>, lf: seq<nat>, df: seq<nat>, ldl: seq<nat>, ddl: seq<nat>, codes: Codes)
    requires TablesFit(t) && SymbolsOk(syms) && EncodableAll(t, codes, syms) && Used(codes.llens, END_BLOCK)
    requires |lf| == 573 == |ldl| && |df| == 61 == |ddl| && lf[..286] == LFreqs(t, syms) && df[..30] == DFreqs(t, syms)
    requires LensAt(codes.llens, ldl, L_CODES) && LensAt(codes.dlens, ddl, D_CODES)
    ensures TotalBits(lf, ldl, Extras(EXTRA_LBITS, 257, 573), 286) + TotalBits(df, ddl, Extras(EXTRA_DBITS, 0, 61), 30) == |BlockBits(t, codes, syms)|
  {
    hide LFreqs, DFreqs, TotalBits, EncodableAll, LengthFits, DistFits, EXTRA_LBITS, EXTRA_DBITS, SymbolsBits, CodeWord;
    BlockSize(t, codes, syms, ldl, ddl, Extras(EXTRA_LBITS, 257, 573), Extras(EXTRA_DBITS, 0, 61));
    BitsFrame(lf, LFreqs(t, syms), ldl, Extras(EXTRA_LBITS, 257, 573), 286);
    BitsFrame(df, DFreqs(t, syms), ddl, Extras(EXTRA_DBITS, 0, 61), 30);
  }

  /** The dynamic block the arrays describe. */
  datatype Plan = Plan(code: seq<nat>, n: nat, codes: Codes)

  ghost predicate Ready(p: Plan, t: Tables, syms: seq<Symbol>) { DynamicReady(t, p.code, p.n, p.codes, syms) }

  /** The plan's three codes are the best for the symbols, and for the code lengths sent. */
  ghost predicate Tuned(p: Plan, t: Tables, syms: seq<Symbol>)
    requires TablesFit(t) && SymbolsOk(syms)
  {
    && BestCode(LFreqs(t, syms), Full(p.codes.llens, L_CODES), 15) && BestCode(DFreqs(t, syms), Full(p.codes.dlens, D_CODES), 15)
    && BestCode(TokenFreqs(Tokens(-1, p.codes.llens) + Tokens(-1, p.codes.dlens)), p.code, 7)
  }

  /** All three trees; opt and stat are the sizes of the dynamic and the static block without the type bits. */
  method BuildAll(a: Arrays, t: Tables, sllens: seq<nat>, sdlens: seq<nat>, ghost syms: seq<Symbol>)
      returns (ltree: CodeTree, dtree: CodeTree, btree: CodeTree, p: Plan, opt: int, stat: int)
    requires Apart(a) && TablesFit(t) && SymbolsOk(syms) && |syms| < 32768 && Counted(a, t, syms)
    requires sllens == FixedCodes().llens && sdlens == seq(30, _ => 5)
    modifies AllOf(a)
    ensures TreeOk(ltree) && TreeOk(dtree) && p.codes == CodesOf(ltree, dtree)
    ensures Ready(p, t, syms) && Tuned(p, t, syms) && BlReady(btree.codes, btree.lens, p.code, p.n, p.codes.llens, p.codes.dlens)
    ensures opt == |HeaderBits(p.code, p.n, p.codes.llens, p.codes.dlens)| + |BlockBits(t, p.codes, syms)|
    ensures EncodableAll(t, FixedCodes(), syms) && Used(FixedCodes().llens, END_BLOCK) && stat == |BlockBits(t, FixedCodes(), syms)|
  {
    hide LFreqs, DFreqs, BlockBits, EncodableAll, FixedCodes, LengthFits, DistFits, HasCodes, Kraft, Padded, CodeSent, SendableAll, Tokens, HeaderBits, BestCode;
    var lmax, dmax, bmax, n;
    lmax, dmax, opt, stat := BuildTwo(a, t, sllens, sdlens, syms);
    ltree, dtree := CodeTree(a.lfc[..lmax + 1], a.ldl[..lmax + 1]), CodeTree(a.dfc[..dmax + 1], a.ddl[..dmax + 1]);
    CountsFor(t, syms, ltree.codes, ltree.lens, dtree.codes, dtree.lens);
    bmax, n, opt := BuildBlTree(a.heap, a.depth, a.bfc, a.bdl, ltree.lens, dtree.lens, opt);
    btree := CodeTree(a.bfc[..bmax + 1], a.bdl[..bmax + 1]);
    p := Plan(a.bdl[..19], n, Codes(ltree.lens, dtree.lens));
  }

  lemma {:induction false} CountsFor(t: Tables, syms: seq<Symbol>, lcodes: seq<nat>, llens: seq<nat>, dcodes: seq<nat>, dlens: seq<nat>)
    requires TablesFit(t) && SymbolsOk(syms)
    requires CodeFor(LFreqs(t, syms), lcodes, llens, 15) && CodeFor(DFreqs(t, syms), dcodes, dlens, 15)
    ensures HasCodes(lcodes, llens) && HasCodes(dcodes, dlens) && CountsOk(|llens|, |dlens|) && ValidLens(llens) && ValidLens(dlens)
    ensures llens[256] != 0 && Kraft(llens) == FULL == Kraft(dlens)
  {
    hide LFreqs, DFreqs, LengthFits, DistFits, HasCodes, Kraft;
    EndOccurs(t, syms);
  }

  // ----- the three encodings -----

  /** The parts of a stored block, put together. */
  lemma {:induction false} StoredParts(before: BitString, last: bool, pad: nat, buf: seq<byte>, aligned: BitString, lengths: BitString, all: BitString)
    requires |buf| < 65536 && aligned == before + TypeOf(0, last) + B.Zeros(pad)
    requires lengths == aligned + ToBits(|buf|, 16) + ToBits(65535 - |buf|, 16) && all == lengths + ByteBits(buf)
    ensures all == before + StoredBits(last, pad, buf)
  {
    hide ToBits, ByteBits, B.Zeros, TypeOf;
    var h, z, a, c, d := TypeOf(0, last), B.Zeros(pad), ToBits(|buf|, 16), ToBits(65535 - |buf|, 16), ByteBits(buf);
    assert all == before + h + z + a + c + d;
    assert before + (h + z + a + c + d) == before + h + z + a + c + d;
  }

  /** _tr_stored_block. */
  method StoredBlock(w: B.BitWriter, buf: seq<byte>, last: bool) returns (ghost pad: nat)
    requires w.Valid() && w.out == 0 && |buf| < 65536 && w.pending + (w.valid + 42) / 8 + |buf| <= w.limit
    modifies w`store, w`pending, w`buf, w`valid
    ensures w.Valid() && w.valid == 0 && pad < 8 && (|old(w.Bits())| + 3 + pad) % 8 == 0
    ensures w.Bits() == old(w.Bits()) + StoredBits(last, pad, buf)
  {
    hide ToBits, ByteBits, B.Zeros, StoredBits, B.BitWriter.Waiting, B.BitWriter.Bits, B.BitWriter.Valid;
    SmallPowers();
    w.Lengths();
    ghost var before := w.Bits();
    w.SendBits(0 + BitVal(last), 3);
    pad := w.Windup();
    w.Aligned();
    ghost var aligned := w.Bits();
    assert aligned == before + TypeOf(0, last) + B.Zeros(pad);
    w.PutWord(|buf|);
    w.PutWord(65535 - |buf|);
    ghost var lengths := w.Bits();
    w.PutAligned(buf);
    StoredParts(before, last, pad, buf, aligned, lengths, w.Bits());
  }

  lemma {:induction false} PacedTotal(t: Tables, codes: Codes, syms: seq<Symbol>)
    requires TablesFit(t) && EncodableAll(t, codes, syms) && Paced(t, codes, syms)
    ensures |SymbolsBits(t, codes, syms)| <= 31 * |syms|
    decreases |syms|
  {
    hide SymbolBits, LengthFits, DistFits, Encodable;
    if syms != [] {
      var rest := syms[1..];
      assert forall i :: 0 <= i < |rest| ==> rest[i] == syms[i + 1];
      PacedTotal(t, codes, rest);
    }
  }

  /** A static block never needs much more than 31 bits for each symbol. */
  lemma {:induction false} StaticTotal(t: Tables, syms: seq<Symbol>)
    requires TablesFit(t) && SymbolsOk(syms) && EncodableAll(t, FixedCodes(), syms) && Used(FixedCodes().llens, END_BLOCK)
    ensures |BlockBits(t, FixedCodes(), syms)| <= 31 * |syms| + 7
  {
    hide SymbolsBits, LengthFits, DistFits, EncodableAll, Paced, SymbolsOk, CodeOf, Rev, ToBits;
    StaticEncodable(t, syms);
    StaticPaced(t, syms);
    PacedTotal(t, Codes(FixedCodes().llens, seq(30, _ => 5)), syms);
  }

  method FixedBlock(w: B.BitWriter, t: Tables, sl: CodeTree, sd: CodeTree, symBuf: seq<byte>, last: bool, ghost litBufsize: nat)
    requires w.Valid() && w.out == 0 && |w.Bits()| < 8 && 128 <= litBufsize && w.size == 4 * litBufsize == w.limit
    requires |symBuf| <= 3 * (litBufsize - 1) && TablesFit(t) && TreeOk(sl) && TreeOk(sd) && |symBuf| % 3 == 0
    requires SymbolsOk(SymbolsFrom(symBuf, 0)) && sl.lens == FixedCodes().llens && sd.lens == seq(30, _ => 5)
    requires EncodableAll(t, FixedCodes(), SymbolsFrom(symBuf, 0)) && Used(FixedCodes().llens, END_BLOCK)
    modifies w`store, w`pending, w`buf, w`valid, w`limit
    ensures w.limit == w.size
    ensures w.Valid() && w.Bits() == old(w.Bits()) + FixedBits(t, last, SymbolsFrom(symBuf, 0))
  {
    hide ToBits, ByteBits, BlockBits, EncodableAll, LengthFits, DistFits, TreeOk, SymbolsFrom, FixedCodes, B.BitWriter.Bits;
    w.Lengths();
    SmallPowers();
    ghost var before := w.Bits();
    StaticEncodable(t, SymbolsFrom(symBuf, 0));
    w.SendBits(2 + BitVal(last), 3);
    StaticPaced(t, SymbolsFrom(symBuf, 0));
    w.Lengths();
    w.limit := litBufsize;
    CompressPaced(w, t, sl, sd, symBuf, litBufsize);
    w.limit := w.size;
    assert w.Bits() == before + FixedBits(t, last, SymbolsFrom(symBuf, 0));
  }

  method DynamicBlock(w: B.BitWriter, t: Tables, ltree: CodeTree, dtree: CodeTree, btree: CodeTree, p: Plan, symBuf: seq<byte>, last: bool)
    requires w.Valid() && TreeOk(ltree) && TreeOk(dtree) && |symBuf| % 3 == 0 && p.codes == CodesOf(ltree, dtree)
    requires Ready(p, t, SymbolsFrom(symBuf, 0)) && BlReady(btree.codes, btree.lens, p.code, p.n, p.codes.llens, p.codes.dlens)
    requires w.Fits(|DynamicBits(t, false, p.code, p.n, p.codes, SymbolsFrom(symBuf, 0))|)
    modifies w`store, w`pending, w`buf, w`valid
    ensures w.Valid() && w.Bits() == old(w.Bits()) + DynamicBits(t, last, p.code, p.n, p.codes, SymbolsFrom(symBuf, 0))
  {
    hide ToBits, ByteBits, BlockBits, EncodableAll, LengthFits, DistFits, TreeOk, SymbolsFrom, BlReady, HeaderBits, CodeSent, Kraft, B.BitWriter.Bits, B.BitWriter.Valid;
    SmallPowers();
    ghost var before := w.Bits();
    w.SendBits(4 + BitVal(last), 3);
    SendAllTrees(w, btree, p.code, p.n, p.codes.llens, p.codes.dlens);
    CompressBlock(w, t, ltree, dtree, symBuf);
    assert w.Bits() == before + DynamicBits(t, last, p.code, p.n, p.codes, SymbolsFrom(symBuf, 0));
  }

  // ----- one block -----

  /** How a block was written. */
  datatype Encoding = AsStored(pad: nat, buf: seq<byte>) | AsFixed | AsDynamic(plan: Plan)

  ghost predicate EncodingOk(e: Encoding, t: Tables, syms: seq<Symbol>, at: nat)
  {
    match e
    case AsStored(pad, buf) => pad < 8 && |buf| < 65536 && (at + 3 + pad) % 8 == 0
    case AsFixed => TablesFit(t) && EncodableAll(t, FixedCodes(), syms) && Used(FixedCodes().llens, END_BLOCK)
    case AsDynamic(p) => Ready(p, t, syms)
  }

  ghost function EncodingBits(e: Encoding, t: Tables, last: bool, syms: seq<Symbol>, at: nat): (b: BitString)
    requires EncodingOk(e, t, syms, at)
  {
    match e
    case AsStored(pad, buf) => StoredBits(last, pad, buf)
    case AsFixed => FixedBits(t, last, syms)
    case AsDynamic(p) => DynamicBits(t, last, p.code, p.n, p.codes, syms)
  }

  /** However the block was written, inflate gets the symbols' bytes back. */
  lemma {:induction false} EncodingDelivers(e: Encoding, t: Tables, last: bool, syms: seq<Symbol>, at: nat, out: seq<byte>, d: nat)
    requires ReachAll(syms, d) && EncodingOk(e, t, syms, at) && ValidAll(out, syms) && (e.AsStored? ==> Expand(out, syms) == out + e.buf)
    ensures Delivers(EncodingBits(e, t, last, syms, at), at, last, out, Expand(out, syms), d)
  {
    hide Delivers, FixedBits, DynamicBits, StoredBits, EncodableAll, DynamicReady, FixedCodes, ValidAll, Expand;
    match e
    case AsStored(pad, buf) => StoredDelivers(last, pad, buf, at, out, d);
    case AsFixed => FixedDelivers(t, last, syms, at, out, d);
    case AsDynamic(p) => DynamicDelivers(t, last, p.code, p.n, p.codes, syms, at, out, d);
  }

  /** The bytes a block of so many bits takes, counted from a byte boundary. */
  function BytesOf(bits: nat): (n: nat) { (bits + 7) / 8 }

  /** The choice _tr_flush_block makes. */
  ghost predicate Chosen(e: Encoding, t: Tables, last: bool, syms: seq<Symbol>, at: nat, buf: Option<seq<byte>>, fixed: bool, p: Plan)
    requires EncodingOk(AsFixed, t, syms, at) && EncodingOk(AsDynamic(p), t, syms, at)
  {
    var f, d := BytesOf(|EncodingBits(AsFixed, t, last, syms, at)|), BytesOf(|EncodingBits(AsDynamic(p), t, last, syms, at)|);
    && (e.AsStored? <==> buf.Some? && |buf.value| + 4 <= f && |buf.value| + 4 <= d)
    && (e.AsFixed? <==> !e.AsStored? && (fixed || f <= d))
    && (e.AsDynamic? ==> e.plan == p)
  }

  /** _tr_init and init_block. */
  method NewArrays(t: Tables) returns (a: Arrays)
    requires TablesFit(t)
    ensures Apart(a) && fresh(AllOf(a)) && Counted(a, t, [])
  {
    hide LengthFits, DistFits;
    var lfc, ldl := new nat[573](i => if i == END_BLOCK then 1 else 0), new nat[573](_ => 0);
    var dfc, ddl := new nat[61](_ => 0), new nat[61](_ => 0);
    var bfc, bdl := new nat[39](_ => 0), new nat[39](_ => 0);
    var heap, depth := new nat[573](_ => 0), new nat[573](_ => 0);
    a := Arrays(lfc, ldl, dfc, ddl, bfc, bdl, heap, depth);
    assert lfc[..L_CODES] == LFreqs(t, []);
    assert dfc[..D_CODES] == DFreqs(t, []);
  }

  class Coder {
    const a: Arrays
    const t: Tables
    const sl: CodeTree
    const sd: CodeTree
    const w: B.BitWriter
    const symEnd: nat
    var symBuf: seq<byte>

    ghost predicate Shape()
    {
      && Apart(a) && TablesFit(t) && TreeOk(sl) && TreeOk(sd) && sl.lens == FixedCodes().llens && sd.lens == seq(30, _ => 5)
      && 3 * 127 <= symEnd <= 3 * 32767 && symEnd % 3 == 0 && w.size == 4 * (symEnd / 3 + 1)
    }

    ghost function Syms(): (syms: seq<Symbol>)
      reads this
    {
      SymbolsFrom(symBuf, 0)
    }

    ghost predicate Valid()
      reads this, w, a.lfc, a.dfc, a.bfc
    {
      && Shape() && w.Valid() && w.limit == w.size && |symBuf| % 3 == 0 && |symBuf| <= symEnd
      && SymbolsOk(Syms()) && Counted(a, t, Syms())
    }

    constructor (litBufsize: nat)
      requires 128 <= litBufsize <= 32768
      ensures Valid() && Syms() == [] && w.Bits() == [] && w.pending == 0 && symEnd == 3 * (litBufsize - 1)
      ensures fresh(w) && fresh(AllOf(a))
    {
      hide TablesFit, HasCodes, FixedCodes, Counted;
      var t' := StaticInit();
      var sl' := LiteralTree();
      var sd' := DistanceTree();
      var w' := new B.BitWriter(4 * litBufsize);
      var a' := NewArrays(t');
      a, t, sl, sd, w, symEnd, symBuf := a', t', sl', sd', w', 3 * (litBufsize - 1), [];
    }

    /** _tr_tally: one more symbol; true when the block must be flushed. */
    method Tally(dist: nat, lc: byte) returns (full: bool)
      requires Valid() && |symBuf| < symEnd && dist <= 32768
      modifies this`symBuf, a.lfc, a.dfc
      ensures Valid() && Syms() == old(Syms()) + [SymbolFrom(dist, lc)] && full == (|symBuf| == symEnd)
    {
      hide LengthFits, DistFits, SymbolsFrom, HasCodes, FixedCodes, LFreqs, DFreqs;
      ghost var sym := SymbolFrom(dist, lc);
      PackedSymbol(symBuf, sym, 0);
      FreqsAppend(t, Syms(), sym);
      LSymRange(t, sym);
      ghost var lf, df := a.lfc[..L_CODES], a.dfc[..D_CODES];
      PackedBytes(dist, lc);
      symBuf := symBuf + [dist % 256, dist / 256, lc];
      if dist == 0 {
        a.lfc[lc] := a.lfc[lc] + 1;
      } else {
        a.lfc[t.lengthCode[lc] + 257] := a.lfc[t.lengthCode[lc] + 257] + 1;
        a.dfc[DistCode(t, dist - 1)] := a.dfc[DistCode(t, dist - 1)] + 1;
        assert a.dfc[..D_CODES] == Bump(df, DistCode(t, dist - 1));
      }
      assert a.lfc[..L_CODES] == Bump(lf, LSym(t, sym));
      full := |symBuf| == symEnd;
    }

    /** _tr_tally_lit and _tr_tally_dist. */
    method TallySymbol(s: Symbol) returns (full: bool)
      requires Valid() && |symBuf| < symEnd && SymbolOk(s)
      modifies this`symBuf, a.lfc, a.dfc
      ensures Valid() && Syms() == old(Syms()) + [s] && full == (|symBuf| == symEnd) && (!full ==> |symBuf| < symEnd)
    {
      hide Shape, Counted;
      match s
      case Literal(b) => full := Tally(0, b);
      case Pair(dist, len) => full := Tally(dist, len - 3);
    }

    /** The part of flush_pending that reads the pending buffer: at most room bytes leave it. */
    method TakePending(room: nat) returns (bytes: seq<byte>)
      requires Valid()
      modifies w
      ensures Valid() && Syms() == old(Syms()) && ByteBits(bytes) + w.Bits() == old(w.Bits())
      ensures |bytes| <= room && (w.pending == 0 || |bytes| == room) && w.valid < 8 && (old(w.valid) == 0 ==> w.valid == 0)
      ensures old(w.valid) < 8 ==> w.pending + |bytes| == old(w.pending)
    {
      hide ByteBits, ToBits, Pow2, TablesFit, TreeOk, FixedCodes, Counted, SymbolsFrom, SymbolsOk;
      bytes := w.Take(room);
    }

    /** _tr_align: an empty block with the static trees. */
    method Align()
      requires Valid() && w.pending == 0
      modifies w`store, w`pending, w`buf, w`valid
      ensures Valid() && w.valid < 8 && Syms() == old(Syms()) && EncodingOk(AsFixed, t, [], |old(w.Bits())|)
      ensures w.Bits() == old(w.Bits()) + EncodingBits(AsFixed, t, false, [], |old(w.Bits())|)
    {
      hide ByteBits, ToBits, TablesFit, TreeOk, FixedCodes, Counted, SymbolsFrom, SymbolsOk, EncodableAll, EncodingBits, EncodingOk;
      w.Lengths();
      AlignBlock(w, t, sl);
    }

    /** _tr_stored_block without bytes. */
    method EmptyStored() returns (ghost pad: nat)
      requires Valid() && w.pending == 0
      modifies w`store, w`pending, w`buf, w`valid
      ensures Valid() && w.valid == 0 && Syms() == old(Syms()) && EncodingOk(AsStored(pad, []), t, [], |old(w.Bits())|)
      ensures w.Bits() == old(w.Bits()) + EncodingBits(AsStored(pad, []), t, false, [], |old(w.Bits())|)
    {
      hide ByteBits, ToBits, TablesFit, TreeOk, FixedCodes, Counted, SymbolsFrom, SymbolsOk, Pow2, StoredBits;
      pad := StoredBlock(w, [], false);
    }

    /** init_block. */
    method InitBlock()
      requires Shape() && w.Valid() && w.limit == w.size
      modifies this`symBuf, AllOf(a)
      ensures Valid() && Syms() == []
    {
      hide TreeOk, FixedCodes, LengthFits, DistFits;
      Clear(a.lfc, L_CODES);
      Clear(a.dfc, D_CODES);
      Clear(a.bfc, BL_CODES);
      a.lfc[END_BLOCK] := 1;
      symBuf := [];
      assert a.lfc[..L_CODES] == LFreqs(t, []);
      assert a.dfc[..D_CODES] == DFreqs(t, []);
    }

    /** _tr_flush_block: the block is written in the cheapest way; buf is its text, when still at hand. */
    method FlushBlock(buf: Option<seq<byte>>, last: bool, fixed: bool) returns (ghost e: Encoding, ghost p: Plan, ghost pad: nat)
      requires Valid() && |w.Bits()| < 8 && (buf.Some? ==> |buf.value| < 65536)
      modifies this`symBuf, AllOf(a), w`store, w`pending, w`buf, w`valid, w`limit
      ensures Valid() && Syms() == [] && SymbolsOk(old(Syms())) && Tuned(p, t, old(Syms()))
      ensures EncodingOk(AsFixed, t, old(Syms()), |old(w.Bits())|) && EncodingOk(AsDynamic(p), t, old(Syms()), |old(w.Bits())|)
      ensures EncodingOk(e, t, old(Syms()), |old(w.Bits())|) && (e.AsStored? ==> buf == Some(e.buf))
      ensures Chosen(e, t, last, old(Syms()), |old(w.Bits())|, buf, fixed, p)
      ensures pad < 8 && w.Bits() == old(w.Bits()) + EncodingBits(e, t, last, old(Syms()), |old(w.Bits())|) + B.Zeros(pad)
      ensures if last then w.valid == 0 && |w.Bits()| % 8 == 0 else pad == 0
    {
      hide LFreqs, DFreqs, BlockBits, EncodableAll, FixedCodes, LengthFits, DistFits, HasCodes, BlReady, HeaderBits, Ready, ByteBits, ToBits,
        SymbolsFrom, EncodingBits, EncodingOk, Chosen, Bump, LSym, Counted, B.Zeros, TreeOk, SymbolsOk, Tuned;
      ghost var syms, before := Syms(), w.Bits();
      SymsBound(symBuf, 0);
      w.Lengths();
      var ltree, dtree, btree, plan, opt, stat := BuildAll(a, t, sl.lens, sd.lens, syms);
      p := plan;
      e := WriteBlock(w, t, sl, sd, ltree, dtree, btree, plan, opt, stat, buf, last, fixed, symBuf, symEnd / 3 + 1);
      InitBlock();
      pad := CloseBlock(last);
    }

    /** After the last block the stream ends on a byte boundary. */
    method CloseBlock(last: bool) returns (ghost pad: nat)
      requires Valid() && w.out == 0
      modifies w`store, w`pending, w`buf, w`valid
      ensures Valid() && Syms() == old(Syms()) && pad < 8 && w.Bits() == old(w.Bits()) + B.Zeros(pad)
      ensures if last then w.valid == 0 && |w.Bits()| % 8 == 0 else pad == 0
    {
      hide B.Zeros, B.BitWriter.Bits, B.BitWriter.Valid, Counted, SymbolsFrom, SymbolsOk, TablesFit, TreeOk, FixedCodes;
      pad := 0;
      ghost var sent := w.Bits();
      assert B.Zeros(0) == [];
      if last {
        pad := w.Windup();
        w.Aligned();
      } else {
        assert w.Bits() == sent + B.Zeros(0);
      }
    }
  }

  /** _tr_align. */
  method AlignBlock(w: B.BitWriter, t: Tables, sl: CodeTree)
    requires w.Valid() && w.Fits(10) && TablesFit(t) && TreeOk(sl) && sl.lens == FixedCodes().llens
    modifies w`store, w`pending, w`buf, w`valid
    ensures w.Valid() && w.valid < 8 && EncodingOk(AsFixed, t, [], |old(w.Bits())|)
    ensures w.Bits() == old(w.Bits()) + EncodingBits(AsFixed, t, false, [], |old(w.Bits())|)
  {
    hide ByteBits, ToBits, TablesFit, TreeOk, FixedCodes, CodeWord, Pow2, EncodableAll;
    ghost var before := w.Bits();
    SmallPowers();
    NoneEncodable(t);
    w.SendBits(2, 3);
    SendCode(w, sl, END_BLOCK);
    w.Flush();
    assert w.Bits() == before + (ToBits(2, 3) + CodeWord(sl.lens, END_BLOCK));
  }

  /** The choice between the three encodings. */
  method WriteBlock(w: B.BitWriter, t: Tables, sl: CodeTree, sd: CodeTree, ltree: CodeTree, dtree: CodeTree, btree: CodeTree, p: Plan, opt: int, stat: int,
                    buf: Option<seq<byte>>, last: bool, fixed: bool, symBuf: seq<byte>, ghost litBufsize: nat)
      returns (ghost e: Encoding)
    requires w.Valid() && w.out == 0 && |w.Bits()| < 8 && 128 <= litBufsize && w.size == 4 * litBufsize == w.limit
    requires |symBuf| <= 3 * (litBufsize - 1) && TablesFit(t) && TreeOk(sl) && TreeOk(sd) && sl.lens == FixedCodes().llens && sd.lens == seq(30, _ => 5)
    requires TreeOk(ltree) && TreeOk(dtree) && p.codes == CodesOf(ltree, dtree) && (buf.Some? ==> |buf.value| < 65536) && |symBuf| % 3 == 0
    requires SymbolsOk(SymbolsFrom(symBuf, 0)) && Ready(p, t, SymbolsFrom(symBuf, 0))
    requires BlReady(btree.codes, btree.lens, p.code, p.n, p.codes.llens, p.codes.dlens)
    requires EncodableAll(t, FixedCodes(), SymbolsFrom(symBuf, 0)) && Used(FixedCodes().llens, END_BLOCK) && stat == |BlockBits(t, FixedCodes(), SymbolsFrom(symBuf, 0))|
    requires opt == |HeaderBits(p.code, p.n, p.codes.llens, p.codes.dlens)| + |BlockBits(t, p.codes, SymbolsFrom(symBuf, 0))|
    modifies w`store, w`pending, w`buf, w`valid, w`limit
    ensures w.limit == w.size
    ensures w.Valid() && EncodingOk(e, t, SymbolsFrom(symBuf, 0), |old(w.Bits())|) && (e.AsStored? ==> buf == Some(e.buf))
    ensures EncodingOk(AsFixed, t, SymbolsFrom(symBuf, 0), |old(w.Bits())|) && EncodingOk(AsDynamic(p), t, SymbolsFrom(symBuf, 0), |old(w.Bits())|)
    ensures Chosen(e, t, last, SymbolsFrom(symBuf, 0), |old(w.Bits())|, buf, fixed, p)
    ensures w.Bits() == old(w.Bits()) + EncodingBits(e, t, last, SymbolsFrom(symBuf, 0), |old(w.Bits())|)
  {
    hide BlockBits, EncodableAll, FixedCodes, LengthFits, DistFits, TreeOk, BlReady, HeaderBits, DynamicReady, ByteBits, ToBits, SymbolsFrom,
      StoredBits, FixedBits, DynamicBits, SymbolsOk;
    ghost var syms, before := SymbolsFrom(symBuf, 0), w.Bits();
    CandidateSizes(t, last, syms, p, |before|, opt, stat);
    CandidateSizes(t, false, syms, p, |before|, opt, stat);
    SymsBound(symBuf, 0);
    StaticTotal(t, syms);
    w.Lengths();
    var optLenb, staticLenb := (opt + 3 + 7) / 8, (stat + 3 + 7) / 8;
    if staticLenb <= optLenb {
      optLenb := staticLenb;
    }
    if buf.Some? && |buf.value| + 4 <= optLenb {
      ghost var k := StoredBlock(w, buf.value, last);
      e := AsStored(k, buf.value);
    } else if fixed || staticLenb == optLenb {
      FixedBlock(w, t, sl, sd, symBuf, last, litBufsize);
      e := AsFixed;
    } else {
      DynamicBlock(w, t, ltree, dtree, btree, p, symBuf, last);
      e := AsDynamic(p);
    }
  }

  lemma {:induction false} NoneEncodable(t: Tables)
    requires TablesFit(t)
    ensures EncodableAll(t, FixedCodes(), []) && Used(FixedCodes().llens, END_BLOCK)
    ensures FixedBits(t, false, []) == ToBits(2, 3) + CodeWord(FixedCodes().llens, END_BLOCK)
  {
    hide LengthFits, DistFits, ToBits, CodeWord;
    assert SymbolsBits(t, FixedCodes(), []) == [];
    assert [] + CodeWord(FixedCodes().llens, END_BLOCK) == CodeWord(FixedCodes().llens, END_BLOCK);
  }

  method Clear(x: array<nat>, n: nat)
    requires n <= x.Length
    modifies x
    ensures forall i :: 0 <= i < n ==> x[i] == 0
  {
    for i := 0 to n
      invariant forall k :: 0 <= k < i ==> x[k] == 0
    {
      x[i] := 0;
    }
  }

  lemma {:induction false} SymsBound(buf: seq<byte>, i: nat)
    ensures 3 * |SymbolsFrom(buf, i)| <= if i <= |buf| then |buf| - i else 0
    ensures i <= |buf| && (|buf| - i) % 3 == 0 ==> 3 * |SymbolsFrom(buf, i)| == |buf| - i
    decreases |buf| - i
  {
    if i + 3 <= |buf| { SymsBound(buf, i + 3); }
  }

  lemma {:induction false} CandidateSizes(t: Tables, last: bool, syms: seq<Symbol>, p: Plan, at: nat, opt: int, stat: int)
    requires Ready(p, t, syms) && EncodableAll(t, FixedCodes(), syms) && Used(FixedCodes().llens, END_BLOCK)
    requires opt == |HeaderBits(p.code, p.n, p.codes.llens, p.codes.dlens)| + |BlockBits(t, p.codes, syms)| && stat == |BlockBits(t, FixedCodes(), syms)|
    ensures EncodingOk(AsFixed, t, syms, at) && EncodingOk(AsDynamic(p), t, syms, at)
    ensures |EncodingBits(AsFixed, t, last, syms, at)| == stat + 3 && |EncodingBits(AsDynamic(p), t, last, syms, at)| == opt + 3
    ensures |DynamicBits(t, last, p.code, p.n, p.codes, syms)| == opt + 3
  {
    hide HeaderBits, BlockBits, EncodableAll, FixedCodes, Kraft, CodeSent, ToBits;
  }

  lemma {:induction false} PackedBytes(dist: nat, lc: byte)
    requires dist <= 32768
    ensures dist / 256 < 256 && Packed(SymbolFrom(dist, lc)) == [dist % 256, dist / 256, lc]
  {
  }
}
