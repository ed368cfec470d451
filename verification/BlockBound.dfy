/** How large a block can get: never much more than nine bits for a byte of the text. */
module BlockBound {
  import opened Bits
  import opened Canonical
  import opened InflateTable
  import opened Lz77
  import opened InflateSpec
  import opened StaticTables
  import opened Block
  import opened BlockCodec
  import opened BlockStats
  import opened StaticTrees
  import opened TreeCoder

  /** The bytes a symbol stands for. */
  function SpanOf(s: Symbol): (n: nat) { if s.Literal? then 1 else s.len }

  function Span(syms: seq<Symbol>): (n: nat)
  {
    if syms == [] then 0 else SpanOf(syms[0]) + Span(syms[1..])
  }

  lemma {:induction false} SpanExpand(out: seq<byte>, syms: seq<Symbol>)
    requires ValidAll(out, syms)
    ensures |Expand(out, syms)| == |out| + Span(syms) && Span(syms) >= |syms|
    decreases |syms|
  {
    hide CopyBack;
    if syms != [] {
      ApplyLength(out, syms[0]);
      SpanExpand(Apply(out, syms[0]), syms[1..]);
    }
  }

  lemma {:induction false} ApplyLength(out: seq<byte>, s: Symbol)
    requires Valid(out, s)
    ensures |Apply(out, s)| == |out| + SpanOf(s) && SpanOf(s) >= 1
  {
  }

  /** The fixed codes as the static trees have them. */
  function StaticCodes(): (codes: Codes) { Codes(FixedCodes().llens, seq(30, _ => 5)) }

  /** Lengths of 3 and 4 have codes of their own. */
  lemma {:induction false} ShortestLength(t: Tables, lc: nat)
    requires TablesFit(t) && lc <= 1
    ensures t.lengthCode[lc] == lc
  {
    hide DistFits;
    assert LengthFits(t, lc);
    LengthRange(t.lengthCode[lc]);
    if lc == 0 { LengthRange(0); }
    FirstBases();
  }

  lemma {:induction false} FirstBases()
    ensures |LBASE| == 31 && LBASE[0] == 3 && LBASE[1] == 4 && (forall c :: 2 <= c < 29 ==> LBASE[c] > 4) && |EXTRA_LBITS| == 29 && EXTRA_LBITS[0] == 0 == EXTRA_LBITS[1]
  {
  }

  /** A match of three bytes takes at most 7 + 5 + 13 bits. */
  lemma {:induction false} ShortestPair(t: Tables, dist: nat)
    requires TablesFit(t) && Encodable(t, StaticCodes(), Pair(dist, 3))
    ensures |SymbolBits(t, StaticCodes(), Pair(dist, 3))| <= 25
  {
    hide EXTRA_LBITS, EXTRA_DBITS, CodeWord, LengthFits, DistFits, DistCode, DistExtra, DBASE, Lsb, ToBits;
    ShortestLength(t, 0);
    FirstExtra();
    DistFacts(t, dist - 1);
    assert FixedCodes().llens[257] == 7;
  }

  /** No symbol takes more than nine bits for each byte it stands for. */
  lemma {:induction false} StaticRate(t: Tables, s: Symbol)
    requires TablesFit(t) && SymbolOk(s) && Encodable(t, StaticCodes(), s)
    ensures |SymbolBits(t, StaticCodes(), s)| <= 9 * SpanOf(s)
  {
    if s.Literal? {
      hide LengthFits, DistFits;
    } else if s.len > 3 {
      hide SymbolBits, LengthFits, DistFits, Encodable;
      StaticSize(t, s);
    } else {
      hide SymbolBits, LengthFits, DistFits, Encodable;
      ShortestPair(t, s.dist);
    }
  }

  lemma {:induction false} FirstExtra()
    ensures |EXTRA_LBITS| == 29 && EXTRA_LBITS[0] == 0
  {
  }

  lemma {:induction false} StaticSpan(t: Tables, syms: seq<Symbol>)
    requires TablesFit(t) && SymbolsOk(syms) && EncodableAll(t, StaticCodes(), syms)
    ensures |SymbolsBits(t, StaticCodes(), syms)| <= 9 * Span(syms)
    decreases |syms|
  {
    hide SymbolBits, StaticCodes, LengthFits, DistFits;
    if syms != [] {
      StaticRate(t, syms[0]);
      StaticSpan(t, syms[1..]);
    }
  }

  /** A static block. */
  lemma {:induction false} StaticBlockSize(t: Tables, last: bool, syms: seq<Symbol>)
    requires TablesFit(t) && SymbolsOk(syms) && EncodableAll(t, FixedCodes(), syms) && Used(FixedCodes().llens, END_BLOCK)
    ensures |FixedBits(t, last, syms)| <= 9 * Span(syms) + 10
  {
    hide SymbolsBits, LengthFits, DistFits, ToBits, Rev, CodeOf;
    StaticEncodable(t, syms);
    StaticSpan(t, syms);
  }

  /** The bits beyond nine for each byte. */
  function Overhead(n: nat): (b: nat) { if n >= 32 then 10 else 27 }

  /** The encoding chosen, whichever it is. */
  lemma {:induction false} CheapestSize(e: Encoding, t: Tables, last: bool, syms: seq<Symbol>, at: nat, buf: Option<seq<byte>>, fixed: bool, p: Plan)
    requires TablesFit(t) && SymbolsOk(syms) && EncodingOk(AsFixed, t, syms, at) && EncodingOk(AsDynamic(p), t, syms, at) && EncodingOk(e, t, syms, at)
    requires Chosen(e, t, last, syms, at, buf, fixed, p) && (e.AsStored? ==> buf == Some(e.buf)) && (buf.Some? ==> |buf.value| == Span(syms))
    ensures |EncodingBits(e, t, last, syms, at)| <= 9 * Span(syms) + Overhead(Span(syms))
  {
    hide FixedBits, DynamicBits, StoredBits, DynamicReady, EncodableAll, FixedCodes, TablesFit, SymbolsOk, Span;
    StaticBlockSize(t, last, syms);
    if e.AsStored? {
      StoredSize(last, e.pad, e.buf);
    }
  }

  /** Whole bytes, the last one begun included. */
  function Up(bits: nat): (n: nat) { (bits + 7) / 8 }

  /** With its text at hand and a free choice, a block takes at most five bytes more than its text. */
  lemma {:induction false} FreeSize(e: Encoding, t: Tables, last: bool, syms: seq<Symbol>, at: nat, buf: seq<byte>, p: Plan, sent: nat)
    requires TablesFit(t) && SymbolsOk(syms) && EncodingOk(AsFixed, t, syms, at) && EncodingOk(AsDynamic(p), t, syms, at) && EncodingOk(e, t, syms, at)
    requires Chosen(e, t, last, syms, at, Some(buf), false, p) && (e.AsStored? ==> buf == e.buf) && sent % 8 == at % 8
    ensures Up(sent + |EncodingBits(e, t, last, syms, at)|) <= Up(sent) + |buf| + 5
  {
    hide FixedBits, DynamicBits, StoredBits, DynamicReady, EncodableAll, FixedCodes, TablesFit, SymbolsOk;
    if e.AsStored? { StoredSize(last, e.pad, e.buf); }
  }
}
