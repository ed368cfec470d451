/** What the best codes mean for a block: no pair of codes makes its symbols take fewer bits. */
module BestBlock {
  import opened Bits
  import opened Canonical
  import opened Lz77
  import opened InflateSpec
  import opened StaticTables
  import opened Block
  import opened SetSum
  import opened HuffmanOpt
  import opened HuffmanTree
  import opened CheapestCode
  import opened BuildTree
  import opened BitLengths
  import opened BlockStats
  import opened TreeCoder

  /** The bits of the symbols are the bits of the code words and the extra bits. */
  lemma {:induction false} TotalCost(f: seq<nat>, len: seq<nat>, xs: seq<nat>)
    requires |f| == |len| == |xs|
    ensures TotalBits(f, len, xs, |f|) == Cost(Occurring(f), f, len) + Cost(Occurring(f), f, xs)
  {
    hide Sum, TotalBits;
    var S := Occurring(f);
    TotalSum(S, f, len, xs, |f|);
    assert Charges(f, len, xs)[..|f|] == Charges(f, len, xs);
    forall i | 0 <= i < |f|
      ensures Charges(f, len, xs)[i] == Products(f, len)[i] + Products(f, xs)[i]
    {
      Times(f[i], len[i], xs[i]);
    }
    SumAdd(S, Products(f, len), Products(f, xs), Charges(f, len, xs));
  }

  lemma {:induction false} Times(f: nat, a: nat, b: nat)
    ensures f * (a + b) == f * a + f * b
  {
  }

  lemma {:induction false} CheaperBits(f: seq<nat>, len: seq<nat>, l: seq<nat>, xs: seq<nat>, top: nat)
    requires |f| == |len| == |xs| && Cheapest(f, len) && IsCode(f, l, top)
    ensures TotalBits(f, len, xs, |f|) <= TotalBits(f, l, xs, |f|)
  {
    hide TotalBits, Cost, Occurring;
    TotalCost(f, len, xs);
    TotalCost(f, l, xs);
  }

  /** What occurs in the block has a code word. */
  lemma {:induction false} OccursUsed(t: Tables, c: Codes, syms: seq<Symbol>)
    requires TablesFit(t) && SymbolsOk(syms) && EncodableAll(t, c, syms) && Used(c.llens, END_BLOCK)
    ensures forall i :: 0 <= i < L_CODES && LFreqs(t, syms)[i] != 0 ==> Used(c.llens, i)
    ensures forall i :: 0 <= i < D_CODES && DFreqs(t, syms)[i] != 0 ==> Used(c.dlens, i)
    decreases |syms|
  {
    hide LengthFits, DistFits, DistCode, Used;
    if syms != [] {
      var n := |syms| - 1;
      assert Encodable(t, c, syms[n]);
      OccursUsed(t, c, syms[..n]);
    }
  }

  /** Lengths that satisfy the Kraft inequality and serve all symbols that occur are a code for them. */
  lemma {:induction false} KraftCode(f: seq<nat>, l: seq<nat>)
    requires ValidLens(l) && Kraft(l) <= FULL && forall i :: 0 <= i < |f| && f[i] != 0 ==> Used(l, i)
    ensures IsCode(f, Full(l, |f|), MAXBITS)
  {
    hide Sum, Kraft, Unit;
    var S, n := Occurring(f), |f|;
    var U := set i: nat | i < |l| && l[i] != 0;
    var k := if n < |l| then n else |l|;
    KraftSum(U, l);
    FullIsPow2();
    assert S <= U && Indices(S, k);
    var v, w := Units(l, MAXBITS), Units(Full(l, n), MAXBITS);
    SumPrefix(S, v, k);
    SumPrefix(S, w, k);
    assert v[..k] == w[..k];
    SumUnion(S, U - S, v);
    assert S + (U - S) == U;
    SumNonNegative(U - S, v);
  }

  lemma {:induction false} BodySize(t: Tables, c: Codes, syms: seq<Symbol>)
    requires TablesFit(t) && SymbolsOk(syms) && EncodableAll(t, c, syms) && Used(c.llens, END_BLOCK)
    ensures |BlockBits(t, c, syms)| ==
      TotalBits(LFreqs(t, syms), Full(c.llens, L_CODES), Extras(EXTRA_LBITS, 257, L_CODES), L_CODES)
      + TotalBits(DFreqs(t, syms), Full(c.dlens, D_CODES), Extras(EXTRA_DBITS, 0, D_CODES), D_CODES)
  {
    hide LFreqs, DFreqs, TotalBits, EncodableAll, LengthFits, DistFits, EXTRA_LBITS, EXTRA_DBITS, SymbolsBits, CodeWord;
    BlockSize(t, c, syms, Full(c.llens, L_CODES), Full(c.dlens, D_CODES), Extras(EXTRA_LBITS, 257, L_CODES), Extras(EXTRA_DBITS, 0, D_CODES));
  }

  /** Whenever cheapest codes keep to 15 bits, the codes of the plan make the symbols of the block
      take no more bits than any other codes do, the fixed ones included. */
  lemma {:induction false} NoSmallerBlock(p: Plan, t: Tables, syms: seq<Symbol>, c: Codes)
    requires TablesFit(t) && SymbolsOk(syms) && Ready(p, t, syms) && Tuned(p, t, syms)
    requires SomeFits(LFreqs(t, syms), 15) && SomeFits(DFreqs(t, syms), 15)
    requires EncodableAll(t, c, syms) && Used(c.llens, END_BLOCK)
    requires ValidLens(c.llens) && ValidLens(c.dlens) && Kraft(c.llens) <= FULL && Kraft(c.dlens) <= FULL
    ensures |BlockBits(t, p.codes, syms)| <= |BlockBits(t, c, syms)|
  {
    hide LFreqs, DFreqs, TotalBits, EncodableAll, LengthFits, DistFits, EXTRA_LBITS, EXTRA_DBITS, BlockBits, Kraft, SomeFits, Cheapest, IsCode, Full, Extras;
    OccursUsed(t, c, syms);
    KraftCode(LFreqs(t, syms), c.llens);
    KraftCode(DFreqs(t, syms), c.dlens);
    CheaperBits(LFreqs(t, syms), Full(p.codes.llens, L_CODES), Full(c.llens, L_CODES), Extras(EXTRA_LBITS, 257, L_CODES), 15);
    CheaperBits(DFreqs(t, syms), Full(p.codes.dlens, D_CODES), Full(c.dlens, D_CODES), Extras(EXTRA_DBITS, 0, D_CODES), 15);
    BodySize(t, p.codes, syms);
    BodySize(t, c, syms);
  }

  /** Blocks of fewer than 2583 symbols always have cheapest codes within the limit. */
  lemma {:induction false} ShortBlockFits(p: Plan, t: Tables, syms: seq<Symbol>)
    requires TablesFit(t) && SymbolsOk(syms) && Tuned(p, t, syms) && |syms| < 2583
    ensures SomeFits(LFreqs(t, syms), 15) && SomeFits(DFreqs(t, syms), 15)
  {
    hide LFreqs, DFreqs, LengthFits, DistFits, SomeFits, Cheapest, IsCode, Full, Total;
    LTotal(t, syms);
    Fib18();
  }

  lemma {:induction false} Fib18()
    ensures Fib(18) == 2584
  {
    assert Fib(8) == 21 && Fib(9) == 34;
    assert Fib(10) == 55 && Fib(11) == 89;
    assert Fib(12) == 144 && Fib(13) == 233;
    assert Fib(14) == 377 && Fib(15) == 610;
  }
}
