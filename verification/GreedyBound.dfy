/** How large a dynamic block can get: never larger than a text that is long for its symbols. */
module GreedyBound {
  import opened Bits
  import opened Canonical
  import opened InflateTable
  import opened Lz77
  import opened InflateSpec
  import opened StaticTables
  import opened Block
  import opened BlockCodec
  import opened TreeTransport
  import opened SetSum
  import opened HuffmanOpt
  import opened HuffmanTree
  import opened LengthRepair
  import opened CheapestCode
  import opened BuildTree
  import opened BitLengths
  import opened BlockStats
  import opened TreeCoder
  import opened BestBlock
  import opened BlockBound

  // ----- the header -----

  /** The header of a dynamic block takes at most 2283 bits. */
  lemma {:induction false} HeaderLimit(code: seq<nat>, n: nat, llens: seq<nat>, dlens: seq<nat>)
    requires CodeSent(code, n) && CountsOk(|llens|, |dlens|) && LensSent(code, llens) && LensSent(code, dlens)
    ensures |HeaderBits(code, n, llens, dlens)| <= 2283
  {
    hide ToBits, OrderBits, TokensBits, Tokens, SendableAll, Kraft;
    OrderLimit(code, 0, n);
    TokensLimit(code, -1, llens);
    TokensLimit(code, -1, dlens);
  }

  lemma {:induction false} OrderLimit(code: seq<nat>, i: nat, n: nat)
    requires |code| == 19 && i <= n <= 19
    ensures |OrderBits(code, i, n)| == 3 * (n - i)
    decreases n - i
  {
    hide ToBits;
    if i < n { OrderLimit(code, i + 1, n); }
  }

  /** Seven bits for each length, however the lengths are sent. */
  lemma {:induction false} TokensLimit(code: seq<nat>, prev: int, lens: seq<nat>)
    requires SendableAll(code, Tokens(prev, lens)) && CodeOk(code) && ValidLens(lens)
    ensures |TokensBits(code, Tokens(prev, lens))| <= 7 * |lens|
    decreases |lens|
  {
    hide TokensBits, SendableAll, RunTokens, FrontRun, CodeOk;
    if lens == [] {
      NoTokens(code);
    } else {
      var n := FrontRun(prev, lens);
      var run, rest := RunTokens(prev, lens[0], n), Tokens(lens[0], lens[n..]);
      TokensBitsConcat(code, run, rest);
      RunLimit(code, prev, lens[0], n);
      TokensLimit(code, lens[0], lens[n..]);
    }
  }

  lemma {:induction false} NoTokens(code: seq<nat>)
    ensures SendableAll(code, []) && TokensBits(code, []) == []
  {
  }

  lemma {:induction false} RunLimit(code: seq<nat>, prev: int, cur: nat, n: nat)
    requires n >= 1 && cur <= 15 && SendableAll(code, RunTokens(prev, cur, n)) && CodeOk(code)
    ensures |TokensBits(code, RunTokens(prev, cur, n))| <= 7 * n
  {
    hide ToBits, CodeWord, Acceptable, TokensBits, TokenBits;
    var ks := RunTokens(prev, cur, n);
    if n < MinCount(prev, cur) {
      PlainLimit(code, ks);
    } else {
      OneToken(code, ks);
    }
  }

  /** Lengths sent one by one. */
  lemma {:induction false} PlainLimit(code: seq<nat>, ks: seq<Token>)
    requires SendableAll(code, ks) && CodeOk(code) && forall i :: 0 <= i < |ks| ==> ks[i].sym < 16
    ensures |TokensBits(code, ks)| <= 7 * |ks|
    decreases |ks|
  {
    hide ToBits, CodeOf, Rev, Acceptable;
    if ks != [] {
      assert Sendable(code, ks[0]);
      PlainLimit(code, ks[1..]);
    }
  }

  /** At most two codes, the last one with extra bits. */
  lemma {:induction false} OneToken(code: seq<nat>, ks: seq<Token>)
    requires SendableAll(code, ks) && CodeOk(code) && 1 <= |ks| <= 2 && (|ks| == 2 ==> ks[0].sym < 16)
    ensures |TokensBits(code, ks)| <= 7 * |ks| + RepeatBits(ks[|ks| - 1].sym)
  {
    hide ToBits, CodeOf, Rev, Acceptable;
    assert Sendable(code, ks[0]) && Sendable(code, ks[|ks| - 1]);
    assert TokensBits(code, ks[1..]) == if |ks| == 2 then TokenBits(code, ks[1]) + TokensBits(code, ks[1..][1..]) else [];
    assert |ks| == 2 ==> ks[1..][1..] == [];
  }

  // ----- a code made by hand -----

  /** Nine bits for a literal, two for a length of three, seven for other lengths and the end, five for a distance. */
  function ByHand(): (c: Codes)
  {
    Codes(seq(L_CODES, i => if i < 256 then 9 else if i == 257 then 2 else 7), seq(D_CODES, _ => 5))
  }

  lemma {:induction false} ByHandEncodes(t: Tables, syms: seq<Symbol>)
    requires TablesFit(t) && SymbolsOk(syms)
    ensures EncodableAll(t, ByHand(), syms) && Used(ByHand().llens, END_BLOCK)
    decreases |syms|
  {
    hide LengthFits, DistFits, DistCode, LSym;
    forall i | 0 <= i < |syms|
      ensures Encodable(t, ByHand(), syms[i])
    {
      ByHandOne(t, syms[i]);
    }
  }

  lemma {:induction false} ByHandOne(t: Tables, s: Symbol)
    requires TablesFit(t) && SymbolOk(s)
    ensures Encodable(t, ByHand(), s)
  {
    LSymRange(t, s);
  }

  /** What the first n words of the literal code fill, in units of 2^-9. */
  function Filled(n: nat): (m: nat) { if n <= 256 then n else if n == 257 then 260 else 388 + 4 * (n - 258) }

  lemma {:induction false} LiteralMass(S: set<nat>, n: nat)
    requires n <= L_CODES
    ensures Sum(S, Units(ByHand().llens[..n], 9)) <= Filled(n)
    decreases n
  {
    if n > 0 {
      LiteralMass(S, n - 1);
      var u := Units(ByHand().llens[..n], 9);
      assert u[..n - 1] == Units(ByHand().llens[..n - 1], 9);
      SmallPowers();
    }
  }

  lemma {:induction false} FlatMass(S: set<nat>, n: nat)
    ensures Sum(S, Units(seq(n, _ => 5), 5)) <= n
    decreases n
  {
    if n > 0 {
      FlatMass(S, n - 1);
      assert Units(seq(n, _ => 5), 5)[..n - 1] == Units(seq(n - 1, _ => 5), 5);
      SmallPowers();
    }
  }

  lemma {:induction false} ByHandCodes(f: seq<nat>, g: seq<nat>)
    requires |f| == L_CODES && |g| == D_CODES
    ensures IsCode(f, ByHand().llens, 9) && IsCode(g, ByHand().dlens, 5)
  {
    hide Sum, Unit;
    LiteralMass(Occurring(f), L_CODES);
    assert ByHand().llens[..L_CODES] == ByHand().llens;
    FlatMass(Occurring(g), D_CODES);
    SmallPowers();
  }

  /** Twice the bits of a symbol are at most eleven for each byte and seven for each symbol. */
  lemma {:induction false} ByHandRate(t: Tables, s: Symbol)
    requires TablesFit(t) && SymbolOk(s) && Encodable(t, ByHand(), s)
    ensures 2 * |SymbolBits(t, ByHand(), s)| <= 11 * SpanOf(s) + 7
  {
    hide SymbolBits, EXTRA_LBITS, EXTRA_DBITS, LengthFits, DistFits, DistCode;
    SymbolSize(t, ByHand(), s);
    ExtraLimits();
    LSymRange(t, s);
    if s.Pair? && s.len <= 4 {
      ShortestLength(t, s.len - 3);
      FirstBases();
    }
  }

  lemma {:induction false} ExtraLimits()
    ensures |EXTRA_LBITS| == 29 && |EXTRA_DBITS| == 30
    ensures (forall c :: 0 <= c < 29 ==> EXTRA_LBITS[c] <= 5) && (forall c :: 0 <= c < 30 ==> EXTRA_DBITS[c] <= 13)
  {
  }

  lemma {:induction false} ByHandSize(t: Tables, syms: seq<Symbol>)
    requires TablesFit(t) && SymbolsOk(syms) && EncodableAll(t, ByHand(), syms)
    ensures 2 * |SymbolsBits(t, ByHand(), syms)| <= 11 * Span(syms) + 7 * |syms|
    decreases |syms|
  {
    hide SymbolBits, ByHand, LengthFits, DistFits;
    if syms != [] {
      ByHandRate(t, syms[0]);
      ByHandSize(t, syms[1..]);
    }
  }

  // ----- the codes that are built -----

  lemma {:induction false} NearlyBits(f: seq<nat>, len: seq<nat>, l: seq<nat>, xs: seq<nat>, top: nat)
    requires |f| == |len| == |xs| && NearlyCheapest(f, len) && IsCode(f, l, top)
    ensures TotalBits(f, len, xs, |f|) <= TotalBits(f, l, xs, |f|) + 62 * |f|
  {
    hide TotalBits, Cost;
    TotalCost(f, len, xs);
    TotalCost(f, l, xs);
    FewIndices(Occurring(f), |f|);
  }

  lemma {:induction false} FewIndices(S: set<nat>, n: nat)
    requires Indices(S, n)
    ensures |S| <= n
    decreases n
  {
    if n > 0 {
      FewIndices(S - {n - 1}, n - 1);
    } else {
      assert S == {};
    }
  }

  /** The symbols of a dynamic block. */
  lemma {:induction false} DynamicBody(p: Plan, t: Tables, syms: seq<Symbol>)
    requires TablesFit(t) && SymbolsOk(syms) && Ready(p, t, syms) && Tuned(p, t, syms) && |syms| < 16384
    ensures 2 * |BlockBits(t, p.codes, syms)| <= 11 * Span(syms) + 7 * |syms| + 39198
  {
    hide LFreqs, DFreqs, TotalBits, EncodableAll, LengthFits, DistFits, EXTRA_LBITS, EXTRA_DBITS, SymbolsBits, Kraft, SomeFits, Cheapest, IsCode, Full, Total,
      Occurring, Fib, CodeWord, NearlyCheapest, Extras, ByHand;
    var f, g := LFreqs(t, syms), DFreqs(t, syms);
    var xl, xd := Extras(EXTRA_LBITS, 257, L_CODES), Extras(EXTRA_DBITS, 0, D_CODES);
    ByHandEncodes(t, syms);
    ByHandCodes(f, g);
    LTotal(t, syms);
    NearlyBits(f, Full(p.codes.llens, L_CODES), ByHand().llens, xl, 9);
    NearlyBits(g, Full(p.codes.dlens, D_CODES), ByHand().dlens, xd, 5);
    BodySize(t, p.codes, syms);
    BodySize(t, ByHand(), syms);
    FullHand();
    ByHandSize(t, syms);
  }

  lemma {:induction false} FullHand()
    ensures Full(ByHand().llens, L_CODES) == ByHand().llens && Full(ByHand().dlens, D_CODES) == ByHand().dlens && ByHand().llens[END_BLOCK] == 7
    ensures |ByHand().llens| == L_CODES && |ByHand().dlens| == D_CODES
  {
  }

  /** A block of few symbols for its text, with a free choice, takes no more than its text. */
  lemma {:induction false} DenseSize(e: Encoding, t: Tables, last: bool, syms: seq<Symbol>, at: nat, p: Plan, sent: nat)
    requires TablesFit(t) && SymbolsOk(syms) && EncodingOk(AsFixed, t, syms, at) && EncodingOk(AsDynamic(p), t, syms, at) && EncodingOk(e, t, syms, at)
    requires Chosen(e, t, last, syms, at, None, false, p) && Tuned(p, t, syms) && |syms| < 16384 && 7 * |syms| + 43800 <= 5 * Span(syms)
    ensures Up(sent + |EncodingBits(e, t, last, syms, at)|) <= Up(sent) + Span(syms)
  {
    hide TablesFit, SymbolsOk, Tuned, EncodableAll, FixedCodes, HeaderBits, BlockBits, CodeSent, LensSent, ToBits, Span, FixedBits;
    DynamicBody(p, t, syms);
    HeaderLimit(p.code, p.n, p.codes.llens, p.codes.dlens);
  }
}
