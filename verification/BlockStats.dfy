/** The frequencies _tr_tally counts, and that the bit totals computed from them are exact. */
module BlockStats {
  import opened Bits
  import opened Canonical
  import opened InflateTable
  import opened Lz77
  import opened InflateSpec
  import opened StaticTables
  import opened Block
  import opened Compress
  import opened BuildTree
  import opened CheapestCode
  import opened BitLengths
  import opened TreeTransport
  import opened BlockCodec

  const L_CODES: nat := 286
  const D_CODES: nat := 30
  const BL_CODES: nat := 19
  const EXTRA_BLBITS: seq<nat> := [0, 0, 0, 0, 0, 0, 0, 0, 0, 0, 0, 0, 0, 0, 0, 0, 2, 3, 7]

  /** A symbol that fits in the symbol buffer. */
  predicate SymbolOk(s: Symbol) { s.Pair? ==> 1 <= s.dist <= 32768 && 3 <= s.len <= 258 }

  ghost predicate SymbolsOk(syms: seq<Symbol>) { forall i :: 0 <= i < |syms| ==> SymbolOk(syms[i]) }

  /** The literal/length symbol of a symbol. */
  function LSym(t: Tables, s: Symbol): (n: nat)
    requires Sizes(t) && SymbolOk(s)
  {
    match s
    case Literal(b) => b
    case Pair(_, len) => 257 + t.lengthCode[len - 3]
  }

  lemma {:induction false} LSymRange(t: Tables, s: Symbol)
    requires TablesFit(t) && SymbolOk(s)
    ensures LSym(t, s) < L_CODES && LSym(t, s) != END_BLOCK
    ensures s.Pair? ==> DistCode(t, s.dist - 1) < D_CODES
  {
    hide LBASE, DBASE, EXTRA_LBITS, EXTRA_DBITS, Pow2;
    if s.Pair? {
      assert LengthFits(t, s.len - 3);
      assert DistFits(t, s.dist - 1);
    }
  }

  function Bump(f: seq<nat>, s: nat): (r: seq<nat>)
    ensures |r| == |f|
  {
    if s < |f| then f[s := f[s] + 1] else f
  }

  /** How often each literal/length symbol occurs, the end of the block included. */
  ghost function LFreqs(t: Tables, syms: seq<Symbol>): (f: seq<nat>)
    requires TablesFit(t) && SymbolsOk(syms)
    ensures |f| == L_CODES
  {
    if syms == [] then seq(L_CODES, i => if i == END_BLOCK then 1 else 0)
    else Bump(LFreqs(t, syms[..|syms| - 1]), LSym(t, syms[|syms| - 1]))
  }

  ghost function DFreqs(t: Tables, syms: seq<Symbol>): (f: seq<nat>)
    requires TablesFit(t) && SymbolsOk(syms)
    ensures |f| == D_CODES
  {
    if syms == [] then seq(D_CODES, _ => 0)
    else
      var s := syms[|syms| - 1];
      if s.Pair? then Bump(DFreqs(t, syms[..|syms| - 1]), DistCode(t, s.dist - 1)) else DFreqs(t, syms[..|syms| - 1])
  }

  lemma {:induction false} FreqsAppend(t: Tables, syms: seq<Symbol>, s: Symbol)
    requires TablesFit(t) && SymbolsOk(syms) && SymbolOk(s)
    ensures SymbolsOk(syms + [s])
    ensures LFreqs(t, syms + [s]) == Bump(LFreqs(t, syms), LSym(t, s))
    ensures DFreqs(t, syms + [s]) == if s.Pair? then Bump(DFreqs(t, syms), DistCode(t, s.dist - 1)) else DFreqs(t, syms)
  {
    hide Bump, DistCode, LSym, LengthFits, DistFits;
    assert (syms + [s])[..|syms|] == syms;
  }

  // ----- what occurs has a positive frequency -----

  lemma {:induction false} Occurs(t: Tables, syms: seq<Symbol>, i: nat)
    requires TablesFit(t) && SymbolsOk(syms) && i < |syms|
    ensures LSym(t, syms[i]) < L_CODES && LFreqs(t, syms)[LSym(t, syms[i])] > 0 && LFreqs(t, syms)[END_BLOCK] > 0
    ensures syms[i].Pair? ==> DistCode(t, syms[i].dist - 1) < D_CODES && DFreqs(t, syms)[DistCode(t, syms[i].dist - 1)] > 0
    decreases |syms|
  {
    hide LSym, DistCode, LengthFits, DistFits;
    var n := |syms| - 1;
    LSymRange(t, syms[i]);
    LSymRange(t, syms[n]);
    if i < n { Occurs(t, syms[..n], i); } else { EndOccurs(t, syms[..n]); }
  }

  lemma {:induction false} EndOccurs(t: Tables, syms: seq<Symbol>)
    requires TablesFit(t) && SymbolsOk(syms)
    ensures LFreqs(t, syms)[END_BLOCK] > 0
    decreases |syms|
  {
    hide LSym, DistCode, LengthFits, DistFits;
    if syms != [] {
      EndOccurs(t, syms[..|syms| - 1]);
    }
  }

  /** A code for the frequencies can encode the symbols. */
  lemma {:induction false} AllEncodable(t: Tables, syms: seq<Symbol>, lcodes: seq<nat>, llens: seq<nat>, dcodes: seq<nat>, dlens: seq<nat>)
    requires TablesFit(t) && SymbolsOk(syms)
    requires CodeFor(LFreqs(t, syms), lcodes, llens, 15) && CodeFor(DFreqs(t, syms), dcodes, dlens, 15)
    ensures EncodableAll(t, Codes(llens, dlens), syms) && Used(llens, END_BLOCK) && CountsOk(|llens|, |dlens|)
  {
    hide LFreqs, DFreqs, LengthFits, DistFits, DistCode, Kraft;
    EndOccurs(t, syms);
    forall i | 0 <= i < |syms|
      ensures Encodable(t, Codes(llens, dlens), syms[i])
    {
      Occurs(t, syms, i);
    }
  }

  // ----- totals -----

  lemma {:induction false} TotalBump(f: seq<nat>, s: nat, n: nat)
    requires n <= |f| && s < |f|
    ensures Total(Bump(f, s), n) == Total(f, n) + if s < n then 1 else 0
  {
    if n > 0 { TotalBump(f, s, n - 1); }
  }

  lemma {:induction false} TotalZero(f: seq<nat>, n: nat)
    requires n <= |f| && forall i :: 0 <= i < n ==> f[i] == 0
    ensures Total(f, n) == 0
  {
    if n > 0 { TotalZero(f, n - 1); }
  }

  lemma {:induction false} LTotal(t: Tables, syms: seq<Symbol>)
    requires TablesFit(t) && SymbolsOk(syms)
    ensures Total(LFreqs(t, syms), L_CODES) == |syms| + 1 && Total(DFreqs(t, syms), D_CODES) <= |syms|
    decreases |syms|
  {
    hide LSym, DistCode, LengthFits, DistFits, Bump;
    if syms == [] {
      var z := seq(L_CODES, _ => 0);
      TotalZero(z, L_CODES);
      TotalZero(DFreqs(t, syms), D_CODES);
      TotalBump(z, END_BLOCK, L_CODES);
      assert LFreqs(t, syms) == z[END_BLOCK := 1];
      assert Bump(z, END_BLOCK) == z[END_BLOCK := 1] by { BumpAt(z, END_BLOCK); }
    } else {
      var n := |syms| - 1;
      LTotal(t, syms[..n]);
      LSymRange(t, syms[n]);
      TotalBump(LFreqs(t, syms[..n]), LSym(t, syms[n]), L_CODES);
      if syms[n].Pair? { TotalBump(DFreqs(t, syms[..n]), DistCode(t, syms[n].dist - 1), D_CODES); }
    }
  }

  lemma {:induction false} BumpAt(f: seq<nat>, s: nat)
    requires s < |f|
    ensures Bump(f, s) == f[s := f[s] + 1]
  {
  }

  lemma {:induction false} BitsBump(f: seq<nat>, s: nat, len: seq<nat>, xs: seq<nat>, n: nat)
    requires n <= |f| && n <= |len| && n <= |xs| && s < n
    ensures TotalBits(Bump(f, s), len, xs, n) == TotalBits(f, len, xs, n) + len[s] + xs[s]
  {
    BitsBumpTo(f, s, len, xs, n);
  }

  lemma {:induction false} BitsBumpTo(f: seq<nat>, s: nat, len: seq<nat>, xs: seq<nat>, n: nat)
    requires n <= |f| && n <= |len| && n <= |xs| && s < |f| && s < |len| && s < |xs|
    ensures TotalBits(Bump(f, s), len, xs, n) == TotalBits(f, len, xs, n) + if s < n then len[s] + xs[s] else 0
    decreases n
  {
    if n > 0 {
      BitsBumpTo(f, s, len, xs, n - 1);
      if s == n - 1 { OneMore(f[s], len[s] + xs[s]); }
    }
  }

  lemma {:induction false} OneMore(p: nat, k: nat)
    ensures (p + 1) * k == p * k + k
  {
  }

  lemma {:induction false} BitsZero(f: seq<nat>, len: seq<nat>, xs: seq<nat>, n: nat)
    requires n <= |f| && n <= |len| && n <= |xs| && forall i :: 0 <= i < n ==> f[i] == 0
    ensures TotalBits(f, len, xs, n) == 0
    decreases n
  {
    if n > 0 { BitsZero(f, len, xs, n - 1); }
  }

  /** The lengths of a code, zero where there is none. */
  ghost predicate LensAt(lens: seq<nat>, len: seq<nat>, n: nat)
  {
    n <= |len| && forall i :: 0 <= i < n && i < |lens| ==> len[i] == lens[i]
  }

  lemma {:induction false} SymbolSize(t: Tables, codes: Codes, s: Symbol)
    requires TablesFit(t) && SymbolOk(s) && Encodable(t, codes, s)
    ensures LSym(t, s) < L_CODES && LSym(t, s) < |codes.llens|
    ensures s.Pair? ==> DistCode(t, s.dist - 1) < D_CODES && DistCode(t, s.dist - 1) < |codes.dlens|
    ensures |SymbolBits(t, codes, s)| == codes.llens[LSym(t, s)] + ExtraOf(EXTRA_LBITS, 257, LSym(t, s))
      + if s.Pair? then codes.dlens[DistCode(t, s.dist - 1)] + ExtraOf(EXTRA_DBITS, 0, DistCode(t, s.dist - 1)) else 0
  {
    hide LBASE, DBASE, EXTRA_LBITS, EXTRA_DBITS, Pow2, ToBits, CodeWord, DistCode;
    LSymRange(t, s);
    if s.Pair? {
      LengthFacts(t, s.len - 3);
      DistFacts(t, s.dist - 1);
      ExtraSizes();
    }
  }

  lemma {:induction false} SymbolsBitsLast(t: Tables, codes: Codes, syms: seq<Symbol>)
    requires TablesFit(t) && EncodableAll(t, codes, syms) && syms != []
    ensures var n := |syms| - 1;
      |SymbolsBits(t, codes, syms)| == |SymbolsBits(t, codes, syms[..n])| + |SymbolBits(t, codes, syms[n])|
    decreases |syms|
  {
    hide SymbolBits, Encodable, LengthFits, DistFits;
    var n := |syms| - 1;
    if n > 0 {
      SymbolsBitsLast(t, codes, syms[1..]);
      assert syms[1..][..n - 1] == syms[..n][1..];
    } else {
      assert syms[1..] == [];
    }
  }

  /** The totals are exactly the bits of the block. */
  lemma {:induction false} BlockSize(t: Tables, codes: Codes, syms: seq<Symbol>, llen: seq<nat>, dlen: seq<nat>, xl: seq<nat>, xd: seq<nat>)
    requires TablesFit(t) && SymbolsOk(syms) && EncodableAll(t, codes, syms) && Used(codes.llens, END_BLOCK)
    requires LensAt(codes.llens, llen, L_CODES) && LensAt(codes.dlens, dlen, D_CODES) && |xl| >= L_CODES && |xd| >= D_CODES
    requires forall i :: 0 <= i < L_CODES ==> xl[i] == ExtraOf(EXTRA_LBITS, 257, i)
    requires forall i :: 0 <= i < D_CODES ==> xd[i] == ExtraOf(EXTRA_DBITS, 0, i)
    ensures |SymbolsBits(t, codes, syms)| + codes.llens[END_BLOCK] == TotalBits(LFreqs(t, syms), llen, xl, L_CODES) + TotalBits(DFreqs(t, syms), dlen, xd, D_CODES)
    decreases |syms|
  {
    hide SymbolBits, Encodable, LengthFits, DistFits, LSym, DistCode, TotalBits, Bump, EXTRA_LBITS, EXTRA_DBITS;
    if syms == [] {
      var z := seq(L_CODES, _ => 0);
      BitsZero(z, llen, xl, L_CODES);
      BitsZero(DFreqs(t, syms), dlen, xd, D_CODES);
      BitsBump(z, END_BLOCK, llen, xl, L_CODES);
      BumpAt(z, END_BLOCK);
      assert LFreqs(t, syms) == z[END_BLOCK := 1];
    } else {
      var n := |syms| - 1;
      var front, s := syms[..n], syms[n];
      BlockSize(t, codes, front, llen, dlen, xl, xd);
      SymbolsBitsLast(t, codes, syms);
      assert Encodable(t, codes, s);
      SymbolSize(t, codes, s);
      BitsBump(LFreqs(t, front), LSym(t, s), llen, xl, L_CODES);
      if s.Pair? { BitsBump(DFreqs(t, front), DistCode(t, s.dist - 1), dlen, xd, D_CODES); }
    }
  }

  // ----- the code-length code -----

  ghost function TokenFreqs(ks: seq<Token>): (f: seq<nat>)
    ensures |f| == BL_CODES
  {
    seq(BL_CODES, s requires 0 <= s < BL_CODES => TokenCount(ks, s))
  }

  lemma {:induction false} TokensAreOk(prev: int, lens: seq<nat>)
    requires ValidLens(lens)
    ensures forall i :: 0 <= i < |Tokens(prev, lens)| ==> TokenOk(Tokens(prev, lens)[i])
    decreases |lens|
  {
    hide FrontRun;
    if lens != [] {
      var n := FrontRun(prev, lens);
      TokensAreOk(lens[0], lens[n..]);
      RunAreOk(prev, lens[0], n);
    }
  }

  lemma {:induction false} RunAreOk(prev: int, cur: nat, n: nat)
    requires cur <= 15 && 1 <= n <= MaxCount(prev, cur)
    ensures forall i :: 0 <= i < |RunTokens(prev, cur, n)| ==> TokenOk(RunTokens(prev, cur, n)[i])
  {
  }

  lemma {:induction false} TokenOccurs(ks: seq<Token>, i: nat)
    requires i < |ks|
    ensures TokenCount(ks, ks[i].sym) > 0
    decreases |ks|
  {
    if i > 0 { TokenOccurs(ks[1..], i - 1); }
  }

  /** A code for the frequencies of the codes can send them. */
  lemma {:induction false} AllSendable(ks: seq<Token>, codes: seq<nat>, lens: seq<nat>)
    requires (forall i :: 0 <= i < |ks| ==> TokenOk(ks[i])) && CodeFor(TokenFreqs(ks), codes, lens, 7)
    ensures SendableAll(lens, ks)
  {
    hide Kraft, TokenCount;
    forall i | 0 <= i < |ks|
      ensures Sendable(lens, ks[i])
    {
      TokenOccurs(ks, i);
      assert TokenFreqs(ks)[ks[i].sym] > 0;
    }
  }

  /** The totals are exactly the bits of the codes. */
  lemma {:induction false} TokensSize(code: seq<nat>, ks: seq<Token>, len: seq<nat>, xs: seq<nat>)
    requires SendableAll(code, ks) && LensAt(code, len, BL_CODES) && |xs| >= BL_CODES
    requires forall i :: 0 <= i < BL_CODES ==> xs[i] == ExtraOf(EXTRA_BLBITS, 0, i)
    ensures |TokensBits(code, ks)| == TotalBits(TokenFreqs(ks), len, xs, BL_CODES)
    decreases |ks|
  {
    hide TotalBits, EXTRA_BLBITS;
    if ks == [] {
      BitsZero(TokenFreqs(ks), len, xs, BL_CODES);
    } else {
      TokensSize(code, ks[1..], len, xs);
      assert Sendable(code, ks[0]);
      assert TokenFreqs(ks) == Bump(TokenFreqs(ks[1..]), ks[0].sym);
      BitsBump(TokenFreqs(ks[1..]), ks[0].sym, len, xs, BL_CODES);
      ExtraBl(ks[0].sym);
    }
  }

  lemma {:induction false} ExtraBl(s: nat)
    requires s < BL_CODES
    ensures ExtraOf(EXTRA_BLBITS, 0, s) == if s < 16 then 0 else RepeatBits(s)
  {
  }

  lemma {:induction false} TokensPadded(lens: seq<nat>, code: seq<nat>, ks: seq<Token>)
    requires Padded(lens, code) && SendableAll(lens, ks)
    ensures SendableAll(code, ks) && TokensBits(code, ks) == TokensBits(lens, ks)
    decreases |ks|
  {
    hide Padded, CodeWord, Kraft, ToBits, CodeOf;
    forall i | 0 <= i < |ks|
      ensures Sendable(code, ks[i])
    {
      assert Sendable(lens, ks[i]);
      PaddedWords(lens, code, ks[i].sym);
    }
    if ks != [] {
      assert Sendable(lens, ks[0]);
      PaddedWords(lens, code, ks[0].sym);
      TokensPadded(lens, code, ks[1..]);
    }
  }

  lemma {:induction false} FreqsConcat(a: seq<Token>, b: seq<Token>, f: seq<nat>)
    requires |f| == BL_CODES && forall s :: 0 <= s < BL_CODES ==> f[s] == TokenCount(a, s) + TokenCount(b, s)
    ensures f == TokenFreqs(a + b)
  {
    hide TokenCount;
    forall s | 0 <= s < BL_CODES
      ensures f[s] == TokenFreqs(a + b)[s]
    {
      TokenCountConcat(a, b, s);
    }
  }

  lemma {:induction false} TokensTotal(prev: int, lens: seq<nat>)
    requires ValidLens(lens)
    ensures |Tokens(prev, lens)| <= |lens|
    decreases |lens|
  {
    hide FrontRun;
    if lens != [] {
      var n := FrontRun(prev, lens);
      TokensTotal(lens[0], lens[n..]);
      assert |RunTokens(prev, lens[0], n)| <= n;
    }
  }

  lemma {:induction false} TokenFreqsTotal(ks: seq<Token>)
    ensures Total(TokenFreqs(ks), BL_CODES) <= |ks|
    decreases |ks|
  {
    if ks == [] {
      TotalZero(TokenFreqs(ks), BL_CODES);
    } else {
      TokenFreqsTotal(ks[1..]);
      if ks[0].sym < BL_CODES {
        assert TokenFreqs(ks) == Bump(TokenFreqs(ks[1..]), ks[0].sym);
        TotalBump(TokenFreqs(ks[1..]), ks[0].sym, BL_CODES);
      } else {
        assert TokenFreqs(ks) == TokenFreqs(ks[1..]);
      }
    }
  }
}
