/** build_bl_tree and send_all_trees of trees.c: the code-length code and the header of a
    dynamic block. */
module DynamicTrees {
  import opened Bits
  import opened Canonical
  import opened InflateTable
  import opened Lz77
  import opened InflateSpec
  import opened StaticTables
  import opened TreeCodes
  import opened Compress
  import opened BuildTree
  import opened CheapestCode
  import opened BitLengths
  import opened TreeTransport
  import opened BlockCodec
  import opened BlockStats
  import I = Inflate
  import B = BitWriter

  /** Some length is not zero, so some code is a plain length. */
  lemma {:induction false} PlainToken(prev: int, lens: seq<nat>, i: nat) returns (k: nat)
    requires prev <= 0 && i < |lens| && lens[i] != 0 && ValidLens(lens)
    ensures k < |Tokens(prev, lens)| && 1 <= Tokens(prev, lens)[k].sym <= 15
    decreases |lens|
  {
    hide FrontRun;
    var n := FrontRun(prev, lens);
    FrontEqual(prev, lens);
    if lens[0] != 0 {
      k := 0;
    } else {
      var j := PlainToken(0, lens[n..], i - n);
      k := |RunTokens(prev, lens[0], n)| + j;
    }
  }

  lemma {:induction false} FrontEqual(prev: int, lens: seq<nat>)
    requires lens != []
    ensures forall i :: 0 <= i < FrontRun(prev, lens) ==> lens[i] == lens[0]
  {
  }

  /** The code-length code has a code for some length 1..15, which is sent after rank 3. */
  lemma {:induction false} RankFound(ks: seq<Token>, k: nat, codes: seq<nat>, lens: seq<nat>, code: seq<nat>)
    requires k < |ks| && 1 <= ks[k].sym <= 15 && CodeFor(TokenFreqs(ks), codes, lens, 7) && |code| == 19 && Padded(lens, code)
    ensures |I.RANK| == 19 && 3 <= I.RANK[ks[k].sym] < 19 && code[ORDER[I.RANK[ks[k].sym]]] != 0
  {
    hide ORDER, Kraft, TokenCount;
    I.OrderIsPermutation();
    RankLate(ks[k].sym);
    TokenOccurs(ks, k);
    assert TokenFreqs(ks)[ks[k].sym] > 0;
    assert lens[ks[k].sym] == code[..|lens|][ks[k].sym];
  }

  lemma {:induction false} RankLate(v: nat)
    requires v <= 15
    ensures |I.RANK| == 19 && 3 <= I.RANK[v] < 19
  {
  }

  /** The number of code lengths to send. */
  method LastRank(code: seq<nat>, ghost r: nat) returns (n: nat)
    requires |code| == 19 && 3 <= r < 19 && code[ORDER[r]] != 0
    ensures 4 <= n <= 19 && forall k :: n <= k < 19 ==> code[ORDER[k]] == 0
  {
    hide ORDER;
    I.OrderIsPermutation();
    var m := 18;
    while m >= 3 && code[ORDER[m]] == 0
      invariant r <= m <= 18 && forall k :: m < k < 19 ==> code[ORDER[k]] == 0
    {
      m := m - 1;
    }
    n := m + 1;
  }

  /** The code-length code of a block with these codes, and how it will be sent. */
  ghost predicate BlReady(codes: seq<nat>, lens: seq<nat>, code: seq<nat>, n: nat, llens: seq<nat>, dlens: seq<nat>)
  {
    && HasCodes(codes, lens) && |code| == 19 && Padded(lens, code) && CodeSent(code, n)
    && LensSent(lens, llens) && LensSent(lens, dlens) && LensSent(code, llens) && LensSent(code, dlens)
  }

  lemma {:induction false} BlCode(ks: seq<Token>, codes: seq<nat>, lens: seq<nat>, code: seq<nat>, n: nat, llens: seq<nat>, dlens: seq<nat>)
    requires ValidLens(llens) && ValidLens(dlens) && ks == Tokens(-1, llens) + Tokens(-1, dlens)
    requires CodeFor(TokenFreqs(ks), codes, lens, 7) && |code| == 19 && Padded(lens, code)
    requires 4 <= n <= 19 && forall k :: n <= k < 19 ==> code[ORDER[k]] == 0
    ensures BlReady(codes, lens, code, n, llens, dlens)
    ensures TokensBits(code, Tokens(-1, llens)) == TokensBits(lens, Tokens(-1, llens)) && TokensBits(code, Tokens(-1, dlens)) == TokensBits(lens, Tokens(-1, dlens))
    ensures SendableAll(lens, ks) && TokensBits(lens, ks) == TokensBits(lens, Tokens(-1, llens)) + TokensBits(lens, Tokens(-1, dlens))
  {
    hide ORDER, Kraft, Tokens, TokensBits, SendableAll, TokenFreqs, HasCodes;
    var a, b := Tokens(-1, llens), Tokens(-1, dlens);
    TokensAreOk(-1, llens);
    TokensAreOk(-1, dlens);
    AllSendable(ks, codes, lens);
    TokensBitsConcat(lens, a, b);
    TokensPadded(lens, code, a);
    TokensPadded(lens, code, b);
    PaddedWords(lens, code, 0);
    PaddedSmall(lens, code);
    I.OrderIsPermutation();
    forall k | n <= k < 19
      ensures Wide(code)[ORDER[k]] == 0
    {
      WideAt(code, ORDER[k]);
    }
  }

  lemma {:induction false} PaddedSmall(lens: seq<nat>, code: seq<nat>)
    requires Padded(lens, code) && forall i :: 0 <= i < |lens| ==> lens[i] <= 7
    ensures forall i :: 0 <= i < |code| ==> code[i] <= 7
  {
    forall i | 0 <= i < |code|
      ensures code[i] <= 7
    {
      if i < |lens| { assert lens[i] == code[..|lens|][i]; }
    }
  }

  /** build_bl_tree: the code for the code lengths, and the size of the header it makes. */
  method BuildBlTree(heap: array<nat>, depth: array<nat>, fc: array<nat>, dl: array<nat>, llens: seq<nat>, dlens: seq<nat>, opt0: int)
      returns (maxCode: nat, n: nat, opt: int)
    requires heap != depth && heap != fc && heap != dl && depth != fc && depth != dl && fc != dl
    requires 38 < heap.Length && 39 == fc.Length == dl.Length <= depth.Length && forall i :: 0 <= i < 19 ==> fc[i] == 0
    requires CountsOk(|llens|, |dlens|) && ValidLens(llens) && ValidLens(dlens) && llens[256] != 0
    modifies heap, depth, fc, dl
    ensures maxCode < 19 && BlReady(fc[..maxCode + 1], dl[..maxCode + 1], dl[..19], n, llens, dlens)
    ensures BestCode(TokenFreqs(Tokens(-1, llens) + Tokens(-1, dlens)), dl[..19], 7)
    ensures opt == opt0 + |HeaderBits(dl[..19], n, llens, dlens)|
  {
    hide ORDER, Kraft, Tokens, TokensBits, SendableAll, TokenFreqs, HasCodes, TokenCount, TotalBits, Extras, Total, CodeFor, BestCode, Statics, BlReady,
      HeaderBits, CodeSent, EXTRA_BLBITS;
    ghost var a, b := Tokens(-1, llens), Tokens(-1, dlens);
    ghost var ks := a + b;
    ScanTree(fc, llens);
    ScanTree(fc, dlens);
    FreqsConcat(a, b, fc[..19]);
    assert Total(fc[..], 19) < 65534 by {
      TokensTotal(-1, llens);
      TokensTotal(-1, dlens);
      TokenFreqsTotal(ks);
      TotalFrame(fc[..], fc[..19], 19);
    }
    assert 19 <= Pow2(7) by { SmallPowers(); }
    BlExtras();
    ghost var f: seq<nat> := fc[..];
    var stat;
    maxCode, opt, stat := Build(heap, depth, fc, dl, 19, EXTRA_BLBITS, 0, [], 7, opt0, 0);
    assert f[..19] == TokenFreqs(ks);
    var code := dl[..19];
    assert Padded(dl[..maxCode + 1], code);
    ghost var k := PlainToken(-1, llens, 256);
    assert ks[k] == a[k];
    RankFound(ks, k, fc[..maxCode + 1], dl[..maxCode + 1], code);
    n := LastRank(code, I.RANK[ks[k].sym]);
    opt := opt + 3 * n + 14;
    BlCode(ks, fc[..maxCode + 1], dl[..maxCode + 1], code, n, llens, dlens);
    HeaderSize(f, dl[..], fc[..maxCode + 1], dl[..maxCode + 1], code, n, llens, dlens);
  }

  lemma {:induction false} BitsFrame(f: seq<nat>, g: seq<nat>, len: seq<nat>, xs: seq<nat>, n: nat)
    requires n <= |f| && n <= |g| && n <= |len| && n <= |xs| && forall i :: 0 <= i < n ==> f[i] == g[i]
    ensures TotalBits(f, len, xs, n) == TotalBits(g, len, xs, n)
    decreases n
  {
    if n > 0 { BitsFrame(f, g, len, xs, n - 1); }
  }

  lemma {:induction false} BlExtras()
    ensures |EXTRA_BLBITS| == 19 && forall i :: 0 <= i <= 2 ==> ExtraOf(EXTRA_BLBITS, 0, i) == 0
  {
  }

  lemma {:induction false} OrderSize(code: seq<nat>, i: nat, n: nat)
    requires |code| == 19 && i <= n <= 19
    ensures |OrderBits(code, i, n)| == 3 * (n - i)
    decreases n - i
  {
    hide ORDER, ToBits, Wide;
    if i < n { OrderSize(code, i + 1, n); }
  }

  /** The size of the header. */
  lemma {:induction false} HeaderSize(f: seq<nat>, dl: seq<nat>, codes: seq<nat>, lens: seq<nat>, code: seq<nat>, n: nat, llens: seq<nat>, dlens: seq<nat>)
    requires BlReady(codes, lens, code, n, llens, dlens) && CountsOk(|llens|, |dlens|) && |f| == |dl| == 39 && code == dl[..19]
    requires f[..19] == TokenFreqs(Tokens(-1, llens) + Tokens(-1, dlens))
    ensures |HeaderBits(code, n, llens, dlens)| == TotalBits(f, dl, Extras(EXTRA_BLBITS, 0, 39), 19) + 3 * n + 14
  {
    hide ORDER, Kraft, Tokens, TokensBits, TokenFreqs, HasCodes, TotalBits, EXTRA_BLBITS, ToBits, OrderBits, Wide;
    var a, b := Tokens(-1, llens), Tokens(-1, dlens);
    SendableConcat(code, a, b);
    TokensBitsConcat(code, a, b);
    OrderSize(code, 0, n);
    assert LensAt(code, dl, BL_CODES);
    TokensSize(code, a + b, dl, Extras(EXTRA_BLBITS, 0, 39));
    BitsFrame(f, TokenFreqs(a + b), dl, Extras(EXTRA_BLBITS, 0, 39), 19);
  }

  lemma {:induction false} SendableConcat(code: seq<nat>, a: seq<Token>, b: seq<Token>)
    requires SendableAll(code, a) && SendableAll(code, b)
    ensures SendableAll(code, a + b)
  {
  }

  // ----- sending -----

  method SendOrder(w: B.BitWriter, code: seq<nat>, n: nat)
    requires w.Valid() && |code| == 19 && n <= 19 && (forall i :: 0 <= i < 19 ==> code[i] <= 7) && w.Fits(3 * n)
    modifies w`store, w`pending, w`buf, w`valid
    ensures w.Valid() && w.Bits() == old(w.Bits()) + OrderBits(code, 0, n)
  {
    hide ORDER, OrderBits, ToBits, ByteBits, Wide, Pow2, B.BitWriter.Bits, B.BitWriter.Valid;
    I.OrderIsPermutation();
    SmallPowers();
    ghost var before := w.Bits();
    for rank := 0 to n
      invariant w.Valid() && w.Bits() + OrderBits(code, rank, n) == before + OrderBits(code, 0, n) && |w.Bits()| == |before| + 3 * rank
    {
      ghost var sent := w.Bits();
      OrderBitsFirst(code, rank, n);
      w.SendBits(code[ORDER[rank]], 3);
      assert w.Bits() + OrderBits(code, rank + 1, n) == sent + (ToBits(code[ORDER[rank]], 3) + OrderBits(code, rank + 1, n));
    }
    assert OrderBits(code, n, n) == [] by { OrderBitsNone(code, n); }
  }

  lemma {:induction false} OrderBitsFirst(code: seq<nat>, i: nat, n: nat)
    requires |code| == 19 && i < n <= 19
    ensures |ORDER| == 19 && ORDER[i] < 19 && OrderBits(code, i, n) == ToBits(code[ORDER[i]], 3) + OrderBits(code, i + 1, n)
  {
    hide ORDER, ToBits, Wide;
    I.OrderIsPermutation();
    WideAt(code, ORDER[i]);
  }

  lemma {:induction false} OrderBitsNone(code: seq<nat>, n: nat)
    requires |code| == 19 && n <= 19
    ensures OrderBits(code, n, n) == []
  {
  }

  /** send_all_trees. */
  method SendAllTrees(w: B.BitWriter, bl: CodeTree, code: seq<nat>, n: nat, llens: seq<nat>, dlens: seq<nat>)
    requires w.Valid() && CountsOk(|llens|, |dlens|) && BlReady(bl.codes, bl.lens, code, n, llens, dlens) && w.Fits(|HeaderBits(code, n, llens, dlens)|)
    modifies w`store, w`pending, w`buf, w`valid
    ensures w.Valid() && w.Bits() == old(w.Bits()) + HeaderBits(code, n, llens, dlens)
  {
    hide ORDER, OrderBits, ToBits, ByteBits, Wide, Tokens, TokensBits, SendableAll, Padded, Kraft, Pow2, HasCodes, B.BitWriter.Bits, B.BitWriter.Valid;
    SmallPowers();
    OrderSize(code, 0, n);
    TokensPadded(bl.lens, code, Tokens(-1, llens));
    TokensPadded(bl.lens, code, Tokens(-1, dlens));
    ghost var before := w.Bits();
    w.SendBits(|llens| - 257, 5);
    w.SendBits(|dlens| - 1, 5);
    w.SendBits(n - 4, 4);
    assert w.Bits() == before + CountBits(llens, dlens, n);
    SendOrder(w, code, n);
    SendTree(w, bl, llens);
    SendTree(w, bl, dlens);
    assert w.Bits() == before + HeaderBits(code, n, llens, dlens);
  }
}
