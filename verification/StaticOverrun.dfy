/** With Z_FIXED a block can be larger than its text: exactly when, and for which texts. */
module StaticOverrun {
  import opened Bits
  import opened Canonical
  import opened Lz77
  import opened InflateSpec
  import opened StaticTables
  import opened Block
  import opened BlockCodec
  import opened TreeTransport
  import opened SetSum
  import opened HuffmanOpt
  import opened HuffmanTree
  import opened LengthRepair
  import opened CheapestCode
  import opened BuildTree
  import opened BitLengths
  import opened BlockStats
  import opened TreeCoder
  import opened BestBlock
  import opened BlockBound
  import G = GreedyBound
  import L = Lossless

  /** The size of the block in the static and in the dynamic encoding. */
  ghost function Static(t: Tables, last: bool, syms: seq<Symbol>, at: nat): (n: nat)
    requires EncodingOk(AsFixed, t, syms, at)
  {
    |EncodingBits(AsFixed, t, last, syms, at)|
  }

  ghost function Dynamic(t: Tables, last: bool, syms: seq<Symbol>, at: nat, p: Plan): (n: nat)
    requires EncodingOk(AsDynamic(p), t, syms, at)
  {
    |EncodingBits(AsDynamic(p), t, last, syms, at)|
  }

  /** With fixed trees, the text at hand is no help when the dynamic block, which is not written,
      is the smallest: five bytes more than the text are then too few just when they are for the
      static block. */
  lemma {:induction false} FixedSize(e: Encoding, t: Tables, last: bool, syms: seq<Symbol>, at: nat, buf: seq<byte>, p: Plan, sent: nat)
    requires EncodingOk(AsFixed, t, syms, at) && EncodingOk(AsDynamic(p), t, syms, at) && EncodingOk(e, t, syms, at)
    requires Chosen(e, t, last, syms, at, Some(buf), true, p) && (e.AsStored? ==> buf == e.buf) && sent % 8 == at % 8
    ensures Up(sent + |EncodingBits(e, t, last, syms, at)|) <= Up(sent) + |buf| + 5 <==>
            |buf| + 4 <= BytesOf(Dynamic(t, last, syms, at, p)) || Up(sent + Static(t, last, syms, at)) <= Up(sent) + |buf| + 5
  {
    hide FixedBits, DynamicBits, StoredBits, DynamicReady, EncodableAll, FixedCodes, TablesFit;
    if e.AsStored? { StoredSize(last, e.pad, e.buf); }
  }

  // ----- texts for which they are -----

  /** Literals of a few values only, all of which take nine bits in a static block. */
  ghost predicate Narrow(syms: seq<Symbol>, V: set<nat>)
  {
    && |V| <= 31 && (|V| <= 15 || |syms| < 2583) && (forall v :: v in V ==> 144 <= v < 256)
    && forall i :: 0 <= i < |syms| ==> syms[i].Literal? && syms[i].b in V
  }

  lemma {:induction false} NarrowFreqs(t: Tables, syms: seq<Symbol>, V: set<nat>)
    requires TablesFit(t) && SymbolsOk(syms) && forall i :: 0 <= i < |syms| ==> syms[i].Literal? && syms[i].b in V
    ensures forall i :: 0 <= i < L_CODES && LFreqs(t, syms)[i] != 0 ==> i in V + {END_BLOCK}
    ensures forall i :: 0 <= i < D_CODES ==> DFreqs(t, syms)[i] == 0
    decreases |syms|
  {
    hide TablesFit;
    if syms != [] {
      var n := |syms| - 1;
      NarrowFreqs(t, syms[..n], V);
      assert syms[n].b in V;
    }
  }

  /** Five bits are enough for a word each. */
  lemma {:induction false} FiveBits(f: seq<nat>, V: set<nat>)
    requires |V| <= 31 && forall i :: 0 <= i < |f| && f[i] != 0 ==> i in V + {END_BLOCK}
    ensures IsCode(f, seq(|f|, _ => 5), 5) && |Occurring(f)| <= |V| + 1
  {
    hide Sum;
    var S, l := Occurring(f), seq(|f|, _ => 5);
    CardUnder(S, V + {END_BLOCK});
    SumCard(S, |f|);
    SmallPowers();
    assert Units(l, 5) == Ones(|f|);
  }

  lemma {:induction false} FlatBits(f: seq<nat>, l: seq<nat>, xs: seq<nat>, k: nat, n: nat)
    requires n <= |f| && n <= |l| && n <= |xs| && forall i :: 0 <= i < n && f[i] != 0 ==> l[i] + xs[i] == k
    ensures TotalBits(f, l, xs, n) == k * Total(f, n)
    decreases n
  {
    if n > 0 {
      FlatBits(f, l, xs, k, n - 1);
      Spread(k, Total(f, n - 1), f[n - 1]);
    }
  }

  lemma {:induction false} Spread(k: nat, a: nat, b: nat)
    ensures k * (a + b) == k * a + b * k
  {
  }

  /** So the symbols of a dynamic block take at most five bits each. */
  lemma {:induction false} NarrowBody(p: Plan, t: Tables, syms: seq<Symbol>, V: set<nat>)
    requires TablesFit(t) && SymbolsOk(syms) && Ready(p, t, syms) && Tuned(p, t, syms) && Narrow(syms, V)
    ensures |BlockBits(t, p.codes, syms)| <= 5 * (|syms| + 1)
  {
    hide LFreqs, DFreqs, TotalBits, EncodableAll, LengthFits, DistFits, EXTRA_LBITS, EXTRA_DBITS, BlockBits, Kraft, SomeFits, Cheapest, IsCode, Full, Total, Occurring, Fib;
    var f, g := LFreqs(t, syms), DFreqs(t, syms);
    var xl, xd := Extras(EXTRA_LBITS, 257, L_CODES), Extras(EXTRA_DBITS, 0, D_CODES);
    NarrowFreqs(t, syms, V);
    FiveBits(f, V);
    LTotal(t, syms);
    Fib18();
    CheaperBits(f, Full(p.codes.llens, L_CODES), seq(L_CODES, _ => 5), xl, 5);
    FlatBits(f, seq(L_CODES, _ => 5), xl, 5, L_CODES);
    BitsZero(g, Full(p.codes.dlens, D_CODES), xd, D_CODES);
    BodySize(t, p.codes, syms);
  }

  /** The static block takes nine bits for each. */
  lemma {:induction false} NarrowStatic(t: Tables, codes: Codes, syms: seq<Symbol>, V: set<nat>)
    requires TablesFit(t) && EncodableAll(t, codes, syms) && codes.llens == FixedCodes().llens && forall v :: v in V ==> 144 <= v < 256
    requires forall i :: 0 <= i < |syms| ==> syms[i].Literal? && syms[i].b in V
    ensures |SymbolsBits(t, codes, syms)| == 9 * |syms|
    decreases |syms|
  {
    hide TablesFit, CodeOf, Rev, ToBits, LengthExtra, DistExtra;
    if syms != [] {
      assert syms[0].b in V;
      NarrowStatic(t, codes, syms[1..], V);
    }
  }

  /** From 756 such literals on, the static block is written although it is an eighth larger than the text. */
  lemma {:induction false} FixedOverruns(e: Encoding, t: Tables, last: bool, syms: seq<Symbol>, V: set<nat>, at: nat, buf: seq<byte>, p: Plan, sent: nat)
    requires TablesFit(t) && SymbolsOk(syms) && EncodingOk(AsFixed, t, syms, at) && EncodingOk(AsDynamic(p), t, syms, at) && EncodingOk(e, t, syms, at)
    requires Chosen(e, t, last, syms, at, Some(buf), true, p) && (e.AsStored? ==> buf == e.buf) && sent % 8 == at % 8
    requires Tuned(p, t, syms) && Narrow(syms, V) && |buf| == |syms| >= 756
    ensures e.AsFixed? && |EncodingBits(e, t, last, syms, at)| == 9 * |buf| + 10
    ensures Up(sent + |EncodingBits(e, t, last, syms, at)|) > Up(sent) + |buf| + 5
  {
    hide TablesFit, SymbolsOk, Tuned, Narrow, EncodableAll, FixedCodes, HeaderBits, BlockBits, CodeSent, LensSent, ToBits;
    NarrowBody(p, t, syms, V);
    G.HeaderLimit(p.code, p.n, p.codes.llens, p.codes.dlens);
    NarrowFixed(t, last, syms, V);
  }

  lemma {:induction false} NarrowFixed(t: Tables, last: bool, syms: seq<Symbol>, V: set<nat>)
    requires TablesFit(t) && EncodableAll(t, FixedCodes(), syms) && Used(FixedCodes().llens, END_BLOCK) && Narrow(syms, V)
    ensures |FixedBits(t, last, syms)| == 9 * |syms| + 10
  {
    hide TablesFit, EncodableAll, SymbolsBits, CodeOf, Rev, ToBits;
    NarrowStatic(t, FixedCodes(), syms, V);
  }

  // ----- whole texts -----

  function Three(text: seq<byte>, i: nat): (s: seq<byte>)
    requires i + 3 <= |text|
  {
    text[i..i + 3]
  }

  /** No three bytes occur twice. */
  ghost predicate Repeatless(text: seq<byte>)
  {
    forall i, j :: 0 <= i < j && j + 3 <= |text| ==> Three(text, i) != Three(text, j)
  }

  /** The bytes are in V. */
  ghost predicate Over(text: seq<byte>, V: set<nat>)
  {
    && |V| <= 31 && (|V| <= 15 || |text| < 2583) && (forall v :: v in V ==> 144 <= v < 256) && forall i :: 0 <= i < |text| ==> text[i] in V
  }

  /** A text without matches, of a few values only, but not too short. */
  ghost predicate Bulky(text: seq<byte>)
  {
    |text| >= 756 && Repeatless(text) && exists V: set<nat> :: Over(text, V)
  }

  /** Symbols that stand for such a text are literals. */
  lemma {:induction false} AllLiterals(text: seq<byte>, syms: seq<Symbol>, p: nat)
    requires Repeatless(text) && L.Lossless(text, syms, p)
    ensures |syms| == p && forall i :: 0 <= i < p ==> syms[i] == Literal(text[i])
    decreases |syms|
  {
    hide CopyBack, Repeatless;
    if syms != [] {
      var n := |syms| - 1;
      var init, s := syms[..n], syms[n];
      assert syms == init + [s];
      ExpandConcat([], init, [s]);
      ValidConcat([], init, [s]);
      var out := Expand([], init);
      L.OneSymbol(out, s);
      assert out <= Expand([], syms);
      AllLiterals(text, init, |out|);
      if s.Pair? { PairRepeats(text, out, s.dist, s.len); }
    }
  }

  lemma {:induction false} PairRepeats(text: seq<byte>, out: seq<byte>, dist: nat, len: nat)
    requires 1 <= dist <= |out| && len >= 3 && CopyBack(out, dist, len) <= text
    ensures !Repeatless(text)
  {
    var q, all := |out|, CopyBack(out, dist, len);
    CopyBackAt(out, dist, len, q);
    CopyBackAt(out, dist, len, q + 1);
    CopyBackAt(out, dist, len, q + 2);
    assert Three(text, q - dist) == Three(text, q);
  }

  /** The block that such a text makes. */
  lemma {:induction false} BulkyBlock(e: Encoding, t: Tables, last: bool, syms: seq<Symbol>, at: nat, buf: seq<byte>, p: Plan, text: seq<byte>)
    requires TablesFit(t) && SymbolsOk(syms) && EncodingOk(AsFixed, t, syms, at) && EncodingOk(AsDynamic(p), t, syms, at) && EncodingOk(e, t, syms, at)
    requires Chosen(e, t, last, syms, at, Some(buf), true, p) && (e.AsStored? ==> buf == e.buf) && Tuned(p, t, syms)
    requires Bulky(text) && L.Lossless(text, syms, |text|) && |buf| == |text|
    ensures |EncodingBits(e, t, last, syms, at)| == 9 * |text| + 10
  {
    hide TablesFit, SymbolsOk, EncodingOk, EncodingBits, Chosen, Tuned, Repeatless, L.Lossless;
    var V: set<nat> :| Over(text, V);
    AllLiterals(text, syms, |text|);
    FixedOverruns(e, t, last, syms, V, at, buf, p, at);
  }

  // ----- such a text -----

  function SampleAt(k: nat): (b: byte)
    requires k < 1500
  {
    if k % 3 == 0 then 144 + k / 300 else if k % 3 == 1 then 154 + k / 30 % 10 else 164 + k / 3 % 10
  }

  /** The numbers from 0 to 499, each digit in an alphabet of its own. */
  function Sample(): (text: seq<byte>)
    ensures |text| == 1500
  {
    seq(1500, k requires 0 <= k < 1500 => SampleAt(k))
  }

  lemma {:induction false} SampleRepeatless()
    ensures Repeatless(Sample())
  {
    hide SampleAt;
    var text := Sample();
    forall i, j | 0 <= i < j && j + 3 <= |text|
      ensures Three(text, i) != Three(text, j)
    {
      SampleDiffers(i, j);
      assert Three(text, i)[0] == SampleAt(i) && Three(text, i)[1] == SampleAt(i + 1) && Three(text, i)[2] == SampleAt(i + 2);
      assert Three(text, j)[0] == SampleAt(j) && Three(text, j)[1] == SampleAt(j + 1) && Three(text, j)[2] == SampleAt(j + 2);
    }
  }

  lemma {:induction false} SampleDiffers(i: nat, j: nat)
    requires i < j && j + 3 <= 1500
    ensures SampleAt(i) != SampleAt(j) || SampleAt(i + 1) != SampleAt(j + 1) || SampleAt(i + 2) != SampleAt(j + 2)
  {
    hide SampleAt;
    SampleIn(i);
    SampleIn(j);
    if i % 3 == j % 3 {
      assert i == 3 * (i / 3) + i % 3 && j == 3 * (j / 3) + i % 3;
      NumbersDiffer(i / 3, j / 3, i % 3);
    }
  }

  lemma {:induction false} NumbersDiffer(m: nat, n: nat, r: nat)
    requires m < n < 500 && r < 3 && 3 * n + r + 3 <= 1500
    ensures SampleAt(3 * m + r) != SampleAt(3 * n + r) || SampleAt(3 * m + r + 1) != SampleAt(3 * n + r + 1) || SampleAt(3 * m + r + 2) != SampleAt(3 * n + r + 2)
  {
    hide SampleAt;
    Digits(m);
    Digits(n);
    if r == 0 {
      SameNumber(m, n);
    } else {
      Digits(m + 1);
      Digits(n + 1);
      assert 3 * m + r + 2 == 3 * (m + 1) + (r - 1) && 3 * n + r + 2 == 3 * (n + 1) + (r - 1);
      if r == 1 { SameLow(m, n); } else { SameHigh(m, n); }
    }
  }

  lemma {:induction false} SameNumber(m: nat, n: nat)
    ensures m / 100 == n / 100 && m / 10 % 10 == n / 10 % 10 && m % 10 == n % 10 ==> m == n
  {
  }

  lemma {:induction false} SameLow(m: nat, n: nat)
    ensures m / 10 % 10 == n / 10 % 10 && m % 10 == n % 10 && (m + 1) / 100 == (n + 1) / 100 ==> m == n
  {
  }

  lemma {:induction false} SameHigh(m: nat, n: nat)
    ensures m % 10 == n % 10 && (m + 1) / 100 == (n + 1) / 100 && (m + 1) / 10 % 10 == (n + 1) / 10 % 10 ==> m == n
  {
    NextDigit(m);
    NextDigit(n);
    SameNumber(m + 1, n + 1);
  }

  lemma {:induction false} NextDigit(m: nat)
    ensures (m + 1) % 10 == if m % 10 == 9 then 0 else m % 10 + 1
  {
  }

  /** The bytes of a number. */
  lemma {:induction false} Digits(m: nat)
    requires m < 500
    ensures SampleAt(3 * m) == 144 + m / 100 && SampleAt(3 * m + 1) == 154 + m / 10 % 10 && SampleAt(3 * m + 2) == 164 + m % 10
  {
  }

  lemma {:induction false} SampleBulky()
    ensures Bulky(Sample())
  {
    hide SampleAt;
    SampleRepeatless();
    var V := Range(144, 174);
    RangeCard(144, 174);
    forall k | 0 <= k < 1500
      ensures Sample()[k] in V
    {
      SampleIn(k);
      RangeHas(144, 174, SampleAt(k));
    }
    forall v | v in V
      ensures 144 <= v < 256
    {
      RangeHas(144, 174, v);
    }
    assert Over(Sample(), V);
  }

  lemma {:induction false} SampleIn(k: nat)
    requires k < 1500
    ensures if k % 3 == 0 then 144 <= SampleAt(k) < 149 else if k % 3 == 1 then 154 <= SampleAt(k) < 164 else 164 <= SampleAt(k) < 174
  {
  }

  ghost function Range(a: nat, b: nat): (s: set<nat>)
    decreases b
  {
    if b <= a then {} else Range(a, b - 1) + {b - 1}
  }

  lemma {:induction false} RangeHas(a: nat, b: nat, v: nat)
    ensures v in Range(a, b) <==> a <= v < b
    decreases b
  {
    if a < b { RangeHas(a, b - 1, v); }
  }

  lemma {:induction false} RangeCard(a: nat, b: nat)
    requires a <= b
    ensures |Range(a, b)| == b - a
    decreases b
  {
    if a < b {
      RangeCard(a, b - 1);
      RangeHas(a, b - 1, b - 1);
    }
  }
}
