/** The three kinds of block as bits, and that inflate decodes each. */
module BlockCodec {
  import opened Bits
  import opened Canonical
  import opened InflateTable
  import opened Lz77
  import opened InflateSpec
  import opened Distances
  import opened StaticTables
  import opened Block
  import opened TreeTransport
  import opened Enough
  import I = Inflate
  import B = BitWriter

  // ----- lengths with zeros after them -----

  /** lens without its trailing part of zeros. */
  ghost predicate Padded(lens: seq<nat>, longer: seq<nat>)
  {
    |lens| <= |longer| && lens == longer[..|lens|] && forall i :: |lens| <= i < |longer| ==> longer[i] == 0
  }

  lemma {:induction false} PaddedCountTo(lens: seq<nat>, longer: seq<nat>, l: nat, n: nat)
    requires Padded(lens, longer) && l >= 1 && n <= |longer|
    ensures CountTo(longer, l, n) == CountTo(lens, l, if n <= |lens| then n else |lens|)
  {
    if n > 0 {
      PaddedCountTo(lens, longer, l, n - 1);
      if n <= |lens| { assert lens[n - 1] == longer[..|lens|][n - 1]; }
    }
  }

  lemma {:induction false} PaddedFirst(lens: seq<nat>, longer: seq<nat>, l: nat)
    requires Padded(lens, longer) && l >= 1
    ensures FirstCode(longer, l) == FirstCode(lens, l)
    decreases l
  {
    hide CountTo;
    if l > 1 {
      PaddedFirst(lens, longer, l - 1);
      PaddedCountTo(lens, longer, l - 1, |longer|);
    }
  }

  lemma {:induction false} PaddedBelow(lens: seq<nat>, longer: seq<nat>, l: nat)
    requires Padded(lens, longer) && 1 <= l <= MAXBITS + 1
    ensures Below(longer, l) == Below(lens, l)
    decreases l
  {
    hide CountTo, Shl;
    if l > 1 {
      PaddedBelow(lens, longer, l - 1);
      PaddedCountTo(lens, longer, l - 1, |longer|);
    }
  }

  /** Zeros at the end change neither the code words nor the Kraft sum. */
  lemma {:induction false} PaddedWords(lens: seq<nat>, longer: seq<nat>, s: nat)
    requires Padded(lens, longer)
    ensures Kraft(longer) == Kraft(lens)
    ensures Used(longer, s) <==> Used(lens, s)
    ensures Used(lens, s) ==> CodeOf(longer, s) == CodeOf(lens, s) && CodeWord(longer, s) == CodeWord(lens, s)
  {
    hide CountTo, FirstCode, Below, Rev, ToBits;
    PaddedBelow(lens, longer, MAXBITS + 1);
    if s < |lens| {
      assert lens[s] == longer[..|lens|][s];
      if Used(lens, s) {
        PaddedFirst(lens, longer, lens[s]);
        PaddedCountTo(lens, longer, lens[s], s);
      }
    }
  }

  // ----- the code-length code -----

  ghost function Wide(code: seq<nat>): (r: seq<nat>)
    requires |code| == 19
    ensures |r| == 320 && r[..19] == code
  {
    code + seq(301, _ => 0)
  }

  /** The lengths of the code-length code from rank i to rank n, three bits each. */
  ghost function OrderBits(code: seq<nat>, i: nat, n: nat): (b: BitString)
    requires |code| == 19 && i <= n <= 19
    decreases n - i
  {
    if i == n then [] else ToBits(Wide(code)[ORDER[i]], 3) + OrderBits(code, i + 1, n)
  }

  lemma {:induction false} LenLensSteps(last: bool, nlen: nat, ndist: nat, code: seq<nat>, i: nat, n: nat, rest: BitString, out: seq<byte>)
    requires |code| == 19 && i <= n <= 19 && CountsOk(nlen, ndist) && (forall k :: 0 <= k < 19 ==> code[k] <= 7)
    ensures Reaches(Conf(LenLens(last, n, nlen, ndist, I.Received(Wide(code), i)), OrderBits(code, i, n) + rest, out),
                    Conf(LenLens(last, n, nlen, ndist, I.Received(Wide(code), n)), rest, out))
    decreases n - i
  {
    hide Step, Reaches, ORDER, I.Received, ToBits, Lsb, Wide;
    var x := Conf(LenLens(last, n, nlen, ndist, I.Received(Wide(code), i)), OrderBits(code, i, n) + rest, out);
    ReceivedSmall(code, i);
    if i == n {
      assert [] + rest == rest;
      ReachesSelf(x);
    } else {
      I.OrderIsPermutation();
      var v := Wide(code)[ORDER[i]];
      WideAt(code, ORDER[i]);
      var tail := OrderBits(code, i + 1, n) + rest;
      assert x.bits == ToBits(v, 3) + tail;
      assert x.bits[..3] == ToBits(v, 3) && x.bits[3..] == tail;
      ThreeBits(v);
      AtLenLens(x);
      assert I.Received(Wide(code), i + 1) == I.Received(Wide(code), i) + [v] by { ReceivedNext(Wide(code), i); }
      var y := Conf(LenLens(last, n, nlen, ndist, I.Received(Wide(code), i + 1)), tail, out);
      OkOfStep(x, y);
      LenLensSteps(last, nlen, ndist, code, i + 1, n, rest, out);
      ReachesTrans(x, y, Conf(LenLens(last, n, nlen, ndist, I.Received(Wide(code), n)), rest, out));
    }
  }

  lemma {:induction false} ReceivedNext(lens: seq<nat>, i: nat)
    requires |lens| == 320 && i < 19
    ensures I.Received(lens, i + 1) == I.Received(lens, i) + [lens[ORDER[i]]]
  {
    hide ORDER;
  }

  lemma {:induction false} ThreeBits(v: nat)
    requires v <= 7
    ensures Lsb(ToBits(v, 3)) == v
  {
    hide Lsb, ToBits;
    SmallPowers();
    LsbToBits(v, 3);
    LowSmall(v, 3);
  }

  lemma {:induction false} WideAt(code: seq<nat>, k: nat)
    requires |code| == 19 && k < 19
    ensures Wide(code)[k] == code[k]
  {
  }

  lemma {:induction false} ReceivedSmall(code: seq<nat>, i: nat)
    requires |code| == 19 && i <= 19 && (forall k :: 0 <= k < 19 ==> code[k] <= 7)
    ensures forall k :: 0 <= k < i ==> I.Received(Wide(code), i)[k] <= 7
  {
    hide ORDER, I.Received, Wide;
    I.OrderIsPermutation();
    forall k | 0 <= k < i
      ensures I.Received(Wide(code), i)[k] <= 7
    {
      I.ReceivedAt(Wide(code), i, k);
      WideAt(code, ORDER[k]);
    }
  }

  /** Lengths that are not sent are zero. */
  lemma {:induction false} ReceivedAll(code: seq<nat>, n: nat)
    requires |code| == 19 && n <= 19 && forall k :: n <= k < 19 ==> Wide(code)[ORDER[k]] == 0
    ensures PlaceLens(I.Received(Wide(code), n)) == code
    decreases 19 - n
  {
    hide ORDER, I.Received, PlaceLens;
    if n == 19 {
      I.PlacedAll(Wide(code));
    } else {
      I.OrderIsPermutation();
      ReceivedAll(code, n + 1);
      ReceivedNext(Wide(code), n);
      I.PlaceZero(I.Received(Wide(code), n));
    }
  }

  // ----- the header of a dynamic block -----

  /** A code-length code whose lengths beyond rank n are zero. */
  ghost predicate CodeSent(code: seq<nat>, n: nat)
  {
    && CodeOk(code) && Kraft(code) == FULL && 4 <= n <= 19
    && forall k :: n <= k < 19 ==> Wide(code)[ORDER[k]] == 0
  }

  ghost predicate LensSent(code: seq<nat>, lens: seq<nat>)
  {
    ValidLens(lens) && SendableAll(code, Tokens(-1, lens))
  }

  ghost function CountBits(llens: seq<nat>, dlens: seq<nat>, n: nat): (b: BitString)
    requires CountsOk(|llens|, |dlens|) && 4 <= n
  {
    ToBits(|llens| - 257, 5) + ToBits(|dlens| - 1, 5) + ToBits(n - 4, 4)
  }

  /** What send_all_trees sends. */
  ghost function HeaderBits(code: seq<nat>, n: nat, llens: seq<nat>, dlens: seq<nat>): (b: BitString)
    requires CodeSent(code, n) && CountsOk(|llens|, |dlens|) && LensSent(code, llens) && LensSent(code, dlens)
  {
    CountBits(llens, dlens, n) + OrderBits(code, 0, n) + TokensBits(code, Tokens(-1, llens)) + TokensBits(code, Tokens(-1, dlens))
  }

  lemma {:induction false} ValueOf(v: nat, n: nat)
    requires v < Pow2(n)
    ensures Lsb(ToBits(v, n)) == v
  {
    hide Lsb, ToBits;
    LsbToBits(v, n);
    LowSmall(v, n);
  }

  lemma {:induction false} CountSteps(last: bool, llens: seq<nat>, dlens: seq<nat>, n: nat, rest: BitString, out: seq<byte>)
    requires CountsOk(|llens|, |dlens|) && 4 <= n <= 19
    ensures Reaches(Conf(Table(last), CountBits(llens, dlens, n) + rest, out), Conf(LenLens(last, n, |llens|, |dlens|, []), rest, out))
  {
    hide Step, Reaches, ToBits, Lsb;
    SmallPowers();
    var a, b, c := ToBits(|llens| - 257, 5), ToBits(|dlens| - 1, 5), ToBits(n - 4, 4);
    ValueOf(|llens| - 257, 5);
    ValueOf(|dlens| - 1, 5);
    ValueOf(n - 4, 4);
    var x := Conf(Table(last), CountBits(llens, dlens, n) + rest, out);
    assert x.bits[..5] == a && x.bits[5..10] == b && x.bits[10..14] == c && x.bits[14..] == rest;
    AtTable(x);
    OkOfStep(x, Conf(LenLens(last, n, |llens|, |dlens|, []), rest, out));
  }

  /** The code-length code arrives. */
  lemma {:induction false} CodeSteps(last: bool, nlen: nat, ndist: nat, code: seq<nat>, n: nat, rest: BitString, out: seq<byte>)
    requires CodeSent(code, n) && CountsOk(nlen, ndist)
    ensures Reaches(Conf(LenLens(last, n, nlen, ndist, []), OrderBits(code, 0, n) + rest, out), Conf(CodeLens(last, nlen, ndist, [], code), rest, out))
  {
    hide Step, Reaches, ORDER, I.Received, Wide, OrderBits, PlaceLens, Kraft;
    var x := Conf(LenLens(last, n, nlen, ndist, []), OrderBits(code, 0, n) + rest, out);
    var y := Conf(LenLens(last, n, nlen, ndist, I.Received(Wide(code), n)), rest, out);
    var z := Conf(CodeLens(last, nlen, ndist, [], code), rest, out);
    assert I.Received(Wide(code), 0) == [];
    LenLensSteps(last, nlen, ndist, code, 0, n, rest, out);
    ReceivedAll(code, n);
    ReceivedSmall(code, n);
    AtLenLens(y);
    OkOfStep(y, z);
    ReachesTrans(x, y, z);
  }

  /** Both lists of lengths arrive. */
  lemma {:induction false} LensSteps(last: bool, code: seq<nat>, llens: seq<nat>, dlens: seq<nat>, rest: BitString, out: seq<byte>)
    requires CodeOk(code) && CountsOk(|llens|, |dlens|) && LensSent(code, llens) && LensSent(code, dlens)
    ensures Reaches(Conf(CodeLens(last, |llens|, |dlens|, [], code), TokensBits(code, Tokens(-1, llens)) + TokensBits(code, Tokens(-1, dlens)) + rest, out),
                    Conf(CodeLens(last, |llens|, |dlens|, llens + dlens, code), rest, out))
  {
    hide Step, Reaches, Tokens, TokensBits, SendableAll, CodeOk, TokensOk, ExpandTokens;
    var a, b := Tokens(-1, llens), Tokens(-1, dlens);
    var st := CodeLens(last, |llens|, |dlens|, [], code);
    var tail := TokensBits(code, b) + rest;
    RoundTrip([], -1, llens);
    RoundTrip(llens, -1, dlens);
    assert [] + llens == llens;
    assert TokensBits(code, a) + TokensBits(code, b) + rest == TokensBits(code, a) + tail;
    TokensSteps(st, a, tail, out);
    TokensSteps(st.(lens := llens), b, rest, out);
    ReachesTrans(Conf(st, TokensBits(code, a) + tail, out), Conf(st.(lens := llens), tail, out), Conf(st.(lens := llens + dlens), rest, out));
  }

  /** The header of a dynamic block gives inflate the two codes. */
  lemma {:induction false} HeaderSteps(last: bool, code: seq<nat>, n: nat, llens: seq<nat>, dlens: seq<nat>, rest: BitString, out: seq<byte>)
    requires CodeSent(code, n) && CountsOk(|llens|, |dlens|) && LensSent(code, llens) && LensSent(code, dlens)
    requires llens[256] != 0 && ValidLens(llens + dlens) && DynamicOk(llens + dlens, |llens|)
    ensures Reaches(Conf(Table(last), HeaderBits(code, n, llens, dlens) + rest, out), Conf(Len(last, Codes(llens, dlens)), rest, out))
  {
    hide Step, Reaches, Tokens, TokensBits, SendableAll, Acceptable, OrderBits, Kraft, CountBits, DynamicOk, Wide, ORDER;
    var a, b := TokensBits(code, Tokens(-1, llens)), TokensBits(code, Tokens(-1, dlens));
    var t2 := a + b + rest;
    var t1 := OrderBits(code, 0, n) + t2;
    var x0 := Conf(Table(last), HeaderBits(code, n, llens, dlens) + rest, out);
    var x1 := Conf(LenLens(last, n, |llens|, |dlens|, []), t1, out);
    var x2 := Conf(CodeLens(last, |llens|, |dlens|, [], code), t2, out);
    var x3 := Conf(CodeLens(last, |llens|, |dlens|, llens + dlens, code), rest, out);
    var x4 := Conf(Len(last, Codes(llens, dlens)), rest, out);
    assert x0.bits == CountBits(llens, dlens, n) + t1;
    CountSteps(last, llens, dlens, n, t1, out);
    CodeSteps(last, |llens|, |dlens|, code, n, t2, out);
    ReachesTrans(x0, x1, x2);
    LensSteps(last, code, llens, dlens, rest, out);
    ReachesTrans(x0, x2, x3);
    AtCodeLens(x3);
    assert (llens + dlens)[..|llens|] == llens && (llens + dlens)[|llens|..] == dlens;
    OkOfStep(x3, x4);
    ReachesTrans(x0, x3, x4);
  }

  // ----- whole blocks -----

  /** The three bits before a block: last block or not, and the type. */
  ghost function TypeOf(kind: nat, last: bool): (b: BitString)
    requires kind < 4
  {
    ToBits(2 * kind + BitVal(last), 3)
  }

  lemma {:induction false} TypeSteps(kind: nat, last: bool, rest: BitString, out: seq<byte>)
    requires kind < 3
    ensures Reaches(Conf(Type(false), TypeOf(kind, last) + rest, out),
                    Conf(if kind == 0 then Stored(last) else if kind == 1 then Len(last, FixedCodes()) else Table(last), rest, out))
  {
    hide Step, Reaches, FixedCodes, ToBits, Lsb;
    var x := Conf(Type(false), TypeOf(kind, last) + rest, out);
    var b := TypeOf(kind, last);
    AtType(x);
    KindBits(kind, last);
    assert x.bits[0] == b[0] && x.bits[1..3] == b[1..3] && x.bits[3..] == rest;
    OkOfStep(x, Conf(if kind == 0 then Stored(last) else if kind == 1 then Len(last, FixedCodes()) else Table(last), rest, out));
  }

  lemma {:induction false} KindBits(kind: nat, last: bool)
    requires kind < 4
    ensures var b := TypeOf(kind, last); |b| == 3 && b[0] == last && Lsb(b[1..3]) == kind
  {
    var v, b := 2 * kind + BitVal(last), TypeOf(kind, last);
    assert ToBits(v, 3) == [v % 2 == 1] + ToBits(v / 2, 2);
    assert v / 2 == kind;
    assert b[1..3] == ToBits(kind, 2);
    SmallPowers();
    ValueOf(kind, 2);
  }

  /** inflate, at the start of a block and wherever the bytes end, decodes bits as a block that
      turns the output out into out', with matches that reach back at most d bytes. at is the
      number of bits before, whole counts in bytes. */
  ghost predicate Delivers(bits: BitString, at: nat, last: bool, out: seq<byte>, out': seq<byte>, d: nat)
  {
    forall rest: BitString :: (at + |bits| + |rest|) % 8 == 0 ==>
      Calm(Conf(Type(false), bits + rest, out), Conf(Type(last), rest, out'), d)
  }

  ghost function FixedBits(t: Tables, last: bool, syms: seq<Symbol>): (b: BitString)
    requires TablesFit(t) && EncodableAll(t, FixedCodes(), syms) && Used(FixedCodes().llens, END_BLOCK)
  {
    TypeOf(1, last) + BlockBits(t, FixedCodes(), syms)
  }

  lemma {:induction false} FixedDelivers(t: Tables, last: bool, syms: seq<Symbol>, at: nat, out: seq<byte>, d: nat)
    requires TablesFit(t) && EncodableAll(t, FixedCodes(), syms) && Used(FixedCodes().llens, END_BLOCK) && ValidAll(out, syms) && ReachAll(syms, d)
    ensures Delivers(FixedBits(t, last, syms), at, last, out, Expand(out, syms), d)
  {
    hide Reaches, Calm, ReachAll, FixedCodes, BlockBits, TypeOf, EncodableAll, TablesFit, ValidAll, Expand, Used;
    FixedOk();
    var b, bits := BlockBits(t, FixedCodes(), syms), FixedBits(t, last, syms);
    forall rest: BitString | (at + |bits| + |rest|) % 8 == 0
      ensures Calm(Conf(Type(false), bits + rest, out), Conf(Type(last), rest, Expand(out, syms)), d)
    {
      var x, y := Conf(Type(false), bits + rest, out), Conf(Len(last, FixedCodes()), b + rest, out);
      assert bits + rest == TypeOf(1, last) + (b + rest);
      TypeSteps(1, last, b + rest, out);
      Still(x, y, d);
      BlockSteps(t, last, FixedCodes(), syms, rest, out, d);
      CalmTrans(x, y, Conf(Type(last), rest, Expand(out, syms)), d);
    }
  }

  ghost predicate DynamicReady(t: Tables, code: seq<nat>, n: nat, codes: Codes, syms: seq<Symbol>)
  {
    && TablesFit(t) && CodeSent(code, n) && CountsOk(|codes.llens|, |codes.dlens|) && LensSent(code, codes.llens) && LensSent(code, codes.dlens)
    && Kraft(codes.llens) == FULL == Kraft(codes.dlens)
    && EncodableAll(t, codes, syms) && Used(codes.llens, END_BLOCK)
  }

  ghost function DynamicBits(t: Tables, last: bool, code: seq<nat>, n: nat, codes: Codes, syms: seq<Symbol>): (b: BitString)
    requires DynamicReady(t, code, n, codes, syms)
  {
    TypeOf(2, last) + HeaderBits(code, n, codes.llens, codes.dlens) + BlockBits(t, codes, syms)
  }

  lemma {:induction false} DynamicCodes(codes: Codes)
    requires ValidLens(codes.llens) && ValidLens(codes.dlens) && CountsOk(|codes.llens|, |codes.dlens|)
    requires Kraft(codes.llens) == FULL == Kraft(codes.dlens)
    ensures CodesOk(codes) && ValidLens(codes.llens + codes.dlens) && DynamicOk(codes.llens + codes.dlens, |codes.llens|)
  {
    hide Kraft, TableSize;
    EnoughLens(codes.llens);
    EnoughDists(codes.dlens);
    var all := codes.llens + codes.dlens;
    assert all[..|codes.llens|] == codes.llens && all[|codes.llens|..] == codes.dlens;
  }

  lemma {:induction false} DynamicDelivers(t: Tables, last: bool, code: seq<nat>, n: nat, codes: Codes, syms: seq<Symbol>, at: nat, out: seq<byte>, d: nat)
    requires DynamicReady(t, code, n, codes, syms) && ValidAll(out, syms) && ReachAll(syms, d)
    ensures Delivers(DynamicBits(t, last, code, n, codes, syms), at, last, out, Expand(out, syms), d)
  {
    hide Reaches, Calm, ReachAll, HeaderBits, BlockBits, TypeOf, EncodableAll, TablesFit, ValidAll, Expand, CodeSent, Kraft, CodesOk, DynamicOk;
    DynamicCodes(codes);
    var h, b, bits := HeaderBits(code, n, codes.llens, codes.dlens), BlockBits(t, codes, syms), DynamicBits(t, last, code, n, codes, syms);
    forall rest: BitString | (at + |bits| + |rest|) % 8 == 0
      ensures Calm(Conf(Type(false), bits + rest, out), Conf(Type(last), rest, Expand(out, syms)), d)
    {
      var x, y := Conf(Type(false), bits + rest, out), Conf(Table(last), h + (b + rest), out);
      assert bits + rest == TypeOf(2, last) + (h + (b + rest));
      TypeSteps(2, last, h + (b + rest), out);
      HeaderSteps(last, code, n, codes.llens, codes.dlens, b + rest, out);
      ReachesTrans(x, y, Conf(Len(last, codes), b + rest, out));
      Still(x, Conf(Len(last, codes), b + rest, out), d);
      BlockSteps(t, last, codes, syms, rest, out, d);
      CalmTrans(x, Conf(Len(last, codes), b + rest, out), Conf(Type(last), rest, Expand(out, syms)), d);
    }
  }

  // ----- stored blocks -----

  ghost function StoredBits(last: bool, pad: nat, buf: seq<byte>): (b: BitString)
    requires |buf| < 65536
  {
    TypeOf(0, last) + B.Zeros(pad) + ToBits(|buf|, 16) + ToBits(65535 - |buf|, 16) + ByteBits(buf)
  }

  lemma {:induction false} StoredSize(last: bool, pad: nat, buf: seq<byte>)
    requires |buf| < 65536
    ensures |StoredBits(last, pad, buf)| == 35 + pad + 8 * |buf|
  {
    hide ToBits, ByteBits, B.Zeros;
  }

  lemma {:induction false} StoredDelivers(last: bool, pad: nat, buf: seq<byte>, at: nat, out: seq<byte>, d: nat)
    requires |buf| < 65536 && pad < 8 && (at + 3 + pad) % 8 == 0
    ensures Delivers(StoredBits(last, pad, buf), at, last, out, out + buf, d)
  {
    hide Reaches, Calm, TypeOf, B.Zeros, ToBits, ByteBits;
    var z, a, c, e, bits := B.Zeros(pad), ToBits(|buf|, 16), ToBits(65535 - |buf|, 16), ByteBits(buf), StoredBits(last, pad, buf);
    KindBits(0, last);
    forall rest: BitString | (at + |bits| + |rest|) % 8 == 0
      ensures Calm(Conf(Type(false), bits + rest, out), Conf(Type(last), rest, out + buf), d)
    {
      var x, y := Conf(Type(false), bits + rest, out), Conf(Stored(last), z + (a + c + e + rest), out);
      assert bits + rest == TypeOf(0, last) + (z + (a + c + e + rest));
      TypeSteps(0, last, z + (a + c + e + rest), out);
      assert |rest| % 8 == 0;
      Still(x, y, d);
      StoredSteps(last, z, buf, rest, out, d);
      CalmTrans(x, y, Conf(Type(last), rest, out + buf), d);
    }
  }

  /** Bits up to the byte boundary are dropped. */
  lemma {:induction false} AlignSteps(last: bool, z: BitString, b: BitString, out: seq<byte>)
    requires |z| < 8 && |b| % 8 == 0
    ensures Reaches(Conf(Stored(last), z + b, out), Conf(Stored(last), b, out))
  {
    hide Reaches, Step;
    var x := Conf(Stored(last), z + b, out);
    if z == [] {
      assert z + b == b;
      ReachesSelf(x);
    } else {
      assert |x.bits| % 8 == |z|;
      assert x.bits[|z|..] == b;
      AtStored(x);
      OkOfStep(x, Conf(Stored(last), b, out));
    }
  }

  /** The length and its complement. */
  lemma {:induction false} LengthWords(last: bool, n: nat, b: BitString, out: seq<byte>)
    requires n < 65536 && |b| % 8 == 0
    ensures Reaches(Conf(Stored(last), ToBits(n, 16) + ToBits(65535 - n, 16) + b, out), Conf(Copy(last, n), b, out))
  {
    hide Reaches, Step, ToBits, Lsb;
    var a, c := ToBits(n, 16), ToBits(65535 - n, 16);
    var x := Conf(Stored(last), a + c + b, out);
    B.WordPowers();
    ValueOf(n, 16);
    ValueOf(65535 - n, 16);
    assert x.bits[..16] == a && x.bits[16..32] == c && x.bits[32..] == b;
    assert |x.bits| % 8 == 0;
    AtStored(x);
    OkOfStep(x, Conf(Copy(last, n), b, out));
  }

  lemma {:induction false} StoredSteps(last: bool, z: BitString, buf: seq<byte>, rest: BitString, out: seq<byte>, dist: nat)
    requires |buf| < 65536 && |z| < 8 && |rest| % 8 == 0
    ensures Calm(Conf(Stored(last), z + (ToBits(|buf|, 16) + ToBits(65535 - |buf|, 16) + ByteBits(buf) + rest), out), Conf(Type(last), rest, out + buf), dist)
  {
    hide Reaches, Calm, ToBits, ByteBits, Step;
    var a, c, d := ToBits(|buf|, 16), ToBits(65535 - |buf|, 16), ByteBits(buf);
    var b := a + c + (d + rest);
    assert a + c + d + rest == b;
    var x0, x1, x2 := Conf(Stored(last), z + b, out), Conf(Stored(last), b, out), Conf(Copy(last, |buf|), d + rest, out);
    AlignSteps(last, z, b, out);
    LengthWords(last, |buf|, d + rest, out);
    ReachesTrans(x0, x1, x2);
    Still(x0, x2, dist);
    BytesSteps(last, buf, rest, out);
    CopyCalm(x2, Conf(Type(last), rest, out + buf), dist);
    CalmTrans(x0, x2, Conf(Type(last), rest, out + buf), dist);
  }

  lemma {:induction false} BytesSteps(last: bool, buf: seq<byte>, rest: BitString, out: seq<byte>)
    ensures Reaches(Conf(Copy(last, |buf|), ByteBits(buf) + rest, out), Conf(Type(last), rest, out + buf))
  {
    hide Reaches, Step, After;
    var x, y := Conf(Copy(last, |buf|), ByteBits(buf) + rest, out), Conf(Copy(last, 0), rest, out + buf);
    if buf == [] {
      assert ByteBits(buf) + rest == rest && out + buf == out;
      ReachesSelf(x);
    } else {
      I.CopySteps(last, |buf|, buf, rest, out);
    }
    AtCopy(y);
    OkOfStep(y, Conf(Type(last), rest, out + buf));
    ReachesTrans(x, y, Conf(Type(last), rest, out + buf));
  }
}
