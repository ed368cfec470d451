/** The static trees of tr_static_init: the fixed codes of section 3.2.6 of RFC 1951. */
module StaticTrees {
  import opened Bits
  import opened Canonical
  import opened InflateTable
  import opened Lz77
  import opened InflateSpec
  import opened StaticTables
  import opened TreeCodes
  import opened Block
  import opened Compress
  import opened BlockStats

  /** Codes of five bits only are their own symbols. */
  lemma {:induction false} FiveFirst(lens: seq<nat>, l: nat)
    requires 1 <= l <= 5 && forall i :: 0 <= i < |lens| ==> lens[i] == 5
    ensures FirstCode(lens, l) == 0
    decreases l
  {
    hide CountTo;
    if l > 1 {
      FiveFirst(lens, l - 1);
      FiveCount(lens, l - 1, |lens|);
    }
  }

  lemma {:induction false} FiveCount(lens: seq<nat>, l: nat, n: nat)
    requires n <= |lens| && forall i :: 0 <= i < |lens| ==> lens[i] == 5
    ensures CountTo(lens, l, n) == if l == 5 then n else 0
  {
    if n > 0 { FiveCount(lens, l, n - 1); }
  }

  lemma {:induction false} FiveCode(lens: seq<nat>, s: nat)
    requires s < |lens| && forall i :: 0 <= i < |lens| ==> lens[i] == 5
    ensures Used(lens, s) && CodeOf(lens, s) == s
  {
    hide FirstCode, CountTo;
    FiveFirst(lens, 5);
    FiveCount(lens, 5, s);
  }

  /** n symbols from index from get length len. */
  method Fill(dl: array<nat>, blCount: array<nat>, from: nat, to: nat, len: nat)
    requires dl != blCount && from <= to <= dl.Length && len < blCount.Length
    requires forall l :: 0 <= l < blCount.Length ==> blCount[l] == CountTo(dl[..], l, from)
    modifies dl, blCount
    ensures forall i :: 0 <= i < dl.Length ==> dl[i] == if from <= i < to then len else old(dl[i])
    ensures forall l :: 0 <= l < blCount.Length ==> blCount[l] == CountTo(dl[..], l, to)
  {
    hide CountTo;
    for n := from to to
      invariant forall i :: 0 <= i < dl.Length ==> dl[i] == if from <= i < n then len else old(dl[i])
      invariant forall l :: 0 <= l < blCount.Length ==> blCount[l] == CountTo(dl[..], l, n)
    {
      ghost var was: seq<nat> := dl[..];
      dl[n] := len;
      forall l | 0 <= l < blCount.Length
        ensures CountTo(dl[..], l, n + 1) == CountTo(was, l, n) + if l == len then 1 else 0
      {
        CountUsed(dl[..], l, n);
        CountSame(was, dl[..], l, n);
      }
      blCount[len] := blCount[len] + 1;
    }
  }

  lemma {:induction false} CountSame(a: seq<nat>, b: seq<nat>, l: nat, n: nat)
    requires n <= |a| && n <= |b| && forall i :: 0 <= i < n ==> a[i] == b[i]
    ensures CountTo(a, l, n) == CountTo(b, l, n)
  {
    if n > 0 { CountSame(a, b, l, n - 1); }
  }

  /** The literal/length half. */
  method LiteralTree() returns (tree: CodeTree)
    ensures TreeOk(tree) && tree.lens == FixedCodes().llens
  {
    hide CountTo, Kraft;
    var dl, fc := new nat[288](_ => 0), new nat[288](_ => 0);
    var blCount := new nat[16](_ => 0);
    forall l
      ensures CountTo(dl[..], l, 0) == 0
    {
      CountNone(dl[..]);
    }
    Fill(dl, blCount, 0, 144, 8);
    Fill(dl, blCount, 144, 256, 9);
    Fill(dl, blCount, 256, 280, 7);
    Fill(dl, blCount, 280, 288, 8);
    assert dl[..288] == dl[..] == FixedCodes().llens;
    FixedKraft();
    FixedCount(288, 0);
    GenCodes(fc, dl, 288, blCount[..]);
    tree := CodeTree(fc[..288], dl[..288]);
  }

  /** The distance half. */
  method DistanceTree() returns (tree: CodeTree)
    ensures TreeOk(tree) && tree.lens == seq(30, _ => 5)
  {
    hide Rev, CodeOf;
    var fc := new nat[30](_ => 0);
    ghost var lens: seq<nat> := seq(30, _ => 5);
    for n := 0 to 30
      invariant forall s: nat :: s < n ==> fc[s] == Rev(s, 5)
    {
      fc[n] := BiReverse(n, 5);
    }
    tree := CodeTree(fc[..], seq(30, _ => 5));
    forall s: nat | Used(lens, s)
      ensures fc[s] == Rev(CodeOf(lens, s), lens[s])
    {
      FiveCode(lens, s);
    }
  }

  /** The 30 distance codes of the static tree are those of the fixed code. */
  lemma {:induction false} SameDistances(t: Tables, llens: seq<nat>, dlens: seq<nat>, fixed: seq<nat>, syms: seq<Symbol>)
    requires TablesFit(t) && EncodableAll(t, Codes(llens, dlens), syms)
    requires forall s: nat :: Used(dlens, s) ==> Used(fixed, s) && CodeWord(fixed, s) == CodeWord(dlens, s)
    ensures EncodableAll(t, Codes(llens, fixed), syms)
    ensures SymbolsBits(t, Codes(llens, fixed), syms) == SymbolsBits(t, Codes(llens, dlens), syms)
    decreases |syms|
  {
    hide LengthFits, DistFits, CodeWord, LengthExtra, DistExtra;
    forall i | 0 <= i < |syms|
      ensures Encodable(t, Codes(llens, fixed), syms[i])
    {
      assert Encodable(t, Codes(llens, dlens), syms[i]);
    }
    if syms != [] {
      assert Encodable(t, Codes(llens, dlens), syms[0]);
      SameDistances(t, llens, dlens, fixed, syms[1..]);
    }
  }

  lemma {:induction false} StaticWords(s: nat)
    requires Used(seq(30, _ => 5), s)
    ensures Used(FixedCodes().dlens, s) && CodeWord(FixedCodes().dlens, s) == CodeWord(seq(30, _ => 5), s)
  {
    hide CodeOf, Rev, ToBits;
    FiveCode(seq(30, _ => 5), s);
    FiveCode(FixedCodes().dlens, s);
  }

  /** Every symbol can be sent with the static trees. */
  lemma {:induction false} StaticEncodable(t: Tables, syms: seq<Symbol>)
    requires TablesFit(t) && SymbolsOk(syms)
    ensures EncodableAll(t, Codes(FixedCodes().llens, seq(30, _ => 5)), syms) && EncodableAll(t, FixedCodes(), syms)
    ensures Used(FixedCodes().llens, END_BLOCK)
    ensures BlockBits(t, Codes(FixedCodes().llens, seq(30, _ => 5)), syms) == BlockBits(t, FixedCodes(), syms)
  {
    hide LengthFits, DistFits, CodeWord, SymbolsBits, DistCode, LSym;
    forall i | 0 <= i < |syms|
      ensures Encodable(t, Codes(FixedCodes().llens, seq(30, _ => 5)), syms[i])
    {
      StaticOne(t, syms[i]);
    }
    forall s: nat | Used(seq(30, _ => 5), s)
      ensures Used(FixedCodes().dlens, s) && CodeWord(FixedCodes().dlens, s) == CodeWord(seq(30, _ => 5), s)
    {
      StaticWords(s);
    }
    SameDistances(t, FixedCodes().llens, seq(30, _ => 5), FixedCodes().dlens, syms);
    assert Codes(FixedCodes().llens, FixedCodes().dlens) == FixedCodes();
  }

  lemma {:induction false} StaticOne(t: Tables, s: Symbol)
    requires TablesFit(t) && SymbolOk(s)
    ensures Encodable(t, Codes(FixedCodes().llens, seq(30, _ => 5)), s)
  {
    LSymRange(t, s);
  }

  /** The longest fixed codes: 8 + 5 bits for a length and 5 + 13 bits for a distance. */
  lemma {:induction false} StaticSize(t: Tables, s: Symbol)
    requires TablesFit(t) && SymbolOk(s) && Encodable(t, Codes(FixedCodes().llens, seq(30, _ => 5)), s)
    ensures |SymbolBits(t, Codes(FixedCodes().llens, seq(30, _ => 5)), s)| <= 31
  {
    hide EXTRA_LBITS, EXTRA_DBITS, ToBits, Rev, CodeOf, Pow2;
    ExtraBits();
    LSymRange(t, s);
    match s
    case Literal(b) =>
    case Pair(dist, len) =>
      assert LengthFits(t, len - 3) && DistFits(t, dist - 1);
  }

  lemma {:induction false} StaticPaced(t: Tables, syms: seq<Symbol>)
    requires TablesFit(t) && SymbolsOk(syms) && EncodableAll(t, Codes(FixedCodes().llens, seq(30, _ => 5)), syms)
    ensures Paced(t, Codes(FixedCodes().llens, seq(30, _ => 5)), syms)
  {
    hide SymbolBits, FixedCodes, LengthFits, DistFits;
    forall i | 0 <= i < |syms|
      ensures |SymbolBits(t, Codes(FixedCodes().llens, seq(30, _ => 5)), syms[i])| <= 31
    {
      StaticSize(t, syms[i]);
    }
  }
}
