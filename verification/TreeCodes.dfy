/** Canonical codes from code lengths: bi_reverse and gen_codes of trees.c. */
module TreeCodes {
  import opened Bits
  import opened Canonical
  import opened InflateSpec

  /** Reversing one more bit puts it below the others. */
  lemma {:induction false} RevLonger(p: nat, n: nat)
    ensures Rev(p, n + 1) == 2 * Rev(p, n) + Shr(p, n) % 2
  {
    if n == 0 {
      assert Rev(p, 1) == (if p % 2 == 1 then Pow2(0) else 0) + Rev(p / 2, 0);
      assert Shr(p, 0) == p;
    } else {
      RevLonger(p / 2, n - 1);
      assert Rev(p, n + 1) == (if p % 2 == 1 then Pow2(n) else 0) + Rev(p / 2, n);
      assert Shr(p, n) == Shr(p / 2, n - 1);
    }
  }

  lemma {:induction false} ShrNext(p: nat, n: nat)
    ensures Shr(p, n + 1) == Shr(p, n) / 2
  {
    hide Shr;
    ShrShr(p, n, 1);
    HalfShr(Shr(p, n));
  }

  lemma {:induction false} HalfShr(v: nat)
    ensures Shr(v, 1) == v / 2
  {
    assert Shr(v / 2, 0) == v / 2;
  }

  method BiReverse(code: nat, len: nat) returns (r: nat)
    requires 1 <= len <= 15
    ensures r == Rev(code, len)
  {
    hide Rev, Shr, Pow2;
    var c, l, res := code, len, 0;
    RevLonger(code, 0);
    assert Rev(code, 0) == 0 && Shr(code, 0) == code by { RevBase(code); }
    ghost var i := 0;
    while l > 0
      invariant l <= len && i == len - l && res == 2 * Rev(code, i) && c == Shr(code, i)
    {
      RevLonger(code, i);
      ShrNext(code, i);
      res := res + c % 2;
      c, res := c / 2, 2 * res;
      l := l - 1;
      i := i + 1;
    }
    r := res / 2;
  }

  lemma {:induction false} RevBase(p: nat)
    ensures Rev(p, 0) == 0 && Shr(p, 0) == p
  {
  }

  /** The codes of a tree: the reversed canonical code of every symbol that has one. */
  ghost predicate HasCodes(codes: seq<nat>, lens: seq<nat>)
  {
    |codes| == |lens| && forall s: nat :: Used(lens, s) ==> codes[s] == Rev(CodeOf(lens, s), lens[s])
  }

  /** First codes fit in 16 bits. */
  lemma {:induction false} FirstCodeFits(lens: seq<nat>, l: nat)
    requires 1 <= l <= MAXBITS && Kraft(lens) <= FULL
    ensures FirstCode(lens, l) <= FULL
  {
    hide Below, Shl, FirstCode;
    BelowFirst(lens, l);
    BelowMonotone(lens, l, MAXBITS + 1);
    ShlGrows(FirstCode(lens, l), MAXBITS - l);
  }

  lemma {:induction false} CountUsed(lens: seq<nat>, l: nat, n: nat)
    requires n < |lens|
    ensures CountTo(lens, l, n + 1) == CountTo(lens, l, n) + (if lens[n] == l then 1 else 0)
  {
  }

  lemma {:induction false} FirstCodeNext(lens: seq<nat>, l: nat)
    requires l >= 1
    ensures FirstCode(lens, l + 1) == 2 * (FirstCode(lens, l) + Count(lens, l)) && FirstCode(lens, 1) == 0
  {
  }

  /** The first code of each length, from the number of codes of each length. */
  method FirstCodes(ghost lens: seq<nat>, blCount: seq<nat>) returns (nextCode: array<nat>)
    requires Kraft(lens) <= FULL
    requires |blCount| == MAXBITS + 1 && blCount[0] == 0
    requires forall l :: 1 <= l <= MAXBITS ==> blCount[l] == Count(lens, l)
    ensures fresh(nextCode) && nextCode.Length == MAXBITS + 1
    ensures forall l :: 1 <= l <= MAXBITS ==> nextCode[l] == FirstCode(lens, l)
  {
    hide Kraft, FirstCode, CountTo;
    nextCode := new nat[MAXBITS + 1](_ => 0);
    var code := 0;
    FirstCodeNext(lens, 1);
    for bits := 1 to MAXBITS + 1
      invariant bits == 1 ==> code == 0
      invariant bits > 1 ==> code == FirstCode(lens, bits - 1)
      invariant forall l :: 1 <= l < bits ==> nextCode[l] == FirstCode(lens, l)
    {
      if bits > 1 { FirstCodeNext(lens, bits - 1); }
      code := 2 * (code + blCount[bits - 1]);
      FirstCodeFits(lens, bits);
      nextCode[bits] := code % 65536;
    }
  }

  /** gen_codes: fc receives the code of every symbol below n that has a length. */
  method GenCodes(fc: array<nat>, dl: array<nat>, n: nat, blCount: seq<nat>)
    requires n <= fc.Length == dl.Length && fc != dl
    requires ValidLens(dl[..n]) && Kraft(dl[..n]) <= FULL
    requires |blCount| == MAXBITS + 1 && blCount[0] == 0
    requires forall l :: 1 <= l <= MAXBITS ==> blCount[l] == Count(dl[..n], l)
    modifies fc
    ensures HasCodes(fc[..n], dl[..n])
    ensures forall s :: 0 <= s < fc.Length && (s >= n || dl[s] == 0) ==> fc[s] == old(fc[s])
  {
    hide Kraft, FirstCode, CountTo, Rev;
    ghost var lens := dl[..n];
    var nextCode := FirstCodes(lens, blCount);
    assert forall l :: CountTo(lens, l, 0) == 0 by { CountNone(lens); }
    for s := 0 to n
      invariant nextCode.Length == MAXBITS + 1 && fresh(nextCode) && lens == dl[..n]
      invariant forall l :: 1 <= l <= MAXBITS ==> nextCode[l] == FirstCode(lens, l) + CountTo(lens, l, s)
      invariant forall t: nat :: t < s && Used(lens, t) ==> fc[t] == Rev(CodeOf(lens, t), lens[t])
      invariant forall t :: 0 <= t < fc.Length && (t >= s || dl[t] == 0) ==> fc[t] == old(fc[t])
    {
      var len := dl[s];
      assert lens[s] == len <= MAXBITS;
      forall l
        ensures CountTo(lens, l, s + 1) == CountTo(lens, l, s) + (if len == l then 1 else 0)
      {
        CountUsed(lens, l, s);
      }
      if len != 0 {
        assert Used(lens, s) && nextCode[len] == CodeOf(lens, s);
        fc[s] := BiReverse(nextCode[len], len);
        nextCode[len] := nextCode[len] + 1;
      }
    }
  }

  lemma {:induction false} CountNone(lens: seq<nat>)
    ensures forall l :: CountTo(lens, l, 0) == 0
  {
  }
}
