/** The constant tables of trees.c: which length and distance code stands for a match
    length or distance, and where each code's range begins. */
module StaticTables {
  import opened Bits
  import opened Canonical
  import opened InflateTable
  import opened InflateSpec

  const EXTRA_LBITS: seq<nat> := [0, 0, 0, 0, 0, 0, 0, 0, 1, 1, 1, 1, 2, 2, 2, 2, 3, 3, 3, 3, 4, 4, 4, 4, 5, 5, 5, 5, 0]
  const EXTRA_DBITS: seq<nat> := [0, 0, 0, 0, 1, 1, 2, 2, 3, 3, 4, 4, 5, 5, 6, 6, 7, 7, 8, 8, 9, 9, 10, 10, 11, 11, 12, 12, 13, 13]

  /** _length_code, base_length, _dist_code, base_dist. */
  datatype Tables = Tables(lengthCode: seq<nat>, baseLength: seq<nat>, distCode: seq<nat>, baseDist: seq<nat>)

  predicate Sizes(t: Tables)
  {
    |t.lengthCode| == 256 && |t.baseLength| == 29 && |t.distCode| == 512 && |t.baseDist| == 30
  }

  /** d_code: distances below 256 have their own entry, others share one per 128. */
  function DistCode(t: Tables, d: nat): (c: nat)
    requires Sizes(t) && d < 32768
  {
    if d < 256 then t.distCode[d] else t.distCode[256 + d / 128]
  }

  /** Match length lc + 3 is sent as its code's base plus extra bits. */
  ghost predicate LengthFits(t: Tables, lc: nat)
    requires Sizes(t) && lc < 256
  {
    var c := t.lengthCode[lc];
    && c < 29
    && if EXTRA_LBITS[c] == 0 then LBASE[c] == lc + 3
       else LBASE[c] == t.baseLength[c] + 3 && t.baseLength[c] <= lc < t.baseLength[c] + Pow2(EXTRA_LBITS[c])
  }

  /** So is distance d + 1. */
  ghost predicate DistFits(t: Tables, d: nat)
    requires Sizes(t) && d < 32768
  {
    var c := DistCode(t, d);
    && c < 30
    && DBASE[c] == t.baseDist[c] + 1 && t.baseDist[c] <= d < t.baseDist[c] + Pow2(EXTRA_DBITS[c])
  }

  ghost predicate TablesFit(t: Tables)
  {
    && Sizes(t)
    && (forall lc :: 0 <= lc < 256 ==> LengthFits(t, lc))
    && (forall d :: 0 <= d < 32768 ==> DistFits(t, d))
  }

  /** The two halves of the library agree on the ranges of codes. */
  lemma {:induction false} ExtraBits()
    ensures |EXTRA_LBITS| == 29 && |EXTRA_DBITS| == 30
    ensures forall c :: 0 <= c < 29 ==> LEXT[c] == 16 + EXTRA_LBITS[c] && EXTRA_LBITS[c] <= 5
    ensures forall c :: 0 <= c < 30 ==> DEXT[c] == 16 + EXTRA_DBITS[c] && EXTRA_DBITS[c] <= 13
  {
    hide LEXT, DEXT, EXTRA_LBITS, EXTRA_DBITS;
    ExtraLengths();
    ExtraDistances();
  }

  lemma {:induction false} ExtraLengths()
    ensures |EXTRA_LBITS| == 29 && forall c :: 0 <= c < 29 ==> LEXT[c] == 16 + EXTRA_LBITS[c] && EXTRA_LBITS[c] <= 5
  {
  }

  lemma {:induction false} ExtraDistances()
    ensures |EXTRA_DBITS| == 30 && forall c :: 0 <= c < 30 ==> DEXT[c] == 16 + EXTRA_DBITS[c] && EXTRA_DBITS[c] <= 13
  {
  }

  /** Where the range of length code c ends. */
  function LengthTop(c: nat): (r: nat)
    requires c < 28
  {
    if c == 27 then 256 else LBASE[c + 1] - 3
  }

  lemma {:induction false} LengthRange(c: nat)
    requires c < 28
    ensures |EXTRA_LBITS| == 29 && |LBASE| == 31 && LBASE[0] == 3 && LBASE[28] == 258 && EXTRA_LBITS[28] == 0
    ensures LBASE[c] >= 3 && LengthTop(c) <= 256 && LBASE[c] - 3 + Pow2(EXTRA_LBITS[c]) == LengthTop(c)
    ensures EXTRA_LBITS[c] == 0 ==> LBASE[c] - 3 + 1 == LengthTop(c)
  {
    hide Pow2;
    SmallPowers();
  }

  /** The codes set so far, as a range of lengths. */
  ghost predicate LengthsDone(lengthCode: seq<nat>, baseLength: seq<nat>, code: nat, upto: nat)
    requires |lengthCode| == 256 && |baseLength| == 29 && upto <= 256
  {
    forall lc :: 0 <= lc < upto ==>
      && lengthCode[lc] <= code && lengthCode[lc] < 28
      && baseLength[lengthCode[lc]] == LBASE[lengthCode[lc]] - 3
      && baseLength[lengthCode[lc]] <= lc < LengthTop(lengthCode[lc])
  }

  /** The lengths of one code. */
  method FillLengths(lengthCode: array<nat>, baseLength: array<nat>, code: nat, length0: nat) returns (length: nat)
    requires lengthCode != baseLength && lengthCode.Length == 256 && baseLength.Length == 29 && code < 28 && |LBASE| == 31 && |EXTRA_LBITS| == 29
    requires length0 == LBASE[code] - 3 == baseLength[code] && LengthTop(code) == length0 + Pow2(EXTRA_LBITS[code]) <= 256
    requires LengthsDone(lengthCode[..], baseLength[..], code, length0)
    modifies lengthCode
    ensures length == LengthTop(code) && LengthsDone(lengthCode[..], baseLength[..], code, length)
  {
    hide Pow2, LBASE, EXTRA_LBITS, LengthTop;
    length := length0;
    var n := 0;
    while n < Pow2(EXTRA_LBITS[code])
      invariant n <= Pow2(EXTRA_LBITS[code]) && length == LBASE[code] - 3 + n <= 256
      invariant LengthsDone(lengthCode[..], baseLength[..], code, length)
    {
      lengthCode[length] := code;
      length := length + 1;
      n := n + 1;
    }
  }

  /** The length half of tr_static_init. */
  method LengthTables() returns (lengthCode: array<nat>, baseLength: array<nat>)
    ensures fresh(lengthCode) && fresh(baseLength) && lengthCode.Length == 256 && baseLength.Length == 29
    ensures LengthsDone(lengthCode[..], baseLength[..], 28, 255) && lengthCode[255] == 28
  {
    hide Pow2, LBASE, EXTRA_LBITS, LengthTop;
    lengthCode := new nat[256](_ => 0);
    baseLength := new nat[29](_ => 0);
    var length: nat, code: nat := 0, 0;
    while code < 28
      invariant code <= 28 && fresh(lengthCode) && fresh(baseLength)
      invariant length == (if code == 0 then 0 else LengthTop(code - 1)) && length <= 256
      invariant LengthsDone(lengthCode[..], baseLength[..], code, length)
    {
      LengthRange(code);
      if code > 0 { TopIsNext(code - 1); }
      baseLength[code] := length;
      length := FillLengths(lengthCode, baseLength, code, length);
      code := code + 1;
    }
    LastTop();
    lengthCode[length - 1] := code;
  }

  lemma {:induction false} TopIsNext(c: nat)
    requires c < 27
    ensures |LBASE| == 31 && LengthTop(c) == LBASE[c + 1] - 3
  {
  }

  lemma {:induction false} LastTop()
    ensures LengthTop(27) == 256
  {
  }

  /** Where the range of distance code c ends. */
  function DistTop(c: nat): (r: nat)
    requires c < 30
  {
    if c == 29 then 32768 else DBASE[c + 1] - 1
  }

  lemma {:induction false} NearRange(c: nat)
    requires c < 16
    ensures |EXTRA_DBITS| == 30 && |DBASE| == 32 && DBASE[0] == 1 && 1 <= DBASE[c] && DBASE[c + 1] <= 257
    ensures DBASE[c] + Pow2(EXTRA_DBITS[c]) == DBASE[c + 1]
  {
    hide Pow2;
    SmallPowers();
  }

  lemma {:induction false} FarRange(c: nat)
    requires 16 <= c < 30
    ensures |EXTRA_DBITS| == 30 && |DBASE| == 32 && DBASE[0] == 1 && 1 <= DBASE[c] && 7 <= EXTRA_DBITS[c] <= 13
    ensures DBASE[c] + Pow2(EXTRA_DBITS[c]) == if c == 29 then 32769 else DBASE[c + 1]
    ensures DBASE[c] + Pow2(EXTRA_DBITS[c]) <= 32769
  {
    hide Pow2;
    SmallPowers();
  }

  lemma {:induction false} DistRange(c: nat)
    requires c < 30
    ensures |EXTRA_DBITS| == 30 && |DBASE| == 32 && DBASE[0] == 1 && DBASE[c] >= 1
    ensures DBASE[c] - 1 + Pow2(EXTRA_DBITS[c]) == DistTop(c) <= (if c < 16 then 256 else 32768)
    ensures c > 0 ==> DistTop(c - 1) == DBASE[c] - 1
    ensures c >= 16 ==> EXTRA_DBITS[c] >= 7 && Pow2(EXTRA_DBITS[c]) == 128 * Pow2(EXTRA_DBITS[c] - 7)
  {
    hide Pow2, DBASE, EXTRA_DBITS;
    if c >= 16 {
      FarRange(c);
      FarWidth(EXTRA_DBITS[c]);
    } else {
      NearRange(c);
    }
  }

  lemma {:induction false} FarWidth(e: nat)
    requires 7 <= e <= 13
    ensures Pow2(e) == 128 * Pow2(e - 7)
  {
    hide Pow2;
    SmallPowers();
  }

  lemma {:induction false} DistEnds()
    ensures DistTop(15) == 256 && DistTop(29) == 32768
  {
  }

  /** The codes set so far for the distances below upto. */
  ghost predicate NearDone(distCode: seq<nat>, baseDist: seq<nat>, code: nat, upto: nat)
    requires |distCode| == 512 && |baseDist| == 30 && upto <= 256
  {
    forall d :: 0 <= d < upto ==>
      && distCode[d] <= code && distCode[d] < 16
      && baseDist[distCode[d]] == DBASE[distCode[d]] - 1
      && baseDist[distCode[d]] <= d < DistTop(distCode[d])
  }

  /** The codes set so far for groups of 128 distances. */
  ghost predicate FarDone(distCode: seq<nat>, baseDist: seq<nat>, code: nat, upto: nat)
    requires |distCode| == 512 && |baseDist| == 30 && upto <= 256
  {
    forall i :: 258 <= i < 256 + upto ==>
      && 16 <= distCode[i] <= code && distCode[i] < 30
      && baseDist[distCode[i]] == DBASE[distCode[i]] - 1
      && baseDist[distCode[i]] <= 128 * (i - 256) && 128 * (i - 256) + 128 <= DistTop(distCode[i])
  }

  /** The distance half of tr_static_init. */
  method DistTables() returns (distCode: array<nat>, baseDist: array<nat>)
    ensures fresh(distCode) && fresh(baseDist) && distCode.Length == 512 && baseDist.Length == 30
    ensures NearDone(distCode[..], baseDist[..], 30, 256) && FarDone(distCode[..], baseDist[..], 30, 256)
  {
    hide Pow2, DBASE, EXTRA_DBITS, DistTop;
    distCode := new nat[512](_ => 0);
    baseDist := new nat[30](_ => 0);
    var dist: nat, code: nat := 0, 0;
    while code < 16
      invariant code <= 16 && fresh(distCode) && fresh(baseDist)
      invariant dist == (if code == 0 then 0 else DistTop(code - 1)) && dist <= 256
      invariant NearDone(distCode[..], baseDist[..], code, dist)
    {
      DistRange(code);
      baseDist[code] := dist;
      var n := 0;
      while n < Pow2(EXTRA_DBITS[code])
        invariant n <= Pow2(EXTRA_DBITS[code]) && dist == DBASE[code] - 1 + n <= 256
        invariant baseDist[code] == DBASE[code] - 1
        invariant NearDone(distCode[..], baseDist[..], code, dist)
        modifies distCode
      {
        distCode[dist] := code;
        dist, n := dist + 1, n + 1;
      }
      code := code + 1;
    }
    DistEnds();
    FarTable(distCode, baseDist);
  }

  method FarTable(distCode: array<nat>, baseDist: array<nat>)
    requires distCode.Length == 512 && baseDist.Length == 30 && distCode != baseDist
    requires NearDone(distCode[..], baseDist[..], 16, 256)
    modifies distCode, baseDist
    ensures NearDone(distCode[..], baseDist[..], 30, 256) && FarDone(distCode[..], baseDist[..], 30, 256)
  {
    hide Pow2, DBASE, EXTRA_DBITS, DistTop;
    DistEnds();
    var dist: nat, code: nat := 2, 16;
    while code < 30
      invariant 16 <= code <= 30
      invariant 128 * dist == DistTop(code - 1) && 2 <= dist <= 256
      invariant NearDone(distCode[..], baseDist[..], code, 256)
      invariant FarDone(distCode[..], baseDist[..], code, dist)
    {
      DistRange(code);
      baseDist[code] := 128 * dist;
      var n := 0;
      while n < Pow2(EXTRA_DBITS[code] - 7)
        invariant n <= Pow2(EXTRA_DBITS[code] - 7) && 128 * dist == DBASE[code] - 1 + 128 * n && 2 <= dist <= 256
        invariant baseDist[code] == DBASE[code] - 1
        invariant NearDone(distCode[..], baseDist[..], code, 256)
        invariant FarDone(distCode[..], baseDist[..], code, dist)
        modifies distCode
      {
        distCode[256 + dist] := code;
        dist, n := dist + 1, n + 1;
      }
      code := code + 1;
    }
  }

  lemma {:induction false} Fits(t: Tables)
    requires Sizes(t)
    requires LengthsDone(t.lengthCode, t.baseLength, 28, 255) && t.lengthCode[255] == 28
    requires NearDone(t.distCode, t.baseDist, 30, 256) && FarDone(t.distCode, t.baseDist, 30, 256)
    ensures TablesFit(t)
  {
    hide Pow2, DBASE, EXTRA_DBITS, DistTop, LBASE, EXTRA_LBITS, LengthTop;
    forall lc | 0 <= lc < 256
      ensures LengthFits(t, lc)
    {
      LengthRange(if lc == 255 then 0 else t.lengthCode[lc]);
    }
    forall d | 0 <= d < 32768
      ensures DistFits(t, d)
    {
      DistRange(DistCode(t, d));
    }
  }

  method StaticInit() returns (t: Tables)
    ensures TablesFit(t)
  {
    hide LengthsDone, NearDone, FarDone, TablesFit;
    var lengthCode, baseLength := LengthTables();
    var distCode, baseDist := DistTables();
    t := Tables(lengthCode[..], baseLength[..], distCode[..], baseDist[..]);
    Fits(t);
  }
}
