/** The braided CRC: n words of eight bytes at a time, each in a CRC of its own, joined at the end. */
module CrcBraid {
  import opened Bits
  import opened Lz77
  import opened Gf2
  import opened Gf2Powers
  import opened Crc
  import opened CrcCombine

  // ----- words -----

  /** Nothing stands above the low n bytes. */
  predicate Fits(w: bv64, n: nat)
  {
    match n
    case 0 => w == 0
    case 1 => w >> 8 == 0
    case 2 => w >> 16 == 0
    case 3 => w >> 24 == 0
    case 4 => w >> 32 == 0
    case 5 => w >> 40 == 0
    case 6 => w >> 48 == 0
    case 7 => w >> 56 == 0
    case _ => true
  }

  function Up8(u: bv64): (r: bv64) { u << 8 }

  /** Bytes as a word, the first byte lowest. */
  function WordOf(bytes: seq<octet>): (w: bv64)
    requires |bytes| <= 8
    decreases |bytes|
  {
    if bytes == [] then 0 else Xor(bytes[0], Up8(WordOf(bytes[1..])))
  }

  lemma {:induction false} WordFits(bytes: seq<octet>)
    requires |bytes| <= 8
    ensures Fits(WordOf(bytes), |bytes|)
    decreases |bytes|
  {
    hide Fits, Xor, Up8;
    if bytes == [] {
      NoneFits();
    } else {
      WordFits(bytes[1..]);
      MoreFits(bytes[0], WordOf(bytes[1..]), |bytes| - 1);
    }
  }

  lemma {:induction false} NoneFits()
    ensures Fits(0, 0)
  {
  }

  lemma {:induction false} AboveByte(b: bv64, u: bv64)
    requires b >> 8 == 0 && u >> 56 == 0
    ensures (b ^ (u << 8)) >> 8 == u
  {
  }

  lemma {:induction false} FitsSeven(u: bv64, n: nat)
    requires n < 8 && Fits(u, n)
    ensures Fits(u, 7)
  {
  }

  lemma {:induction false} FitsUp(w: bv64, n: nat)
    requires n < 8 && Fits(w >> 8, n)
    ensures Fits(w, n + 1)
  {
  }

  lemma {:induction false} ByteHigh(b: octet)
    ensures b >> 8 == 0
  {
  }

  lemma {:induction false} MoreFits(b: octet, u: bv64, n: nat)
    requires n < 8 && Fits(u, n)
    ensures Fits(Xor(b, Up8(u)), n + 1) && Fits(u, 7)
  {
    hide Fits;
    FitsSeven(u, n);
    ByteHigh(b);
    assert u >> 56 == 0 by { SevenBytes(u); }
    AboveByte(b, u);
    FitsUp(Xor(b, Up8(u)), n);
  }

  lemma {:induction false} SevenBytes(u: bv64)
    requires Fits(u, 7)
    ensures u >> 56 == 0
  {
  }

  lemma {:induction false} FewerFits(u: bv64, n: nat)
    requires 0 < n <= 8 && Fits(u, n)
    ensures Fits(u >> 8, n - 1)
  {
  }

  /** A byte and what stands above it. */
  lemma {:induction false} Peel(v: bv64, u: bv64, n: nat)
    requires Fits(u, 7) && n >= 8
    ensures TimesN(Xor(v, Up8(u)), n) == TimesN(Xor(TimesN(v, 8), u), n - 8)
  {
    hide Xor, TimesN;
    TimesNXor(v, u << 8, 8);
    Out8(u);
    TimesNAdd(Xor(v, u << 8), 8, n - 8);
  }

  lemma {:induction false} RegCons(c: bv64, b: octet, bytes: seq<octet>)
    ensures Reg(c, [b] + bytes) == Reg(Byte(c, b), bytes)
  {
    hide Byte, Reg;
    RegConcat(c, [b], bytes);
    assert [] + [b] == [b];
    RegSnoc(c, [], b);
    RegNone(c);
  }

  /** The bytes of a word at once. */
  lemma {:induction false} WordReg(c: bv64, bytes: seq<octet>)
    requires |bytes| <= 8
    ensures Reg(c, bytes) == TimesN(Xor(c, WordOf(bytes)), 8 * |bytes|)
    decreases |bytes|
  {
    hide Reg, Xor, TimesN, Up8, Fits;
    if bytes == [] {
      RegNone(c);
      XorZero(c);
      TimesNNone(c);
    } else {
      var b, rest := bytes[0], bytes[1..];
      var u := WordOf(rest);
      WordReg(Byte(c, b), rest);
      assert bytes == [b] + rest;
      RegCons(c, b, rest);
      XorAssociates(c, b, Up8(u));
      WordFits(rest);
      MoreFits(b, u, |rest|);
      Peel(Xor(c, b), u, 8 * |bytes|);
    }
  }

  /** The register after words. */
  function RegW(c: bv64, ws: seq<bv64>): (r: bv64)
    decreases |ws|
  {
    if ws == [] then c else RegW(TimesN(Xor(c, ws[0]), 64), ws[1..])
  }

  function WordsOf(bytes: seq<octet>): (ws: seq<bv64>)
    requires |bytes| % 8 == 0
    ensures 8 * |ws| == |bytes|
    decreases |bytes|
  {
    if bytes == [] then [] else [WordOf(bytes[..8])] + WordsOf(bytes[8..])
  }

  lemma {:induction false} WordsAt(bytes: seq<octet>, j: nat)
    requires |bytes| % 8 == 0 && 8 * j < |bytes|
    ensures WordsOf(bytes)[j] == WordOf(bytes[8 * j..8 * j + 8])
    decreases j
  {
    hide WordOf, WordsOf;
    WordsFirst(bytes);
    if j > 0 {
      WordsAt(bytes[8..], j - 1);
      WordOfTail(bytes, 8 * j);
    }
  }

  lemma {:induction false} WordOfTail(bytes: seq<octet>, k: nat)
    requires 8 <= k <= |bytes| - 8
    ensures bytes[8..][k - 8..k] == bytes[k..k + 8]
  {
  }

  lemma {:induction false} WordsFirst(bytes: seq<octet>)
    requires |bytes| % 8 == 0 && bytes != []
    ensures |bytes| >= 8 && WordsOf(bytes) == [WordOf(bytes[0..8])] + WordsOf(bytes[8..])
  {
    hide WordOf;
    assert bytes[0..8] == bytes[..8];
  }

  lemma {:induction false} WordsReg(c: bv64, bytes: seq<octet>)
    requires |bytes| % 8 == 0
    ensures Reg(c, bytes) == RegW(c, WordsOf(bytes))
    decreases |bytes|
  {
    hide Reg, Xor, TimesN, WordOf;
    if bytes == [] {
      RegNone(c);
    } else {
      var first, rest := bytes[..8], bytes[8..];
      assert bytes == first + rest;
      RegConcat(c, first, rest);
      WordReg(c, first);
      WordsReg(Reg(c, first), rest);
      var ws := WordsOf(bytes);
      assert ws[1..] == WordsOf(rest);
    }
  }

  lemma {:induction false} RegWXor(c: bv64, d: bv64, ws: seq<bv64>)
    ensures RegW(Xor(c, d), ws) == Xor(RegW(c, ws), TimesN(d, 64 * |ws|))
    decreases |ws|
  {
    hide Xor, TimesN, Times;
    if ws == [] {
      TimesNNone(d);
    } else {
      var w := ws[0];
      XorAssociates(c, d, w);
      XorCommutes(d, w);
      XorAssociates(c, w, d);
      TimesNXor(Xor(c, w), d, 64);
      RegWXor(TimesN(Xor(c, w), 64), TimesN(d, 64), ws[1..]);
      TimesNAdd(d, 64, 64 * |ws[1..]|);
    }
  }

  // ----- what each braid adds -----

  /** What the first j values add, when the first is len words before the end. */
  function Adds(vs: seq<bv64>, len: nat, j: nat): (r: bv64)
    requires j <= |vs| && j <= len
    decreases j
  {
    if j == 0 then 0 else Xor(Adds(vs, len, j - 1), TimesN(vs[j - 1], 64 * (len - (j - 1))))
  }

  /** The register splits into what the first words add and the rest. */
  lemma {:induction false} AddsWords(ws: seq<bv64>, j: nat)
    requires j <= |ws|
    ensures RegW(0, ws) == Xor(Adds(ws, |ws|, j), RegW(0, ws[j..]))
    decreases j
  {
    hide Xor, TimesN, RegW;
    if j == 0 {
      XorZero(RegW(0, ws));
      assert ws[0..] == ws;
    } else {
      AddsWords(ws, j - 1);
      var rest, w := ws[j - 1..], ws[j - 1];
      assert rest[0] == w && rest[1..] == ws[j..];
      FirstWord(rest);
      var t := TimesN(w, 64 * |rest|);
      XorCommutes(RegW(0, ws[j..]), t);
      XorAssociates(Adds(ws, |ws|, j - 1), t, RegW(0, ws[j..]));
    }
  }

  lemma {:induction false} FirstWord(ws: seq<bv64>)
    requires |ws| > 0
    ensures RegW(0, ws) == Xor(RegW(0, ws[1..]), TimesN(ws[0], 64 * |ws|))
  {
    hide Xor, TimesN;
    XorZero(ws[0]);
    XorZero(TimesN(ws[0], 64));
    RegWXor(0, TimesN(ws[0], 64), ws[1..]);
    TimesNAdd(ws[0], 64, 64 * |ws[1..]|);
  }

  /** The braids after a block add what the braids and the block added before it. */
  lemma {:induction false} AddsBlock(crcs: seq<bv64>, ws: seq<bv64>, crcs': seq<bv64>, n: nat, len: nat, j: nat)
    requires |crcs| == |crcs'| == n <= |ws| && 2 * n <= len && j <= n
    requires forall i :: 0 <= i < n ==> crcs'[i] == TimesN(Xor(crcs[i], ws[i]), 64 * n)
    ensures Adds(crcs', len - n, j) == Xor(Adds(crcs, len, j), Adds(ws, len, j))
    decreases j
  {
    hide Xor, TimesN;
    if j == 0 {
      XorZero(0);
    } else {
      var i := j - 1;
      AddsBlock(crcs, ws, crcs', n, len, i);
      var e := 64 * (len - i);
      TimesNAdd(Xor(crcs[i], ws[i]), 64 * n, 64 * (len - n - i));
      assert 64 * n + 64 * (len - n - i) == e;
      TimesNXor(crcs[i], ws[i], e);
      XorSwap(Adds(crcs, len, i), Adds(ws, len, i), TimesN(crcs[i], e), TimesN(ws[i], e));
    }
  }

  lemma {:induction false} AddsMixed(crcs: seq<bv64>, ws: seq<bv64>, mixed: seq<bv64>, n: nat, len: nat, j: nat)
    requires |crcs| == |mixed| == n <= |ws| && n <= len && j <= n
    requires forall i :: 0 <= i < n ==> mixed[i] == Xor(crcs[i], ws[i])
    ensures Adds(mixed, len, j) == Xor(Adds(crcs, len, j), Adds(ws, len, j))
    decreases j
  {
    hide Xor, TimesN;
    if j == 0 {
      XorZero(0);
    } else {
      var i := j - 1;
      AddsMixed(crcs, ws, mixed, n, len, i);
      var e := 64 * (len - i);
      TimesNXor(crcs[i], ws[i], e);
      XorSwap(Adds(crcs, len, i), Adds(ws, len, i), TimesN(crcs[i], e), TimesN(ws[i], e));
    }
  }

  /** The register goal is that of the words to come, plus what the braids add. */
  ghost predicate Braided(goal: bv64, crcs: seq<bv64>, ws: seq<bv64>)
  {
    |crcs| <= |ws| && goal == Xor(RegW(0, ws), Adds(crcs, |ws|, |crcs|))
  }

  /** At first all is in the first braid. */
  lemma {:induction false} BraidStart(c: bv64, crcs: seq<bv64>, ws: seq<bv64>)
    requires 0 < |crcs| <= |ws| && crcs[0] == c && forall i :: 0 < i < |crcs| ==> crcs[i] == 0
    ensures Braided(RegW(c, ws), crcs, ws)
  {
    hide Xor, TimesN, RegW;
    XorZero(c);
    RegWXor(0, c, ws);
    OnlyFirst(crcs, |ws|, |crcs|);
  }

  lemma {:induction false} OnlyFirst(crcs: seq<bv64>, len: nat, j: nat)
    requires 0 < j <= |crcs| <= len && forall i :: 0 < i < |crcs| ==> crcs[i] == 0
    ensures Adds(crcs, len, j) == TimesN(crcs[0], 64 * len)
    decreases j
  {
    hide Xor, TimesN;
    XorZero(TimesN(crcs[0], 64 * len));
    if j == 1 {
      assert Adds(crcs, len, 0) == 0;
    } else {
      OnlyFirst(crcs, len, j - 1);
      TimesNZero(64 * (len - (j - 1)));
    }
  }

  lemma {:induction false} BraidStep(goal: bv64, crcs: seq<bv64>, ws: seq<bv64>, crcs': seq<bv64>)
    requires Braided(goal, crcs, ws) && |crcs'| == |crcs| && 2 * |crcs| <= |ws|
    requires forall i :: 0 <= i < |crcs| ==> crcs'[i] == TimesN(Xor(crcs[i], ws[i]), 64 * |crcs|)
    ensures Braided(goal, crcs', ws[|crcs|..])
  {
    hide Xor, TimesN, RegW, Adds;
    var n := |crcs|;
    var a, b, r := Adds(crcs, |ws|, n), Adds(ws, |ws|, n), RegW(0, ws[n..]);
    AddsWords(ws, n);
    AddsBlock(crcs, ws, crcs', n, |ws|, n);
    XorCommutes(b, r);
    XorAssociates(r, b, a);
    XorCommutes(a, b);
  }

  lemma {:induction false} BraidEnd(goal: bv64, crcs: seq<bv64>, ws: seq<bv64>, mixed: seq<bv64>)
    requires Braided(goal, crcs, ws) && |mixed| == |crcs| == |ws|
    requires forall i :: 0 <= i < |crcs| ==> mixed[i] == Xor(crcs[i], ws[i])
    ensures goal == RegW(0, mixed)
  {
    hide Xor, TimesN, RegW, Adds;
    var n := |crcs|;
    AddsWords(ws, n);
    AddsWords(mixed, n);
    AddsMixed(crcs, ws, mixed, n, n, n);
    assert ws[n..] == [] == mixed[n..];
    NoWords();
    var a, b := Adds(crcs, n, n), Adds(ws, n, n);
    XorZero(b);
    XorZero(Adds(mixed, n, n));
    XorCommutes(a, b);
  }

  lemma {:induction false} NoWords()
    ensures RegW(0, []) == 0
  {
  }

  // ----- crc_word -----

  /** The CRC of the eight bytes of a word. */
  method CrcWord(table: array<bv64>, data: bv64) returns (r: bv64)
    requires CrcTable(table)
    ensures r == TimesN(data, 64) && Is32(r)
  {
    hide Xor, TimesN, LowByte, Fits;
    r := data;
    TimesNNone(data);
    AnyFits(data);
    for k := 0 to 8
      invariant r == TimesN(data, 8 * k) && Fits(r, if k < 4 then 8 - k else 4)
    {
      TableStep(r);
      TimesNAdd(data, 8 * k, 8);
      TimesNSmall(LowByte(r), 8);
      StepFits(r, table[LowByte(r) as int], if k < 4 then 8 - k else 4);
      r := Xor(r >> 8, table[LowByte(r) as int]);
    }
    FourFit(r);
  }

  /** A word shrinks by a byte at each step, down to 32 bits. */
  lemma {:induction false} StepFits(v: bv64, t: bv64, n: nat)
    requires 4 <= n <= 8 && Fits(v, n) && Is32(t)
    ensures Fits(Xor(v >> 8, t), if n > 4 then n - 1 else 4)
  {
  }

  lemma {:induction false} FourFit(v: bv64)
    requires Fits(v, 4)
    ensures Is32(v)
  {
  }

  // ----- braid tables -----

  /** Byte b in place k of a word, n words on. */
  function Ahead(b: bv64, n: nat, k: nat): (r: bv64)
    requires k < 8 && n >= 1
  {
    TimesN(b, 8 * (8 * n - k))
  }

  ghost predicate BraidRow(row: array<bv64>, n: nat, k: nat)
    requires n >= 1 && k < 8
    reads row
  {
    row.Length == 256 && forall b: octet :: row[b as int] == Ahead(b, n, k)
  }

  ghost predicate BraidTable(ltl: seq<array<bv64>>, n: nat)
    reads ltl
  {
    |ltl| == 8 && n >= 1 && forall k: nat :: k < 8 ==> BraidRow(ltl[k], n, k)
  }

  lemma {:induction false} BraidEntry(i: octet, n: nat, k: nat)
    requires k < 8 && 1 <= n
    ensures Is32(i << 24) && (i != 0 ==> i << 24 != 0)
    ensures Mul(i << 24, XPow(8 * (8 * n + 3 - k))) == Ahead(i, n, k)
  {
    hide Mul, TimesN;
    var v, e := i << 24, 8 * (8 * n + 3 - k);
    assert Is32(v) && (i != 0 ==> v != 0);
    XPowFacts(e);
    MulPower(e, v);
    MulCommutes(v, XPow(e));
    Out24(i);
    TimesNAdd(v, 24, 8 * (8 * n - k));
  }

  lemma {:induction false} Out24(i: octet)
    ensures TimesN(i << 24, 24) == i
  {
    hide TimesN;
    assert i << 24 == (i << 16) << 8 && i << 16 < 0x100_0000_0000_0000;
    assert i << 16 == (i << 8) << 8 && i << 8 < 0x100_0000_0000_0000;
    Out8(i << 16);
    Out8(i << 8);
    Out8(i);
    TimesNAdd(i << 24, 8, 8);
    TimesNAdd(i << 24, 16, 8);
  }

  /** One row of the table. */
  method MakeRow(x2n: array<bv64>, n: nat, k: nat) returns (row: array<bv64>)
    requires X2nTable(x2n) && n >= 1 && k < 8
    ensures fresh(row) && BraidRow(row, n, k)
  {
    hide Mul, XPow, X2n, Shl, Ahead, X2nTable, Octet;
    var p := X2nModP(8 * (8 * n + 3 - k), 0, x2n);
    ShlSame(8 * (8 * n + 3 - k));
    AheadZero(n, k);
    NotZero(1);
    row := new bv64[256];
    row[0] := 0;
    for i := 1 to 256
      invariant forall j :: 0 <= j < i ==> row[j] == Ahead(Octet(j), n, k)
    {
      var b: bv64 := Octet(i);
      BraidEntry(b, n, k);
      NotZero(i);
      row[i] := MultModP(b << 24, p);
    }
    forall b: octet
      ensures row[b as int] == Ahead(b, n, k)
    {
      OctetBack(b);
    }
  }

  lemma {:induction false} AheadZero(n: nat, k: nat)
    requires n >= 1 && k < 8
    ensures Ahead(0, n, k) == 0
  {
    TimesNZero(8 * (8 * n - k));
  }

  /** braid(): the table for n braids. */
  method MakeBraid(x2n: array<bv64>, n: nat) returns (ltl: seq<array<bv64>>)
    requires X2nTable(x2n) && n >= 1
    ensures BraidTable(ltl, n)
  {
    hide Ahead, X2nTable;
    ltl := [];
    for k := 0 to 8
      invariant |ltl| == k && forall i: nat :: i < k ==> BraidRow(ltl[i], n, i)
    {
      var row := MakeRow(x2n, n, k);
      ltl := ltl + [row];
    }
  }

  // ----- a block -----

  /** One word n words on: all its bytes by table. */
  method BraidWord(ltl: seq<array<bv64>>, n: nat, word: bv64) returns (crc: bv64)
    requires BraidTable(ltl, n)
    ensures crc == TimesN(word, 64 * n) && Is32(crc)
  {
    hide Xor, TimesN, Fits, LowByte, Is32;
    var rest := word;
    crc := 0;
    XorZero(TimesN(word, 64 * n));
    AnyFits(word);
    ZeroSmall();
    for k := 0 to 8
      invariant Is32(crc) && Fits(rest, 8 - k) && Xor(crc, TimesN(rest, 8 * (8 * n - k))) == TimesN(word, 64 * n)
    {
      var b := LowByte(rest);
      assert BraidRow(ltl[k], n, k);
      BraidByte(rest, n, k, crc);
      FewerFits(rest, 8 - k);
      OctetSmall(b);
      TimesNSmall(b, 8 * (8 * n - k));
      XorSmall(crc, ltl[k][b as int]);
      crc := Xor(crc, ltl[k][b as int]);
      rest := rest >> 8;
    }
    NoByte(rest);
    TimesNZero(8 * (8 * n - 8));
    XorZero(crc);
  }

  lemma {:induction false} AnyFits(w: bv64)
    ensures Fits(w, 8)
  {
  }

  lemma {:induction false} ZeroSmall()
    ensures Is32(0)
  {
  }

  lemma {:induction false} OctetSmall(b: octet)
    ensures Is32(b)
  {
  }

  lemma {:induction false} NoByte(w: bv64)
    requires Fits(w, 0)
    ensures w == 0
  {
  }

  lemma {:induction false} BraidByte(rest: bv64, n: nat, k: nat, crc: bv64)
    requires n >= 1 && k < 8
    ensures Xor(crc, TimesN(rest, 8 * (8 * n - k))) == Xor(Xor(crc, Ahead(LowByte(rest), n, k)), TimesN(rest >> 8, 8 * (8 * n - (k + 1))))
  {
    hide Xor, TimesN, LowByte;
    var e, b, u := 8 * (8 * n - k), LowByte(rest), rest >> 8;
    SplitByte(rest);
    TimesNXor(b, u << 8, e);
    Out8(u);
    TimesNAdd(u << 8, 8, e - 8);
    XorAssociates(crc, TimesN(b, e), TimesN(u, e - 8));
  }
  lemma {:induction false} NotZero(i: int)
    requires 0 < i < 256
    ensures Octet(i) != 0 && Octet(0) == 0
  {
  }

  lemma {:induction false} ShlSame(v: nat)
    ensures Shl(v, 0) == v
  {
  }

  // ----- all blocks -----

  lemma {:induction false} RegWSnoc(c: bv64, ws: seq<bv64>, w: bv64)
    ensures RegW(c, ws + [w]) == TimesN(Xor(RegW(c, ws), w), 64)
    decreases |ws|
  {
    hide Xor, TimesN;
    if ws == [] {
      assert [w][1..] == [];
      assert [] + [w] == [w];
    } else {
      RegWSnoc(TimesN(Xor(c, ws[0]), 64), ws[1..], w);
      assert (ws + [w])[1..] == ws[1..] + [w];
    }
  }

  /** Load the word for each braid, and update its CRC. */
  method NextBlock(ltl: seq<array<bv64>>, n: nat, buf: seq<octet>, at: nat, crcs: seq<bv64>) returns (r: seq<bv64>)
    requires BraidTable(ltl, n) && |crcs| == n && at + 8 * n <= |buf|
    ensures |r| == n && forall j :: 0 <= j < n ==> r[j] == TimesN(Xor(crcs[j], WordOf(buf[at + 8 * j..at + 8 * j + 8])), 64 * n)
  {
    hide Xor, TimesN, WordOf, BraidTable;
    r := [];
    for j := 0 to n
      invariant |r| == j && forall i :: 0 <= i < j ==> r[i] == TimesN(Xor(crcs[i], WordOf(buf[at + 8 * i..at + 8 * i + 8])), 64 * n)
    {
      var word := Xor(crcs[j], WordOf(buf[at + 8 * j..at + 8 * j + 8]));
      var c := BraidWord(ltl, n, word);
      r := r + [c];
    }
  }

  /** The last block joins the braids. */
  method LastBlock(table: array<bv64>, n: nat, buf: seq<octet>, at: nat, crcs: seq<bv64>) returns (r: bv64, ghost mixed: seq<bv64>)
    requires CrcTable(table) && |crcs| == n && at + 8 * n <= |buf|
    ensures |mixed| == n && (forall j :: 0 <= j < n ==> mixed[j] == Xor(crcs[j], WordOf(buf[at + 8 * j..at + 8 * j + 8]))) && r == RegW(0, mixed)
  {
    hide Xor, TimesN, WordOf, CrcTable, RegW;
    r, mixed := 0, [];
    NoWords();
    for j := 0 to n
      invariant |mixed| == j && (forall i :: 0 <= i < j ==> mixed[i] == Xor(crcs[i], WordOf(buf[at + 8 * i..at + 8 * i + 8]))) && r == RegW(0, mixed)
    {
      var word := Xor(crcs[j], WordOf(buf[at + 8 * j..at + 8 * j + 8]));
      XorCommutes(word, r);
      RegWSnoc(0, mixed, word);
      r := CrcWord(table, Xor(word, r));
      mixed := mixed + [word];
    }
  }

  /** The bytes of so many blocks. */
  function Bytes(n: nat, blks: nat): (r: nat)
    decreases blks
  {
    if blks == 0 then 0 else Bytes(n, blks - 1) + 8 * n
  }

  lemma {:induction false} BytesIs(n: nat, blks: nat)
    ensures Bytes(n, blks) == 8 * n * blks
    decreases blks
  {
    if blks > 0 {
      BytesIs(n, blks - 1);
      assert 8 * n * blks == 8 * n * (blks - 1) + 8 * n;
    }
  }

  lemma {:induction false} BytesMore(n: nat, blks: nat)
    requires blks > 0
    ensures Bytes(n, blks) == Bytes(n, blks - 1) + 8 * n && Bytes(n, blks) % 8 == 0 && Bytes(n, 0) == 0
    decreases blks
  {
    hide Bytes;
    BytesStep(n, blks);
    if blks > 1 {
      BytesMore(n, blks - 1);
    } else {
      BytesNone(n);
    }
    WholeWords(Bytes(n, blks - 1), n);
  }

  lemma {:induction false} BytesStep(n: nat, blks: nat)
    requires blks > 0
    ensures Bytes(n, blks) == Bytes(n, blks - 1) + 8 * n
  {
  }

  lemma {:induction false} BytesNone(n: nat)
    ensures Bytes(n, 0) == 0
  {
  }

  lemma {:induction false} WholeWords(a: nat, n: nat)
    requires a % 8 == 0
    ensures (a + 8 * n) % 8 == 0
  {
  }

  /** What is left of the words after a block. */
  lemma {:induction false} NextWords(part: seq<octet>, n: nat)
    requires |part| % 8 == 0 && 8 * n <= |part|
    ensures WordsOf(part)[n..] == WordsOf(part[8 * n..]) && |WordsOf(part)| >= n
    decreases n
  {
    hide WordOf;
    if n == 0 {
      assert part[0..] == part && WordsOf(part)[0..] == WordsOf(part);
    } else {
      NextWords(part[8..], n - 1);
      assert part[8..][8 * (n - 1)..] == part[8 * n..];
      assert WordsOf(part)[1..] == WordsOf(part[8..]);
      assert WordsOf(part)[n..] == WordsOf(part)[1..][n - 1..];
    }
  }

  lemma {:induction false} SliceSlice<T>(s: seq<T>, a: nat, b: nat, c: nat, d: nat)
    requires a <= b <= |s| && c <= d <= b - a
    ensures s[a..b][c..d] == s[a + c..a + d]
  {
    var l, r := s[a..b][c..d], s[a + c..a + d];
    forall i | 0 <= i < d - c
      ensures l[i] == r[i]
    {
      assert l[i] == s[a..b][c + i] == s[a + (c + i)];
    }
  }

  /** The words at hand, as the code loads them. */
  lemma {:induction false} Loaded(buf: seq<octet>, at: nat, len: nat, j: nat)
    requires at + len <= |buf| && len % 8 == 0 && 8 * j < len
    ensures WordsOf(buf[at..at + len])[j] == WordOf(buf[at + 8 * j..at + 8 * j + 8])
  {
    hide WordOf, WordsOf;
    WordsAt(buf[at..at + len], j);
    SliceSlice(buf, at, at + len, 8 * j, 8 * j + 8);
  }

  /** One block read: the braids stand for the bytes that are left. */
  lemma {:induction false} BlockRead(goal: bv64, buf: seq<octet>, at: nat, len: nat, n: nat, crcs: seq<bv64>, crcs': seq<bv64>)
    requires at + len <= |buf| && len % 8 == 0 && 16 * n <= len && |crcs| == n == |crcs'|
    requires Braided(goal, crcs, WordsOf(buf[at..at + len]))
    requires forall j :: 0 <= j < n ==> crcs'[j] == TimesN(Xor(crcs[j], WordOf(buf[at + 8 * j..at + 8 * j + 8])), 64 * n)
    ensures Braided(goal, crcs', WordsOf(buf[at + 8 * n..at + len]))
  {
    hide Xor, TimesN, WordOf, WordsOf, Braided;
    var part := buf[at..at + len];
    var ws := WordsOf(part);
    forall j | 0 <= j < n
      ensures crcs'[j] == TimesN(Xor(crcs[j], ws[j]), 64 * n)
    {
      Loaded(buf, at, len, j);
    }
    BraidStep(goal, crcs, ws, crcs');
    NextWords(part, n);
    assert part[8 * n..] == buf[at + 8 * n..at + len];
  }

  /** All braids of blks blocks. */
  method Braids(table: array<bv64>, ltl: seq<array<bv64>>, n: nat, crc: bv64, buf: seq<octet>, from: nat, blks: nat) returns (r: bv64)
    requires CrcTable(table) && BraidTable(ltl, n) && n >= 1 && blks >= 1 && from + Bytes(n, blks) <= |buf|
    ensures r == Reg(crc, buf[from..from + Bytes(n, blks)])
  {
    hide Xor, TimesN, WordOf, WordsOf, Braided, RegW, Reg, CrcTable, BraidTable, Bytes;
    var at, left := from, blks;
    ghost var end := from + Bytes(n, blks);
    var crcs := [crc] + seq(n - 1, _ => 0);
    BytesMore(n, blks);
    ghost var goal := Reg(crc, buf[from..end]);
    WordsReg(crc, buf[from..end]);
    BraidStart(crc, crcs, WordsOf(buf[from..end]));
    while left > 1
      invariant CrcTable(table) && BraidTable(ltl, n) && 1 <= left && at >= 0 && at + Bytes(n, left) == end && |crcs| == n && (end - at) % 8 == 0
      invariant Braided(goal, crcs, WordsOf(buf[at..end]))
    {
      BytesMore(n, left);
      BytesMore(n, left - 1);
      var crcs' := NextBlock(ltl, n, buf, at, crcs);
      BlockRead(goal, buf, at, end - at, n, crcs, crcs');
      crcs, at, left := crcs', at + 8 * n, left - 1;
    }
    BytesMore(n, 1);
    ghost var mixed;
    r, mixed := LastBlock(table, n, buf, at, crcs);
    LastRead(goal, buf, at, n, crcs, mixed);
  }

  lemma {:induction false} LastRead(goal: bv64, buf: seq<octet>, at: nat, n: nat, crcs: seq<bv64>, mixed: seq<bv64>)
    requires at + 8 * n <= |buf| && |crcs| == n == |mixed| && Braided(goal, crcs, WordsOf(buf[at..at + 8 * n]))
    requires forall j :: 0 <= j < n ==> mixed[j] == Xor(crcs[j], WordOf(buf[at + 8 * j..at + 8 * j + 8]))
    ensures goal == RegW(0, mixed)
  {
    hide Xor, TimesN, WordOf, WordsOf, Braided, RegW;
    var ws := WordsOf(buf[at..at + 8 * n]);
    forall j | 0 <= j < n
      ensures mixed[j] == Xor(crcs[j], ws[j])
    {
      Loaded(buf, at, 8 * n, j);
    }
    BraidEnd(goal, crcs, ws, mixed);
  }

  // ----- crc32_z -----

  lemma {:induction false} BlockCount(len: nat, n: nat)
    requires n >= 1 && len >= 8 * n
    ensures len / (8 * n) >= 1 && Bytes(n, len / (8 * n)) <= len
  {
    var d := 8 * n;
    var q := len / d;
    assert d * q <= len < d * q + d;
    BytesIs(n, q);
    if q == 0 {
      assert false;
    }
  }

  /** crc32_z with n braids, on a buffer at address addr: the CRC bit by bit. */
  method Crc32(table: array<bv64>, ltl: seq<array<bv64>>, n: nat, crc: crc32, buf: Option<seq<octet>>, addr: nat) returns (r: bv64)
    requires CrcTable(table) && BraidTable(ltl, n) && n >= 1
    ensures buf.None? ==> r == 0
    ensures buf.Some? ==> r == Crc.Checksum(crc, buf.value)
  {
    hide Xor, TimesN, Reg, CrcTable, BraidTable, Bytes;
    if buf.None? {
      return 0;
    }
    var bytes := buf.value;
    var c := Xor(crc, ONES);
    var at: nat := 0;
    ghost var init := c;
    RegNone(c);
    assert bytes[..0] == [];
    if |bytes| >= 8 * n + 7 {
      at := (8 - addr % 8) % 8;
      c := ByTable(table, c, bytes, 0, at);
      assert bytes[0..at] == bytes[..at];
      BlockCount(|bytes| - at, n);
      var blks := (|bytes| - at) / (8 * n);
      c := Braids(table, ltl, n, c, bytes, at, blks);
      BytesIs(n, blks);
      RegConcat(init, bytes[..at], bytes[at..at + Bytes(n, blks)]);
      assert bytes[..at] + bytes[at..at + Bytes(n, blks)] == bytes[..at + Bytes(n, blks)];
      at := at + 8 * n * blks;
    }
    RegConcat(init, bytes[..at], bytes[at..]);
    assert bytes[..at] + bytes[at..] == bytes;
    assert bytes[at..|bytes|] == bytes[at..];
    c := ByTable(table, c, bytes, at, |bytes|);
    r := Xor(c, ONES);
  }
}
