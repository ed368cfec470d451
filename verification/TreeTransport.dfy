/** Sending code lengths in run-length form: scan_tree and send_tree of trees.c, against
    the repeat codes of section 3.2.7 of RFC 1951 as inflate expands them. */
module TreeTransport {
  import opened Bits
  import opened Canonical
  import opened InflateTable
  import opened Lz77
  import opened InflateSpec
  import opened TreeCodes
  import opened Compress
  import B = BitWriter

  /** A length 0..15, or a repeat code 16..18 with the value of its extra bits. */
  datatype Token = Token(sym: nat, extra: nat)

  predicate TokenOk(k: Token)
  {
    k.sym <= 18 && (k.sym < 16 ==> k.extra == 0) && (k.sym == 16 ==> k.extra < 4) && (k.sym == 17 ==> k.extra < 8)
    && (k.sym == 18 ==> k.extra < 128)
  }

  /** How many leading elements equal v, at most cap. */
  function RunLen(lens: seq<nat>, v: nat, cap: nat): (n: nat)
    ensures n <= |lens| && n <= cap
    ensures forall i :: 0 <= i < n ==> lens[i] == v
    ensures n < cap && n < |lens| ==> lens[n] != v
  {
    if cap == 0 || lens == [] || lens[0] != v then 0 else 1 + RunLen(lens[1..], v, cap - 1)
  }

  /** The longest run sent at once, and the shortest that is worth a repeat code. */
  function MaxCount(prev: int, cur: nat): (n: nat) { if cur == 0 then 138 else if cur == prev then 6 else 7 }
  function MinCount(prev: int, cur: nat): (n: nat) { if cur == 0 || cur == prev then 3 else 4 }

  /** The codes for a run of count equal lengths. */
  function RunTokens(prev: int, cur: nat, count: nat): (ks: seq<Token>)
  {
    if count < MinCount(prev, cur) then seq(count, _ => Token(cur, 0))
    else if cur != 0 then
      if cur != prev then [Token(cur, 0), Token(16, count - 4)] else [Token(16, count - 3)]
    else if count <= 10 then [Token(17, count - 3)]
    else [Token(18, count - 11)]
  }

  /** The run at the front of lens. */
  function FrontRun(prev: int, lens: seq<nat>): (n: nat)
    requires lens != []
    ensures 1 <= n <= |lens| && n <= MaxCount(prev, lens[0])
  {
    assert MaxCount(prev, lens[0]) > 0;
    RunLen(lens, lens[0], MaxCount(prev, lens[0]))
  }

  /** The codes for a list of lengths; prev is the length before it, or -1. */
  function Tokens(prev: int, lens: seq<nat>): (ks: seq<Token>)
    decreases |lens|
  {
    if lens == [] then []
    else
      var n := FrontRun(prev, lens);
      RunTokens(prev, lens[0], n) + Tokens(lens[0], lens[n..])
  }

  // ----- expansion -----

  /** What inflate does with one code. */
  function ExpandToken(lens: seq<nat>, k: Token): (r: seq<nat>)
    requires TokenOk(k) && (k.sym == 16 ==> lens != [])
    ensures lens <= r
  {
    if k.sym < 16 then lens + [k.sym]
    else
      var (v, least, xb) := RepeatOf(k.sym, lens);
      Repeat(lens, v, least + k.extra)
  }

  /** A list of codes that makes sense after lens. */
  ghost predicate TokensOk(lens: seq<nat>, ks: seq<Token>)
    decreases |ks|
  {
    ks != [] ==> TokenOk(ks[0]) && (ks[0].sym == 16 ==> lens != []) && TokensOk(ExpandToken(lens, ks[0]), ks[1..])
  }

  ghost function ExpandTokens(lens: seq<nat>, ks: seq<Token>): (r: seq<nat>)
    requires TokensOk(lens, ks)
    ensures lens <= r
    decreases |ks|
  {
    if ks == [] then lens else ExpandTokens(ExpandToken(lens, ks[0]), ks[1..])
  }

  lemma {:induction false} TokensConcat(lens: seq<nat>, a: seq<Token>, b: seq<Token>)
    requires TokensOk(lens, a) && TokensOk(ExpandTokens(lens, a), b)
    ensures TokensOk(lens, a + b) && ExpandTokens(lens, a + b) == ExpandTokens(ExpandTokens(lens, a), b)
    decreases |a|
  {
    hide ExpandToken;
    if a == [] {
      assert a + b == b;
    } else {
      assert (a + b)[1..] == a[1..] + b;
      TokensConcat(ExpandToken(lens, a[0]), a[1..], b);
    }
  }

  lemma {:induction false} PlainTokens(lens: seq<nat>, v: nat, n: nat)
    requires v <= 15
    ensures var ks := seq(n, _ => Token(v, 0)); TokensOk(lens, ks) && ExpandTokens(lens, ks) == lens + seq(n, _ => v)
    decreases n
  {
    var ks := seq(n, _ => Token(v, 0));
    if n > 0 {
      PlainTokens(lens + [v], v, n - 1);
      assert ks[1..] == seq(n - 1, _ => Token(v, 0));
      assert lens + seq(n, _ => v) == lens + [v] + seq(n - 1, _ => v);
    }
  }

  lemma {:induction false} OneToken(lens: seq<nat>, k: Token)
    requires TokenOk(k) && (k.sym == 16 ==> lens != [])
    ensures TokensOk(lens, [k]) && ExpandTokens(lens, [k]) == ExpandToken(lens, k)
  {
    hide ExpandToken;
    assert [k][1..] == [];
  }

  /** The codes of a run expand to the run. */
  lemma {:induction false} RunExpands(lens: seq<nat>, prev: int, cur: nat, n: nat)
    requires cur <= 15 && 1 <= n <= MaxCount(prev, cur)
    requires prev == -1 || (lens != [] && lens[|lens| - 1] == prev)
    ensures var ks := RunTokens(prev, cur, n); TokensOk(lens, ks) && ExpandTokens(lens, ks) == lens + seq(n, _ => cur)
  {
    hide TokensOk, ExpandTokens;
    if n < MinCount(prev, cur) {
      PlainTokens(lens, cur, n);
    } else if cur != 0 && cur != prev {
      OneToken(lens, Token(cur, 0));
      OneToken(lens + [cur], Token(16, n - 4));
      TokensConcat(lens, [Token(cur, 0)], [Token(16, n - 4)]);
      assert [Token(cur, 0)] + [Token(16, n - 4)] == RunTokens(prev, cur, n);
      assert lens + [cur] + seq(n - 1, _ => cur) == lens + seq(n, _ => cur);
    } else if cur != 0 {
      OneToken(lens, Token(16, n - 3));
    } else if n <= 10 {
      OneToken(lens, Token(17, n - 3));
    } else {
      OneToken(lens, Token(18, n - 11));
    }
  }

  /** The codes of a list of lengths expand to the list. */
  lemma {:induction false} RoundTrip(done: seq<nat>, prev: int, lens: seq<nat>)
    requires ValidLens(lens) && (prev == -1 || (done != [] && done[|done| - 1] == prev))
    ensures TokensOk(done, Tokens(prev, lens)) && ExpandTokens(done, Tokens(prev, lens)) == done + lens
    decreases |lens|
  {
    hide TokensOk, ExpandTokens, RunTokens, MaxCount, Tokens, FrontRun;
    if lens == [] {
      assert Tokens(prev, lens) == [] by { TokensEmpty(prev); }
      NoTokens(done);
    } else {
      var n, v := FrontRun(prev, lens), lens[0];
      TokensFront(prev, lens);
      var run, rest := seq(n, _ => v), lens[n..];
      RunExpands(done, prev, v, n);
      assert (done + run)[|done + run| - 1] == v;
      RoundTrip(done + run, v, rest);
      TokensConcat(done, RunTokens(prev, v, n), Tokens(v, rest));
      assert done + run + rest == done + lens;
    }
  }

  lemma {:induction false} TokensEmpty(prev: int)
    ensures Tokens(prev, []) == []
  {
  }

  lemma {:induction false} TokensFront(prev: int, lens: seq<nat>)
    requires lens != []
    ensures var n := FrontRun(prev, lens);
      Tokens(prev, lens) == RunTokens(prev, lens[0], n) + Tokens(lens[0], lens[n..]) && lens == seq(n, _ => lens[0]) + lens[n..]
  {
    hide RunTokens, MaxCount;
    var n := FrontRun(prev, lens);
    assert lens[..n] == seq(n, _ => lens[0]);
    assert lens == lens[..n] + lens[n..];
  }

  lemma {:induction false} NoTokens(lens: seq<nat>)
    ensures TokensOk(lens, []) && ExpandTokens(lens, []) == lens
  {
  }

  // ----- bits -----

  ghost predicate Sendable(code: seq<nat>, k: Token) { TokenOk(k) && Used(code, k.sym) }

  ghost predicate SendableAll(code: seq<nat>, ks: seq<Token>) { forall i :: 0 <= i < |ks| ==> Sendable(code, ks[i]) }

  ghost function TokenBits(code: seq<nat>, k: Token): (b: BitString)
    requires Sendable(code, k)
  {
    CodeWord(code, k.sym) + if k.sym < 16 then [] else ToBits(k.extra, RepeatBits(k.sym))
  }

  ghost function TokensBits(code: seq<nat>, ks: seq<Token>): (b: BitString)
    requires SendableAll(code, ks)
  {
    if ks == [] then [] else TokenBits(code, ks[0]) + TokensBits(code, ks[1..])
  }

  lemma {:induction false} TokensBitsConcat(code: seq<nat>, a: seq<Token>, b: seq<Token>)
    requires SendableAll(code, a + b)
    ensures SendableAll(code, a) && SendableAll(code, b)
    ensures TokensBits(code, a + b) == TokensBits(code, a) + TokensBits(code, b)
    decreases |a|
  {
    hide Sendable, TokenBits;
    var all := a + b;
    assert forall i :: 0 <= i < |a| ==> a[i] == all[i];
    assert forall i :: 0 <= i < |b| ==> b[i] == all[|a| + i];
    if a == [] {
      assert all == b;
    } else {
      assert all[1..] == a[1..] + b;
      TokensBitsConcat(code, a[1..], b);
    }
  }

  /** inflate, reading code lengths, expands one code. */
  lemma {:induction false} TokenStep(st: State, k: Token, rest: BitString, out: seq<byte>)
    requires st.CodeLens? && Ok(st) && Sendable(st.code, k) && (k.sym == 16 ==> st.lens != [])
    requires |ExpandToken(st.lens, k)| <= st.nlen + st.ndist
    ensures Step(Conf(st, TokenBits(st.code, k) + rest, out)) == Some(Conf(st.(lens := ExpandToken(st.lens, k)), rest, out))
  {
    hide Step, Decode, CodeWord, Lsb, ToBits, Acceptable, Kraft, DynamicOk;
    var w := CodeWord(st.code, k.sym);
    var x := Conf(st, TokenBits(st.code, k) + rest, out);
    AtCodeLens(x);
    AcceptableKraft(CODES, st.code);
    DecodeWord(CODES, st.code, k.sym, x.bits);
    if k.sym >= 16 {
      var xb := RepeatBits(k.sym);
      SmallPowers();
      LsbToBits(k.extra, xb);
      LowSmall(k.extra, xb);
      assert x.bits == w + ToBits(k.extra, xb) + rest;
      assert x.bits[|w|..|w| + xb] == ToBits(k.extra, xb);
      assert x.bits[|w| + xb..] == rest;
    } else {
      assert x.bits[|w|..] == rest;
    }
  }

  lemma {:induction false} TokensSteps(st: State, ks: seq<Token>, rest: BitString, out: seq<byte>)
    requires st.CodeLens? && Ok(st) && SendableAll(st.code, ks) && TokensOk(st.lens, ks)
    requires |ExpandTokens(st.lens, ks)| <= st.nlen + st.ndist
    ensures Reaches(Conf(st, TokensBits(st.code, ks) + rest, out), Conf(st.(lens := ExpandTokens(st.lens, ks)), rest, out))
    decreases |ks|
  {
    hide Step, Reaches, TokenBits, ExpandToken, Sendable, Ok;
    var x := Conf(st, TokensBits(st.code, ks) + rest, out);
    if ks == [] {
      assert [] + rest == rest;
      assert st.(lens := ExpandTokens(st.lens, ks)) == st;
      ReachesSelf(x);
    } else {
      var tail := TokensBits(st.code, ks[1..]) + rest;
      assert x.bits == TokenBits(st.code, ks[0]) + tail;
      TokenStep(st, ks[0], tail, out);
      var st' := st.(lens := ExpandToken(st.lens, ks[0]));
      OkOfStep(x, Conf(st', tail, out));
      TokensSteps(st', ks[1..], rest, out);
      ReachesTrans(x, Conf(st', tail, out), Conf(st.(lens := ExpandTokens(st.lens, ks)), rest, out));
    }
  }

  // ----- send_tree -----

  method SendToken(w: B.BitWriter, bl: CodeTree, k: Token)
    requires w.Valid() && TreeOk(bl) && Sendable(bl.lens, k) && w.Fits(|TokenBits(bl.lens, k)|)
    modifies w`store, w`pending, w`buf, w`valid
    ensures w.Valid() && w.Bits() == old(w.Bits()) + TokenBits(bl.lens, k)
  {
    hide CodeWord, ToBits, ByteBits, TreeOk, Pow2, B.BitWriter.Bits, B.BitWriter.Valid;
    ghost var sent := w.Bits();
    SendCode(w, bl, k.sym);
    if k.sym >= 16 {
      SmallPowers();
      w.SendBits(k.extra, RepeatBits(k.sym));
    }
    assert w.Bits() == sent + TokenBits(bl.lens, k);
  }

  lemma {:induction false} OneTokenBits(code: seq<nat>, k: Token)
    requires Sendable(code, k)
    ensures SendableAll(code, [k]) && TokensBits(code, [k]) == TokenBits(code, k)
  {
    hide Sendable, TokenBits;
    assert [k][1..] == [];
  }

  /** The same length count times. */
  method SendPlain(w: B.BitWriter, bl: CodeTree, cur: nat, count: nat)
    requires w.Valid() && TreeOk(bl) && SendableAll(bl.lens, seq(count, _ => Token(cur, 0)))
    requires w.Fits(|TokensBits(bl.lens, seq(count, _ => Token(cur, 0)))|)
    modifies w`store, w`pending, w`buf, w`valid
    ensures w.Valid() && w.Bits() == old(w.Bits()) + TokensBits(bl.lens, seq(count, _ => Token(cur, 0)))
  {
    hide ByteBits, TreeOk, Sendable, TokenBits, TokensBits, B.BitWriter.Bits, B.BitWriter.Valid;
    ghost var sent := w.Bits();
    var c := 0;
    PlainBits(bl.lens, cur, count, 0);
    assert w.Bits() == sent + TokensBits(bl.lens, seq(0, _ => Token(cur, 0)));
    while c < count
      invariant c <= count && w.Valid() && SendableAll(bl.lens, seq(c, _ => Token(cur, 0)))
      invariant w.Bits() == sent + TokensBits(bl.lens, seq(c, _ => Token(cur, 0)))
    {
      PlainBits(bl.lens, cur, count, c);
      PlainGrows(bl.lens, cur, count, c + 1);
      SendToken(w, bl, Token(cur, 0));
      c := c + 1;
    }
  }

  lemma {:induction false} PlainBits(code: seq<nat>, cur: nat, count: nat, c: nat)
    requires SendableAll(code, seq(count, _ => Token(cur, 0))) && c <= count
    ensures SendableAll(code, seq(c, _ => Token(cur, 0)))
    ensures c == 0 ==> TokensBits(code, seq(c, _ => Token(cur, 0))) == []
    ensures c < count ==>
      && Sendable(code, Token(cur, 0)) && SendableAll(code, seq(c + 1, _ => Token(cur, 0)))
      && TokensBits(code, seq(c + 1, _ => Token(cur, 0))) == TokensBits(code, seq(c, _ => Token(cur, 0))) + TokenBits(code, Token(cur, 0))
  {
    hide Sendable, TokenBits;
    var all := seq(count, _ => Token(cur, 0));
    if count > 0 { assert Sendable(code, all[0]); }
    if c < count {
      var a := seq(c, _ => Token(cur, 0));
      assert a + [Token(cur, 0)] == seq(c + 1, _ => Token(cur, 0));
      TokensBitsConcat(code, a, [Token(cur, 0)]);
      OneTokenBits(code, Token(cur, 0));
    }
  }

  lemma {:induction false} PlainGrows(code: seq<nat>, cur: nat, count: nat, c: nat)
    requires SendableAll(code, seq(count, _ => Token(cur, 0))) && c <= count
    ensures SendableAll(code, seq(c, _ => Token(cur, 0))) && |TokensBits(code, seq(c, _ => Token(cur, 0)))| <= |TokensBits(code, seq(count, _ => Token(cur, 0)))|
    decreases count - c
  {
    hide Sendable, TokenBits, TokensBits;
    PlainBits(code, cur, count, c);
    if c < count { PlainGrows(code, cur, count, c + 1); }
  }

  /** One run. */
  method SendRun(w: B.BitWriter, bl: CodeTree, prev: int, cur: nat, count: nat)
    requires w.Valid() && TreeOk(bl) && SendableAll(bl.lens, RunTokens(prev, cur, count)) && w.Fits(|TokensBits(bl.lens, RunTokens(prev, cur, count))|)
    modifies w`store, w`pending, w`buf, w`valid
    ensures w.Valid() && w.Bits() == old(w.Bits()) + TokensBits(bl.lens, RunTokens(prev, cur, count))
  {
    hide ByteBits, TreeOk, Sendable, TokenBits, TokensBits, B.BitWriter.Bits, B.BitWriter.Valid;
    ghost var ks := RunTokens(prev, cur, count);
    if count < MinCount(prev, cur) {
      SendPlain(w, bl, cur, count);
    } else if cur != 0 {
      if cur != prev {
        ghost var a, b := Token(cur, 0), Token(16, count - 4);
        assert ks == [a] + [b];
        TokensBitsConcat(bl.lens, [a], [b]);
        assert Sendable(bl.lens, ks[0]) && Sendable(bl.lens, ks[1]);
        OneTokenBits(bl.lens, a);
        OneTokenBits(bl.lens, b);
        ghost var sent := w.Bits();
        SendToken(w, bl, Token(cur, 0));
        SendToken(w, bl, Token(16, count - 4));
        assert w.Bits() == sent + (TokenBits(bl.lens, a) + TokenBits(bl.lens, b));
      } else {
        assert Sendable(bl.lens, ks[0]);
        OneTokenBits(bl.lens, ks[0]);
        SendToken(w, bl, Token(16, count - 3));
      }
    } else if count <= 10 {
      assert Sendable(bl.lens, ks[0]);
      OneTokenBits(bl.lens, ks[0]);
      SendToken(w, bl, Token(17, count - 3));
    } else {
      assert Sendable(bl.lens, ks[0]);
      OneTokenBits(bl.lens, ks[0]);
      SendToken(w, bl, Token(18, count - 11));
    }
  }

  /** A run that ends where the next length differs or the cap is reached is the front run. */
  lemma {:induction false} RunIs(lens: seq<nat>, v: nat, cap: nat, n: nat)
    requires n <= |lens| && n <= cap && (forall i :: 0 <= i < n ==> lens[i] == v)
    requires n == cap || n == |lens| || lens[n] != v
    ensures RunLen(lens, v, cap) == n
  {
    var m := RunLen(lens, v, cap);
  }

  lemma {:induction false} RunEnds(lens: seq<nat>, prev: int, from: nat, upto: nat)
    requires from < upto <= |lens| && (forall i :: from <= i < upto ==> lens[i] == lens[from])
    requires upto - from == MaxCount(prev, lens[from]) || (upto - from < MaxCount(prev, lens[from]) && (upto == |lens| || lens[upto] != lens[from]))
    ensures Tokens(prev, lens[from..]) == RunTokens(prev, lens[from], upto - from) + Tokens(lens[from], lens[upto..])
  {
    hide RunTokens, MaxCount, Tokens;
    var rest := lens[from..];
    RunIs(rest, lens[from], MaxCount(prev, lens[from]), upto - from);
    TokensFront(prev, rest);
    assert rest[upto - from..] == lens[upto..];
  }

  /** send_tree, with the length that scan_tree left as a guard after the last. */
  method SendTree(w: B.BitWriter, bl: CodeTree, lens: seq<nat>)
    requires w.Valid() && TreeOk(bl) && lens != [] && ValidLens(lens) && SendableAll(bl.lens, Tokens(-1, lens)) && w.Fits(|TokensBits(bl.lens, Tokens(-1, lens))|)
    modifies w`store, w`pending, w`buf, w`valid
    ensures w.Valid() && w.Bits() == old(w.Bits()) + TokensBits(bl.lens, Tokens(-1, lens))
  {
    hide ByteBits, TreeOk, Sendable, TokenBits, TokensBits, Tokens, RunTokens, MinCount, SendableAll, ToBits, FrontRun, B.BitWriter.Bits, B.BitWriter.Valid;
    ghost var before, all := w.Bits(), TokensBits(bl.lens, Tokens(-1, lens));
    var prevlen: int, nextlen: nat, count: nat := -1, lens[0], 0;
    var maxCount := if nextlen == 0 then 138 else 7;
    assert lens[0..] == lens;
    for n := 0 to |lens|
      invariant w.Valid() && 0 <= count <= n && count < maxCount == MaxCount(prevlen, nextlen)
      invariant nextlen == if n < |lens| then lens[n] else 65535
      invariant n == |lens| ==> count == 0
      invariant forall i :: n - count <= i < n ==> lens[i] == nextlen
      invariant SendableAll(bl.lens, Tokens(prevlen, lens[n - count..]))
      invariant w.Bits() + TokensBits(bl.lens, Tokens(prevlen, lens[n - count..])) == before + all
    {
      var curlen := nextlen;
      nextlen := if n + 1 < |lens| then lens[n + 1] else 65535;
      count := count + 1;
      if count < maxCount && curlen == nextlen {
      } else {
        RunEnds(lens, prevlen, n + 1 - count, n + 1);
        TokensBitsConcat(bl.lens, RunTokens(prevlen, curlen, count), Tokens(curlen, lens[n + 1..]));
        ghost var sent := w.Bits();
        SendRun(w, bl, prevlen, curlen, count);
        assert w.Bits() + TokensBits(bl.lens, Tokens(curlen, lens[n + 1..])) ==
          sent + (TokensBits(bl.lens, RunTokens(prevlen, curlen, count)) + TokensBits(bl.lens, Tokens(curlen, lens[n + 1..])));
        count, prevlen := 0, curlen;
        maxCount := if nextlen == 0 then 138 else if curlen == nextlen then 6 else 7;
      }
    }
    assert lens[|lens|..] == [];
    TokensEmpty(prevlen);
    assert TokensBits(bl.lens, []) == [] by { NoTokensBits(bl.lens); }
  }

  lemma {:induction false} NoTokensBits(code: seq<nat>)
    ensures SendableAll(code, []) && TokensBits(code, []) == []
  {
  }

  // ----- scan_tree -----

  /** How many of the codes are sym. */
  function TokenCount(ks: seq<Token>, sym: nat): (n: nat)
  {
    if ks == [] then 0 else (if ks[0].sym == sym then 1 else 0) + TokenCount(ks[1..], sym)
  }

  lemma {:induction false} TokenCountConcat(a: seq<Token>, b: seq<Token>, sym: nat)
    ensures TokenCount(a + b, sym) == TokenCount(a, sym) + TokenCount(b, sym)
  {
    if a == [] {
      assert a + b == b;
    } else {
      assert (a + b)[1..] == a[1..] + b;
      TokenCountConcat(a[1..], b, sym);
    }
  }

  lemma {:induction false} PlainCount(cur: nat, n: nat, sym: nat)
    ensures TokenCount(seq(n, _ => Token(cur, 0)), sym) == if cur == sym then n else 0
  {
    if n > 0 {
      assert seq(n, _ => Token(cur, 0))[1..] == seq(n - 1, _ => Token(cur, 0));
      PlainCount(cur, n - 1, sym);
    }
  }

  method CountRun(freq: array<nat>, prev: int, cur: nat, count: nat)
    requires freq.Length > 18 && cur <= 15 && 1 <= count <= MaxCount(prev, cur)
    modifies freq
    ensures forall s :: 0 <= s < freq.Length ==> freq[s] == old(freq[s]) + TokenCount(RunTokens(prev, cur, count), s)
  {
    if count < MinCount(prev, cur) {
      forall s
        ensures TokenCount(RunTokens(prev, cur, count), s) == if cur == s then count else 0
      {
        PlainCount(cur, count, s);
      }
      freq[cur] := freq[cur] + count;
    } else if cur != 0 {
      if cur != prev {
        forall s
          ensures TokenCount(RunTokens(prev, cur, count), s) == (if cur == s then 1 else 0) + (if s == 16 then 1 else 0)
        {
          TokenCountConcat([Token(cur, 0)], [Token(16, count - 4)], s);
          assert [Token(cur, 0)] + [Token(16, count - 4)] == RunTokens(prev, cur, count);
        }
        freq[cur] := freq[cur] + 1;
      }
      freq[16] := freq[16] + 1;
    } else if count <= 10 {
      freq[17] := freq[17] + 1;
    } else {
      freq[18] := freq[18] + 1;
    }
  }

  /** scan_tree: adds to freq the number of times send_tree will use each code. */
  method ScanTree(freq: array<nat>, lens: seq<nat>)
    requires freq.Length > 18 && lens != [] && ValidLens(lens)
    modifies freq
    ensures forall s :: 0 <= s < freq.Length ==> freq[s] == old(freq[s]) + TokenCount(Tokens(-1, lens), s)
  {
    hide Tokens, RunTokens, MinCount, TokenCount;
    var prevlen: int, nextlen: nat, count: nat := -1, lens[0], 0;
    var maxCount := if nextlen == 0 then 138 else 7;
    assert lens[0..] == lens;
    for n := 0 to |lens|
      invariant 0 <= count <= n && count < maxCount == MaxCount(prevlen, nextlen)
      invariant nextlen == if n < |lens| then lens[n] else 65535
      invariant n == |lens| ==> count == 0
      invariant forall i :: n - count <= i < n ==> lens[i] == nextlen
      invariant forall s :: 0 <= s < freq.Length ==>
        freq[s] + TokenCount(Tokens(prevlen, lens[n - count..]), s) == old(freq[s]) + TokenCount(Tokens(-1, lens), s)
    {
      var curlen := nextlen;
      nextlen := if n + 1 < |lens| then lens[n + 1] else 65535;
      count := count + 1;
      if count < maxCount && curlen == nextlen {
      } else {
        RunEnds(lens, prevlen, n + 1 - count, n + 1);
        forall s
          ensures TokenCount(Tokens(prevlen, lens[n + 1 - count..]), s) ==
            TokenCount(RunTokens(prevlen, curlen, count), s) + TokenCount(Tokens(curlen, lens[n + 1..]), s)
        {
          TokenCountConcat(RunTokens(prevlen, curlen, count), Tokens(curlen, lens[n + 1..]), s);
        }
        CountRun(freq, prevlen, curlen, count);
        count, prevlen := 0, curlen;
        maxCount := if nextlen == 0 then 138 else if curlen == nextlen then 6 else 7;
      }
    }
    assert lens[|lens|..] == [];
    TokensEmpty(prevlen);
    assert forall s :: TokenCount([], s) == 0 by { NoCount(); }
  }

  lemma {:induction false} NoCount()
    ensures forall s :: TokenCount([], s) == 0
  {
  }
}
