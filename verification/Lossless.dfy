/** What deflate has emitted stands for the input read so far, and the bits written decode
    to it. */
module Lossless {
  import opened Bits
  import opened Lz77
  import opened InflateSpec
  import opened Distances
  import opened BlockCodec
  import B = BitWriter

  /** The symbols expand to the first p bytes of the input. */
  ghost predicate Lossless(input: seq<byte>, syms: seq<Symbol>, p: nat)
  {
    p <= |input| && ValidAll([], syms) && Expand([], syms) == input[..p]
  }

  lemma {:induction false} LosslessNone(input: seq<byte>)
    ensures Lossless(input, [], 0)
  {
  }

  lemma {:induction false} LosslessMore(input: seq<byte>, more: seq<byte>, syms: seq<Symbol>, p: nat)
    requires Lossless(input, syms, p)
    ensures Lossless(input + more, syms, p)
  {
    hide ValidAll, Expand;
    assert (input + more)[..p] == input[..p];
  }

  lemma {:induction false} OneSymbol(out: seq<byte>, s: Symbol)
    ensures Expand(out, [s]) == Apply(out, s) && (ValidAll(out, [s]) <==> Valid(out, s))
  {
    hide Apply;
    assert [s][1..] == [];
  }

  lemma {:induction false} EmitLiteral(input: seq<byte>, syms: seq<Symbol>, p: nat)
    requires Lossless(input, syms, p) && p < |input|
    ensures Lossless(input, syms + [Literal(input[p])], p + 1)
  {
    hide ValidAll, Expand;
    ExpandConcat([], syms, [Literal(input[p])]);
    ValidConcat([], syms, [Literal(input[p])]);
    OneSymbol(input[..p], Literal(input[p]));
    assert input[..p] + [input[p]] == input[..p + 1];
  }

  /** The len bytes from p on repeat those dist before. */
  ghost predicate Match(input: seq<byte>, p: nat, dist: nat, len: nat)
  {
    && 1 <= dist <= p && p + len <= |input|
    && forall i :: p <= i < p + len ==> input[i] == input[i - dist]
  }

  lemma {:induction false} MatchMore(input: seq<byte>, more: seq<byte>, p: nat, dist: nat, len: nat)
    requires Match(input, p, dist, len)
    ensures Match(input + more, p, dist, len)
  {
  }

  lemma {:induction false} EmitPair(input: seq<byte>, syms: seq<Symbol>, p: nat, dist: nat, len: nat)
    requires Lossless(input, syms, p) && Match(input, p, dist, len) && dist <= 32768 && 3 <= len <= 258
    ensures Lossless(input, syms + [Pair(dist, len)], p + len)
  {
    hide ValidAll, Expand, CopyBack;
    ExpandConcat([], syms, [Pair(dist, len)]);
    ValidConcat([], syms, [Pair(dist, len)]);
    OneSymbol(input[..p], Pair(dist, len));
    assert input[..p] <= input[..p + len];
    CopyBackUnique(input[..p], dist, len, input[..p + len]);
  }

  lemma {:induction false} DeliversRest(bits: BitString, at: nat, last: bool, x: seq<byte>, y: seq<byte>, rest: BitString, d: nat)
    requires Delivers(bits, at, last, x, y, d) && (at + |bits| + |rest|) % 8 == 0
    ensures Calm(Conf(Type(false), bits + rest, x), Conf(Type(last), rest, y), d)
  {
    hide Reaches, Calm;
  }

  /** Blocks one after the other. */
  lemma {:induction false} DeliversTrans(a: BitString, b: BitString, last: bool, x: seq<byte>, y: seq<byte>, z: seq<byte>, d: nat)
    requires Delivers(a, 0, false, x, y, d) && Delivers(b, |a|, last, y, z, d)
    ensures Delivers(a + b, 0, last, x, z, d)
  {
    hide Reaches, Calm;
    forall rest: BitString | (0 + |a + b| + |rest|) % 8 == 0
      ensures Calm(Conf(Type(false), a + b + rest, x), Conf(Type(last), rest, z), d)
    {
      DeliversBoth(a, b, last, x, y, z, rest, d);
    }
  }

  lemma {:induction false} DeliversBoth(a: BitString, b: BitString, last: bool, x: seq<byte>, y: seq<byte>, z: seq<byte>, rest: BitString, d: nat)
    requires Delivers(a, 0, false, x, y, d) && Delivers(b, |a|, last, y, z, d) && (0 + |a + b| + |rest|) % 8 == 0
    ensures Calm(Conf(Type(false), a + b + rest, x), Conf(Type(last), rest, z), d)
  {
    hide Calm, Delivers;
    var tail := b + rest;
    assert a + b + rest == a + tail;
    DeliversRest(a, 0, false, x, y, tail, d);
    DeliversRest(b, |a|, last, y, z, rest, d);
    CalmTrans(Conf(Type(false), a + tail, x), Conf(Type(false), tail, y), Conf(Type(last), rest, z), d);
  }

  lemma {:induction false} DeliversNone(x: seq<byte>, d: nat)
    ensures Delivers([], 0, false, x, x, d)
  {
    hide Reaches, Calm;
    forall rest: BitString
      ensures Calm(Conf(Type(false), [] + rest, x), Conf(Type(false), rest, x), d)
    {
      assert [] + rest == rest;
      CalmSelf(Conf(Type(false), rest, x), d);
    }
  }

  /** Positions are only known modulo whole bytes. */
  lemma {:induction false} DeliversShift(b: BitString, at: nat, at': nat, last: bool, x: seq<byte>, y: seq<byte>, d: nat)
    requires Delivers(b, at, last, x, y, d) && at % 8 == at' % 8
    ensures Delivers(b, at', last, x, y, d)
  {
    hide Reaches, Calm;
    forall rest: BitString | (at' + |b| + |rest|) % 8 == 0
      ensures Calm(Conf(Type(false), b + rest, x), Conf(Type(last), rest, y), d)
    {
      SameRest(at, at', |b| + |rest|);
    }
  }

  /** After older output. */
  lemma {:induction false} DeliversUnder(b: BitString, at: nat, x: seq<byte>, y: seq<byte>, d: nat)
    requires Delivers(b, 0, false, [], y, d) && at % 8 == 0
    ensures Delivers(b, at, false, x, x + y, d)
  {
    hide Calm;
    forall rest: BitString | (at + |b| + |rest|) % 8 == 0
      ensures Calm(Conf(Type(false), b + rest, x), Conf(Type(false), rest, x + y), d)
    {
      SameRest(0, at, |b| + |rest|);
      assert x + [] == x;
      CalmUnder(x, Conf(Type(false), b + rest, []), Conf(Type(false), rest, y), d);
    }
  }

  lemma {:induction false} SameRest(at: nat, at': nat, n: nat)
    requires at % 8 == at' % 8
    ensures (at + n) % 8 == (at' + n) % 8
  {
  }

  /** After the last block and padding, inflate is done, with nothing left over. */
  lemma {:induction false} DeliversAll(bits: BitString, pad: nat, out: seq<byte>, d: nat)
    requires Delivers(bits, 0, true, [], out, d) && pad < 8 && (|bits| + pad) % 8 == 0
    ensures Calm(Conf(Type(false), bits + B.Zeros(pad), []), Conf(Done, [], out), d)
  {
    hide Reaches, Calm, Step;
    var x, y := Conf(Type(false), bits + B.Zeros(pad), []), Conf(Type(true), B.Zeros(pad), out);
    assert (0 + |bits| + |B.Zeros(pad)|) % 8 == 0;
    assert Calm(x, y, d);
    AtType(y);
    assert |y.bits| % 8 == pad && y.bits[pad..] == [];
    OkOfStep(y, Conf(Done, [], out));
    Still(y, Conf(Done, [], out), d);
    CalmTrans(x, y, Conf(Done, [], out), d);
  }
}
