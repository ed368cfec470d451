/** Bytes, LZ77 symbols and what they expand to. */
module Lz77 {
  type byte = b: int | 0 <= b < 256

  datatype Option<+T> = None | Some(value: T)

  datatype Symbol = Literal(b: byte) | Pair(dist: nat, len: nat)

  /** Appends len bytes, each a copy of the byte dist back. */
  function CopyBack(out: seq<byte>, dist: nat, len: nat): (r: seq<byte>)
    requires 1 <= dist <= |out|
    ensures |r| == |out| + len && out <= r
    decreases len
  {
    if len == 0 then out else CopyBack(out + [out[|out| - dist]], dist, len - 1)
  }

  /** The output of one symbol; a match that reaches too far back leaves the output alone. */
  function Apply(out: seq<byte>, s: Symbol): (r: seq<byte>)
    ensures out <= r
  {
    match s
    case Literal(b) => out + [b]
    case Pair(dist, len) => if 1 <= dist <= |out| then CopyBack(out, dist, len) else out
  }

  /** The output of a list of symbols. */
  function Expand(out: seq<byte>, syms: seq<Symbol>): (r: seq<byte>)
    ensures out <= r
    decreases |syms|
  {
    if syms == [] then out else Expand(Apply(out, syms[0]), syms[1..])
  }

  lemma {:induction false} ExpandConcat(out: seq<byte>, a: seq<Symbol>, b: seq<Symbol>)
    ensures Expand(out, a + b) == Expand(Expand(out, a), b)
    decreases |a|
  {
    if a == [] {
      assert a + b == b;
    } else {
      ExpandConcat(Apply(out, a[0]), a[1..], b);
      assert (a + b)[1..] == a[1..] + b;
    }
  }

  /** Symbol s makes sense after the output out. */
  predicate Valid(out: seq<byte>, s: Symbol)
  {
    s.Pair? ==> 1 <= s.dist <= |out| && s.dist <= 32768 && 3 <= s.len <= 258
  }

  /** Every symbol of the list makes sense where it stands. */
  predicate ValidAll(out: seq<byte>, syms: seq<Symbol>)
    decreases |syms|
  {
    syms != [] ==> Valid(out, syms[0]) && ValidAll(Apply(out, syms[0]), syms[1..])
  }

  lemma {:induction false} ValidConcat(out: seq<byte>, a: seq<Symbol>, b: seq<Symbol>)
    ensures ValidAll(out, a + b) <==> ValidAll(out, a) && ValidAll(Expand(out, a), b)
    decreases |a|
  {
    if a == [] {
      assert a + b == b;
    } else {
      ValidConcat(Apply(out, a[0]), a[1..], b);
      assert (a + b)[1..] == a[1..] + b;
    }
  }

  /** The bytes a copy appends are those dist back in the result. */
  lemma {:induction false} CopyBackAt(out: seq<byte>, dist: nat, len: nat, k: nat)
    requires 1 <= dist <= |out| && |out| <= k < |out| + len
    ensures CopyBack(out, dist, len)[k] == CopyBack(out, dist, len)[k - dist]
    decreases len
  {
    var next := out + [out[|out| - dist]];
    var r := CopyBack(next, dist, len - 1);
    if k > |out| {
      CopyBackAt(next, dist, len - 1, k);
    } else {
      assert next <= r;
      assert r[k] == next[k] && r[k - dist] == next[k - dist];
    }
  }

  /** Any extension that repeats the bytes dist back is that copy. */
  lemma {:induction false} CopyBackUnique(out: seq<byte>, dist: nat, len: nat, r: seq<byte>)
    requires 1 <= dist <= |out| && |r| == |out| + len && out <= r
    requires forall k :: |out| <= k < |r| ==> r[k] == r[k - dist]
    ensures CopyBack(out, dist, len) == r
    decreases len
  {
    if len > 0 {
      var next := out + [out[|out| - dist]];
      assert r[|out|] == r[|out| - dist] == out[|out| - dist];
      assert next <= r;
      CopyBackUnique(next, dist, len - 1, r);
    }
  }

  lemma {:induction false} CopyBackSplit(out: seq<byte>, dist: nat, a: nat, b: nat)
    requires 1 <= dist <= |out|
    ensures CopyBack(out, dist, a + b) == CopyBack(CopyBack(out, dist, a), dist, b)
    decreases a
  {
    if a > 0 { CopyBackSplit(out + [out[|out| - dist]], dist, a - 1, b); }
  }
}
