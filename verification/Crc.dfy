/** CRC-32 (section 8 of RFC 1952): bit by bit, by table, by words in braids, and combined from
    the CRCs of two parts. */
module Crc {
  import opened Bits
  import opened Lz77
  import opened Gf2

  type octet = x: bv64 | x < 256

  const ONES: bv64 := 0xffff_ffff

  function Octet(i: int): (b: octet)
    requires 0 <= i < 256
  {
    i as bv64
  }

  lemma {:induction false} OctetBack(b: octet)
    ensures Octet(b as int) == b
  {
  }

  /** One byte, bit by bit. */
  function Byte(c: bv64, b: octet): (r: bv64) { TimesN(Xor(c, b), 8) }

  /** The register after the bytes. */
  function Reg(c: bv64, bytes: seq<octet>): (r: bv64)
    decreases |bytes|
  {
    if bytes == [] then c else Byte(Reg(c, bytes[..|bytes| - 1]), bytes[|bytes| - 1])
  }

  /** The CRC crc continued with bytes. */
  function Checksum(crc: bv64, bytes: seq<octet>): (r: bv64)
  {
    Xor(Reg(Xor(crc, ONES), bytes), ONES)
  }

  lemma {:induction false} RegSnoc(c: bv64, bytes: seq<octet>, b: octet)
    ensures Reg(c, bytes + [b]) == Byte(Reg(c, bytes), b)
  {
    hide Byte;
    assert (bytes + [b])[..|bytes|] == bytes;
  }

  lemma {:induction false} RegNone(c: bv64)
    ensures Reg(c, []) == c
  {
  }

  lemma {:induction false} RegConcat(c: bv64, x: seq<octet>, y: seq<octet>)
    ensures Reg(c, x + y) == Reg(Reg(c, x), y)
    decreases |y|
  {
    hide Byte, Reg;
    if y == [] {
      assert x + y == x;
      RegNone(Reg(c, x));
    } else {
      var n := |y| - 1;
      RegConcat(c, x, y[..n]);
      assert x + y[..n] + [y[n]] == x + y && y[..n] + [y[n]] == y;
      RegSnoc(c, x + y[..n], y[n]);
      RegSnoc(Reg(c, x), y[..n], y[n]);
    }
  }

  /** The register is linear. */
  lemma {:induction false} RegXor(c: bv64, d: bv64, bytes: seq<octet>)
    ensures Reg(Xor(c, d), bytes) == Xor(Reg(c, bytes), TimesN(d, 8 * |bytes|))
    decreases |bytes|
  {
    hide Reg, Xor, Times, TimesN;
    if bytes == [] {
      RegNone(c);
      RegNone(Xor(c, d));
      TimesNNone(d);
    } else {
      var n := |bytes| - 1;
      var init, b := bytes[..n], bytes[n];
      var e, f := Reg(c, init), TimesN(d, 8 * n);
      RegXor(c, d, init);
      assert init + [b] == bytes;
      RegSnoc(c, init, b);
      RegSnoc(Xor(c, d), init, b);
      XorAssociates(e, f, b);
      XorCommutes(f, b);
      XorAssociates(e, b, f);
      TimesNXor(Xor(e, b), f, 8);
      TimesNAdd(d, 8 * n, 8);
    }
  }

  lemma {:induction false} TimesNNone(a: bv64)
    ensures TimesN(a, 0) == a
  {
  }

  // ----- by table -----

  lemma {:induction false} TimesNNext(a: bv64, n: nat)
    ensures TimesN(a, n + 1) == Times(TimesN(a, n))
  {
    hide Times;
  }

  lemma {:induction false} OutOne(u: bv64)
    requires u < 0x8000_0000_0000_0000
    ensures Times(u << 1) == u
  {
    hide Xor;
  }

  lemma {:induction false} OutTwo(u: bv64)
    requires u < 0x4000_0000_0000_0000
    ensures TimesN(u << 2, 2) == u
  {
    hide Times, TimesN;
    assert u << 2 == (u << 1) << 1 && u << 1 < 0x8000_0000_0000_0000;
    OutOne(u << 1);
    OutOne(u);
    TimesNNone(u << 2);
    TimesNNext(u << 2, 0);
    TimesNNext(u << 2, 1);
  }

  lemma {:induction false} OutFour(u: bv64)
    requires u < 0x1000_0000_0000_0000
    ensures TimesN(u << 4, 4) == u
  {
    hide Times, TimesN;
    assert u << 4 == (u << 2) << 2 && u << 2 < 0x4000_0000_0000_0000;
    OutTwo(u << 2);
    OutTwo(u);
    TimesNAdd(u << 4, 2, 2);
  }

  /** Eight steps shift eight zeros out. */
  lemma {:induction false} Out8(u: bv64)
    requires u < 0x100_0000_0000_0000
    ensures TimesN(u << 8, 8) == u
  {
    hide Times, TimesN;
    assert u << 8 == (u << 4) << 4 && u << 4 < 0x1000_0000_0000_0000;
    OutFour(u << 4);
    OutFour(u);
    TimesNAdd(u << 8, 4, 4);
  }

  /** The low byte and the rest. */
  function LowByte(v: bv64): (b: octet) { v & 0xff }

  lemma {:induction false} SplitByte(v: bv64)
    ensures v == Xor(LowByte(v), (v >> 8) << 8) && v >> 8 < 0x100_0000_0000_0000
  {
  }

  /** A byte at a time: the table holds the CRCs of all bytes. */
  lemma {:induction false} TableStep(v: bv64)
    ensures TimesN(v, 8) == Xor(v >> 8, TimesN(LowByte(v), 8))
  {
    hide Xor, TimesN, LowByte;
    var b: bv64, u := LowByte(v), v >> 8;
    SplitByte(v);
    TimesNXor(b, u << 8, 8);
    Out8(u);
    XorCommutes(u, TimesN(b, 8));
  }

  ghost predicate CrcTable(table: array<bv64>)
    reads table
  {
    table.Length == 256 && forall b: octet :: table[b as int] == TimesN(b, 8)
  }

  lemma {:induction false} ByteShift(c: bv64, b: octet)
    ensures Xor(c, b) >> 8 == c >> 8
  {
  }

  method EightSteps(i: bv64) returns (p: bv64)
    ensures p == TimesN(i, 8)
  {
    hide Times, TimesN;
    p := i;
    TimesNNone(i);
    for j := 0 to 8
      invariant p == TimesN(i, j)
    {
      TimesNNext(i, j);
      p := Times(p);
    }
  }

  /** crc_table[i] for every byte i. */
  method MakeCrcTable() returns (table: array<bv64>)
    ensures fresh(table) && CrcTable(table)
  {
    hide Times, TimesN, Octet;
    table := new bv64[256];
    for i := 0 to 256
      invariant forall k :: 0 <= k < i ==> table[k] == TimesN(Octet(k), 8)
    {
      table[i] := EightSteps(Octet(i));
    }
    forall b: octet
      ensures table[b as int] == TimesN(b, 8)
    {
      OctetBack(b);
    }
  }

  /** One byte of data by table. */
  method NextByte(table: array<bv64>, crc: bv64, b: octet) returns (r: bv64)
    requires CrcTable(table)
    ensures r == Byte(crc, b)
  {
    hide Xor, TimesN, LowByte;
    TableStep(Xor(crc, b));
    ByteShift(crc, b);
    var i := LowByte(Xor(crc, b));
    r := Xor(crc >> 8, table[i as int]);
  }

  /** Byte by byte. */
  method ByTable(table: array<bv64>, crc: bv64, buf: seq<octet>, from: nat, to: nat) returns (r: bv64)
    requires CrcTable(table) && from <= to <= |buf|
    ensures r == Reg(crc, buf[from..to])
  {
    hide Byte, Reg;
    r := crc;
    RegNone(crc);
    assert buf[from..from] == [];
    for i := from to to
      invariant r == Reg(crc, buf[from..i])
    {
      assert buf[from..i + 1] == buf[from..i] + [buf[i]];
      RegSnoc(crc, buf[from..i], buf[i]);
      r := NextByte(table, r, buf[i]);
    }
  }
}
