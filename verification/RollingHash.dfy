/** The rolling hash of deflate.c (UPDATE_HASH of insert_string.h) over the last three bytes. */
module RollingHash {
  import opened Lz77
  import opened Bits
  import opened Searcher

  /** hash_bits, which is memLevel + 7. */
  type bits = n: nat | 8 <= n <= 16 witness 15

  /** hash_shift: three shifts move a bit out of the hash. */
  function Shift(n: bits): (s: bv32)
    ensures s <= 6
  {
    if n <= 9 then 3 else if n <= 12 then 4 else if n <= 15 then 5 else 6
  }

  /** hash_mask. */
  function Mask(n: bits): (m: bv32)
  {
    if n == 8 then 0xff else if n == 9 then 0x1ff else if n == 10 then 0x3ff else if n == 11 then 0x7ff else if n == 12 then 0xfff
    else if n == 13 then 0x1fff else if n == 14 then 0x3fff else if n == 15 then 0x7fff else 0xffff
  }

  // ----- bytes as bit vectors -----

  function Push(x: bv32, odd: bool): (y: bv32) { (x << 1) | if odd then 1 else 0 }

  /** The low k digits of c. */
  function Digits(c: nat, k: nat): (x: bv32)
  {
    if k == 0 then 0 else Push(Digits(c / 2, k - 1), c % 2 == 1)
  }

  function Octet(c: byte): (x: bv32) { Digits(c, 8) }

  function Fits(x: bv32, k: nat): (b: bool)
    requires k <= 8
  {
    x >> k == 0
  }

  lemma {:induction false} PushFits(x: bv32, odd: bool, k: nat)
    requires k < 8 && Fits(x, k)
    ensures Fits(Push(x, odd), k + 1)
  {
  }

  lemma {:induction false} PushOne(x: bv32, y: bv32, odd: bool, odd': bool, k: nat)
    requires k < 8 && Fits(x, k) && Fits(y, k) && Push(x, odd) == Push(y, odd')
    ensures x == y && odd == odd'
  {
  }

  lemma {:induction false} DigitsFit(c: nat, k: nat)
    requires k <= 8
    ensures Fits(Digits(c, k), k)
  {
    hide Push, Fits;
    if k == 0 {
      ZeroFits();
    } else {
      DigitsFit(c / 2, k - 1);
      PushFits(Digits(c / 2, k - 1), c % 2 == 1, k - 1);
    }
  }

  lemma {:induction false} ZeroFits()
    ensures Fits(0, 0)
  {
  }

  lemma {:induction false} DigitsOne(c: nat, d: nat, k: nat)
    requires k <= 8 && c < Pow2(k) && d < Pow2(k) && Digits(c, k) == Digits(d, k)
    ensures c == d
  {
    hide Push, Fits;
    if k > 0 {
      DigitsFit(c / 2, k - 1);
      DigitsFit(d / 2, k - 1);
      PushOne(Digits(c / 2, k - 1), Digits(d / 2, k - 1), c % 2 == 1, d % 2 == 1, k - 1);
      DigitsOne(c / 2, d / 2, k - 1);
    }
  }

  // ----- the hash -----

  /** UPDATE_HASH. */
  function Mix(h: bv32, x: bv32, s: bv32, m: bv32): (r: bv32)
    requires s <= 6
  {
    ((h << s) ^ x) & m
  }

  function Update(n: bits, h: bv32, c: byte): (r: bv32) { Mix(h, Octet(c), Shift(n), Mask(n)) }

  lemma {:induction false} Out3(h: bv32, x: bv32, y: bv32, z: bv32, m: bv32)
    requires m == 0xff || m == 0x1ff
    ensures Mix(Mix(Mix(h, x, 3, m), y, 3, m), z, 3, m) == Mix(Mix(Mix(0, x, 3, m), y, 3, m), z, 3, m)
  {
  }

  lemma {:induction false} Out4(h: bv32, x: bv32, y: bv32, z: bv32, m: bv32)
    requires m == 0x3ff || m == 0x7ff || m == 0xfff
    ensures Mix(Mix(Mix(h, x, 4, m), y, 4, m), z, 4, m) == Mix(Mix(Mix(0, x, 4, m), y, 4, m), z, 4, m)
  {
  }

  lemma {:induction false} Out5(h: bv32, x: bv32, y: bv32, z: bv32, m: bv32)
    requires m == 0x1fff || m == 0x3fff || m == 0x7fff
    ensures Mix(Mix(Mix(h, x, 5, m), y, 5, m), z, 5, m) == Mix(Mix(Mix(0, x, 5, m), y, 5, m), z, 5, m)
  {
  }

  lemma {:induction false} Out6(h: bv32, x: bv32, y: bv32, z: bv32)
    ensures Mix(Mix(Mix(h, x, 6, 0xffff), y, 6, 0xffff), z, 6, 0xffff) == Mix(Mix(Mix(0, x, 6, 0xffff), y, 6, 0xffff), z, 6, 0xffff)
  {
  }

  /** After three updates nothing is left of what was hashed before. */
  lemma {:induction false} LastThree(n: bits, h: bv32, a: byte, b: byte, c: byte)
    ensures Update(n, Update(n, Update(n, h, a), b), c) == Update(n, Update(n, Update(n, 0, a), b), c)
  {
    hide Mix, Octet;
    var x, y, z, m := Octet(a), Octet(b), Octet(c), Mask(n);
    if n <= 9 { Out3(h, x, y, z, m); }
    else if n <= 12 { Out4(h, x, y, z, m); }
    else if n <= 15 { Out5(h, x, y, z, m); }
    else { Out6(h, x, y, z); }
  }

  lemma {:induction false} MixOne(h: bv32, x: bv32, y: bv32, s: bv32, n: bits)
    requires s <= 6 && Fits(x, 8) && Fits(y, 8) && Mix(h, x, s, Mask(n)) == Mix(h, y, s, Mask(n))
    ensures x == y
  {
  }

  /** No two bytes have the same effect on a hash. */
  lemma {:induction false} UpdateOne(n: bits, h: bv32, c: byte, d: byte)
    requires Update(n, h, c) == Update(n, h, d)
    ensures c == d
  {
    hide Mix, Mask, Fits;
    DigitsFit(c, 8);
    DigitsFit(d, 8);
    MixOne(h, Octet(c), Octet(d), Shift(n), n);
    DigitsOne(c, d, 8);
  }

  // ----- as an index -----

  /** hash_size. */
  function Size(n: bits): (s: nat)
    ensures s > 0
  {
    if n == 8 then 256 else if n == 9 then 512 else if n == 10 then 1024 else if n == 11 then 2048 else if n == 12 then 4096
    else if n == 13 then 8192 else if n == 14 then 16384 else if n == 15 then 32768 else 65536
  }

  function Back(i: nat): (h: bv32)
    requires i < 0x1_0000_0000
  {
    i as bv32
  }

  lemma {:induction false} BackIs(h: bv32)
    ensures Back(h as nat) == h
  {
  }

  lemma {:induction false} Under(h: bv32)
    ensures h <= 0xff ==> h as nat < 256
    ensures h <= 0x1ff ==> h as nat < 512
    ensures h <= 0x3ff ==> h as nat < 1024
    ensures h <= 0x7ff ==> h as nat < 2048
    ensures h <= 0xfff ==> h as nat < 4096
    ensures h <= 0x1fff ==> h as nat < 8192
    ensures h <= 0x3fff ==> h as nat < 16384
    ensures h <= 0x7fff ==> h as nat < 32768
    ensures h <= 0xffff ==> h as nat < 65536
  {
  }

  lemma {:induction false} MixSmall(h: bv32, x: bv32, s: bv32, n: bits)
    requires s <= 6
    ensures Mix(h, x, s, Mask(n)) <= Mask(n)
  {
  }

  lemma {:induction false} Small(n: bits, h: bv32, c: byte)
    ensures Update(n, h, c) as nat < Size(n)
  {
    hide Mix, Octet;
    MixSmall(h, Octet(c), Shift(n), n);
    Under(Update(n, h, c));
  }

  /** The slot of three bytes in the hash table. */
  function Hash(n: bits, a: byte, b: byte, c: byte): (h: nat)
  {
    Update(n, Update(n, Update(n, 0, a), b), c) as nat
  }

  ghost predicate IsHash(n: bits, hash: HashFn)
  {
    forall a, b, c :: hash(a, b, c) == Hash(n, a, b, c)
  }

  /** What longest_match relies on. */
  lemma {:induction false} HashGood(n: bits, hash: HashFn)
    requires IsHash(n, hash)
    ensures GoodHash(hash, Size(n))
  {
    hide Update, Size;
    forall a, b, c, d | true
      ensures hash(a, b, c) < Size(n) && (hash(a, b, c) == hash(a, b, d) ==> c == d)
    {
      HashOne(n, a, b, c, d);
    }
  }

  lemma {:induction false} HashOne(n: bits, a: byte, b: byte, c: byte, d: byte)
    ensures Hash(n, a, b, c) < Size(n) && (Hash(n, a, b, c) == Hash(n, a, b, d) ==> c == d)
  {
    hide Update, Size, Back;
    var h := Update(n, Update(n, 0, a), b);
    Small(n, h, c);
    BackIs(Update(n, h, c));
    BackIs(Update(n, h, d));
    if Update(n, h, c) == Update(n, h, d) { UpdateOne(n, h, c, d); }
  }

  // ----- the rolling state -----

  /** One more byte makes h the hash of three. */
  ghost predicate Primed(n: bits, h: bv32, a: byte, b: byte)
  {
    forall c: byte :: Update(n, h, c) as nat == Hash(n, a, b, c)
  }

  lemma {:induction false} PrimedHash(n: bits, h: bv32, a: byte, b: byte, c: byte)
    requires Primed(n, h, a, b)
    ensures Update(n, h, c) as nat == Hash(n, a, b, c)
  {
    hide Update, Hash;
  }

  lemma {:induction false} MixFirst(x: bv32, s: bv32, n: bits)
    requires s <= 6 && Fits(x, 8)
    ensures Mix(0, x, s, Mask(n)) == x
  {
  }

  /** ins_h set up anew from two bytes. */
  lemma {:induction false} PrimedFirst(n: bits, a: byte, b: byte)
    ensures Primed(n, Update(n, Octet(a), b), a, b)
  {
    hide Mix, Mask, Fits, Primed;
    DigitsFit(a, 8);
    MixFirst(Octet(a), Shift(n), n);
    PrimedTwo(n, 0, a, b);
  }

  lemma {:induction false} PrimedTwo(n: bits, h: bv32, a: byte, b: byte)
    ensures Primed(n, Update(n, Update(n, h, a), b), a, b)
  {
    hide Update;
    forall c: byte
      ensures Update(n, Update(n, Update(n, h, a), b), c) as nat == Hash(n, a, b, c)
    {
      LastThree(n, h, a, b, c);
    }
  }

  /** Consecutive bytes keep the state rolling. */
  lemma {:induction false} PrimedNext(n: bits, h: bv32, a: byte, b: byte, c: byte)
    requires Primed(n, h, a, b)
    ensures Primed(n, Update(n, h, c), b, c)
  {
    hide Update, Back;
    BackIs(Update(n, h, c));
    BackIs(Update(n, Update(n, Update(n, 0, a), b), c));
    PrimedTwo(n, Update(n, 0, a), b, c);
  }
}
