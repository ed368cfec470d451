/** Adler-32 (section 9 of RFC 1950): two running sums modulo 65521, reduced as rarely as 32-bit
    sums allow, in blocks of vector lanes, and combined from the sums of two parts. */
module Adler {
  import opened Lz77

  const BASE: nat := 65521
  const NMAX: nat := 5552
  const WORD: nat := 0x1_0000_0000

  // ----- the definition -----

  /** The sum of the bytes, byte by byte. */
  function Low(a: nat, bytes: seq<byte>): (r: nat)
  {
    if bytes == [] then a else (Low(a, bytes[..|bytes| - 1]) + bytes[|bytes| - 1] as nat) % BASE
  }

  /** The sum of those sums. */
  function High(a: nat, s: nat, bytes: seq<byte>): (r: nat)
  {
    if bytes == [] then s else (High(a, s, bytes[..|bytes| - 1]) + Low(a, bytes)) % BASE
  }

  function Pack(s1: nat, s2: nat): (adler: nat) { s1 + 65536 * s2 }

  /** The checksum adler continued with bytes. */
  function Checksum(adler: nat, bytes: seq<byte>): (r: nat)
  {
    Pack(Low(adler % 65536, bytes), High(adler % 65536, adler / 65536, bytes))
  }

  /** Both sums reduced. */
  predicate Proper(adler: nat) { adler % 65536 < BASE && adler / 65536 < BASE }

  // ----- sums without reduction -----

  function Sum(a: nat, bytes: seq<byte>): (r: nat)
  {
    if bytes == [] then a else Sum(a, bytes[..|bytes| - 1]) + bytes[|bytes| - 1] as nat
  }

  function Sums(a: nat, s: nat, bytes: seq<byte>): (r: nat)
  {
    if bytes == [] then s else Sums(a, s, bytes[..|bytes| - 1]) + Sum(a, bytes)
  }

  lemma {:induction false} Snoc(a: nat, s: nat, bytes: seq<byte>, b: byte)
    ensures Sum(a, bytes + [b]) == Sum(a, bytes) + b as nat
    ensures Sums(a, s, bytes + [b]) == Sums(a, s, bytes) + Sum(a, bytes + [b])
    ensures Low(a, bytes + [b]) == (Low(a, bytes) + b as nat) % BASE
    ensures High(a, s, bytes + [b]) == (High(a, s, bytes) + Low(a, bytes + [b])) % BASE
  {
    assert (bytes + [b])[..|bytes|] == bytes;
  }

  lemma {:induction false} Empty(a: nat, s: nat)
    ensures Sum(a, []) == a == Low(a, []) && Sums(a, s, []) == s == High(a, s, [])
  {
  }

  /** Reducing at the end is enough. */
  lemma {:induction false} ReduceLater(a: nat, s: nat, bytes: seq<byte>)
    ensures Low(a, bytes) % BASE == Sum(a, bytes) % BASE && High(a, s, bytes) % BASE == Sums(a, s, bytes) % BASE
    ensures bytes != [] || (a < BASE && s < BASE) ==> Low(a, bytes) < BASE && High(a, s, bytes) < BASE
  {
    hide Low, High, Sum, Sums;
    if bytes == [] {
      Empty(a, s);
    } else {
      var n := |bytes| - 1;
      var init, b := bytes[..n], bytes[n];
      ReduceLater(a, s, init);
      assert init + [b] == bytes;
      Snoc(a, s, init, b);
      ReduceSum(Low(a, init), Sum(a, init), b as nat, b as nat);
      ReduceSum(High(a, s, init), Sums(a, s, init), Low(a, bytes), Sum(a, bytes));
    }
  }

  lemma {:induction false} ReduceSum(x: nat, y: nat, u: nat, v: nat)
    requires x % BASE == y % BASE && u % BASE == v % BASE
    ensures (x + u) % BASE < BASE && (x + u) % BASE % BASE == (y + v) % BASE
  {
    ModSum(x, y, u, v);
  }

  lemma {:induction false} ModAdd(x: nat, y: nat, d: nat)
    requires x % BASE == y % BASE
    ensures (x + d) % BASE == (y + d) % BASE
  {
  }

  lemma {:induction false} ModSum(x: nat, y: nat, u: nat, v: nat)
    requires x % BASE == y % BASE && u % BASE == v % BASE
    ensures (x + u) % BASE == (y + v) % BASE
  {
    ModAdd(x, y, u);
    ModAdd(u, v, y);
  }

  // ----- how large the sums get -----

  function Triangle(n: nat): (t: nat)
  {
    if n == 0 then 0 else Triangle(n - 1) + n
  }

  lemma {:induction false} TriangleIs(n: nat)
    ensures 2 * Triangle(n) == n * (n + 1)
  {
    if n > 0 {
      TriangleIs(n - 1);
      assert n * (n + 1) == (n - 1) * n + 2 * n;
    }
  }

  lemma {:induction false} TriangleGrows(m: nat, n: nat)
    requires m <= n
    ensures Triangle(m) <= Triangle(n)
    decreases n
  {
    if m < n { TriangleGrows(m, n - 1); }
  }

  /** The bound on the second sum after n bytes. */
  lemma {:induction false} SumsBound(a: nat, s: nat, bytes: seq<byte>, top: nat)
    requires a <= top && s <= top
    ensures Sum(a, bytes) <= top + 255 * |bytes|
    ensures Sums(a, s, bytes) <= top * (|bytes| + 1) + 255 * Triangle(|bytes|)
  {
    if bytes != [] {
      var n := |bytes| - 1;
      SumsBound(a, s, bytes[..n], top);
      assert bytes[..n] + [bytes[n]] == bytes;
      Snoc(a, s, bytes[..n], bytes[n]);
      assert top * (n + 2) == top * (n + 1) + top;
    }
  }

  /** NMAX is the largest number of bytes for which the sums are sure to stay within 32 bits. */
  lemma {:induction false} NmaxIsLargest(n: nat)
    ensures 255 * Triangle(n) + (n + 1) * (BASE - 1) <= WORD - 1 <==> n <= NMAX
  {
    TriangleIs(NMAX);
    TriangleIs(NMAX + 1);
    if n <= NMAX {
      TriangleGrows(n, NMAX);
    } else {
      TriangleGrows(NMAX + 1, n);
    }
  }

  /** Any 16-bit sums stay within 32 bits for NMAX bytes. */
  lemma {:induction false} NoOverflow(a: nat, s: nat, bytes: seq<byte>)
    requires a <= 65535 && s <= 65535 && |bytes| <= NMAX
    ensures Sum(a, bytes) <= Sums(a, s, bytes) + 65535 < WORD + 65535 && Sums(a, s, bytes) < WORD && Sum(a, bytes) < WORD
  {
    SumsBound(a, s, bytes, 65535);
    TriangleIs(NMAX);
    TriangleGrows(|bytes|, NMAX);
    if bytes != [] {
      assert Sums(a, s, bytes) == Sums(a, s, bytes[..|bytes| - 1]) + Sum(a, bytes);
    }
  }

  // ----- reduction without division -----

  function Chop(a: nat): (r: nat) { a % 65536 + (a / 65536 * 16 - a / 65536) }

  function Mod28(a: nat): (r: nat)
  {
    var c := Chop(a);
    if c >= BASE then c - BASE else c
  }

  function Mod(a: nat): (r: nat) { Mod28(Chop(a)) }

  function Mod63(a: nat): (r: nat)
  {
    var high := a / WORD;
    Mod28(Chop(a % WORD + (high * 256 - high * 32 + high)))
  }

  /** CHOP keeps the remainder. */
  lemma {:induction false} ChopKeeps(a: nat)
    ensures Chop(a) % BASE == a % BASE
  {
    assert a == a / 65536 * 65536 + a % 65536;
    Multiple(Chop(a), a / 65536);
  }

  lemma {:induction false} Multiple(x: nat, k: nat)
    ensures (x + k * BASE) % BASE == x % BASE
  {
    if k > 0 {
      Multiple(x, k - 1);
    }
  }

  lemma {:induction false} Mod28Exact(a: nat)
    requires a < 0x1000_0000
    ensures Mod28(a) == a % BASE
  {
    ChopKeeps(a);
  }

  lemma {:induction false} ModExact(a: nat)
    requires a < WORD
    ensures Mod(a) == a % BASE
  {
    ChopKeeps(a);
    Mod28Exact(Chop(a));
  }

  lemma {:induction false} Mod63Exact(a: nat)
    requires a < 0x8000_0000_0000_0000
    ensures Mod63(a) == a % BASE
  {
    var high := a / WORD;
    var b := a % WORD + 225 * high;
    assert a == high * WORD + a % WORD;
    assert WORD == 225 + 65551 * BASE;
    Multiple(b, 65551 * high);
    ChopKeeps(b);
    Mod28Exact(Chop(b));
  }

  // ----- adler32_z -----

  /** Sums that stand for the checksum of the bytes so far. */
  ghost predicate Agrees(s1: nat, s2: nat, a: nat, s: nat, bytes: seq<byte>)
  {
    s1 % BASE == Low(a, bytes) % BASE && s2 % BASE == High(a, s, bytes) % BASE
  }

  /** Going on without reduction. */
  lemma {:induction false} GoOn(s1: nat, s2: nat, a: nat, s: nat, x: seq<byte>, y: seq<byte>)
    requires Agrees(s1, s2, a, s, x)
    ensures Agrees(Sum(s1, y), Sums(s1, s2, y), a, s, x + y)
    decreases |y|
  {
    hide Low, High, Sum, Sums;
    if y == [] {
      Empty(s1, s2);
      assert x + y == x;
    } else {
      var n := |y| - 1;
      var init, b := y[..n], y[n];
      GoOn(s1, s2, a, s, x, init);
      assert init + [b] == y && x + init + [b] == x + y;
      Snoc(s1, s2, init, b);
      Snoc(a, s, x + init, b);
      ReduceSum(Low(a, x + init), Sum(s1, init), b as nat, b as nat);
      ReduceSum(High(a, s, x + init), Sums(s1, s2, init), Low(a, x + y), Sum(s1, y));
    }
  }

  /** DO16. */
  method Do16(s1: nat, s2: nat, buf: seq<byte>, at: nat, ghost a: nat, ghost s: nat, ghost from: nat) returns (r1: nat, r2: nat)
    requires from <= at && at + 16 <= |buf| && s1 == Sum(a, buf[from..at]) && s2 == Sums(a, s, buf[from..at])
    ensures r1 == Sum(a, buf[from..at + 16]) && r2 == Sums(a, s, buf[from..at + 16])
  {
    r1, r2 := AddBytes(s1, s2, buf, at, at + 16, a, s, from);
  }

  /** Byte by byte. */
  method AddBytes(s1: nat, s2: nat, buf: seq<byte>, at: nat, to: nat, ghost a: nat, ghost s: nat, ghost from: nat) returns (r1: nat, r2: nat)
    requires from <= at <= to <= |buf| && s1 == Sum(a, buf[from..at]) && s2 == Sums(a, s, buf[from..at])
    ensures r1 == Sum(a, buf[from..to]) && r2 == Sums(a, s, buf[from..to])
  {
    hide Sum, Sums;
    r1, r2 := s1, s2;
    for i := at to to
      invariant r1 == Sum(a, buf[from..i]) && r2 == Sums(a, s, buf[from..i])
    {
      assert buf[from..i] + [buf[i]] == buf[from..i + 1];
      Snoc(a, s, buf[from..i], buf[i]);
      r1 := r1 + buf[i];
      r2 := r2 + r1;
    }
  }

  lemma {:induction false} BlockEnd(s1: nat, s2: nat, a: nat, s: nat, x: seq<byte>, part: seq<byte>)
    requires |part| <= NMAX && s1 <= 65535 && s2 <= 65535 && Agrees(s1, s2, a, s, x)
    ensures Sum(s1, part) < WORD && Sums(s1, s2, part) < WORD
    ensures Mod(Sum(s1, part)) < BASE && Mod(Sums(s1, s2, part)) < BASE && Agrees(Mod(Sum(s1, part)), Mod(Sums(s1, s2, part)), a, s, x + part)
  {
    hide Sum, Sums, Low, High, Mod;
    NoOverflow(s1, s2, part);
    ModExact(Sum(s1, part));
    ModExact(Sums(s1, s2, part));
    GoOn(s1, s2, a, s, x, part);
  }

  /** Up to NMAX bytes with one reduction at the end; no sum leaves 32 bits. */
  method Block(s1: nat, s2: nat, buf: seq<byte>, from: nat, len: nat, ghost a: nat, ghost s: nat) returns (r1: nat, r2: nat)
    requires from + len <= |buf| && len <= NMAX && s1 <= 65535 && s2 <= 65535 && Agrees(s1, s2, a, s, buf[..from])
    ensures r1 < BASE && r2 < BASE && Agrees(r1, r2, a, s, buf[..from + len])
    ensures Sum(s1, buf[from..from + len]) < WORD && Sums(s1, s2, buf[from..from + len]) < WORD
  {
    hide Sum, Sums, Agrees, Mod;
    r1, r2 := s1, s2;
    var at := from;
    assert buf[from..from] == [];
    Empty(s1, s2);
    while from + len - at >= 16
      invariant from <= at <= from + len && r1 == Sum(s1, buf[from..at]) && r2 == Sums(s1, s2, buf[from..at])
    {
      r1, r2 := Do16(r1, r2, buf, at, s1, s2, from);
      at := at + 16;
    }
    r1, r2 := AddBytes(r1, r2, buf, at, from + len, s1, s2, from);
    BlockEnd(s1, s2, a, s, buf[..from], buf[from..from + len]);
    assert buf[..from] + buf[from..from + len] == buf[..from + len];
    r1, r2 := Mod(r1), Mod(r2);
  }

  /** adler32_z: the checksum, from reduced sums or for two bytes and more. From sums that are not
      reduced, a single byte can leave the second one so. */
  method Adler32(adler: nat, buf: Option<seq<byte>>) returns (r: nat)
    requires adler < WORD
    ensures buf.None? ==> r == 1
    ensures buf.Some? && (Proper(adler) || |buf.value| >= 2) ==> r == Checksum(adler, buf.value)
    ensures buf.Some? && |buf.value| == 1 ==> (r == Checksum(adler, buf.value) <==> adler / 65536 + Low(adler % 65536, buf.value) < 2 * BASE)
    ensures buf.Some? && buf.value == [] ==> r == Pack(adler % 65536 % BASE, adler / 65536 % BASE)
  {
    hide Low, High, Sum, Sums, Agrees;
    if buf.None? {
      return 1;
    }
    var s2: nat, s1: nat := adler / 65536, adler % 65536;
    ghost var a, s := s1, s2;
    var bytes := buf.value;
    var len := |bytes|;
    if len == 1 {
      r := Single(s1, s2, bytes[0]);
      assert bytes == [bytes[0]];
      return;
    }
    if len < 16 {
      r := Short(s1, s2, bytes);
      if len == 0 { Empty(s1, s2); }
      return;
    }
    AgreesEmpty(a, s);
    assert bytes[..0] == [];
    var at := 0;
    while len - at >= NMAX
      invariant at <= len && s1 <= 65535 && s2 <= 65535 && Agrees(s1, s2, a, s, bytes[..at]) && (at > 0 ==> s1 < BASE && s2 < BASE)
    {
      s1, s2 := Block(s1, s2, bytes, at, NMAX, a, s);
      at := at + NMAX;
    }
    if at < len {
      s1, s2 := Block(s1, s2, bytes, at, len - at, a, s);
    }
    assert bytes[..len] == bytes;
    AgreesReduced(s1, s2, a, s, bytes);
    return Pack(s1, s2);
  }

  lemma {:induction false} AgreesEmpty(a: nat, s: nat)
    ensures Agrees(a, s, a, s, [])
  {
    Empty(a, s);
  }

  /** Reduced sums that agree are the sums. */
  lemma {:induction false} AgreesReduced(s1: nat, s2: nat, a: nat, s: nat, bytes: seq<byte>)
    requires Agrees(s1, s2, a, s, bytes) && s1 < BASE && s2 < BASE && (bytes != [] || (a < BASE && s < BASE))
    ensures s1 == Low(a, bytes) && s2 == High(a, s, bytes)
  {
    hide Low, High, Sum, Sums;
    ReduceLater(a, s, bytes);
  }

  method Single(s1: nat, s2: nat, b: byte) returns (r: nat)
    requires s1 <= 65535 && s2 <= 65535
    ensures r == Pack(Low(s1, [b]), High(s1, s2, [b])) <==> s2 + Low(s1, [b]) < 2 * BASE
    ensures Low(s1, [b]) < BASE
  {
    hide Low, High;
    OneByte(s1, s2, b);
    var r1 := s1 + b;
    if r1 >= BASE {
      r1 := r1 - BASE;
    }
    assert r1 == Low(s1, [b]);
    var r2 := s2 + r1;
    if r2 >= BASE {
      r2 := r2 - BASE;
    }
    r := Pack(r1, r2);
  }

  lemma {:induction false} OneByte(s1: nat, s2: nat, b: byte)
    ensures Low(s1, [b]) == (s1 + b) % BASE && High(s1, s2, [b]) == (s2 + Low(s1, [b])) % BASE
  {
    assert [b][..0] == [];
  }

  lemma {:induction false} ShortSums(s1: nat, s2: nat, bytes: seq<byte>)
    requires s1 <= 65535 && s2 <= 65535 && |bytes| < 16
    ensures Sums(s1, s2, bytes) < 0x1000_0000
    ensures Sum(s1, bytes) < 2 * BASE
  {
    hide Sum, Sums, Triangle;
    SumsBound(s1, s2, bytes, 65535);
    TriangleIs(16);
    TriangleGrows(|bytes|, 16);
  }

  /** Fewer than sixteen bytes. */
  method Short(s1: nat, s2: nat, bytes: seq<byte>) returns (r: nat)
    requires s1 <= 65535 && s2 <= 65535 && |bytes| < 16
    ensures bytes != [] ==> r == Pack(Low(s1, bytes), High(s1, s2, bytes))
    ensures bytes == [] ==> r == Pack(s1 % BASE, s2 % BASE)
  {
    hide Low, High, Sum, Sums, Mod28;
    assert bytes[0..0] == [];
    Empty(s1, s2);
    var r1, r2 := AddBytes(s1, s2, bytes, 0, |bytes|, s1, s2, 0);
    assert bytes[0..|bytes|] == bytes;
    ShortSums(s1, s2, bytes);
    ReduceLater(s1, s2, bytes);
    Mod28Exact(r2);
    if r1 >= BASE {
      r1 := r1 - BASE;
    }
    r := Pack(r1, Mod28(r2));
  }

  // ----- adler32_combine_ -----

  /** The sums from any start, in terms of the sums from 1 and 0. */
  lemma {:induction false} FromStart(a: nat, s: nat, bytes: seq<byte>)
    ensures Sum(a, bytes) + 1 == a + Sum(1, bytes)
    ensures Sums(a, s, bytes) + |bytes| == s + Sums(1, 0, bytes) + |bytes| * a
  {
    hide Sum, Sums;
    if bytes == [] {
      Empty(a, s);
      Empty(1, 0);
    } else {
      var n := |bytes| - 1;
      FromStart(a, s, bytes[..n]);
      assert bytes[..n] + [bytes[n]] == bytes;
      Snoc(a, s, bytes[..n], bytes[n]);
      Snoc(1, 0, bytes[..n], bytes[n]);
      OneMore(n, a);
    }
  }

  lemma {:induction false} OneMore(n: nat, a: nat)
    ensures (n + 1) * a == n * a + a
  {
  }

  /** Factors may be reduced. */
  lemma {:induction false} ModTimes(x: nat, y: nat)
    ensures (x % BASE * y) % BASE == (x * y) % BASE
  {
    var q, r := x / BASE, x % BASE;
    assert x == q * BASE + r;
    assert x * y == r * y + q * y * BASE;
    Multiple(r * y, q * y);
  }

  /** The checksum of two parts, from their checksums and the length of the second. */
  function Joined(adler1: nat, adler2: nat, len2: nat): (r: nat)
  {
    Pack((adler1 % 65536 + adler2 % 65536 + BASE - 1) % BASE,
         (adler1 / 65536 + adler2 / 65536 + len2 * (adler1 % 65536 + BASE - 1)) % BASE)
  }

  /** adler32_combine_. */
  method Combine(adler1: nat, adler2: nat, len2: int) returns (r: nat)
    requires adler1 < WORD && adler2 < WORD && len2 < 0x8000_0000_0000_0000
    ensures len2 < 0 ==> r == WORD - 1
    ensures len2 >= 0 && Proper(adler1) && Proper(adler2) ==> r == Joined(adler1, adler2, len2)
  {
    hide Mod63, Mod, Less;
    if len2 < 0 {
      return WORD - 1;
    }
    Mod63Exact(len2);
    var rem := Mod63(len2);
    var sum1: nat := adler1 % 65536;
    var sum2: nat := rem * sum1;
    RemTimes(rem, sum1);
    ModExact(sum2);
    sum2 := Mod(sum2);
    sum1 := sum1 + (adler2 % 65536 + BASE - 1);
    sum2 := sum2 + (adler1 / 65536 + adler2 / 65536 + BASE - rem);
    SecondSum(adler1 % 65536, adler1 / 65536 + adler2 / 65536, len2, sum2);
    LessExact(sum1);
    LessExact(sum2);
    sum1 := Less(Less(sum1, BASE), BASE);
    sum2 := Less(Less(sum2, 2 * BASE), BASE);
    r := Pack(sum1, sum2);
  }

  lemma {:induction false} RemTimes(rem: nat, x: nat)
    requires x <= 65535
    ensures 0 <= rem * x <= rem * 65535
  {
    if rem > 0 {
      RemTimes(rem - 1, x);
      assert rem * x == (rem - 1) * x + x;
    }
  }

  /** One conditional subtraction. */
  function Less(t: nat, m: nat): (r: nat) { if t >= m then t - m else t }

  lemma {:induction false} LessExact(t: nat)
    ensures t < 3 * BASE ==> Less(Less(t, BASE), BASE) == t % BASE
    ensures t < 4 * BASE ==> Less(Less(t, 2 * BASE), BASE) == t % BASE
  {
  }

  /** The second sum, with the length reduced. */
  lemma {:induction false} SecondSum(lo: nat, hi: nat, len: nat, sum2: nat)
    requires sum2 == (len % BASE * lo) % BASE + hi + BASE - len % BASE
    ensures sum2 % BASE == (hi + len * (lo + BASE - 1)) % BASE
  {
    var rem, x := len % BASE, lo + BASE - 1;
    assert rem * x == rem * lo + rem * (BASE - 1);
    ModTimes(len, x);
    assert rem * x + hi == rem * lo + hi + BASE - rem + (rem - 1) * BASE;
    ModSum((rem * lo) % BASE, rem * lo, hi + BASE - rem, hi + BASE - rem);
    if rem > 0 {
      Multiple(rem * lo + hi + BASE - rem, rem - 1);
    } else {
      Multiple(hi, 1);
    }
    ModSum(len * x, rem * x, hi, hi);
  }

  lemma {:induction false} Unpack(s1: nat, s2: nat)
    requires s1 < 65536
    ensures Pack(s1, s2) % 65536 == s1 && Pack(s1, s2) / 65536 == s2
  {
  }

  /** Combining the checksums of two parts gives the checksum of the whole. */
  lemma {:induction false} CombineConcat(adler: nat, x: seq<byte>, y: seq<byte>)
    requires Proper(adler)
    ensures Joined(Checksum(adler, x), Checksum(1, y), |y|) == Checksum(adler, x + y)
    ensures Proper(Checksum(adler, x)) && Proper(Checksum(1, y))
  {
    hide Low, High, Sum, Sums, Joined;
    var a, s := adler % 65536, adler / 65536;
    var s1, s2, t1, t2 := Low(a, x), High(a, s, x), Low(1, y), High(1, 0, y);
    ReduceLater(a, s, x);
    ReduceLater(1, 0, y);
    ReduceLater(a, s, x + y);
    Unpack(s1, s2);
    Unpack(t1, t2);
    GoOn(s1, s2, a, s, x, y);
    JoinSums(s1, s2, t1, t2, y);
  }

  lemma {:induction false} JoinSums(s1: nat, s2: nat, t1: nat, t2: nat, y: seq<byte>)
    requires s1 < BASE && s2 < BASE && t1 < BASE && t2 < BASE && t1 == Sum(1, y) % BASE && t2 == Sums(1, 0, y) % BASE
    ensures Joined(Pack(s1, s2), Pack(t1, t2), |y|) == Pack(Sum(s1, y) % BASE, Sums(s1, s2, y) % BASE)
  {
    hide Sum, Sums;
    var n := |y|;
    Unpack(s1, s2);
    Unpack(t1, t2);
    FromStart(s1, s2, y);
    ModSum(t1, Sum(1, y), s1 + BASE - 1, s1 + BASE - 1);
    Multiple(Sum(s1, y), 1);
    assert n * (s1 + BASE - 1) == n * s1 + n * BASE - n;
    ModSum(t2, Sums(1, 0, y), s2 + n * (s1 + BASE - 1), s2 + n * (s1 + BASE - 1));
    Multiple(Sums(s1, s2, y), n);
  }
}
