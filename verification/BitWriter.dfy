/** The bit buffer of trees.c: 16 bits, written to the pending bytes least significant
    bit first. */
module BitWriter {
  import opened Bits
  import opened Lz77
  import opened InflateSpec

  lemma {:induction false} WordPowers()
    ensures Pow2(8) == 256 && Pow2(16) == 65536
  {
    assert Pow2(4) == 16;
    assert Pow2(8) == 256;
    assert Pow2(12) == 4096;
  }

  /** Or-ing bits in above those already there. */
  lemma {:induction false} JoinBits(buf: nat, valid: nat, value: nat, length: nat)
    requires buf < Pow2(valid) && value < Pow2(length)
    ensures buf + Shl(value, valid) < Pow2(valid + length)
    ensures ToBits(buf + Shl(value, valid), valid + length) == ToBits(buf, valid) + ToBits(value, length)
  {
    hide Low, Shr, Shl, ToBits, Pow2;
    Join(buf, value, valid);
    ToBitsConcat(buf + Shl(value, valid), valid, length);
    ToBitsLow(buf + Shl(value, valid), valid);
    ShlMonotone(value, Pow2(length), valid);
    ShlPow2(length, valid);
  }

  lemma {:induction false} BytesOf(w: nat)
    requires w < 65536
    ensures Low(w, 8) < 256 && Shr(w, 8) < 256
    ensures ByteBits([Low(w, 8), Shr(w, 8)]) == ToBits(w, 16)
  {
    hide Low, Shr, ToBits, Pow2;
    WordPowers();
    ShrBound(w, 8, 8);
    ToBitsConcat(w, 8, 8);
    ToBitsLow(w, 8);
    assert [Low(w, 8), Shr(w, 8)][1..] == [Shr(w, 8)];
    OneByte(Low(w, 8));
    OneByte(Shr(w, 8));
  }

  lemma {:induction false} OneByte(b: byte)
    ensures ByteBits([b]) == ToBits(b, 8)
  {
    hide ToBits;
    assert [b][1..] == [];
  }

  /** Padding. */
  function Zeros(n: nat): (b: BitString)
    ensures |b| == n
  {
    seq(n, _ => false)
  }

  lemma {:induction false} PadBits(buf: nat, valid: nat, n: nat)
    requires buf < Pow2(valid) && valid <= n
    ensures ToBits(buf, n) == ToBits(buf, valid) + Zeros(n - valid)
  {
    hide Low, Shr, ToBits, Pow2, Zeros;
    ToBitsConcat(buf, valid, n - valid);
    LowSmall(buf, valid);
    ZeroBits(n - valid);
  }

  lemma {:induction false} ZeroBits(n: nat)
    ensures ToBits(0, n) == Zeros(n)
  {
    if n > 0 { ZeroBits(n - 1); }
  }

  /** The bits above the buffer after a word has been written out. */
  lemma {:induction false} SpillBits(buf: nat, valid: nat, value: nat, length: nat)
    requires buf < Pow2(valid) && value < Pow2(length) && valid <= 16 < valid + length
    ensures var w := Low(buf + Shl(value, valid), 16);
      w < 65536 && ToBits(w, 16) + ToBits(Shr(value, 16 - valid), valid + length - 16) == ToBits(buf, valid) + ToBits(value, length)
    ensures Shr(value, 16 - valid) < Pow2(valid + length - 16)
  {
    hide Low, Shr, Shl, ToBits, Pow2;
    WordPowers();
    var t, k := buf + Shl(value, valid), valid + length - 16;
    JoinBits(buf, valid, value, length);
    ToBitsConcat(t, 16, k);
    ToBitsLow(t, 16);
    Join(buf, value, valid);
    ShrShr(t, valid, 16 - valid);
    ShrBound(value, 16 - valid, k);
  }

  /** The pending buffer: new bytes go to index pending, as if nothing had been taken from the front,
      while flush_pending reads from index out on. What waits is in order because bytes are only
      put when out is 0. */
  class BitWriter {
    const size: nat       // pending_buf_size
    var store: seq<byte>  // pending_buf
    var pending: nat      // bytes that wait
    var out: nat          // where they begin: pending_out
    var buf: nat
    var valid: nat
    ghost var limit: nat  // where memory begins that is still needed for something else

    ghost predicate Valid()
      reads this
    {
      && |store| == size && 1 <= limit <= size && out + pending <= size && (pending == 0 ==> out == 0)
      && valid <= 16 && buf < Pow2(valid) && (if out == 0 then 8 * pending + valid <= 8 * limit else valid < 8)
    }

    /** The bytes that wait to be taken. */
    ghost function Waiting(): (bytes: seq<byte>)
      reads this`store, this`pending, this`out
    {
      if out + pending <= |store| then store[out..out + pending] else []
    }

    /** Everything sent and not yet taken. */
    ghost function Bits(): (b: BitString)
      reads this`store, this`pending, this`out, this`buf, this`valid
    {
      ByteBits(Waiting()) + ToBits(buf, valid)
    }

    /** Nothing has been taken from the front, and there is room for n more bits. */
    ghost predicate Fits(n: nat)
      reads this
    {
      out == 0 && |Bits()| + n <= 8 * limit
    }

    constructor (size': nat)
      requires size' >= 1
      ensures Valid() && Bits() == [] && size == size' == limit && pending == 0
    {
      size, store := size', seq(size', _ => 0);
      pending, out, buf, valid, limit := 0, 0, 0, 0, size';
    }

    lemma {:induction false} Lengths()
      requires Valid()
      ensures |Waiting()| == pending && |Bits()| == 8 * pending + valid && (pending == 0 ==> Waiting() == [])
    {
      hide ByteBits, ToBits, Pow2;
    }

    lemma {:induction false} Empty()
      requires Valid() && pending == 0
      ensures Waiting() == [] && Bits() == ToBits(buf, valid) && out == 0
    {
    }

    /** put_byte. */
    method PutByte(b: byte)
      requires |store| == size && out == 0 && pending < limit <= size
      modifies this`store, this`pending
      ensures |store| == size && pending == old(pending) + 1 && Waiting() == old(Waiting()) + [b]
      ensures ByteBits(Waiting()) == old(ByteBits(Waiting())) + ToBits(b, 8)
    {
      hide ByteBits, ToBits;
      ByteBitsConcat(Waiting(), [b]);
      OneByte(b);
      store := store[pending := b];
      pending := pending + 1;
      assert Waiting() == old(Waiting()) + [b];
    }

    /** put_short: the low byte first. */
    method PutShort(w: nat)
      requires |store| == size && out == 0 && pending + 2 <= limit <= size && w < 65536
      modifies this`store, this`pending
      ensures |store| == size && pending == old(pending) + 2 && old(Waiting()) <= Waiting()
      ensures ByteBits(Waiting()) == old(ByteBits(Waiting())) + ToBits(w, 16)
    {
      hide ByteBits, ToBits, Low, Shr;
      BytesOf(w);
      ghost var was := Waiting();
      ByteBitsConcat(was, [Low(w, 8), Shr(w, 8)]);
      PutByte(Low(w, 8));
      PutByte(Shr(w, 8));
      assert Waiting() == was + [Low(w, 8), Shr(w, 8)];
    }

    /** The zmemcpy of _tr_stored_block. */
    method PutBytes(bytes: seq<byte>)
      requires |store| == size && out == 0 && pending + |bytes| <= limit <= size
      modifies this`store, this`pending
      ensures |store| == size && pending == old(pending) + |bytes| && Waiting() == old(Waiting()) + bytes
      ensures ByteBits(Waiting()) == old(ByteBits(Waiting())) + ByteBits(bytes)
    {
      hide ByteBits;
      ByteBitsConcat(Waiting(), bytes);
      store := store[..pending] + bytes + store[pending + |bytes|..];
      pending := pending + |bytes|;
      assert Waiting() == old(Waiting()) + bytes;
    }

    lemma {:induction false} Aligned()
      requires Valid() && valid == 0
      ensures Bits() == ByteBits(Waiting()) && |store| == size && limit <= size && |Waiting()| == pending && |Bits()| == 8 * pending
    {
      hide ByteBits, ToBits, Waiting;
      NoBits(buf);
      Lengths();
    }

    /** put_short on a byte boundary. */
    method PutWord(v: nat)
      requires Valid() && valid == 0 && out == 0 && pending + 2 <= limit && v < 65536
      modifies this`store, this`pending
      ensures Valid() && pending == old(pending) + 2 && Bits() == old(Bits()) + ToBits(v, 16)
    {
      hide ByteBits, ToBits, Waiting, Pow2;
      Aligned();
      PutShort(v);
      Aligned();
    }

    /** Bytes on a byte boundary. */
    method PutAligned(bytes: seq<byte>)
      requires Valid() && valid == 0 && out == 0 && pending + |bytes| <= limit
      modifies this`store, this`pending
      ensures Valid() && pending == old(pending) + |bytes| && Bits() == old(Bits()) + ByteBits(bytes)
    {
      hide ByteBits, ToBits, Waiting, Pow2;
      Aligned();
      PutBytes(bytes);
      Aligned();
    }

    /** The last bytes are replaced. */
    method Patch(bytes: seq<byte>)
      requires Valid() && out == 0 && |bytes| <= pending
      modifies this`store
      ensures Valid() && Waiting() == old(Waiting())[..pending - |bytes|] + bytes
    {
      var n := pending - |bytes|;
      store := store[..n] + bytes + store[pending..];
    }

    /** send_bits: the low bits of value first. */
    method SendBits(value: nat, length: nat)
      requires Valid() && Fits(length) && length <= 16 && value < Pow2(length)
      modifies this`store, this`pending, this`buf, this`valid
      ensures Valid() && Bits() == old(Bits()) + ToBits(value, length)
    {
      hide ByteBits, ToBits, Low, Shr, Shl, Pow2, Waiting;
      Lengths();
      if valid > 16 - length {
        Spill(value, length);
      } else {
        JoinBits(buf, valid, value, length);
        buf := buf + Shl(value, valid);
        valid := valid + length;
      }
    }

    /** The bit buffer is filled up and written out; the bits that are left start it again. */
    method Spill(value: nat, length: nat)
      requires Valid() && out == 0 && pending + 2 <= limit && length <= 16 < valid + length && value < Pow2(length)
      requires 8 * pending + valid + length <= 8 * limit
      modifies this`store, this`pending, this`buf, this`valid
      ensures Valid() && Bits() == old(Bits()) + ToBits(value, length)
    {
      hide ByteBits, ToBits, Low, Shr, Shl, Pow2, Waiting;
      SpillBits(buf, valid, value, length);
      ghost var sent, held := ByteBits(Waiting()), ToBits(buf, valid);
      PutShort(Low(buf + Shl(value, valid), 16));
      buf := Shr(value, 16 - valid);
      valid := valid + length - 16;
      assert Bits() == sent + (held + ToBits(value, length));
    }

    /** bi_flush: whole bytes to the pending buffer. */
    method Flush()
      requires Valid()
      modifies this`store, this`pending, this`buf, this`valid
      ensures Valid() && valid < 8 && Bits() == old(Bits())
      ensures old(valid) < 8 ==> valid == old(valid) && pending == old(pending) && store == old(store)
    {
      hide ByteBits, ToBits, Low, Shr, Shl, Pow2, Waiting;
      WordPowers();
      Lengths();
      if valid == 16 {
        PutShort(buf);
        NoBits(0);
        buf, valid := 0, 0;
      } else if valid >= 8 {
        ToBitsConcat(buf, 8, valid - 8);
        ToBitsLow(buf, 8);
        ShrBound(buf, 8, valid - 8);
        ByteLow(buf);
        PutByte(Low(buf, 8));
        buf, valid := Shr(buf, 8), valid - 8;
      }
    }

    /** The copy of flush_pending, from pending_out on, which goes back to the front when nothing waits
        any more. */
    method Copy(len: nat) returns (bytes: seq<byte>)
      requires |store| == size && out + pending <= size && 0 < len <= pending
      modifies this`out, this`pending
      ensures pending == old(pending) - len && out + pending <= size && (pending == 0 ==> out == 0) && (out == 0 ==> pending == 0)
      ensures |bytes| == len && old(Waiting()) == bytes + Waiting()
    {
      bytes := store[out..out + len];
      out := out + len;
      pending := pending - len;
      if pending == 0 {
        out := 0;
      }
    }

    /** flush_pending: as many bytes as there is space for, oldest first. */
    method Take(room: nat) returns (bytes: seq<byte>)
      requires Valid()
      modifies this`store, this`pending, this`out, this`buf, this`valid
      ensures Valid() && ByteBits(bytes) + Bits() == old(Bits())
      ensures |bytes| <= room && (pending == 0 || |bytes| == room) && valid < 8 && (old(valid) == 0 ==> valid == 0)
      ensures old(valid) < 8 ==> pending + |bytes| == old(pending) && valid == old(valid) && (old(pending) <= room ==> bytes == old(Waiting()))
    {
      hide ByteBits, ToBits, Pow2, Waiting;
      Flush();
      Lengths();
      var len := if pending < room then pending else room;
      bytes := [];
      NoBytes();
      assert ByteBits([]) + Bits() == Bits();
      if len != 0 {
        ghost var all := Bits();
        bytes := Copy(len);
        ByteBitsConcat(bytes, Waiting());
        assert ByteBits(bytes) + Bits() == all;
        if pending == 0 {
          Lengths();
          assert bytes + Waiting() == bytes;
        }
      }
    }

    /** bi_windup: zero bits up to the next byte boundary. */
    method Windup() returns (ghost pad: nat)
      requires Valid() && out == 0
      modifies this`store, this`pending, this`buf, this`valid
      ensures Valid() && valid == 0 && pad < 8
      ensures Bits() == ByteBits(Waiting()) == old(Bits()) + Zeros(pad)
    {
      hide ByteBits, ToBits, Low, Shr, Shl, Pow2, Zeros, Waiting;
      WordPowers();
      Lengths();
      pad := 0;
      if valid > 8 {
        pad := 16 - valid;
        PadBits(buf, valid, 16);
        Pow2Monotone(valid, 16);
        PutShort(buf);
      } else if valid > 0 {
        pad := 8 - valid;
        PadBits(buf, valid, 8);
        Pow2Monotone(valid, 8);
        PutByte(buf);
      } else {
        NoBits(buf);
        assert Zeros(0) == [];
      }
      NoBits(0);
      buf, valid := 0, 0;
    }
  }

  lemma {:induction false} NoBytes()
    ensures ByteBits([]) == []
  {
  }

  lemma {:induction false} NoBits(v: nat)
    ensures ToBits(v, 0) == [] && 0 < Pow2(0)
  {
  }

  lemma {:induction false} ByteLow(v: nat)
    ensures Low(v, 8) < 256
  {
    hide Pow2, Low;
    WordPowers();
  }
}
