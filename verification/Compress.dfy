/** compress_block of trees.c over the symbol buffer that _tr_tally fills. */
module Compress {
  import opened Bits
  import opened Canonical
  import opened InflateTable
  import opened Lz77
  import opened InflateSpec
  import opened StaticTables
  import opened TreeCodes
  import opened Block
  import B = BitWriter

  /** A code with its code words, as a ct_data array holds them. */
  datatype CodeTree = CodeTree(codes: seq<nat>, lens: seq<nat>)

  ghost predicate TreeOk(tree: CodeTree) { HasCodes(tree.codes, tree.lens) }

  ghost function CodesOf(ltree: CodeTree, dtree: CodeTree): Codes { Codes(ltree.lens, dtree.lens) }

  function SymbolFrom(dist: nat, lc: byte): (s: Symbol)
  {
    if dist == 0 then Literal(lc) else Pair(dist, lc as int + 3)
  }

  /** Three bytes of the symbol buffer: distance low, distance high, length - 3 or literal. */
  function SymbolAt(buf: seq<byte>, i: nat): (s: Symbol)
    requires i + 3 <= |buf|
  {
    SymbolFrom(buf[i] as int + 256 * (buf[i + 1] as int), buf[i + 2])
  }

  /** The symbols of buf from index i on. */
  function SymbolsFrom(buf: seq<byte>, i: nat): (syms: seq<Symbol>)
    decreases |buf| - i
  {
    if i + 3 > |buf| then [] else [SymbolAt(buf, i)] + SymbolsFrom(buf, i + 3)
  }

  /** The bytes _tr_tally stores for a symbol. */
  function Packed(s: Symbol): (b: seq<byte>)
    requires s.Pair? ==> 1 <= s.dist <= 32768 && 3 <= s.len <= 258
    ensures |b| == 3
  {
    match s
    case Literal(b) => [0, 0, b]
    case Pair(dist, len) => [dist % 256, dist / 256, len - 3]
  }

  /** Storing a symbol and reading it back. */
  lemma {:induction false} PackedSymbol(buf: seq<byte>, s: Symbol, i: nat)
    requires s.Pair? ==> 1 <= s.dist <= 32768 && 3 <= s.len <= 258
    requires i <= |buf| && (|buf| - i) % 3 == 0
    ensures SymbolsFrom(buf + Packed(s), i) == SymbolsFrom(buf, i) + [s]
    decreases |buf| - i
  {
    var all := buf + Packed(s);
    if i == |buf| {
      assert SymbolAt(all, i) == s;
      assert SymbolsFrom(all, i + 3) == [];
    } else {
      PackedSymbol(buf, s, i + 3);
      assert SymbolAt(all, i) == SymbolAt(buf, i);
    }
  }

  lemma {:induction false} SymbolsFromOne(buf: seq<byte>, i: nat)
    requires i + 3 <= |buf|
    ensures SymbolsFrom(buf, i) == [SymbolAt(buf, i)] + SymbolsFrom(buf, i + 3)
  {
  }

  method SendCode(w: B.BitWriter, tree: CodeTree, s: nat)
    requires w.Valid() && TreeOk(tree) && Used(tree.lens, s) && w.Fits(tree.lens[s])
    modifies w`store, w`pending, w`buf, w`valid
    ensures w.Valid() && w.Bits() == old(w.Bits()) + CodeWord(tree.lens, s)
  {
    hide Rev, Pow2, CodeOf, ToBits, ByteBits, B.BitWriter.Bits, B.BitWriter.Valid;
    w.SendBits(tree.codes[s], tree.lens[s]);
  }

  method SendLength(w: B.BitWriter, t: Tables, ltree: CodeTree, lc: nat)
    requires w.Valid() && TablesFit(t) && TreeOk(ltree) && lc < 256 && Used(ltree.lens, 257 + t.lengthCode[lc])
    requires w.Fits(|CodeWord(ltree.lens, 257 + t.lengthCode[lc]) + LengthExtra(t, lc)|)
    modifies w`store, w`pending, w`buf, w`valid
    ensures w.Valid()
    ensures w.Bits() == old(w.Bits()) + (CodeWord(ltree.lens, 257 + t.lengthCode[lc]) + LengthExtra(t, lc))
  {
    hide CodeWord, Pow2, ToBits, ByteBits, EXTRA_LBITS, TreeOk, LBASE, B.BitWriter.Bits, B.BitWriter.Valid;
    assert LengthFits(t, lc);
    ExtraSizes();
    var code := t.lengthCode[lc];
    ghost var sent := w.Bits();
    SendCode(w, ltree, 257 + code);
    var extra := EXTRA_LBITS[code];
    if extra != 0 {
      w.SendBits(lc - t.baseLength[code], extra);
    }
    assert w.Bits() == sent + (CodeWord(ltree.lens, 257 + code) + LengthExtra(t, lc));
  }

  method SendDistance(w: B.BitWriter, t: Tables, dtree: CodeTree, d: nat)
    requires w.Valid() && TablesFit(t) && TreeOk(dtree) && d < 32768 && Used(dtree.lens, DistCode(t, d))
    requires w.Fits(|CodeWord(dtree.lens, DistCode(t, d)) + DistExtra(t, d)|)
    modifies w`store, w`pending, w`buf, w`valid
    ensures w.Valid()
    ensures w.Bits() == old(w.Bits()) + (CodeWord(dtree.lens, DistCode(t, d)) + DistExtra(t, d))
  {
    hide CodeWord, Pow2, ToBits, ByteBits, EXTRA_DBITS, TreeOk, DBASE, B.BitWriter.Bits, B.BitWriter.Valid;
    assert DistFits(t, d);
    ExtraSizes();
    var code := DistCode(t, d);
    ghost var sent := w.Bits();
    SendCode(w, dtree, code);
    var extra := EXTRA_DBITS[code];
    if extra != 0 {
      w.SendBits(d - t.baseDist[code], extra);
    }
    assert w.Bits() == sent + (CodeWord(dtree.lens, code) + DistExtra(t, d));
  }

  lemma {:induction false} ExtraSizes()
    ensures |EXTRA_LBITS| == 29 && |EXTRA_DBITS| == 30
    ensures forall c :: 0 <= c < 29 ==> EXTRA_LBITS[c] <= 16
    ensures forall c :: 0 <= c < 30 ==> EXTRA_DBITS[c] <= 16
  {
    hide LEXT, DEXT;
    ExtraBits();
  }

  method SendSymbol(w: B.BitWriter, t: Tables, ltree: CodeTree, dtree: CodeTree, dist: nat, lc: byte)
    requires w.Valid() && TablesFit(t) && TreeOk(ltree) && TreeOk(dtree) && dist <= 32768
    requires Encodable(t, CodesOf(ltree, dtree), SymbolFrom(dist, lc)) && w.Fits(|SymbolBits(t, CodesOf(ltree, dtree), SymbolFrom(dist, lc))|)
    modifies w`store, w`pending, w`buf, w`valid
    ensures w.Valid()
    ensures w.Bits() == old(w.Bits()) + SymbolBits(t, CodesOf(ltree, dtree), SymbolFrom(dist, lc))
  {
    hide CodeWord, ByteBits, TreeOk, LengthFits, DistFits, LengthExtra, DistExtra, B.BitWriter.Bits, B.BitWriter.Valid;
    ghost var sent := w.Bits();
    if dist == 0 {
      SendCode(w, ltree, lc);
    } else {
      SendLength(w, t, ltree, lc);
      SendDistance(w, t, dtree, dist - 1);
      assert w.Bits() == sent + SymbolBits(t, CodesOf(ltree, dtree), Pair(dist, lc + 3));
    }
  }

  lemma {:induction false} SymbolsBitsCons(t: Tables, codes: Codes, sym: Symbol, syms: seq<Symbol>)
    requires TablesFit(t) && EncodableAll(t, codes, [sym] + syms)
    ensures Encodable(t, codes, sym) && EncodableAll(t, codes, syms)
    ensures SymbolsBits(t, codes, [sym] + syms) == SymbolBits(t, codes, sym) + SymbolsBits(t, codes, syms)
  {
    hide LengthFits, DistFits, Encodable, SymbolBits;
    var all := [sym] + syms;
    assert all[1..] == syms && all[0] == sym;
    assert forall i :: 0 <= i < |syms| ==> syms[i] == all[i + 1];
  }

  /** No symbol takes more than 31 bits. */
  ghost predicate Paced(t: Tables, codes: Codes, syms: seq<Symbol>)
    requires TablesFit(t) && EncodableAll(t, codes, syms)
  {
    forall i :: 0 <= i < |syms| ==> |SymbolBits(t, codes, syms[i])| <= 31
  }

  lemma {:induction false} PacedOne(t: Tables, codes: Codes, buf: seq<byte>, i: nat)
    requires TablesFit(t) && i + 3 <= |buf| && EncodableAll(t, codes, SymbolsFrom(buf, i)) && Paced(t, codes, SymbolsFrom(buf, i))
    ensures Encodable(t, codes, SymbolAt(buf, i)) && |SymbolBits(t, codes, SymbolAt(buf, i))| <= 31
    ensures EncodableAll(t, codes, SymbolsFrom(buf, i + 3)) && Paced(t, codes, SymbolsFrom(buf, i + 3))
  {
    hide SymbolBits, Encodable, SymbolsFrom, LengthFits, DistFits;
    SymbolsFromOne(buf, i);
    var all, rest := SymbolsFrom(buf, i), SymbolsFrom(buf, i + 3);
    assert all[0] == SymbolAt(buf, i);
    forall k | 0 <= k < |rest|
      ensures Encodable(t, codes, rest[k]) && |SymbolBits(t, codes, rest[k])| <= 31
    {
      assert all[k + 1] == rest[k];
    }
  }

  /** One symbol, read from the symbol buffer and sent. */
  method SendNext(w: B.BitWriter, t: Tables, ltree: CodeTree, dtree: CodeTree, symBuf: seq<byte>, sx: nat)
    requires w.Valid() && TablesFit(t) && TreeOk(ltree) && TreeOk(dtree) && sx + 3 <= |symBuf|
    requires EncodableAll(t, CodesOf(ltree, dtree), SymbolsFrom(symBuf, sx))
    requires Encodable(t, CodesOf(ltree, dtree), SymbolAt(symBuf, sx)) && w.Fits(|SymbolBits(t, CodesOf(ltree, dtree), SymbolAt(symBuf, sx))|)
    modifies w`store, w`pending, w`buf, w`valid
    ensures w.Valid() && EncodableAll(t, CodesOf(ltree, dtree), SymbolsFrom(symBuf, sx + 3))
    ensures |w.Bits()| == |old(w.Bits())| + |SymbolBits(t, CodesOf(ltree, dtree), SymbolAt(symBuf, sx))|
    ensures w.Bits() + SymbolsBits(t, CodesOf(ltree, dtree), SymbolsFrom(symBuf, sx + 3)) == old(w.Bits()) + SymbolsBits(t, CodesOf(ltree, dtree), SymbolsFrom(symBuf, sx))
  {
    hide CodeWord, ByteBits, TreeOk, LengthFits, DistFits, SymbolBits, SymbolsBits, SymbolsFrom, EncodableAll;
    SymbolsFromOne(symBuf, sx);
    ghost var codes, sym, rest, sent := CodesOf(ltree, dtree), SymbolAt(symBuf, sx), SymbolsFrom(symBuf, sx + 3), w.Bits();
    SymbolsBitsCons(t, codes, sym, rest);
    var dist := symBuf[sx] as int + 256 * (symBuf[sx + 1] as int);
    SendSymbol(w, t, ltree, dtree, dist, symBuf[sx + 2]);
    assert w.Bits() + SymbolsBits(t, codes, rest) == sent + (SymbolBits(t, codes, sym) + SymbolsBits(t, codes, rest));
  }

  /** compress_block: the symbols in the buffer, then the end of the block. */
  method CompressBlock(w: B.BitWriter, t: Tables, ltree: CodeTree, dtree: CodeTree, symBuf: seq<byte>)
    requires w.Valid() && TablesFit(t) && TreeOk(ltree) && TreeOk(dtree) && |symBuf| % 3 == 0
    requires EncodableAll(t, CodesOf(ltree, dtree), SymbolsFrom(symBuf, 0)) && Used(ltree.lens, END_BLOCK)
    requires w.Fits(|BlockBits(t, CodesOf(ltree, dtree), SymbolsFrom(symBuf, 0))|)
    modifies w`store, w`pending, w`buf, w`valid
    ensures w.Valid() && w.Bits() == old(w.Bits()) + BlockBits(t, CodesOf(ltree, dtree), SymbolsFrom(symBuf, 0))
  {
    hide CodeWord, ByteBits, TreeOk, LengthFits, DistFits, SymbolBits, SymbolsBits, SymbolsFrom, EncodableAll, B.BitWriter.Bits, B.BitWriter.Valid;
    ghost var codes := CodesOf(ltree, dtree);
    ghost var before, all := w.Bits(), SymbolsBits(t, codes, SymbolsFrom(symBuf, 0));
    var sx := 0;
    while sx < |symBuf|
      invariant sx <= |symBuf| && sx % 3 == 0 && w.Valid()
      invariant EncodableAll(t, codes, SymbolsFrom(symBuf, sx))
      invariant w.Bits() + SymbolsBits(t, codes, SymbolsFrom(symBuf, sx)) == before + all
    {
      NextSymbol(t, codes, symBuf, sx);
      assert |w.Bits()| + |SymbolsBits(t, codes, SymbolsFrom(symBuf, sx))| == |before| + |all|;
      SendNext(w, t, ltree, dtree, symBuf, sx);
      sx := sx + 3;
    }
    EndBlock(w, t, ltree, dtree, symBuf, sx, before, all);
  }

  lemma {:induction false} NextSymbol(t: Tables, codes: Codes, buf: seq<byte>, i: nat)
    requires TablesFit(t) && i + 3 <= |buf| && EncodableAll(t, codes, SymbolsFrom(buf, i))
    ensures Encodable(t, codes, SymbolAt(buf, i)) && |SymbolBits(t, codes, SymbolAt(buf, i))| <= |SymbolsBits(t, codes, SymbolsFrom(buf, i))|
  {
    hide LengthFits, DistFits, Encodable, SymbolBits, EncodableAll, SymbolsFrom, SymbolsBits;
    SymbolsFromOne(buf, i);
    SymbolsBitsCons(t, codes, SymbolAt(buf, i), SymbolsFrom(buf, i + 3));
  }

  method EndBlock(w: B.BitWriter, t: Tables, ltree: CodeTree, dtree: CodeTree, symBuf: seq<byte>, sx: nat, ghost before: BitString, ghost all: BitString)
    requires w.Valid() && TablesFit(t) && TreeOk(ltree) && sx >= |symBuf| && Used(ltree.lens, END_BLOCK)
    requires EncodableAll(t, CodesOf(ltree, dtree), SymbolsFrom(symBuf, sx)) && w.Fits(ltree.lens[END_BLOCK])
    requires w.Bits() + SymbolsBits(t, CodesOf(ltree, dtree), SymbolsFrom(symBuf, sx)) == before + all
    modifies w`store, w`pending, w`buf, w`valid
    ensures w.Valid() && w.Bits() == before + (all + CodeWord(ltree.lens, END_BLOCK))
  {
    hide CodeWord, ByteBits, TreeOk, LengthFits, DistFits, SymbolsBits, SymbolsFrom, B.BitWriter.Valid;
    ghost var codes := CodesOf(ltree, dtree);
    assert SymbolsBits(t, codes, SymbolsFrom(symBuf, sx)) == [] by { NoSymbols(t, codes, symBuf, sx); }
    assert w.Bits() == before + all;
    SendCode(w, ltree, END_BLOCK);
    assert w.Bits() == before + all + CodeWord(ltree.lens, END_BLOCK);
  }

  /** compress_block when no symbol takes more than 31 bits. The symbols lie in the same memory as the
      pending bytes, litBufsize bytes on, and whatever is still to be read there is out of bounds
      for the bit writer: it starts at w.limit. */
  method CompressPaced(w: B.BitWriter, t: Tables, ltree: CodeTree, dtree: CodeTree, symBuf: seq<byte>, ghost litBufsize: nat)
    requires w.Valid() && w.out == 0 && TablesFit(t) && TreeOk(ltree) && TreeOk(dtree) && |symBuf| % 3 == 0
    requires EncodableAll(t, CodesOf(ltree, dtree), SymbolsFrom(symBuf, 0)) && Used(ltree.lens, END_BLOCK)
    requires Paced(t, CodesOf(ltree, dtree), SymbolsFrom(symBuf, 0)) && |w.Bits()| <= 10
    requires 18 <= litBufsize && |symBuf| <= 3 * (litBufsize - 1) && w.size == 4 * litBufsize && w.limit == litBufsize
    modifies w`store, w`pending, w`buf, w`valid, w`limit
    ensures w.Valid() && w.limit == litBufsize + |symBuf|
    ensures w.Bits() == old(w.Bits()) + BlockBits(t, CodesOf(ltree, dtree), SymbolsFrom(symBuf, 0))
  {
    hide CodeWord, ByteBits, TreeOk, LengthFits, DistFits, SymbolBits, SymbolsBits, SymbolsFrom, EncodableAll, Paced, B.BitWriter.Bits;
    ghost var codes := CodesOf(ltree, dtree);
    ghost var before, all := w.Bits(), SymbolsBits(t, codes, SymbolsFrom(symBuf, 0));
    var sx := 0;
    while sx < |symBuf|
      invariant sx <= |symBuf| && sx % 3 == 0 && w.Valid() && w.limit == litBufsize + sx
      invariant EncodableAll(t, codes, SymbolsFrom(symBuf, sx))
      invariant w.Bits() + SymbolsBits(t, codes, SymbolsFrom(symBuf, sx)) == before + all
      invariant Paced(t, codes, SymbolsFrom(symBuf, sx)) && 3 * |w.Bits()| <= 30 + 31 * sx
    {
      NextSymbol(t, codes, symBuf, sx);
      PacedOne(t, codes, symBuf, sx);
      w.limit := w.limit + 3;
      SendNext(w, t, ltree, dtree, symBuf, sx);
      sx := sx + 3;
    }
    CodeShort(ltree, END_BLOCK);
    EndBlock(w, t, ltree, dtree, symBuf, sx, before, all);
  }

  lemma {:induction false} CodeShort(tree: CodeTree, s: nat)
    requires TreeOk(tree) && Used(tree.lens, s)
    ensures tree.lens[s] <= 15
  {
    hide Rev, CodeOf;
  }

  lemma {:induction false} NoSymbols(t: Tables, codes: Codes, buf: seq<byte>, i: nat)
    requires i >= |buf| && TablesFit(t)
    ensures SymbolsFrom(buf, i) == [] && SymbolsBits(t, codes, []) == []
  {
    hide LengthFits, DistFits;
  }
}
