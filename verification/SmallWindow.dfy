/** inflate with a window that is shorter than a match reaches back: what one call decodes, two may refuse. */
module SmallWindow {
  import opened Bits
  import opened Lz77
  import opened InflateSpec
  import opened Inflate
  import opened Distances
  import opened StaticTables
  import opened Block
  import opened BlockCodec
  import opened InflateStream
  import W = Window
  import B = BitWriter
  import opened Canonical
  import L = Lossless
  import StaticTrees

  /** Where decoding begins. */
  function Start(data: seq<byte>): (x: Conf)
  {
    Conf(Type(false), ByteBits(data), [])
  }

  /** Decoding meets a match at z that reaches back further than the window is long, but not too far. */
  ghost predicate Meets(data: seq<byte>, windowBits: nat, z: Conf)
  {
    Reaches(Start(data), z) && z.st.Match? && Pow2(windowBits) < z.st.offset <= |z.out|
  }

  /** A single call decodes as the format says, whatever the window. */
  method WholeCall(windowBits: nat, data: seq<byte>, room: nat) returns (ret: Ret, out: seq<byte>, ghost y: Conf)
    requires 8 <= windowBits <= 15
    ensures CallSpec(Start(data), y, room) && y.out == out
    ensures (ret == STREAM_END <==> y.st.Done?) && (ret == DATA_ERROR <==> y.st.Bad?)
  {
    hide CallSpec, ByteBits, Within, Pow2, Inv, Shape, AbsState;
    var i := new Inflater(windowBits);
    var consumed;
    assert i.Seeing(data) == Start(data) by { assert [] + ByteBits(data) == ByteBits(data); }
    ret, consumed, out := i.Inflate(data, room, false);
    y := i.Facing(data[consumed..]);
    assert [] + out == out;
  }

  /** With just the space for what comes before a match, a call stops at the match. */
  lemma {:induction false} StopsAt(x: Conf, y: Conf, z: Conf, room: nat)
    requires Reaches(x, z) && z.st.Match? && z.st.offset <= |z.out| && |z.out| == |x.out| + room
    requires CallSpec(x, y, room)
    ensures y == z
  {
    hide Reaches, Step, Ok;
    ReachesStep(x, z);
    Linear(x, y, z);
    AtMatch(z);
    if y != z {
      if Reaches(y, z) {
        FirstStep(y, z);
        Writes(y);
        var w := Step(y).value;
        ReachesOutput(w, z);
        if w.st.Bad? { AtBad(w); FirstStep(w, z); }
      } else {
        FirstStep(z, y);
        ReachesOutput(Step(z).value, y);
      }
    }
  }

  /** What needs space writes a byte, or is a match that reaches back too far. */
  lemma {:induction false} Writes(y: Conf)
    requires Ok(y.st) && NeedsSpace(y.st) && Step(y).Some?
    ensures |Step(y).value.out| == |y.out| + 1 || Step(y).value.st.Bad?
  {
    hide CodesOk, Lsb;
  }

  /** The same data in two calls, the first with space for what comes before the match: it is refused. */
  method SplitCall(windowBits: nat, data: seq<byte>, room: nat, ghost z: Conf) returns (ret: Ret, out: seq<byte>)
    requires 8 <= windowBits <= 15 && Meets(data, windowBits, z) && room == |z.out|
    ensures ret == DATA_ERROR && out == z.out
  {
    hide CallSpec, ByteBits, Within, Pow2, Inv, Shape, AbsState, Reaches;
    var i := new Inflater(windowBits);
    var consumed, more;
    assert i.Seeing(data) == Start(data) by { assert [] + ByteBits(data) == ByteBits(data); }
    ret, consumed, out := i.Inflate(data, room, false);
    assert [] + out == out;
    StopsAt(Start(data), i.Facing(data[consumed..]), z, room);
    var rest := data[consumed..];
    ghost var x := i.Seeing(rest);
    assert Ok(x.st) by { ReachesStep(Start(data), z); }
    ret, consumed, more := i.Inflate(rest, 1, false);
    CallRefuses(x, Between(i.s, i.m, i.hold, i.bits, rest[consumed..], x.out + more), 1);
    assert more == [];
  }

  /** The window is long enough, unless there is such a match. */
  lemma {:induction false} TooShort(data: seq<byte>, windowBits: nat)
    ensures WindowFits(data, windowBits) <==> !exists z :: Meets(data, windowBits, z)
  {
    hide Reaches, ByteBits, Pow2;
    if !WindowFits(data, windowBits) {
      var z :| Reaches(Start(data), z) && z.st.Match? && !(z.st.offset <= Pow2(windowBits) || |z.out| < z.st.offset);
      assert Meets(data, windowBits, z);
    }
  }

  /** With space for one more byte, decoding goes on. */
  lemma {:induction false} GoesOn(x: Conf, y: Conf, z: Conf, room: nat)
    requires Reaches(x, z) && z.st.Match? && z.st.offset <= |z.out| < |x.out| + room
    requires CallSpec(x, y, room)
    ensures |y.out| > |z.out| && z.out < y.out
  {
    hide Reaches, Step, Ok;
    ReachesStep(x, z);
    Linear(x, y, z);
    AtMatch(z);
    if y == z || !Reaches(z, y) {
      if y != z { FirstStep(y, z); }
      ReachesOutput(y, z);
    } else {
      FirstStep(z, y);
      ReachesOutput(Step(z).value, y);
      ReachesOutput(z, y);
    }
  }

  /** So however the calls are split, the result is the same exactly if there is no such match: with one, a single call goes on
      where two calls end in an error. */
  method Depends(windowBits: nat, data: seq<byte>, room: nat, ghost z: Conf) returns (whole: seq<byte>, split: seq<byte>, ret: Ret)
    requires 8 <= windowBits <= 15 && Meets(data, windowBits, z) && room == |z.out|
    ensures split == z.out < whole && ret == DATA_ERROR
  {
    hide CallSpec, ByteBits, Reaches, Pow2;
    ghost var y;
    var one;
    one, whole, y := WholeCall(windowBits, data, room + 1);
    GoesOn(Start(data), y, z, room + 1);
    ret, split := SplitCall(windowBits, data, room, z);
  }

  // ----- such a stream -----

  /** Bits as bytes. */
  ghost function Pack(b: BitString): (s: seq<byte>)
    requires |b| % 8 == 0
    ensures ByteBits(s) == b
  {
    if b == [] then [] else
      ToBitsLsb(b[..8]);
      assert b == b[..8] + b[8..];
      [ByteVal(b[..8])] + Pack(b[8..])
  }

  lemma {:induction false} FarFacts(t: Tables, text: seq<byte>)
    requires TablesFit(t) && 1 <= |text| <= 32768
    ensures var syms := [Pair(|text|, 3)];
      && EncodableAll(t, FixedCodes(), syms) && Used(FixedCodes().llens, END_BLOCK) && CodesOk(FixedCodes())
      && ValidAll(text, syms) && ReachAll(syms, 32768) && Expand(text, syms) == CopyBack(text, |text|, 3)
  {
    hide CopyBack, TablesFit, FixedCodes, CodesOk, EncodableAll, Used;
    var syms := [Pair(|text|, 3)];
    StaticTrees.StaticEncodable(t, syms);
    FixedOk();
    assert syms[1..] == [];
    assert Expand(text, syms) == Expand(CopyBack(text, |text|, 3), []);
    assert ValidAll(CopyBack(text, |text|, 3), []);
  }

  /** The match is reached with the text as output. */
  lemma {:induction false} FarMatch(t: Tables, text: seq<byte>, rest: BitString) returns (z: Conf)
    requires TablesFit(t) && 1 <= |text| <= 32768
    requires EncodableAll(t, FixedCodes(), [Pair(|text|, 3)]) && Used(FixedCodes().llens, END_BLOCK) && CodesOk(FixedCodes())
    ensures z.st.Match? && z.st.offset == |text| && z.out == text
    ensures Reaches(Conf(Type(false), FixedBits(t, true, [Pair(|text|, 3)]) + rest, text), z)
  {
    hide Reaches, CodesOk, FixedCodes, CodeWord, TablesFit, SymbolBits, TypeOf, Used, LengthFits, DistFits;
    var codes, syms := FixedCodes(), [Pair(|text|, 3)];
    var one, end := SymbolBits(t, codes, syms[0]), CodeWord(codes.llens, END_BLOCK);
    assert SymbolsBits(t, codes, syms) == one by { assert syms[1..] == [] && SymbolsBits(t, codes, []) == [] && one + [] == one; }
    var x, y := Conf(Type(false), FixedBits(t, true, syms) + rest, text), Conf(Len(true, codes), one + (end + rest), text);
    assert x.bits == TypeOf(1, true) + y.bits;
    TypeSteps(1, true, y.bits, text);
    PairReads(t, true, codes, |text|, 3, end + rest, text);
    z := Conf(Match(true, codes, 3, |text|), end + rest, text);
    ReachesTrans(x, y, z);
  }

  /** A stored block with the text, then a block with one match that reaches back over all of it. */
  lemma {:induction false} FarStream(t: Tables, text: seq<byte>, windowBits: nat) returns (data: seq<byte>, z: Conf)
    requires TablesFit(t) && Pow2(windowBits) < |text| <= 32768
    ensures Reaches(Start(data), Conf(Done, [], CopyBack(text, |text|, 3)))
    ensures Meets(data, windowBits, z) && z.out == text
  {
    hide Pow2, Reaches, Calm, ByteBits, StoredBits, FixedBits, Delivers, L.Lossless, FixedCodes, B.Zeros, CodeWord, SymbolsBits, EncodableAll,
      TablesFit, ReachAll, ValidAll, Expand, CopyBack;
    var syms := [Pair(|text|, 3)];
    FarFacts(t, text);
    var a, b := StoredBits(false, 5, text), FixedBits(t, true, syms);
    StoredSize(false, 5, text);
    var pad := (8 - |b| % 8) % 8;
    var all := Expand(text, syms);
    StoredDelivers(false, 5, text, 0, [], 32768);
    assert [] + text == text;
    FixedDelivers(t, true, syms, |a|, text, 32768);
    L.DeliversTrans(a, b, true, [], text, all, 32768);
    L.DeliversAll(a + b, pad, all, 32768);
    data := Pack(a + b + B.Zeros(pad));
    z := FarMatch(t, text, B.Zeros(pad));
    assert a + (b + B.Zeros(pad)) == a + b + B.Zeros(pad);
    L.DeliversRest(a, 0, false, [], text, b + B.Zeros(pad), 32768);
    CalmReaches(Start(data), Conf(Type(false), b + B.Zeros(pad), text), 32768);
    CalmReaches(Start(data), Conf(Done, [], all), 32768);
    ReachesTrans(Start(data), Conf(Type(false), b + B.Zeros(pad), text), z);
  }
}
