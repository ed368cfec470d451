/** How far back the matches of a stream reach, and so which windows are large enough for it. */
module Distances {
  import opened Bits
  import opened Canonical
  import opened InflateTable
  import opened Lz77
  import opened InflateSpec

  /** No match that decoding meets reaches back further than d bytes, unless it reaches before all output. */
  ghost predicate Within(x: Conf, d: nat)
  {
    forall y :: Reaches(x, y) && y.st.Match? ==> y.st.offset <= d || |y.out| < y.st.offset
  }

  /** Nor on the way from x to y. */
  ghost predicate Calm(x: Conf, y: Conf, d: nat)
  {
    Reaches(x, y) && forall z :: Reaches(x, z) && Reaches(z, y) && z.st.Match? ==> z.st.offset <= d
  }

  /** Decoding never branches. */
  lemma {:induction false} Linear(x: Conf, y: Conf, z: Conf)
    requires Reaches(x, y) && Reaches(x, z)
    ensures Reaches(y, z) || Reaches(z, y)
  {
    hide Step, Ok, Run;
    var n: nat :| Run(x, n) == Some(y);
    var m: nat :| Run(x, m) == Some(z);
    ReachesStep(x, y);
    ReachesStep(x, z);
    if n <= m { RunAdd(x, n, m - n); } else { RunAdd(x, m, n - m); }
  }

  /** The first step of a run. */
  lemma {:induction false} FirstStep(x: Conf, z: Conf)
    requires Reaches(x, z) && x != z
    ensures Ok(x.st) && Step(x).Some? && Reaches(Step(x).value, z)
  {
    hide Step, Ok;
    var n: nat :| Run(x, n) == Some(z);
    StepOk(x);
    assert Run(Step(x).value, n - 1) == Some(z);
  }

  lemma {:induction false} ReachesOutput(x: Conf, y: Conf)
    requires Reaches(x, y)
    ensures x.out <= y.out
  {
    hide Step, Ok, Run;
    var n: nat :| Run(x, n) == Some(y);
    RunOutput(x, n);
  }

  // ----- the whole run -----

  lemma {:induction false} WithinFrom(x: Conf, y: Conf, d: nat)
    requires Within(x, d) && Reaches(x, y)
    ensures Within(y, d)
  {
    hide Reaches;
    forall z | Reaches(y, z) && z.st.Match?
      ensures z.st.offset <= d || |z.out| < z.st.offset
    {
      ReachesTrans(x, y, z);
    }
  }

  lemma {:induction false} WithinMore(x: Conf, d: nat, d': nat)
    requires Within(x, d) && d <= d'
    ensures Within(x, d')
  {
    hide Reaches;
  }

  /** What can be read of a part of the input is no more than of all of it. */
  lemma {:induction false} WithinPart(x: Conf, more: BitString, d: nat)
    requires Within(x.(bits := x.bits + more), d) && |more| % 8 == 0
    ensures Within(x, d)
  {
    hide Reaches;
    forall z | Reaches(x, z) && z.st.Match?
      ensures z.st.offset <= d || |z.out| < z.st.offset
    {
      ReachesMonotone(x, z, more);
      assert z.(bits := z.bits + more).st == z.st;
    }
  }

  /** The state itself. */
  lemma {:induction false} WithinHere(x: Conf, d: nat)
    requires Within(x, d) && Ok(x.st)
    ensures x.st.Match? ==> x.st.offset <= d || |x.out| < x.st.offset
  {
    hide Reaches, Ok;
    ReachesSelf(x);
  }

  /** No distance is greater than 32768. */
  lemma {:induction false} WithinAlways(x: Conf)
    ensures Within(x, 32768)
  {
    hide Step, Run, CodesOk, DynamicOk;
    forall z | Reaches(x, z) && z.st.Match?
      ensures z.st.offset <= 32768
    {
      ReachesStep(x, z);
    }
  }

  /** A run that has come to an end has met all the matches there are. */
  lemma {:induction false} CalmWithin(x: Conf, y: Conf, d: nat)
    requires Calm(x, y, d) && Ok(y.st) && Step(y).None?
    ensures Within(x, d)
  {
    hide Reaches, Step, Ok;
    forall z | Reaches(x, z) && z.st.Match?
      ensures z.st.offset <= d || |z.out| < z.st.offset
    {
      Linear(x, y, z);
      if Reaches(y, z) && y != z { FirstStep(y, z); }
      ReachesStep(x, y);
      ReachesSelf(y);
    }
  }

  // ----- runs put together -----

  lemma {:induction false} CalmSelf(x: Conf, d: nat)
    requires Ok(x.st) && !x.st.Match? && !x.st.Bad?
    ensures Calm(x, x, d)
  {
    hide Step, Ok, Reaches;
    ReachesSelf(x);
    Still(x, x, d);
  }

  lemma {:induction false} CalmTrans(x: Conf, y: Conf, z: Conf, d: nat)
    requires Calm(x, y, d) && Calm(y, z, d)
    ensures Calm(x, z, d)
  {
    hide Reaches;
    ReachesTrans(x, y, z);
    forall w | Reaches(x, w) && Reaches(w, z) && w.st.Match?
      ensures w.st.offset <= d
    {
      Linear(x, y, w);
    }
  }

  lemma {:induction false} CalmReaches(x: Conf, y: Conf, d: nat)
    requires Calm(x, y, d)
    ensures Reaches(x, y)
  {
    hide Reaches;
  }

  lemma {:induction false} CalmStep(x: Conf, w: Conf, y: Conf, d: nat)
    requires Ok(x.st) && Step(x) == Some(w) && (x.st.Match? ==> x.st.offset <= d) && Calm(w, y, d)
    ensures Calm(x, y, d)
  {
    hide Reaches, Step, Ok;
    OkOfStep(x, w);
    ReachesTrans(x, w, y);
    forall z | Reaches(x, z) && Reaches(z, y) && z.st.Match?
      ensures z.st.offset <= d
    {
      if x != z { FirstStep(x, z); }
    }
  }

  /** A match that is on the way has written something before the run is over. */
  lemma {:induction false} MatchWrites(z: Conf, y: Conf)
    requires Reaches(z, y) && z != y && z.st.Match? && !y.st.Bad?
    ensures |z.out| < |y.out|
  {
    hide Reaches, Step, Ok;
    FirstStep(z, y);
    AtMatch(z);
    var w := Step(z).value;
    if w.st.Bad? {
      AtBad(w);
      if w != y { FirstStep(w, y); }
    } else {
      ReachesOutput(w, y);
    }
  }

  /** Where nothing is written there is no match on the way. */
  lemma {:induction false} Still(x: Conf, y: Conf, d: nat)
    requires Reaches(x, y) && |x.out| == |y.out| && !y.st.Bad? && (y.st.Match? ==> y.st.offset <= d)
    ensures Calm(x, y, d)
  {
    hide Reaches, Step, Ok;
    forall z | Reaches(x, z) && Reaches(z, y) && z.st.Match?
      ensures z.st.offset <= d
    {
      if z != y {
        ReachesOutput(x, z);
        MatchWrites(z, y);
      }
    }
  }

  /** A whole match. */
  lemma {:induction false} MatchCalm(last: bool, codes: Codes, length: nat, offset: nat, b: BitString, out: seq<byte>, d: nat)
    requires Ok(Match(last, codes, length, offset)) && offset <= |out| && offset <= d
    ensures Calm(Conf(Match(last, codes, length, offset), b, out), Conf(Len(last, codes), b, CopyBack(out, offset, length)), d)
    decreases length
  {
    hide Calm, Step, CodesOk;
    var x, y := Conf(Match(last, codes, length, offset), b, out), Conf(Len(last, codes), b, CopyBack(out, offset, length));
    var next := out + [out[|out| - offset]];
    AtMatch(x);
    if length > 1 {
      MatchCalm(last, codes, length - 1, offset, b, next, d);
      CalmStep(x, Conf(Match(last, codes, length - 1, offset), b, next), y, d);
    } else {
      assert CopyBack(next, offset, 0) == next;
      StepOk(x);
      CalmSelf(y, d);
      CalmStep(x, y, y, d);
    }
  }

  /** Stored bytes. */
  lemma {:induction false} CopyCalm(x: Conf, y: Conf, d: nat)
    requires Reaches(x, y) && x.st.Copy? && y.st.Type? && |y.out| == |x.out| + x.st.length
    ensures Calm(x, y, d)
    decreases if x.st.Copy? then x.st.length else 0
  {
    hide Reaches, Step, Ok, Calm, Lsb;
    FirstStep(x, y);
    AtCopy(x);
    var w := Step(x).value;
    if x.st.length == 0 { Still(w, y, d); } else { CopyCalm(w, y, d); }
    CalmStep(x, w, y, d);
  }

  // ----- decoding that has forgotten its oldest output -----

  /** The same configuration with older output before its own. */
  function Under(far: seq<byte>, x: Conf): (y: Conf)
  {
    x.(out := far + x.out)
  }

  /** A step takes no notice of older output, unless it is a match that reaches it. */
  lemma {:induction false} StepUnder(far: seq<byte>, x: Conf)
    requires Ok(x.st) && (x.st.Match? ==> x.st.offset <= |x.out| || |far| + |x.out| < x.st.offset)
    ensures Step(Under(far, x)) == if Step(x).None? then None else Some(Under(far, Step(x).value))
  {
    hide CodesOk, Lsb, Decode;
    assert forall c: byte :: far + (x.out + [c]) == far + x.out + [c];
  }

  /** Nor whether there is one. */
  lemma {:induction false} StuckUnder(x: Conf, out: seq<byte>)
    requires Ok(x.st)
    ensures Step(x.(out := out)).None? <==> Step(x).None?
  {
    hide CodesOk, Lsb, Decode;
  }

  /** A run that ends well meets only matches that it can follow, and so it makes no difference what was there before. */
  lemma {:induction false} CalmUnder(far: seq<byte>, x: Conf, y: Conf, d: nat)
    requires Calm(x, y, d) && Ok(y.st) && !y.st.Match? && !y.st.Bad?
    ensures Calm(Under(far, x), Under(far, y), d)
  {
    hide Step, Ok, Run, Calm;
    CalmReaches(x, y, d);
    ReachesStep(x, y);
    var n: nat :| Run(x, n) == Some(y);
    CalmRun(far, x, y, n, d);
  }

  lemma {:induction false} CalmRun(far: seq<byte>, x: Conf, y: Conf, n: nat, d: nat)
    requires Ok(x.st) && Run(x, n) == Some(y) && Calm(x, y, d) && Ok(y.st) && !y.st.Match? && !y.st.Bad?
    ensures Calm(Under(far, x), Under(far, y), d)
    decreases n
  {
    hide Step, Ok, Calm;
    if n == 0 {
      CalmSelf(Under(far, y), d);
    } else {
      StepOk(x);
      var w := Step(x).value;
      assert Run(w, n - 1) == Some(y);
      CalmFrom(x, w, y, n, d);
      if x.st.Match? { ValidMatch(x, w, y, n); }
      StepUnder(far, x);
      CalmRun(far, w, y, n - 1, d);
      CalmStep(Under(far, x), Under(far, w), Under(far, y), d);
    }
  }

  lemma {:induction false} CalmFrom(x: Conf, w: Conf, y: Conf, n: nat, d: nat)
    requires Ok(x.st) && Ok(w.st) && Step(x) == Some(w) && n > 0 && Run(w, n - 1) == Some(y) && Calm(x, y, d)
    ensures Calm(w, y, d) && (x.st.Match? ==> x.st.offset <= d)
  {
    hide Step, Ok, Run, Reaches;
    assert Reaches(w, y) by { RunReaches(w, y, n - 1); }
    StepReaches(x, w);
    ReachesSelf(x);
    forall z | Reaches(w, z) && Reaches(z, y) && z.st.Match?
      ensures z.st.offset <= d
    {
      ReachesTrans(x, w, z);
    }
  }

  lemma {:induction false} RunReaches(x: Conf, y: Conf, n: nat)
    requires Ok(x.st) && Run(x, n) == Some(y)
    ensures Reaches(x, y)
  {
    hide Step, Ok, Run;
  }

  /** A match on the way to somewhere is not one that reaches too far. */
  lemma {:induction false} ValidMatch(x: Conf, w: Conf, y: Conf, n: nat)
    requires Ok(x.st) && x.st.Match? && Step(x) == Some(w) && Ok(w.st) && n > 0 && Run(w, n - 1) == Some(y) && !y.st.Bad?
    ensures x.st.offset <= |x.out|
  {
    hide Step, Ok;
    AtMatch(x);
    if w.st.Bad? { AtBad(w); }
  }

  /** With as many bytes left as any match reaches back, nothing is missed. */
  lemma {:induction false} RunUnder(far: seq<byte>, x: Conf, n: nat, d: nat)
    requires Ok(x.st) && Run(x, n).Some? && Within(Under(far, x), d) && d <= |x.out|
    ensures Run(Under(far, x), n) == Some(Under(far, Run(x, n).value))
    decreases n
  {
    hide Step, Ok, Within;
    if n > 0 {
      WithinHere(Under(far, x), d);
      StepUnder(far, x);
      StepOk(x);
      var w := Step(x).value;
      StepReaches(Under(far, x), Under(far, w));
      WithinFrom(Under(far, x), Under(far, w), d);
      StepGrows(x, w);
      RunUnder(far, w, n - 1, d);
    }
  }

  lemma {:induction false} StepReaches(x: Conf, w: Conf)
    requires Ok(x.st) && Step(x) == Some(w)
    ensures Reaches(x, w)
  {
    hide Step, Ok;
    OkOfStep(x, w);
  }

  lemma {:induction false} StepGrows(x: Conf, w: Conf)
    requires Ok(x.st) && Step(x) == Some(w)
    ensures |x.out| <= |w.out|
  {
    hide Step, Ok, Reaches;
    StepReaches(x, w);
    ReachesOutput(x, w);
  }

  /** So a call does the same. */
  lemma {:induction false} CallUnder(far: seq<byte>, x: Conf, y: Conf, room: nat, d: nat)
    requires CallSpec(x, y, room) && Within(Under(far, x), d) && (far == [] || d <= |x.out|)
    ensures CallSpec(Under(far, x), Under(far, y), room)
  {
    hide Step, Ok, Within, Run;
    if far == [] {
      assert [] + x.out == x.out && [] + y.out == y.out;
    } else {
      var n: nat :| Run(x, n) == Some(y);
      ReachesStep(x, y);
      RunUnder(far, x, n, d);
      StuckUnder(y, far + y.out);
    }
  }

  /** A call that meets a match too long ago for what it can see refuses it. */
  lemma {:induction false} CallRefuses(x: Conf, y: Conf, room: nat)
    requires CallSpec(x, y, room) && x.st.Match? && Ok(x.st) && x.st.offset > |x.out| && room > 0
    ensures y == x.(st := Bad)
  {
    hide Step, Ok, Reaches;
    AtMatch(x);
    FirstStep(x, y);
    var w := Step(x).value;
    AtBad(w);
    if w != y { FirstStep(w, y); }
  }

  /** Symbols whose matches reach back at most d bytes. */
  ghost predicate Reach(s: Symbol, d: nat) { s.Pair? ==> s.dist <= d }

  ghost predicate ReachAll(syms: seq<Symbol>, d: nat)
  {
    forall i :: 0 <= i < |syms| ==> Reach(syms[i], d)
  }
}
