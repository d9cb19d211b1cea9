/** Vertex chains as an anchor followed by signed-byte steps
    (`encodedeltaslow`, `encodedelta` and `deltaint` of
    magellan/CellElement.py). A step larger than the byte range is split
    into several, each inserting a synthetic vertex. */
module DeltaCoding {
  import opened Wrappers
  import opened PyStruct
  import opened Geometry
  import opened Arith
  import opened Chunks

  /** Largest step component the chain encoder emits. */
  const MaxStep: nat := 127

  function L1(p: Pt): nat { Abs(p.x) + Abs(p.y) }

  /** Python 2 `round(n / d)` where the division is in floating point:
      halves round away from zero. The quotient is taken exactly, as the
      float quotient of the coordinates the model holds. */
  function RoundDiv(n: int, d: int): int
    requires d > 0
  {
    if n >= 0 then (2 * n + d) / (2 * d) else -((2 * -n + d) / (2 * d))
  }

  lemma {:induction false} ScaledMagnitude(a: nat, dom: int, m: nat)
    requires m < dom && a <= dom
    ensures 0 <= (2 * (m * a) + dom) / (2 * dom) <= m
    ensures (2 * (m * a) + dom) / (2 * dom) <= a
  {
    var ma := m * a;
    MulLe(a, dom, m);
    assert a * m == ma && dom * m == m * dom;
    QuotBound(ma, dom, m);
    MulLe(m, dom, a);
    assert m * a == ma;
    QuotBound(ma, dom, a);
  }

  /** Rounding x / dom keeps it at most c when x is at most dom * c. */
  lemma QuotBound(x: nat, dom: int, c: nat)
    requires dom > 0 && x <= dom * c
    ensures 0 <= (2 * x + dom) / (2 * dom) <= c
  {
    var d2 := 2 * dom;
    assert d2 * (c + 1) == 2 * (dom * c) + d2;
    DivLt(2 * x + dom, d2, c + 1);
  }

  /** Scaling a component no longer than the dominant one keeps its sign,
      never lengthens it, and stays within maxstep. */
  lemma ScaledComponent(e: int, dom: int, m: nat)
    requires m < dom && Abs(e) <= dom
    ensures Abs(RoundDiv(m * e, dom)) <= m
    ensures Abs(RoundDiv(m * e, dom)) <= Abs(e)
    ensures e >= 0 ==> RoundDiv(m * e, dom) >= 0
    ensures e <= 0 ==> RoundDiv(m * e, dom) <= 0
  {
    var a := Abs(e);
    ScaledMagnitude(a, dom, m);
    if e < 0 {
      assert m * e == -(m * a);
    } else {
      assert m * e == m * a;
    }
  }

  /** `maxstep * delta / abs(dom)` on a numpy integer array: Python 2
      divides integer arrays with floor division (Dafny's division, the
      divisor being positive), and `round` keeps the floored value. */
  function FloorDiv(n: int, d: int): int
    requires d > 0
  {
    n / d
  }

  /** A dividend between 0 and m * dom, and at most a * dom, floors to
      between 0 and m, and at most a. */
  lemma FloorNonneg(n: int, dom: int, m: int, a: int)
    requires dom > 0 && 0 <= n && n <= m * dom && n <= a * dom
    ensures 0 <= n / dom <= m && n / dom <= a
  {
    DivMono(0, n, dom);
    DivMono(n, m * dom, dom);
    DivMono(n, a * dom, dom);
    DivAdd(m, 0, dom);
    DivAdd(a, 0, dom);
  }

  /** The mirror image for a dividend between -(m * dom) and 0. */
  lemma FloorNonpos(n: int, dom: int, m: int, a: int)
    requires dom > 0 && n <= 0 && -(m * dom) <= n && -(a * dom) <= n
    ensures -m <= n / dom <= 0 && -a <= n / dom
  {
    DivMono(n, 0, dom);
    assert -(m * dom) == (-m) * dom && -(a * dom) == (-a) * dom;
    DivMono((-m) * dom, n, dom);
    DivMono((-a) * dom, n, dom);
    DivAdd(-m, 0, dom);
    DivAdd(-a, 0, dom);
  }

  /** The floored scaling keeps the sign of a component no longer than the
      dominant one, never lengthens it and stays within maxstep. */
  lemma FlooredComponent(e: int, dom: int, m: nat)
    requires m < dom && Abs(e) <= dom
    ensures Abs(FloorDiv(m * e, dom)) <= m
    ensures Abs(FloorDiv(m * e, dom)) <= Abs(e)
    ensures e >= 0 ==> FloorDiv(m * e, dom) >= 0
    ensures e <= 0 ==> FloorDiv(m * e, dom) <= 0
  {
    var a := Abs(e);
    MulLe(a, dom, m);
    MulLe(m, dom, a);
    MulLe(0, a, m);
    if e >= 0 {
      FloorNonneg(m * a, dom, m, a);
    } else {
      assert m * e == -(m * a);
      FloorNonpos(-(m * a), dom, m, a);
    }
  }

  /** The dominant component scales to exactly maxstep. */
  lemma ScaledDominant(dom: int, m: nat)
    requires dom > 0
    ensures RoundDiv(m * dom, dom) == m
    ensures RoundDiv(m * -dom, dom) == -(m as int)
  {
    var md := m * dom;
    var d2 := 2 * dom;
    assert 2 * md + dom == m * d2 + dom;
    DivAdd(m, dom, d2);
    assert m * -dom == -md;
  }

  /** A step that points the same way as the remaining vector, is no
      longer in either component and reaches m in one of them brings the
      end at least m closer. */
  lemma StepShrinks(d: Pt, step: Pt, m: nat)
    requires Abs(step.x) <= Abs(d.x) && Abs(step.y) <= Abs(d.y)
    requires (d.x >= 0 ==> step.x >= 0) && (d.x <= 0 ==> step.x <= 0)
    requires (d.y >= 0 ==> step.y >= 0) && (d.y <= 0 ==> step.y <= 0)
    requires Abs(step.x) == m || Abs(step.y) == m
    ensures L1(d.Sub(step)) + m <= L1(d)
  {
  }

  datatype DeltaStep = DeltaStep(delta: Pt, position: Pt, done: bool)

  /** The scaled step: the remaining vector d times m over its dominant
      length, rounded for float arrays and floored for integer arrays. */
  function ScaledStep(d: Pt, dom: int, m: nat, intarray: bool): Pt
    requires dom > 0
  {
    Pt(ScaledPart(d.x, dom, m, intarray), ScaledPart(d.y, dom, m, intarray))
  }

  /** One component of the scaled step. */
  function ScaledPart(e: int, dom: int, m: nat, intarray: bool): int
    requires dom > 0
  {
    if intarray then FloorDiv(m * e, dom) else RoundDiv(m * e, dom)
  }

  /** A component no longer than the dominant one keeps its sign, never
      lengthens and stays within m; the dominant one scales to m. */
  lemma {:induction false} ScaledPartFacts(e: int, dom: int, m: nat, intarray: bool)
    requires m < dom && Abs(e) <= dom
    ensures Abs(ScaledPart(e, dom, m, intarray)) <= m
    ensures Abs(ScaledPart(e, dom, m, intarray)) <= Abs(e)
    ensures e >= 0 ==> ScaledPart(e, dom, m, intarray) >= 0
    ensures e <= 0 ==> ScaledPart(e, dom, m, intarray) <= 0
    ensures Abs(e) == dom ==> Abs(ScaledPart(e, dom, m, intarray)) == m
  {
    if intarray {
      FlooredComponent(e, dom, m);
    } else {
      ScaledComponent(e, dom, m);
    }
    if Abs(e) == dom {
      DominantPart(e, dom, m, intarray);
    }
  }

  lemma {:induction false} DominantPart(e: int, dom: int, m: nat, intarray: bool)
    requires dom > 0 && Abs(e) == dom
    ensures Abs(ScaledPart(e, dom, m, intarray)) == m
  {
    if e > 0 {
      assert m * e == m * dom;
    } else {
      assert m * e == m * -dom;
    }
    if intarray {
      DivAdd(m, 0, dom);
      DivAdd(-(m as int), 0, dom);
      assert m * -dom == -(m as int) * dom;
    } else {
      ScaledDominant(dom, m);
    }
  }

  /** Either way the step reaches m along the dominant axis, stays within
      m, and brings the end at least m closer. */
  lemma {:induction false} ScaledStepShrinks(d: Pt, dom: int, m: nat, intarray: bool)
    requires m < dom && Abs(d.x) <= dom && Abs(d.y) <= dom && (Abs(d.x) == dom || Abs(d.y) == dom)
    ensures var step := ScaledStep(d, dom, m, intarray);
      && Abs(step.x) <= m && Abs(step.y) <= m
      && (Abs(step.x) == m || Abs(step.y) == m)
      && L1(d.Sub(step)) + m <= L1(d)
  {
    ScaledPartFacts(d.x, dom, m, intarray);
    ScaledPartFacts(d.y, dom, m, intarray);
    StepShrinks(d, ScaledStep(d, dom, m, intarray), m);
  }

  /** deltaint(v1, v2, maxstep): the whole remaining vector when both
      components fit, otherwise a step whose dominant component is exactly
      +/-maxstep (x dominates only when strictly longer) and whose other
      component is scaled in proportion: rounded when the vertices are
      float arrays, floored when they are integer arrays (`intarray`). */
  function DeltaInt(v1: Pt, v2: Pt, maxstep: nat, intarray: bool): (r: DeltaStep)
    ensures r.position == v1.Add(r.delta)
    ensures r.done <==> Abs(v2.x - v1.x) <= maxstep && Abs(v2.y - v1.y) <= maxstep
    ensures r.done ==> r.position == v2
    ensures Abs(r.delta.x) <= maxstep && Abs(r.delta.y) <= maxstep
    ensures !r.done ==> Abs(r.delta.x) == maxstep || Abs(r.delta.y) == maxstep
    ensures !r.done ==> L1(v2.Sub(r.position)) + maxstep <= L1(v2.Sub(v1))
  {
    var d := v2.Sub(v1);
    if Abs(d.x) > maxstep || Abs(d.y) > maxstep then
      var dom := if Abs(d.x) > Abs(d.y) then Abs(d.x) else Abs(d.y);
      var step := ScaledStep(d, dom, maxstep, intarray);
      ScaledStepShrinks(d, dom, maxstep, intarray);
      assert v2.Sub(v1.Add(step)) == d.Sub(step);
      DeltaStep(step, v1.Add(step), false)
    else
      DeltaStep(d, v1.Add(d), true)
  }

  function Sum(steps: seq<Pt>): Pt
  {
    if |steps| == 0 then Pt(0, 0) else steps[0].Add(Sum(steps[1..]))
  }

  predicate Small(p: Pt) { Abs(p.x) <= MaxStep && Abs(p.y) <= MaxStep }

  predicate AllSmall(s: seq<Pt>) { forall i :: 0 <= i < |s| ==> Small(s[i]) }

  /** The steps `encodedeltaslow` emits for one segment: repeated deltaint
      with maxstep 127 until the segment is done. Only the first step can
      start from an integer array: the position it returns is a float
      array. */
  function Steps(p: Pt, q: Pt, intarray: bool): (s: seq<Pt>)
    ensures |s| >= 1
    ensures AllSmall(s)
    ensures Sum(s) == q.Sub(p)
    ensures Small(q.Sub(p)) <==> |s| == 1
    decreases L1(q.Sub(p))
  {
    var st := DeltaInt(p, q, MaxStep, intarray);
    if st.done then [st.delta]
    else
      var rest := Steps(st.position, q, false);
      [st.delta] + rest
  }

  /** All steps of a chain of float vertices, segment after segment: the
      form the element serializers hand the encoder. */
  function ChainSteps(vs: seq<Pt>): (s: seq<Pt>)
    ensures AllSmall(s)
  {
    if |vs| <= 1 then [] else ChainSteps(vs[..|vs| - 1]) + Steps(vs[|vs| - 2], vs[|vs| - 1], false)
  }

  /** Number of synthetic vertices: steps that did not finish a segment. */
  function Inserted(vs: seq<Pt>): nat
  {
    if |vs| <= 1 then 0 else Inserted(vs[..|vs| - 1]) + |Steps(vs[|vs| - 2], vs[|vs| - 1], false)| - 1
  }

  /** The steps `encodedeltaslow` emits for the chain from vertex k on,
      `isint` telling whether the position is still an integer array. It
      stays one until the first segment that needs splitting, whose first
      step is therefore floored; every later step is rounded. */
  function ChainFrom(vs: seq<Pt>, k: nat, isint: bool): (s: seq<Pt>)
    ensures AllSmall(s)
    decreases |vs| - k
  {
    if k + 1 >= |vs| then []
    else Steps(vs[k], vs[k + 1], isint) + ChainFrom(vs, k + 1, isint && Small(vs[k + 1].Sub(vs[k])))
  }

  /** The synthetic vertices `encodedeltaslow` counts from vertex k on. */
  function InsertedFrom(vs: seq<Pt>, k: nat, isint: bool): nat
    decreases |vs| - k
  {
    if k + 1 >= |vs| then 0
    else |Steps(vs[k], vs[k + 1], isint)| - 1 + InsertedFrom(vs, k + 1, isint && Small(vs[k + 1].Sub(vs[k])))
  }

  /** For float arrays the chain from vertex k completes `ChainSteps` of
      the vertices up to k. */
  lemma {:induction false} ChainFromFloat(vs: seq<Pt>, k: nat)
    requires k < |vs|
    ensures ChainSteps(vs[..k + 1]) + ChainFrom(vs, k, false) == ChainSteps(vs)
    decreases |vs| - k
  {
    if k + 1 == |vs| {
      assert vs[..k + 1] == vs;
    } else {
      var a, seg, c := ChainSteps(vs[..k + 1]), Steps(vs[k], vs[k + 1], false), ChainFrom(vs, k + 1, false);
      ChainStepsNext(vs, k);
      assert ChainFrom(vs, k, false) == seg + c;
      AppendAssoc(a, seg, c);
      ChainFromFloat(vs, k + 1);
    }
  }

  /** One more vertex adds the steps of its segment. */
  lemma ChainStepsNext(vs: seq<Pt>, k: nat)
    requires k + 1 < |vs|
    ensures ChainSteps(vs[..k + 2]) == ChainSteps(vs[..k + 1]) + Steps(vs[k], vs[k + 1], false)
  {
    var pre := vs[..k + 2];
    assert pre[..k + 1] == vs[..k + 1];
    assert pre[k] == vs[k] && pre[k + 1] == vs[k + 1];
  }

  lemma {:induction false} InsertedFromFloat(vs: seq<Pt>, k: nat)
    requires k < |vs|
    ensures Inserted(vs[..k + 1]) + InsertedFrom(vs, k, false) == Inserted(vs)
    decreases |vs| - k
  {
    if k + 1 == |vs| {
      assert vs[..k + 1] == vs;
    } else {
      InsertedFromFloat(vs, k + 1);
      var pre := vs[..k + 2];
      assert pre[..k + 1] == vs[..k + 1];
    }
  }

  /** So the whole float chain is `ChainSteps`. */
  lemma ChainFromStart(vs: seq<Pt>)
    ensures ChainFrom(vs, 0, false) == ChainSteps(vs)
    ensures InsertedFrom(vs, 0, false) == Inserted(vs)
  {
    if |vs| > 0 {
      ChainFromFloat(vs, 0);
      InsertedFromFloat(vs, 0);
    }
  }

  /** Either way the steps add up to the chain's displacement. */
  lemma {:induction false} ChainFromSum(vs: seq<Pt>, k: nat, isint: bool)
    requires k < |vs|
    ensures vs[k].Add(Sum(ChainFrom(vs, k, isint))) == vs[|vs| - 1]
    decreases |vs| - k
  {
    if k + 1 < |vs| {
      var next := isint && Small(vs[k + 1].Sub(vs[k]));
      ChainFromSum(vs, k + 1, next);
      SumAppend(Steps(vs[k], vs[k + 1], isint), ChainFrom(vs, k + 1, next));
    }
  }

  /** A segment of (200, 1) from any point: from float arrays the first
      step is rounded to (127, 1), from integer arrays it is floored to
      (127, 0), and the rest of the segment makes up the difference. */
  lemma FirstStepFloored(p: Pt)
    ensures Steps(p, p.Add(Pt(200, 1)), false) == [Pt(127, 1), Pt(73, 0)]
    ensures Steps(p, p.Add(Pt(200, 1)), true) == [Pt(127, 0), Pt(73, 1)]
  {
    var q := p.Add(Pt(200, 1));
    assert q.Sub(p.Add(Pt(127, 1))) == Pt(73, 0);
    assert q.Sub(p.Add(Pt(127, 0))) == Pt(73, 1);
    FirstStepOf(p, false);
    TwoSteps(p, q, false, Pt(127, 1));
    FirstStepOf(p, true);
    TwoSteps(p, q, true, Pt(127, 0));
  }

  /** The first deltaint step along (200, 1). */
  lemma FirstStepOf(p: Pt, intarray: bool)
    ensures var a := Pt(127, if intarray then 0 else 1);
      DeltaInt(p, p.Add(Pt(200, 1)), MaxStep, intarray) == DeltaStep(a, p.Add(a), false)
  {
    assert p.Add(Pt(200, 1)).Sub(p) == Pt(200, 1);
    if intarray {
      assert FloorDiv(127 * 200, 200) == 127 && FloorDiv(127 * 1, 200) == 0;
    } else {
      assert RoundDiv(127 * 200, 200) == 127 && RoundDiv(127 * 1, 200) == 1;
    }
  }

  /** A segment whose first step `a` falls short and whose remainder fits
      in a byte takes exactly two steps. */
  lemma TwoSteps(p: Pt, q: Pt, intarray: bool, a: Pt)
    requires DeltaInt(p, q, MaxStep, intarray) == DeltaStep(a, p.Add(a), false)
    requires Small(q.Sub(p.Add(a)))
    ensures Steps(p, q, intarray) == [a, q.Sub(p.Add(a))]
  {
    var m := p.Add(a);
    var rest := Steps(m, q, false);
    assert rest == [q.Sub(m)] by { StepsUnfold(m, q, false); }
    assert Steps(p, q, intarray) == [a] + rest by { StepsUnfold(p, q, intarray); }
  }

  /** pack("2b", dx, dy) for each step, in order. */
  function StepBytes(steps: seq<Pt>): (r: seq<byte>)
    requires AllSmall(steps)
    ensures |r| == 2 * |steps|
  {
    if |steps| == 0 then []
    else
      assert Small(steps[0]);
      [S8(steps[0].x), S8(steps[0].y)] + StepBytes(steps[1..])
  }

  lemma {:induction false} StepBytesAppend(a: seq<Pt>, b: seq<Pt>)
    requires AllSmall(a) && AllSmall(b)
    ensures StepBytes(a + b) == StepBytes(a) + StepBytes(b)
  {
    if |a| == 0 {
      assert a + b == b;
    } else {
      assert (a + b)[0] == a[0];
      assert (a + b)[1..] == a[1..] + b;
      StepBytesAppend(a[1..], b);
    }
  }

  lemma StepsUnfold(p: Pt, q: Pt, intarray: bool)
    ensures var st := DeltaInt(p, q, MaxStep, intarray);
      && (st.done ==> Steps(p, q, intarray) == [st.delta])
      && (!st.done ==> Steps(p, q, intarray) == [st.delta] + Steps(st.position, q, false))
  {
  }

  /** One step of the segment loop: the emitted steps grow by the step
      just taken and the steps left shrink by it. */
  lemma StepAdvance(emitted: seq<Pt>, p: Pt, q: Pt, intarray: bool)
    ensures var st := DeltaInt(p, q, MaxStep, intarray);
      && (st.done ==> emitted + [st.delta] == emitted + Steps(p, q, intarray))
      && (!st.done ==> (emitted + [st.delta]) + Steps(st.position, q, false) == emitted + Steps(p, q, intarray))
  {
    var st := DeltaInt(p, q, MaxStep, intarray);
    var all := Steps(p, q, intarray);
    if st.done {
      assert all == [st.delta] by { StepsUnfold(p, q, intarray); }
    } else {
      var rest := Steps(st.position, q, false);
      assert all == [st.delta] + rest by { StepsUnfold(p, q, intarray); }
      AppendAssoc(emitted, [st.delta], rest);
    }
  }

  /** The packed bytes grow by the two signed bytes of each step. */
  lemma StepPacked(emitted: seq<Pt>, d: Pt)
    requires AllSmall(emitted) && Small(d)
    ensures AllSmall(emitted + [d])
    ensures StepBytes(emitted + [d]) == StepBytes(emitted) + [S8(d.x), S8(d.y)]
  {
    StepBytesAppend(emitted, [d]);
    StepBytesOne(d);
  }

  lemma StepBytesOne(d: Pt)
    requires Small(d)
    ensures StepBytes([d]) == [S8(d.x), S8(d.y)]
  {
    assert [d][1..] == [];
  }

  /** The inner loop of encodedeltaslow: deltaint from `position` until
      it reports the segment done, packing every step as two signed bytes
      and counting the steps that stop short of `nextvertex`. The position
      is still an integer array afterwards only when it was one and the
      segment took a single step. */
  method EncodeSegment(position0: Pt, nextvertex: Pt, intarray: bool)
    returns (cdata: seq<byte>, inserted: nat, stillint: bool)
    ensures cdata == StepBytes(Steps(position0, nextvertex, intarray))
    ensures inserted == |Steps(position0, nextvertex, intarray)| - 1
    ensures stillint <==> intarray && Small(nextvertex.Sub(position0))
  {
    var position := position0;
    ghost var segment := Steps(position, nextvertex, intarray);
    ghost var emitted: seq<Pt> := [];
    cdata := [];
    inserted := 0;
    var done := false;
    while !done
      invariant !done ==> emitted + Steps(position, nextvertex, intarray && inserted == 0) == segment
      invariant done ==> emitted == segment
      invariant AllSmall(emitted)
      invariant cdata == StepBytes(emitted)
      invariant !done ==> inserted == |emitted|
      invariant done ==> inserted + 1 == |emitted|
      decreases if done then 0 else L1(nextvertex.Sub(position)) + 1
    {
      // the position stays an integer array until a step falls short
      var flag := intarray && inserted == 0;
      var step := DeltaInt(position, nextvertex, MaxStep, flag);
      StepAdvance(emitted, position, nextvertex, flag);
      StepPacked(emitted, step.delta);
      cdata := cdata + [S8(step.delta.x), S8(step.delta.y)];
      emitted := emitted + [step.delta];
      position := step.position;
      done := step.done;
      if !done {
        inserted := inserted + 1;
      }
    }
    stillint := intarray && inserted == 0;
  }

  /** encodedeltaslow: pops the anchor, then encodes every segment in turn,
      concatenating the step bytes and adding up the synthetic vertices.
      An empty list raises IndexError at the pop. */
  method EncodeDeltaSlow(vlist: seq<Pt>, intarray: bool) returns (r: Result<(seq<byte>, nat)>)
    ensures |vlist| == 0 ==> r == Fail(IndexError)
    ensures |vlist| > 0 ==> r == Ok((StepBytes(ChainFrom(vlist, 0, intarray)), InsertedFrom(vlist, 0, intarray)))
  {
    if |vlist| == 0 {
      return Fail(IndexError);
    }
    var cdata: seq<byte> := [];
    var nvertices := 0;
    var position := vlist[0];
    var isint := intarray;
    var k := 1;
    while k < |vlist|
      invariant 1 <= k <= |vlist|
      invariant position == vlist[k - 1]
      invariant StepBytes(ChainFrom(vlist, 0, intarray)) == cdata + StepBytes(ChainFrom(vlist, k - 1, isint))
      invariant InsertedFrom(vlist, 0, intarray) == nvertices + InsertedFrom(vlist, k - 1, isint)
    {
      var nextvertex := vlist[k];
      var segdata, n, stillint := EncodeSegment(position, nextvertex, isint);
      var rest := ChainFrom(vlist, k, stillint);
      assert ChainFrom(vlist, k - 1, isint) == Steps(position, nextvertex, isint) + rest;
      StepBytesAppend(Steps(position, nextvertex, isint), rest);
      AppendAssoc(cdata, segdata, StepBytes(rest));
      cdata := cdata + segdata;
      nvertices := nvertices + n;
      position := nextvertex;
      isint := stillint;
      k := k + 1;
    }
    assert cdata + [] == cdata;
    return Ok((cdata, nvertices));
  }

  /** A segment that fits in a byte is a single step. */
  lemma StepsOfSmall(p: Pt, q: Pt, intarray: bool)
    requires Small(q.Sub(p))
    ensures Steps(p, q, intarray) == [q.Sub(p)]
  {
    StepsUnfold(p, q, intarray);
  }

  /** encodedelta, the vectorised variant: every row of differences that
      fits is kept, every row that overflows is replaced by its deltaint
      steps, the extra steps counting as inserted vertices. Each
      overflowing row starts from a vertex of the input array, so with
      integer input every such row's first step is floored. An empty list
      yields no bytes. */
  function EncodeDelta(vlist: seq<Pt>, intarray: bool): (seq<byte>, nat)
  {
    (StepBytes(DeltaRows(vlist, 0, intarray)), RowsInserted(vlist, 0, intarray))
  }

  /** The rows of `encodedelta` from vertex k on. */
  function DeltaRows(vs: seq<Pt>, k: nat, intarray: bool): (s: seq<Pt>)
    ensures AllSmall(s)
    decreases |vs| - k
  {
    if k + 1 >= |vs| then []
    else
      var d := vs[k + 1].Sub(vs[k]);
      (if Small(d) then [d] else Steps(vs[k], vs[k + 1], intarray)) + DeltaRows(vs, k + 1, intarray)
  }

  function RowsInserted(vs: seq<Pt>, k: nat, intarray: bool): nat
    decreases |vs| - k
  {
    if k + 1 >= |vs| then 0
    else
      var d := vs[k + 1].Sub(vs[k]);
      (if Small(d) then 0 else |Steps(vs[k], vs[k + 1], intarray)| - 1) + RowsInserted(vs, k + 1, intarray)
  }

  /** Where no segment from vertex k on needs splitting, both encoders
      emit the plain differences, whatever the array kinds. */
  lemma {:induction false} AgreeSmall(vs: seq<Pt>, k: nat, intarray: bool, isint: bool)
    requires SmallFrom(vs, k)
    ensures DeltaRows(vs, k, intarray) == ChainFrom(vs, k, isint)
    ensures RowsInserted(vs, k, intarray) == InsertedFrom(vs, k, isint)
    decreases |vs| - k
  {
    if k + 1 < |vs| {
      assert Small(vs[k + 1].Sub(vs[k]));
      StepsOfSmall(vs[k], vs[k + 1], isint);
      AgreeSmall(vs, k + 1, intarray, isint);
    }
  }

  /** On float arrays both encoders produce the same bytes and the same
      count. */
  lemma {:induction false} AgreeFloat(vs: seq<Pt>, k: nat)
    ensures DeltaRows(vs, k, false) == ChainFrom(vs, k, false)
    ensures RowsInserted(vs, k, false) == InsertedFrom(vs, k, false)
    decreases |vs| - k
  {
    if k + 1 < |vs| {
      AgreeFloat(vs, k + 1);
      if Small(vs[k + 1].Sub(vs[k])) {
        StepsOfSmall(vs[k], vs[k + 1], false);
      }
    }
  }

  lemma EncodeDeltaAgrees(vs: seq<Pt>)
    ensures DeltaRows(vs, 0, false) == ChainSteps(vs)
    ensures RowsInserted(vs, 0, false) == Inserted(vs)
    ensures EncodeDelta(vs, false) == (StepBytes(ChainSteps(vs)), Inserted(vs))
  {
    AgreeFloat(vs, 0);
    ChainFromStart(vs);
  }

  /** No segment from vertex k on needs splitting. */
  predicate SmallFrom(vs: seq<Pt>, k: nat)
  {
    forall j :: k <= j < |vs| - 1 ==> Small(vs[j + 1].Sub(vs[j]))
  }

  /** Segment i is the one segment of the chain that needs splitting. */
  predicate SplitAt(vs: seq<Pt>, i: int)
  {
    0 <= i < |vs| - 1 && !Small(vs[i + 1].Sub(vs[i]))
    && forall j :: 0 <= j < |vs| - 1 && j != i ==> Small(vs[j + 1].Sub(vs[j]))
  }

  /** Up to the one segment that needs splitting the integer chain keeps
      its integer position, so both encoders floor that segment's first
      step; after it they agree as float chains do. */
  lemma {:induction false} AgreeSplit(vs: seq<Pt>, k: nat, i: nat)
    requires SplitAt(vs, i) && k <= i
    ensures DeltaRows(vs, k, true) == ChainFrom(vs, k, true)
    ensures RowsInserted(vs, k, true) == InsertedFrom(vs, k, true)
    decreases |vs| - k
  {
    if k < i {
      assert Small(vs[k + 1].Sub(vs[k]));
      StepsOfSmall(vs[k], vs[k + 1], true);
      AgreeSplit(vs, k + 1, i);
    } else {
      AgreeSmall(vs, k + 1, true, false);
    }
  }

  /** On integer arrays the two encoders agree as long as at most one
      segment needs splitting: the slow encoder floors only the first step
      of the first such segment, the vectorised one that of every such
      segment. */
  lemma EncodeDeltaAgreesOnce(vs: seq<Pt>)
    requires SmallFrom(vs, 0) || exists i :: SplitAt(vs, i)
    ensures DeltaRows(vs, 0, true) == ChainFrom(vs, 0, true)
    ensures RowsInserted(vs, 0, true) == InsertedFrom(vs, 0, true)
  {
    if SmallFrom(vs, 0) {
      AgreeSmall(vs, 0, true, true);
    } else {
      var i :| SplitAt(vs, i);
      AgreeSplit(vs, 0, i);
    }
  }

  /** With two segments to split they differ: p, p + (200, 1),
      p + (400, 2) as integer arrays, (0, 0) among them. */
  lemma EncodeDeltaDiffersTwice(p: Pt)
    ensures var vs := [p, p.Add(Pt(200, 1)), p.Add(Pt(400, 2))];
      DeltaRows(vs, 0, true) == [Pt(127, 0), Pt(73, 1), Pt(127, 0), Pt(73, 1)]
      && ChainFrom(vs, 0, true) == [Pt(127, 0), Pt(73, 1), Pt(127, 1), Pt(73, 0)]
  {
    var vs := [p, p.Add(Pt(200, 1)), p.Add(Pt(400, 2))];
    assert vs[1] == vs[0].Add(Pt(200, 1)) && vs[2] == vs[1].Add(Pt(200, 1));
    TwiceRows(vs);
    TwiceChain(vs);
    FirstStepFloored(vs[0]);
    FirstStepFloored(vs[1]);
    Pairs(Pt(127, 0), Pt(73, 1), Pt(127, 0), Pt(73, 1));
    Pairs(Pt(127, 0), Pt(73, 1), Pt(127, 1), Pt(73, 0));
  }

  lemma Pairs<T>(a: T, b: T, c: T, d: T)
    ensures [a, b] + [c, d] == [a, b, c, d]
  {
  }

  /** Two segments of (200, 1): the vectorised encoder floors both. */
  lemma TwiceRows(vs: seq<Pt>)
    requires |vs| == 3 && vs[1] == vs[0].Add(Pt(200, 1)) && vs[2] == vs[1].Add(Pt(200, 1))
    ensures DeltaRows(vs, 0, true) == Steps(vs[0], vs[1], true) + Steps(vs[1], vs[2], true)
  {
    assert DeltaRows(vs, 2, true) == [];
    assert !Small(vs[1].Sub(vs[0])) && !Small(vs[2].Sub(vs[1]));
    assert DeltaRows(vs, 1, true) == Steps(vs[1], vs[2], true);
  }

  /** Two segments of (200, 1): the slow encoder floors only the first. */
  lemma TwiceChain(vs: seq<Pt>)
    requires |vs| == 3 && vs[1] == vs[0].Add(Pt(200, 1)) && vs[2] == vs[1].Add(Pt(200, 1))
    ensures ChainFrom(vs, 0, true) == Steps(vs[0], vs[1], true) + Steps(vs[1], vs[2], false)
  {
    assert ChainFrom(vs, 2, false) == [];
    assert !Small(vs[1].Sub(vs[0]));
    assert ChainFrom(vs, 1, false) == Steps(vs[1], vs[2], false);
  }

  /** The vertices a decoder rebuilds: the anchor followed by the running
      sums of the steps (`cumsum` in the decoders). */
  function Walk(p: Pt, steps: seq<Pt>): (w: seq<Pt>)
    ensures |w| == |steps| + 1 && w[0] == p
    decreases |steps|
  {
    if |steps| == 0 then [p] else [p] + Walk(p.Add(steps[0]), steps[1..])
  }

  lemma {:induction false} WalkLast(p: Pt, steps: seq<Pt>)
    ensures Walk(p, steps)[|steps|] == p.Add(Sum(steps))
    decreases |steps|
  {
    if |steps| > 0 {
      WalkLast(p.Add(steps[0]), steps[1..]);
    }
  }

  lemma {:induction false} WalkAppend(p: Pt, a: seq<Pt>, b: seq<Pt>)
    ensures Walk(p, a + b) == Walk(p, a) + Walk(p.Add(Sum(a)), b)[1..]
    decreases |a|
  {
    if |a| == 0 {
      assert a + b == b;
    } else {
      assert (a + b)[0] == a[0];
      assert (a + b)[1..] == a[1..] + b;
      WalkAppend(p.Add(a[0]), a[1..], b);
    }
  }

  lemma {:induction false} SumAppend(a: seq<Pt>, b: seq<Pt>)
    ensures Sum(a + b) == Sum(a).Add(Sum(b))
  {
    if |a| == 0 {
      assert a + b == b;
    } else {
      assert (a + b)[1..] == a[1..] + b;
      SumAppend(a[1..], b);
    }
  }

  lemma {:induction false} ChainSum(vs: seq<Pt>)
    requires |vs| > 0
    ensures vs[0].Add(Sum(ChainSteps(vs))) == vs[|vs| - 1]
  {
    if |vs| > 1 {
      var front := vs[..|vs| - 1];
      ChainSum(front);
      SumAppend(ChainSteps(front), Steps(vs[|vs| - 2], vs[|vs| - 1], false));
    }
  }

  /** The decoded walk of a chain appended with one more segment. */
  lemma ChainWalkSnoc(vs: seq<Pt>)
    requires |vs| > 1
    ensures Walk(vs[0], ChainSteps(vs))
         == Walk(vs[0], ChainSteps(vs[..|vs| - 1])) + Walk(vs[|vs| - 2], Steps(vs[|vs| - 2], vs[|vs| - 1], false))[1..]
  {
    var front := vs[..|vs| - 1];
    var cs := ChainSteps(front);
    var seg := Steps(vs[|vs| - 2], vs[|vs| - 1], false);
    assert ChainSteps(vs) == cs + seg;
    assert front[0] == vs[0] && front[|front| - 1] == vs[|vs| - 2];
    ChainSum(front);
    WalkAppend(vs[0], cs, seg);
  }

  /** Decoding the steps of a chain from its anchor ends at the last vertex,
      with one extra vertex per inserted step. */
  lemma WalkChainEnds(vs: seq<Pt>)
    requires |vs| > 0
    ensures |Walk(vs[0], ChainSteps(vs))| == |vs| + Inserted(vs)
    ensures Walk(vs[0], ChainSteps(vs))[|ChainSteps(vs)|] == vs[|vs| - 1]
  {
    ChainSum(vs);
    WalkLast(vs[0], ChainSteps(vs));
    ChainLength(vs);
  }

  lemma {:induction false} ChainLength(vs: seq<Pt>)
    ensures |vs| > 0 ==> |ChainSteps(vs)| == |vs| - 1 + Inserted(vs)
  {
    if |vs| > 1 {
      ChainLength(vs[..|vs| - 1]);
    }
  }

  /** Every vertex of the chain is among the decoded vertices. */
  lemma {:induction false} WalkChainVisits(vs: seq<Pt>)
    requires |vs| > 0
    ensures forall i :: 0 <= i < |vs| ==> vs[i] in Walk(vs[0], ChainSteps(vs))
  {
    if |vs| > 1 {
      var n := |vs| - 1;
      var front := vs[..|vs| - 1];
      var seg := Steps(vs[|vs| - 2], vs[|vs| - 1], false);
      WalkChainVisits(front);
      ChainWalkSnoc(vs);
      var wf := Walk(vs[0], ChainSteps(front));
      var ws := Walk(vs[|vs| - 2], seg);
      var w := Walk(vs[0], ChainSteps(vs));
      WalkLast(vs[|vs| - 2], seg);
      forall i | 0 <= i < |vs|
        ensures vs[i] in w
      {
        if i < n {
          assert vs[i] == front[i] && front[i] in wf;
        } else {
          assert ws[1..][|seg| - 1] == vs[n];
        }
      }
    }
  }

  /** When no segment needs splitting the chain comes back unchanged. */
  lemma {:induction false} WalkChainExact(vs: seq<Pt>)
    requires |vs| > 0
    requires forall i :: 0 <= i < |vs| - 1 ==> Small(vs[i + 1].Sub(vs[i]))
    ensures Walk(vs[0], ChainSteps(vs)) == vs
  {
    if |vs| > 1 {
      var n := |vs| - 1;
      var front := vs[..n];
      assert forall i :: 0 <= i < |front| ==> front[i] == vs[i];
      WalkChainExact(front);
      ChainWalkSnoc(vs);
      StepsOfSmall(vs[n - 1], vs[n], false);
      assert Walk(vs[n - 1], [vs[n].Sub(vs[n - 1])]) == [vs[n - 1], vs[n]];
      assert front + [vs[n]] == vs;
    }
  }

  /** unpack("%db" % (2 * ndelta)) regrouped into pairs: a negative count is
      a malformed format string, a short buffer a struct error. */
  function DecodeSteps(data: seq<byte>, ndelta: int): (r: Result<(seq<Pt>, seq<byte>)>)
    ensures r.Ok? ==> |r.value.0| == ndelta
    decreases if ndelta < 0 then 0 else ndelta
  {
    if ndelta < 0 || |data| < 2 * ndelta then Fail(StructError)
    else if ndelta == 0 then Ok(([], data))
    else
      match DecodeSteps(data[2..], ndelta - 1)
      case Ok((rest, tail)) => Ok(([Pt(GetS8(data[0]), GetS8(data[1]))] + rest, tail))
      case Fail(f) => Fail(f)
  }

  lemma {:induction false} DecodeStepBytes(steps: seq<Pt>, rest: seq<byte>)
    requires AllSmall(steps)
    ensures DecodeSteps(StepBytes(steps) + rest, |steps|) == Ok((steps, rest))
  {
    if |steps| > 0 {
      var data := StepBytes(steps) + rest;
      assert Small(steps[0]);
      assert data[0] == S8(steps[0].x) && data[1] == S8(steps[0].y);
      assert data[2..] == StepBytes(steps[1..]) + rest;
      DecodeStepBytes(steps[1..], rest);
      assert Pt(GetS8(data[0]), GetS8(data[1])) == steps[0];
      assert DecodeSteps(data[2..], |steps| - 1) == Ok((steps[1..], rest));
      assert DecodeSteps(data, |steps|) == Ok(([steps[0]] + steps[1..], rest));
      assert [steps[0]] + steps[1..] == steps;
    } else {
      assert StepBytes(steps) + rest == rest;
    }
  }
}
