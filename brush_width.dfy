/** Brush width assignment: the variable brush gives every sample a width from the
    smoothed pointer velocity; the constant brush adds one width to the whole stroke. */
module BrushWidth {
  import opened Ink

  /** Running velocity before the first sample, in surface units per sample. */
  const InitialVelocity: real := 30.0
  /** Weight of the previous running velocity in each update. */
  const VelocitySmoothing: real := 0.8

  /** One step of the exponential smoothing of the velocity. */
  function SmoothedVelocity(running: real, current: real): real {
    VelocitySmoothing * running + (1.0 - VelocitySmoothing) * current
  }

  /** The smoothed velocity lies between the previous running velocity and the current
      one, and a velocity equal to the running one leaves it unchanged. */
  lemma SmoothedVelocityBetween(running: real, current: real)
    ensures Min(running, current) <= SmoothedVelocity(running, current) <= Max(running, current)
    ensures current == running ==> SmoothedVelocity(running, current) == running
  {
  }

  /** The width for a running velocity: the linear map that sends velocity 0 to
      `slowBrushWidth` and `fastBrushWidthVelocity` to `fastBrushWidth`, clamped as
      `min(slow, max(fast, ...))`. */
  function WidthForVelocity(brush: Brush, running: real): (w: real)
    requires ValidVariableBrush(brush)
    ensures w <= brush.slowBrushWidth
    ensures brush.fastBrushWidth <= brush.slowBrushWidth ==> brush.fastBrushWidth <= w
    ensures brush.slowBrushWidth < brush.fastBrushWidth ==> w == brush.slowBrushWidth
  {
    var slow, fast, fastVelocity :=
      brush.slowBrushWidth, brush.fastBrushWidth, brush.fastBrushWidthVelocity;
    Min(slow, Max(fast, (fastVelocity - running) / fastVelocity * (slow - fast) + fast))
  }

  /** Reference definition: the running velocity once the samples of `s` have been seen.
      The first sample's own velocity is the running velocity itself; every later one's
      is its distance to the sample before it. */
  function RunningVelocity(s: seq<Sample>, sqrt: SquareRoot): real
    decreases |s|
  {
    if s == [] then InitialVelocity
    else
      var before := RunningVelocity(s[..|s| - 1], sqrt);
      var current :=
        if |s| == 1 then before
        else Hypot(s[|s| - 1].x - s[|s| - 2].x, s[|s| - 1].y - s[|s| - 2].y, sqrt);
      SmoothedVelocity(before, current)
  }

  /** The drawn samples for `s[i..]`, given the running velocity reached before `s[i]`:
      the fold that the loop of the variable brush carries out. */
  function DrawnFrom(s: seq<Sample>, i: nat, running: real, brush: Brush, sqrt: SquareRoot)
    : (r: seq<Sample>)
    requires i <= |s| && ValidVariableBrush(brush)
    ensures |r| == |s| - i
    decreases |s| - i
  {
    if i == |s| then []
    else
      var current :=
        if i == 0 then running else Hypot(s[i].x - s[i - 1].x, s[i].y - s[i - 1].y, sqrt);
      var next := SmoothedVelocity(running, current);
      [Sample(s[i].x, s[i].y, Finite(WidthForVelocity(brush, next)))]
        + DrawnFrom(s, i + 1, next, brush, sqrt)
  }

  /** The samples the variable brush produces for `s`. */
  function DrawnSamples(s: seq<Sample>, brush: Brush, sqrt: SquareRoot): seq<Sample>
    requires ValidVariableBrush(brush)
  {
    DrawnFrom(s, 0, InitialVelocity, brush, sqrt)
  }

  /** The stroke the variable brush returns: a new object with colour, tool and samples only. */
  function VariableStroke(stroke: Stroke, brush: Brush, sqrt: SquareRoot): Stroke
    requires ValidVariableBrush(brush)
  {
    Stroke(stroke.color, stroke.tool, DrawnSamples(stroke.samples, brush, sqrt), None)
  }

  /** `variableStrokeFromTouchStroke` */
  method VariableStrokeFromTouchStroke(stroke: Stroke, brush: Brush, sqrt: SquareRoot)
    returns (drawn: Stroke)
    requires ValidVariableBrush(brush)
    ensures drawn == VariableStroke(stroke, brush, sqrt)
  {
    var samples := stroke.samples;
    var runningVelocity := InitialVelocity;
    var drawnSamples := [];
    var sampleIndex := 0;
    while sampleIndex < |samples|
      invariant sampleIndex <= |samples|
      invariant drawnSamples + DrawnFrom(samples, sampleIndex, runningVelocity, brush, sqrt)
                == DrawnSamples(samples, brush, sqrt)
    {
      var sample := samples[sampleIndex];
      var currentVelocity: real;
      if sampleIndex == 0 {
        currentVelocity := runningVelocity;
      } else {
        var lastSample := samples[sampleIndex - 1];
        var dx := sample.x - lastSample.x;
        var dy := sample.y - lastSample.y;
        currentVelocity := Hypot(dx, dy, sqrt);
      }
      ghost var before, running := drawnSamples, runningVelocity;
      runningVelocity := SmoothedVelocity(runningVelocity, currentVelocity);
      drawnSamples := drawnSamples
        + [Sample(sample.x, sample.y, Finite(WidthForVelocity(brush, runningVelocity)))];
      DrawnFromStep(samples, sampleIndex, running, currentVelocity, brush, sqrt, before, drawnSamples);
      sampleIndex := sampleIndex + 1;
    }
    drawn := Stroke(stroke.color, stroke.tool, drawnSamples, None);
  }

  /** `constantStrokeFromTouchStroke`: the stroke with a stroke-level width added; its
      samples are not given widths. */
  function ConstantStrokeFromTouchStroke(stroke: Stroke, brush: Brush): (r: Stroke)
    requires brush.ConstantBrush?
    ensures r.samples == stroke.samples && r.color == stroke.color && r.tool == stroke.tool
    ensures r.w == Some(brush.brushWidth)
  {
    stroke.(w := Some(brush.brushWidth))
  }

  /** One step of the fold, as the loop takes it: the sample pushed is the head of what
      remained to be drawn. */
  lemma DrawnFromStep(s: seq<Sample>, i: nat, running: real, current: real, brush: Brush,
                      sqrt: SquareRoot, before: seq<Sample>, after: seq<Sample>)
    requires i < |s| && ValidVariableBrush(brush)
    requires current == if i == 0 then running else Hypot(s[i].x - s[i - 1].x, s[i].y - s[i - 1].y, sqrt)
    requires before + DrawnFrom(s, i, running, brush, sqrt) == DrawnSamples(s, brush, sqrt)
    requires after == before
      + [Sample(s[i].x, s[i].y, Finite(WidthForVelocity(brush, SmoothedVelocity(running, current))))]
    ensures after + DrawnFrom(s, i + 1, SmoothedVelocity(running, current), brush, sqrt)
      == DrawnSamples(s, brush, sqrt)
  {
    var next := SmoothedVelocity(running, current);
    var head := [Sample(s[i].x, s[i].y, Finite(WidthForVelocity(brush, next)))];
    DrawnFromUnfold(s, i, running, current, brush, sqrt);
    AppendRegroup(before, head, DrawnFrom(s, i + 1, next, brush, sqrt));
  }

  lemma DrawnFromUnfold(s: seq<Sample>, i: nat, running: real, current: real, brush: Brush, sqrt: SquareRoot)
    requires i < |s| && ValidVariableBrush(brush)
    requires current == if i == 0 then running else Hypot(s[i].x - s[i - 1].x, s[i].y - s[i - 1].y, sqrt)
    ensures DrawnFrom(s, i, running, brush, sqrt)
      == [Sample(s[i].x, s[i].y, Finite(WidthForVelocity(brush, SmoothedVelocity(running, current))))]
         + DrawnFrom(s, i + 1, SmoothedVelocity(running, current), brush, sqrt)
  {
  }

  lemma AppendRegroup(a: seq<Sample>, b: seq<Sample>, c: seq<Sample>)
    ensures a + (b + c) == (a + b) + c
  {
  }

  // ---------------------------------------------------------------------------
  // Properties of the variable brush

  /** The fold of the loop agrees, sample by sample, with the reference running velocity:
      the sample at `k` keeps its position and gets the width of the running velocity
      after `s[..k+1]`. */
  lemma {:induction false} DrawnFromAt(s: seq<Sample>, j: nat, k: nat, brush: Brush, sqrt: SquareRoot)
    requires j <= k < |s| && ValidVariableBrush(brush)
    ensures DrawnFrom(s, j, RunningVelocity(s[..j], sqrt), brush, sqrt)[k - j]
            == Sample(s[k].x, s[k].y, Finite(WidthForVelocity(brush, RunningVelocity(s[..k + 1], sqrt))))
    decreases k - j
  {
    var running := RunningVelocity(s[..j], sqrt);
    var current :=
      if j == 0 then running else Hypot(s[j].x - s[j - 1].x, s[j].y - s[j - 1].y, sqrt);
    var next := SmoothedVelocity(running, current);
    assert s[..j + 1][..j] == s[..j];
    assert RunningVelocity(s[..j + 1], sqrt) == next;
    if j < k {
      DrawnFromAt(s, j + 1, k, brush, sqrt);
    }
  }

  /** Each drawn sample keeps the input position and gets the width of the running
      velocity after the samples up to and including it. */
  lemma DrawnSampleAt(s: seq<Sample>, i: nat, brush: Brush, sqrt: SquareRoot)
    requires i < |s| && ValidVariableBrush(brush)
    ensures |DrawnSamples(s, brush, sqrt)| == |s|
    ensures DrawnSamples(s, brush, sqrt)[i]
            == Sample(s[i].x, s[i].y, Finite(WidthForVelocity(brush, RunningVelocity(s[..i + 1], sqrt))))
  {
    assert s[..0] == [];
    DrawnFromAt(s, 0, i, brush, sqrt);
  }

  /** The variable brush keeps the shape of the stroke: as many samples, the same
      positions, the same colour and tool, and a number as every width. */
  lemma VariableStrokeKeepsShape(stroke: Stroke, brush: Brush, sqrt: SquareRoot)
    requires ValidVariableBrush(brush)
    ensures var r := VariableStroke(stroke, brush, sqrt);
      r.color == stroke.color && r.tool == stroke.tool && r.w == None &&
      SamePositions(r.samples, stroke.samples) &&
      forall i :: 0 <= i < |r.samples| ==> r.samples[i].w.Finite?
  {
    var s := stroke.samples;
    forall i | 0 <= i < |s|
      ensures DrawnSamples(s, brush, sqrt)[i]
              == Sample(s[i].x, s[i].y, Finite(WidthForVelocity(brush, RunningVelocity(s[..i + 1], sqrt))))
    {
      DrawnSampleAt(s, i, brush, sqrt);
    }
  }

  /** Every variable width is at most `slowBrushWidth`, and at least `fastBrushWidth`
      when the brush is tuned with `fastBrushWidth <= slowBrushWidth`. */
  lemma VariableWidthBounds(s: seq<Sample>, brush: Brush, sqrt: SquareRoot)
    requires ValidVariableBrush(brush)
    ensures forall i :: 0 <= i < |DrawnSamples(s, brush, sqrt)| ==>
      DrawnSamples(s, brush, sqrt)[i].w.Finite? &&
      DrawnSamples(s, brush, sqrt)[i].w.value <= brush.slowBrushWidth
    ensures brush.fastBrushWidth <= brush.slowBrushWidth ==>
      WidthsWithin(DrawnSamples(s, brush, sqrt), brush.fastBrushWidth, brush.slowBrushWidth)
    ensures brush.slowBrushWidth < brush.fastBrushWidth ==>
      forall i :: 0 <= i < |DrawnSamples(s, brush, sqrt)| ==>
        DrawnSamples(s, brush, sqrt)[i].w == Finite(brush.slowBrushWidth)
  {
    forall i | 0 <= i < |s|
      ensures DrawnSamples(s, brush, sqrt)[i]
              == Sample(s[i].x, s[i].y, Finite(WidthForVelocity(brush, RunningVelocity(s[..i + 1], sqrt))))
    {
      DrawnSampleAt(s, i, brush, sqrt);
    }
  }

  /** Causality: the width given to a sample depends only on the samples up to it, so
      two strokes that share a prefix are drawn identically on that prefix. */
  lemma WidthsAreCausal(a: seq<Sample>, b: seq<Sample>, n: nat, brush: Brush, sqrt: SquareRoot)
    requires n <= |a| && n <= |b| && a[..n] == b[..n] && ValidVariableBrush(brush)
    ensures DrawnSamples(a, brush, sqrt)[..n] == DrawnSamples(b, brush, sqrt)[..n]
  {
    forall i | 0 <= i < n
      ensures DrawnSamples(a, brush, sqrt)[i] == DrawnSamples(b, brush, sqrt)[i]
    {
      DrawnSampleAt(a, i, brush, sqrt);
      DrawnSampleAt(b, i, brush, sqrt);
      assert a[..i + 1] == a[..n][..i + 1] == b[..n][..i + 1] == b[..i + 1];
    }
  }

  /** The running velocity stays positive: it starts at 30 and every update mixes it
      with a non-negative distance. */
  lemma {:induction false} RunningVelocityPositive(s: seq<Sample>, sqrt: SquareRoot)
    requires NonNegative(sqrt)
    ensures 0.0 < RunningVelocity(s, sqrt)
    decreases |s|
  {
    if s != [] {
      var p := s[..|s| - 1];
      RunningVelocityPositive(p, sqrt);
      SmoothedVelocityBetween(RunningVelocity(p, sqrt),
        if |s| == 1 then RunningVelocity(p, sqrt)
        else Hypot(s[|s| - 1].x - s[|s| - 2].x, s[|s| - 1].y - s[|s| - 2].y, sqrt));
    }
  }

  /** The running velocity never leaves the range spanned by the seed 30 and a bound on
      the distances between consecutive samples. */
  lemma {:induction false} RunningVelocityBounded(s: seq<Sample>, bound: real, sqrt: SquareRoot)
    requires InitialVelocity <= bound
    requires forall i :: 1 <= i < |s| ==>
      Hypot(s[i].x - s[i - 1].x, s[i].y - s[i - 1].y, sqrt) <= bound
    ensures RunningVelocity(s, sqrt) <= bound
    decreases |s|
  {
    if s != [] {
      var p := s[..|s| - 1];
      forall i | 1 <= i < |p|
        ensures Hypot(p[i].x - p[i - 1].x, p[i].y - p[i - 1].y, sqrt) <= bound
      {
        assert p[i] == s[i] && p[i - 1] == s[i - 1];
      }
      RunningVelocityBounded(p, bound, sqrt);
      SmoothedVelocityBetween(RunningVelocity(p, sqrt),
        if |s| == 1 then RunningVelocity(p, sqrt)
        else Hypot(s[|s| - 1].x - s[|s| - 2].x, s[|s| - 1].y - s[|s| - 2].y, sqrt));
    }
  }

  /** The seed survives the first sample: its own velocity is the seed, so the running
      velocity after it is exactly 30 and its width is the width at velocity 30. */
  lemma FirstSampleKeepsSeed(s: seq<Sample>, brush: Brush, sqrt: SquareRoot)
    requires |s| >= 1 && ValidVariableBrush(brush)
    ensures RunningVelocity(s[..1], sqrt) == InitialVelocity
    ensures DrawnSamples(s, brush, sqrt)[0].w == Finite(WidthForVelocity(brush, InitialVelocity))
  {
    assert s[..1][..0] == [];
    DrawnSampleAt(s, 0, brush, sqrt);
  }

  /** Faster movement never gives a thicker line: with `fastBrushWidth <= slowBrushWidth`
      and a positive `fastBrushWidthVelocity` the width decreases as the velocity grows. */
  lemma WidthDecreasesWithVelocity(brush: Brush, v1: real, v2: real)
    requires ValidVariableBrush(brush) && 0.0 < brush.fastBrushWidthVelocity
    requires brush.fastBrushWidth <= brush.slowBrushWidth && v1 <= v2
    ensures WidthForVelocity(brush, v2) <= WidthForVelocity(brush, v1)
  {
    var slow, fast, fv := brush.slowBrushWidth, brush.fastBrushWidth, brush.fastBrushWidthVelocity;
    DivMonotone(fv - v2, fv - v1, fv);
    MulMonotone((fv - v2) / fv, (fv - v1) / fv, slow - fast);
    var raw1 := (fv - v1) / fv * (slow - fast) + fast;
    var raw2 := (fv - v2) / fv * (slow - fast) + fast;
    assert raw2 <= raw1;
    assert WidthForVelocity(brush, v1) == Min(slow, Max(fast, raw1));
    assert WidthForVelocity(brush, v2) == Min(slow, Max(fast, raw2));
  }

  /** From `fastBrushWidthVelocity` on, the width saturates at `fastBrushWidth`. */
  lemma FastMovementSaturates(brush: Brush, v: real)
    requires ValidVariableBrush(brush) && 0.0 < brush.fastBrushWidthVelocity
    requires brush.fastBrushWidth <= brush.slowBrushWidth && brush.fastBrushWidthVelocity <= v
    ensures WidthForVelocity(brush, v) == brush.fastBrushWidth
  {
    var slow, fast, fv := brush.slowBrushWidth, brush.fastBrushWidth, brush.fastBrushWidthVelocity;
    DivMonotone(fv - v, 0.0, fv);
    MulMonotone((fv - v) / fv, 0.0, slow - fast);
  }

  /** At velocity 0 or below, the width is `slowBrushWidth`. */
  lemma StillPointerGivesSlowWidth(brush: Brush, v: real)
    requires ValidVariableBrush(brush) && 0.0 < brush.fastBrushWidthVelocity
    requires brush.fastBrushWidth <= brush.slowBrushWidth && v <= 0.0
    ensures WidthForVelocity(brush, v) == brush.slowBrushWidth
  {
    var slow, fast, fv := brush.slowBrushWidth, brush.fastBrushWidth, brush.fastBrushWidthVelocity;
    DivMonotone(fv, fv - v, fv);
    MulMonotone(1.0, (fv - v) / fv, slow - fast);
  }

  lemma DivMonotone(a: real, b: real, c: real)
    requires a <= b && 0.0 < c
    ensures a / c <= b / c
  {
  }

  lemma MulMonotone(a: real, b: real, c: real)
    requires a <= b && 0.0 <= c
    ensures a * c <= b * c
  {
  }

  /** A one-sample stroke with slow width 10, fast width 2 and fast velocity 20 is drawn
      at velocity 30, which the clamp turns into width 2. */
  lemma SingleSampleExample(p: Sample, sqrt: SquareRoot)
    ensures DrawnSamples([p], VariableBrush(10.0, 2.0, 20.0), sqrt)
            == [Sample(p.x, p.y, Finite(2.0))]
  {
  }
}
