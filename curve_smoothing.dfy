/** Curve smoothing: every triple of consecutive samples is replaced by points on the
    quadratic Bézier curve from the midpoint of its first two samples to the midpoint of
    its last two, with the middle sample as control point; widths are interpolated the
    same way. */
module CurveSmoothing {
  import opened Ink

  /** The most sub-samples one triple can produce. */
  const MaxSegmentCount: int := 64

  function Midpoint(a: real, b: real): real {
    (a + b) / 2.0
  }

  /** `interpolatedSegmentCount`: the midpoint distance in units of the subdivision
      length, rounded down, and clamped to [1, 64]. */
  function SegmentCount(distance: real, segmentPixelLength: real): (n: int)
    requires segmentPixelLength != 0.0
    ensures 1 <= n <= MaxSegmentCount
    ensures 1 <= (distance / segmentPixelLength).Floor <= MaxSegmentCount ==>
      n == (distance / segmentPixelLength).Floor
  {
    MinInt(MaxSegmentCount, MaxInt((distance / segmentPixelLength).Floor, 1))
  }

  /** The quadratic Bézier curve from `start` to `end` with control point `control`,
      at parameter `t`, in the Bernstein form the code evaluates. */
  function Bezier(start: real, control: real, end: real, t: real): real {
    start * ((1.0 - t) * (1.0 - t)) + control * 2.0 * (1.0 - t) * t + end * (t * t)
  }

  /** The width of a sub-sample: the curve through the averages of adjacent widths, with
      the middle width as control value; `NaN` as soon as one of the three widths is
      not a number, as in the code's floating-point arithmetic. */
  function InterpolatedWidth(lastLast: Width, last: Width, current: Width, t: real): Width {
    if lastLast.Finite? && last.Finite? && current.Finite? then
      Finite(Bezier(Midpoint(last.value, lastLast.value), last.value,
                    Midpoint(current.value, last.value), t))
    else NotANumber
  }

  /** The sub-sample of the triple (`lastLast`, `last`, `sample`) at parameter `t`. */
  function SubSample(lastLast: Sample, last: Sample, sample: Sample, t: real): Sample {
    Sample(
      Bezier(Midpoint(last.x, lastLast.x), last.x, Midpoint(sample.x, last.x), t),
      Bezier(Midpoint(last.y, lastLast.y), last.y, Midpoint(sample.y, last.y), t),
      InterpolatedWidth(lastLast.w, last.w, sample.w, t))
  }

  /** `midpointDistance`: the distance between the two midpoints of a triple. */
  function MidpointDistance(lastLast: Sample, last: Sample, sample: Sample, sqrt: SquareRoot): real {
    Hypot(Midpoint(sample.x, last.x) - Midpoint(last.x, lastLast.x),
          Midpoint(sample.y, last.y) - Midpoint(last.y, lastLast.y), sqrt)
  }

  function TripleCount(lastLast: Sample, last: Sample, sample: Sample, len: real, sqrt: SquareRoot): int
    requires len != 0.0
  {
    SegmentCount(MidpointDistance(lastLast, last, sample, sqrt), len)
  }

  /** The sub-samples of one triple from the `k`-th on, at t = k / count, (k + 1) / count,
      ..., (count - 1) / count: the fold that the inner loop of the smoother carries out. */
  function SubSamplesFrom(lastLast: Sample, last: Sample, sample: Sample, k: nat, count: nat)
    : (r: seq<Sample>)
    requires k <= count
    ensures |r| == count - k
    decreases count - k
  {
    if k == count then []
    else [SubSample(lastLast, last, sample, k as real / count as real)]
         + SubSamplesFrom(lastLast, last, sample, k + 1, count)
  }

  /** The sub-samples of one triple: `count` of them, at t = k / count for
      k = 0, ..., count - 1, so that t = 1 (the next triple's start) is never reached. */
  function Segment(lastLast: Sample, last: Sample, sample: Sample, len: real, sqrt: SquareRoot)
    : (r: seq<Sample>)
    requires len != 0.0
    ensures 1 <= |r| <= MaxSegmentCount
    ensures r[0] == SubSample(lastLast, last, sample, 0.0)
  {
    SubSamplesFrom(lastLast, last, sample, 0, TripleCount(lastLast, last, sample, len, sqrt))
  }

  /** Total number of sub-samples of the triples ending at `s[2]`, ..., `s[i-1]`. */
  function CountTo(s: seq<Sample>, i: nat, len: real, sqrt: SquareRoot): (n: nat)
    requires i <= |s| && len != 0.0
    ensures 2 <= i ==> i - 2 <= n <= MaxSegmentCount * (i - 2)
    ensures i <= 2 ==> n == 0
  {
    if i <= 2 then 0
    else CountTo(s, i - 1, len, sqrt) + TripleCount(s[i - 3], s[i - 2], s[i - 1], len, sqrt)
  }

  /** The sub-samples of the triples ending at `s[2]`, ..., `s[i-1]`, in order: the fold
      that the outer loop of the smoother carries out. */
  function SegmentsTo(s: seq<Sample>, i: nat, len: real, sqrt: SquareRoot): (r: seq<Sample>)
    requires i <= |s| && len != 0.0
    ensures |r| == CountTo(s, i, len, sqrt)
  {
    if i <= 2 then []
    else SegmentsTo(s, i - 1, len, sqrt) + Segment(s[i - 3], s[i - 2], s[i - 1], len, sqrt)
  }

  /** The smoothed samples: the first sample unchanged, then the sub-samples of every
      triple. A stroke of fewer than three samples keeps only its first sample. */
  function SmoothedSamples(s: seq<Sample>, len: real, sqrt: SquareRoot): (r: seq<Sample>)
    requires len != 0.0
    ensures |s| == 0 ==> r == []
    ensures |s| >= 1 ==> |r| == 1 + CountTo(s, |s|, len, sqrt) && r[0] == s[0]
    ensures |s| < 3 ==> r == s[..MinInt(|s|, 1)]
    ensures |s| >= 3 ==> |s| - 1 <= |r| <= 1 + MaxSegmentCount * (|s| - 2)
  {
    s[..MinInt(|s|, 1)] + SegmentsTo(s, |s|, len, sqrt)
  }

  /** The smoothed stroke: every field of the input kept, the samples replaced. */
  function SmoothedStroke(stroke: Stroke, len: real, sqrt: SquareRoot): Stroke
    requires len != 0.0
  {
    stroke.(samples := SmoothedSamples(stroke.samples, len, sqrt))
  }

  /** `smoothedStrokeFromDrawnStroke` */
  method SmoothedStrokeFromDrawnStroke(stroke: Stroke, tool: ToolSpec, sqrt: SquareRoot)
    returns (smoothed: Stroke)
    requires tool.subdivisionLength != 0.0
    ensures smoothed == SmoothedStroke(stroke, tool.subdivisionLength, sqrt)
  {
    var samples := stroke.samples;
    ghost var first := samples[..MinInt(|samples|, 1)];
    var smoothedSamples := samples[..MinInt(|samples|, 1)];
    var sampleIndex := 2;
    while sampleIndex < |samples|
      invariant 2 <= sampleIndex
      invariant 2 <= |samples| ==> sampleIndex <= |samples|
      invariant sampleIndex <= |samples| ==>
        smoothedSamples == first + SegmentsTo(samples, sampleIndex, tool.subdivisionLength, sqrt)
      invariant |samples| < sampleIndex ==> smoothedSamples == first
    {
      ghost var before := smoothedSamples;
      smoothedSamples := AppendSegment(smoothedSamples, samples[sampleIndex - 2],
        samples[sampleIndex - 1], samples[sampleIndex], tool.subdivisionLength, sqrt);
      SegmentsToStep(samples, sampleIndex + 1, tool.subdivisionLength, sqrt, first, before, smoothedSamples);
      sampleIndex := sampleIndex + 1;
    }
    smoothed := stroke.(samples := smoothedSamples);
  }

  /** The body of the outer loop of `smoothedStrokeFromDrawnStroke`: the midpoints of one
      triple, the number of sub-samples for their distance, and the inner loop, which
      pushes them onto `smoothedSamples` stepping t from 0 by 1 / count. */
  method AppendSegment(smoothedSamples: seq<Sample>, lastLastSample: Sample, lastSample: Sample,
                       sample: Sample, segmentPixelLength: real, sqrt: SquareRoot)
    returns (r: seq<Sample>)
    requires segmentPixelLength != 0.0
    ensures r == smoothedSamples
      + Segment(lastLastSample, lastSample, sample, segmentPixelLength, sqrt)
  {
    var lastMidpointX := Midpoint(lastSample.x, lastLastSample.x);
    var lastMidpointY := Midpoint(lastSample.y, lastLastSample.y);
    var midpointX := Midpoint(sample.x, lastSample.x);
    var midpointY := Midpoint(sample.y, lastSample.y);
    var midpointDistance := MidpointDistance(lastLastSample, lastSample, sample, sqrt);
    var interpolatedSegmentCount := SegmentCount(midpointDistance, segmentPixelLength);

    r := smoothedSamples;
    var t := 0.0;
    var step := 1.0 / interpolatedSegmentCount as real;
    var segmentIndex := 0;
    while segmentIndex < interpolatedSegmentCount
      invariant 0 <= segmentIndex <= interpolatedSegmentCount
      invariant t == segmentIndex as real / interpolatedSegmentCount as real
      invariant r + SubSamplesFrom(lastLastSample, lastSample, sample, segmentIndex, interpolatedSegmentCount)
        == smoothedSamples + SubSamplesFrom(lastLastSample, lastSample, sample, 0, interpolatedSegmentCount)
    {
      r := r + [Sample(
        Bezier(lastMidpointX, lastSample.x, midpointX, t),
        Bezier(lastMidpointY, lastSample.y, midpointY, t),
        InterpolatedWidth(lastLastSample.w, lastSample.w, sample.w, t))];
      StepAdvances(segmentIndex, interpolatedSegmentCount);
      t := t + step;
      segmentIndex := segmentIndex + 1;
    }
  }

  /** One step of the outer fold, as the loop takes it. */
  lemma SegmentsToStep(s: seq<Sample>, i: nat, len: real, sqrt: SquareRoot,
                       first: seq<Sample>, before: seq<Sample>, after: seq<Sample>)
    requires 3 <= i <= |s| && len != 0.0
    requires before == first + SegmentsTo(s, i - 1, len, sqrt)
    requires after == before + Segment(s[i - 3], s[i - 2], s[i - 1], len, sqrt)
    ensures after == first + SegmentsTo(s, i, len, sqrt)
  {
    assert SegmentsTo(s, i, len, sqrt)
      == SegmentsTo(s, i - 1, len, sqrt) + Segment(s[i - 3], s[i - 2], s[i - 1], len, sqrt);
  }

  lemma StepAdvances(k: int, n: int)
    requires 0 < n
    ensures k as real / n as real + 1.0 / n as real == (k + 1) as real / n as real
  {
  }

  // ---------------------------------------------------------------------------------
  // Properties of the smoother

  /** The sub-sample at position `j - k` of the fold is the one at t = j / count. */
  lemma {:induction false} SubSamplesFromAt(lastLast: Sample, last: Sample, sample: Sample,
                                            k: nat, count: nat, j: nat)
    requires k <= j < count
    ensures SubSamplesFrom(lastLast, last, sample, k, count)[j - k]
      == SubSample(lastLast, last, sample, j as real / count as real)
    decreases j - k
  {
    if k < j {
      SubSamplesFromAt(lastLast, last, sample, k + 1, count, j);
    }
  }

  /** The parameters t = k / count that the inner loop visits lie in [0, 1). */
  lemma ParameterInRange(k: nat, count: nat)
    requires k < count
    ensures 0.0 <= k as real / count as real < 1.0
  {
  }

  /** The curve starts at its first end point: at t = 0 a triple's first sub-sample is the
      midpoint of its first two samples, with the average of their widths. */
  lemma SubSampleAtStart(lastLast: Sample, last: Sample, sample: Sample)
    ensures SubSample(lastLast, last, sample, 0.0).x == Midpoint(last.x, lastLast.x)
    ensures SubSample(lastLast, last, sample, 0.0).y == Midpoint(last.y, lastLast.y)
    ensures lastLast.w.Finite? && last.w.Finite? && sample.w.Finite? ==>
      SubSample(lastLast, last, sample, 0.0).w == Finite(Midpoint(last.w.value, lastLast.w.value))
    ensures !(lastLast.w.Finite? && last.w.Finite? && sample.w.Finite?) ==>
      SubSample(lastLast, last, sample, 0.0).w == NotANumber
  {
  }

  /** For 0 <= t <= 1 the Bernstein weights are non-negative and sum to one, so the curve
      stays between the least and the greatest of its three control values. */
  lemma BezierBetween(start: real, control: real, end: real, t: real, lo: real, hi: real)
    requires 0.0 <= t <= 1.0
    requires lo <= start <= hi && lo <= control <= hi && lo <= end <= hi
    ensures lo <= Bezier(start, control, end, t) <= hi
  {
    var u := 1.0 - t;
    var w0, w1, w2 := u * u, 2.0 * u * t, t * t;
    assert Bezier(start, control, end, t) == start * w0 + control * w1 + end * w2;
    assert w0 + w1 + w2 == 1.0;
    assert 0.0 <= w0 && 0.0 <= w1 && 0.0 <= w2 by {
      assert 0.0 <= u;
      MulNonNegative(u, u);
      MulNonNegative(2.0 * u, t);
      MulNonNegative(t, t);
    }
    ConvexBetween(start, control, end, w0, w1, w2, lo, hi);
  }

  /** A weighted average with non-negative weights summing to one stays in [lo, hi]. */
  lemma ConvexBetween(a: real, b: real, c: real, w0: real, w1: real, w2: real, lo: real, hi: real)
    requires 0.0 <= w0 && 0.0 <= w1 && 0.0 <= w2 && w0 + w1 + w2 == 1.0
    requires lo <= a <= hi && lo <= b <= hi && lo <= c <= hi
    ensures lo <= a * w0 + b * w1 + c * w2 <= hi
  {
    var s := a * w0 + b * w1 + c * w2;
    assert s - lo == (a - lo) * w0 + (b - lo) * w1 + (c - lo) * w2 by {
      assert lo == lo * (w0 + w1 + w2);
    }
    assert hi - s == (hi - a) * w0 + (hi - b) * w1 + (hi - c) * w2 by {
      assert hi == hi * (w0 + w1 + w2);
    }
    MulNonNegative(a - lo, w0);
    MulNonNegative(b - lo, w1);
    MulNonNegative(c - lo, w2);
    MulNonNegative(hi - a, w0);
    MulNonNegative(hi - b, w1);
    MulNonNegative(hi - c, w2);
  }

  lemma MulNonNegative(a: real, b: real)
    requires 0.0 <= a && 0.0 <= b
    ensures 0.0 <= a * b
  {
  }

  /** Every sub-sample width of a triple whose three widths lie in [lo, hi] lies there too. */
  lemma SegmentWidthsWithin(lastLast: Sample, last: Sample, sample: Sample, len: real,
                            sqrt: SquareRoot, lo: real, hi: real)
    requires len != 0.0
    requires WidthsWithin([lastLast, last, sample], lo, hi)
    ensures WidthsWithin(Segment(lastLast, last, sample, len, sqrt), lo, hi)
  {
    var count := TripleCount(lastLast, last, sample, len, sqrt);
    var r := Segment(lastLast, last, sample, len, sqrt);
    assert lastLast.w.Finite? && last.w.Finite? && sample.w.Finite? by {
      assert [lastLast, last, sample][0] == lastLast;
      assert [lastLast, last, sample][1] == last;
      assert [lastLast, last, sample][2] == sample;
    }
    assert lo <= lastLast.w.value <= hi && lo <= last.w.value <= hi && lo <= sample.w.value <= hi by {
      assert [lastLast, last, sample][0] == lastLast;
      assert [lastLast, last, sample][1] == last;
      assert [lastLast, last, sample][2] == sample;
    }
    forall j | 0 <= j < |r|
      ensures r[j].w.Finite? && lo <= r[j].w.value <= hi
    {
      var t := j as real / count as real;
      SubSamplesFromAt(lastLast, last, sample, 0, count, j);
      ParameterInRange(j, count);
      BezierBetween(Midpoint(last.w.value, lastLast.w.value), last.w.value,
                    Midpoint(sample.w.value, last.w.value), t, lo, hi);
    }
  }

  lemma WidthsWithinConcat(a: seq<Sample>, b: seq<Sample>, lo: real, hi: real)
    requires WidthsWithin(a, lo, hi) && WidthsWithin(b, lo, hi)
    ensures WidthsWithin(a + b, lo, hi)
  {
    forall i | 0 <= i < |a + b|
      ensures (a + b)[i].w.Finite? && lo <= (a + b)[i].w.value <= hi
    {
      if i >= |a| {
        assert (a + b)[i] == b[i - |a|];
      }
    }
  }

  lemma {:induction false} SegmentsToWidthsWithin(s: seq<Sample>, i: nat, len: real,
                                                  sqrt: SquareRoot, lo: real, hi: real)
    requires i <= |s| && len != 0.0
    requires WidthsWithin(s, lo, hi)
    ensures WidthsWithin(SegmentsTo(s, i, len, sqrt), lo, hi)
  {
    if i > 2 {
      SegmentsToWidthsWithin(s, i - 1, len, sqrt, lo, hi);
      assert [s[i - 3], s[i - 2], s[i - 1]] == s[i - 3..i];
      SegmentWidthsWithin(s[i - 3], s[i - 2], s[i - 1], len, sqrt, lo, hi);
      WidthsWithinConcat(SegmentsTo(s, i - 1, len, sqrt),
                         Segment(s[i - 3], s[i - 2], s[i - 1], len, sqrt), lo, hi);
    }
  }

  /** Smoothing never widens the range of the widths: when every drawn width lies in
      [lo, hi], so does every smoothed one. */
  lemma SmoothingKeepsWidthBounds(s: seq<Sample>, len: real, sqrt: SquareRoot, lo: real, hi: real)
    requires len != 0.0
    requires WidthsWithin(s, lo, hi)
    ensures WidthsWithin(SmoothedSamples(s, len, sqrt), lo, hi)
  {
    SegmentsToWidthsWithin(s, |s|, len, sqrt, lo, hi);
    WidthsWithinConcat(s[..MinInt(|s|, 1)], SegmentsTo(s, |s|, len, sqrt), lo, hi);
  }

  /** Every sample's width is `NaN`. */
  predicate NaNWidths(s: seq<Sample>) {
    forall i :: 0 <= i < |s| ==> s[i].w == NotANumber
  }

  lemma NaNWidthsConcat(a: seq<Sample>, b: seq<Sample>)
    requires NaNWidths(a) && NaNWidths(b)
    ensures NaNWidths(a + b)
  {
    forall i | 0 <= i < |a + b|
      ensures (a + b)[i].w == NotANumber
    {
      if i >= |a| {
        assert (a + b)[i] == b[i - |a|];
      }
    }
  }

  lemma {:induction false} SegmentsToWithoutWidths(s: seq<Sample>, i: nat, len: real, sqrt: SquareRoot)
    requires i <= |s| && len != 0.0
    requires NoWidths(s)
    ensures NaNWidths(SegmentsTo(s, i, len, sqrt))
  {
    if i > 2 {
      SegmentsToWithoutWidths(s, i - 1, len, sqrt);
      var count := TripleCount(s[i - 3], s[i - 2], s[i - 1], len, sqrt);
      var segment := Segment(s[i - 3], s[i - 2], s[i - 1], len, sqrt);
      assert !s[i - 3].w.Finite?;
      forall j | 0 <= j < |segment|
        ensures segment[j].w == NotANumber
      {
        SubSamplesFromAt(s[i - 3], s[i - 2], s[i - 1], 0, count, j);
      }
      NaNWidthsConcat(SegmentsTo(s, i - 1, len, sqrt), segment);
    }
  }

  /** Samples without a width (as the constant brush leaves them) give smoothed samples
      whose widths are all `NaN`, except the first sample, which is copied unchanged. */
  lemma SmoothingWithoutWidths(s: seq<Sample>, len: real, sqrt: SquareRoot)
    requires len != 0.0
    requires NoWidths(s)
    ensures NoWidths(SmoothedSamples(s, len, sqrt))
    ensures 1 <= |s| ==> NaNWidths(SmoothedSamples(s, len, sqrt)[1..])
  {
    SegmentsToWithoutWidths(s, |s|, len, sqrt);
    var r := SmoothedSamples(s, len, sqrt);
    if 1 <= |s| {
      assert r[1..] == SegmentsTo(s, |s|, len, sqrt);
    }
    forall i | 0 <= i < |r|
      ensures !r[i].w.Finite?
    {
      if i >= 1 {
        assert r[i] == r[1..][i - 1];
      }
    }
  }

  lemma SamePositionsConcat(a: seq<Sample>, b: seq<Sample>, c: seq<Sample>, d: seq<Sample>)
    requires SamePositions(a, c) && SamePositions(b, d)
    ensures SamePositions(a + b, c + d)
  {
    forall i | 0 <= i < |a + b|
      ensures (a + b)[i].x == (c + d)[i].x && (a + b)[i].y == (c + d)[i].y
    {
      if i >= |a| {
        assert (a + b)[i] == b[i - |a|];
        assert (c + d)[i] == d[i - |c|];
      }
    }
  }

  lemma {:induction false} SegmentsToSamePositions(a: seq<Sample>, b: seq<Sample>, i: nat,
                                                   len: real, sqrt: SquareRoot)
    requires i <= |a| && len != 0.0
    requires SamePositions(a, b)
    ensures SamePositions(SegmentsTo(a, i, len, sqrt), SegmentsTo(b, i, len, sqrt))
  {
    if i > 2 {
      SegmentsToSamePositions(a, b, i - 1, len, sqrt);
      var count := TripleCount(a[i - 3], a[i - 2], a[i - 1], len, sqrt);
      assert MidpointDistance(a[i - 3], a[i - 2], a[i - 1], sqrt)
        == MidpointDistance(b[i - 3], b[i - 2], b[i - 1], sqrt);
      assert count == TripleCount(b[i - 3], b[i - 2], b[i - 1], len, sqrt);
      var sa := Segment(a[i - 3], a[i - 2], a[i - 1], len, sqrt);
      var sb := Segment(b[i - 3], b[i - 2], b[i - 1], len, sqrt);
      forall j | 0 <= j < |sa|
        ensures sa[j].x == sb[j].x && sa[j].y == sb[j].y
      {
        SubSamplesFromAt(a[i - 3], a[i - 2], a[i - 1], 0, count, j);
        SubSamplesFromAt(b[i - 3], b[i - 2], b[i - 1], 0, count, j);
      }
      SamePositionsConcat(SegmentsTo(a, i - 1, len, sqrt), sa, SegmentsTo(b, i - 1, len, sqrt), sb);
    }
  }

  /** The smoothed positions depend on the input positions only: two strokes that differ
      at most in their widths are smoothed into the same number of samples at the same
      places, whatever the brush made of the widths. */
  lemma SmoothingIgnoresWidths(a: seq<Sample>, b: seq<Sample>, len: real, sqrt: SquareRoot)
    requires len != 0.0
    requires SamePositions(a, b)
    ensures SamePositions(SmoothedSamples(a, len, sqrt), SmoothedSamples(b, len, sqrt))
  {
    SegmentsToSamePositions(a, b, |a|, len, sqrt);
    SamePositionsConcat(a[..MinInt(|a|, 1)], SegmentsTo(a, |a|, len, sqrt),
                        b[..MinInt(|b|, 1)], SegmentsTo(b, |b|, len, sqrt));
  }

  /** The outer fold only ever appends. */
  lemma {:induction false} SegmentsToPrefix(s: seq<Sample>, i: nat, j: nat, len: real, sqrt: SquareRoot)
    requires i <= j <= |s| && len != 0.0
    ensures SegmentsTo(s, i, len, sqrt) <= SegmentsTo(s, j, len, sqrt)
    decreases j - i
  {
    if i < j && 2 < j {
      SegmentsToPrefix(s, i, j - 1, len, sqrt);
    }
  }

  /** The sub-samples of the triple ending at `s[i]` start right after the first sample and
      the sub-samples of the earlier triples, at the midpoint of `s[i-2]` and `s[i-1]`: the
      smoothed curve passes through every midpoint of consecutive input samples but the last,
      which is the end (t = 1) of the last triple and is never emitted. */
  lemma SegmentStartsAtMidpoint(s: seq<Sample>, i: nat, len: real, sqrt: SquareRoot)
    requires 2 <= i < |s| && len != 0.0
    ensures 1 + CountTo(s, i, len, sqrt) < |SmoothedSamples(s, len, sqrt)|
    ensures SmoothedSamples(s, len, sqrt)[1 + CountTo(s, i, len, sqrt)]
      == SubSample(s[i - 2], s[i - 1], s[i], 0.0)
    ensures SmoothedSamples(s, len, sqrt)[1 + CountTo(s, i, len, sqrt)].x == Midpoint(s[i - 1].x, s[i - 2].x)
    ensures SmoothedSamples(s, len, sqrt)[1 + CountTo(s, i, len, sqrt)].y == Midpoint(s[i - 1].y, s[i - 2].y)
  {
    SegmentsToPrefix(s, i + 1, |s|, len, sqrt);
    var before := SegmentsTo(s, i, len, sqrt);
    var segment := Segment(s[i - 2], s[i - 1], s[i], len, sqrt);
    assert SegmentsTo(s, i + 1, len, sqrt) == before + segment;
    assert (before + segment)[|before|] == segment[0];
    SubSampleAtStart(s[i - 2], s[i - 1], s[i]);
  }

  /** A midpoint distance of at least 64 subdivision lengths gives the cap of 64. */
  lemma SegmentCountSaturates(distance: real, len: real)
    requires 0.0 < len && MaxSegmentCount as real * len <= distance
    ensures SegmentCount(distance, len) == MaxSegmentCount
  {
    assert MaxSegmentCount as real <= distance / len;
  }

  /** A midpoint distance below two subdivision lengths (including a triple whose
      midpoints coincide) gives a single sub-sample. */
  lemma SegmentCountShortDistance(distance: real, len: real)
    requires 0.0 < len && distance < 2.0 * len
    ensures SegmentCount(distance, len) == 1
  {
    assert distance / len < 2.0;
  }

  /** Farther midpoints never get fewer sub-samples. */
  lemma SegmentCountMonotone(d1: real, d2: real, len: real)
    requires 0.0 < len && d1 <= d2
    ensures SegmentCount(d1, len) <= SegmentCount(d2, len)
  {
    assert d1 / len <= d2 / len;
  }
}
