# Scratchpad ink pipeline

This is a verified model of the stroke pipeline of the scratchpad component. A touch
stroke is a colour, a tool and the pointer samples captured while drawing. The stroke
becomes the stroke that is painted in two stages:

1. **Brush width assignment.** A *variable brush* turns the pointer velocity into a
   width. The velocity is the distance between consecutive samples, smoothed exponentially
   from 30 with weight 0.8. The width maps velocity 0 to `slowBrushWidth` and
   `fastBrushWidthVelocity` to `fastBrushWidth`, clamped by `min(slow, max(fast, …))`.
   A *constant brush* adds one stroke-level width and leaves the samples as they are.
2. **Curve smoothing.** Each triple of consecutive samples is replaced by points on the
   quadratic Bézier curve from the midpoint of its first two samples to the midpoint of
   its last two, with the middle sample as control point. The widths are interpolated the
   same way. A triple gets `floor(distance / subdivisionLength)` sub-samples, clamped to
   [1, 64], at t = k / count. The first sample is kept unchanged.

The orchestrator looks the stroke's tool up in the tool set and runs the tool's brush,
then the smoother with the same tool specification.

The modules follow the source:

| module | file | content |
|---|---|---|
| `Ink` | `ink.dfy` | samples, strokes, brushes, tool specifications |
| `BrushWidth` | `brush_width.dfy` | the variable brush (an imperative loop, proved against the fold `DrawnFrom` and the reference `RunningVelocity`) and the constant brush |
| `CurveSmoothing` | `curve_smoothing.dfy` | the smoother (nested loops, proved against the folds `SubSamplesFrom` and `SegmentsTo`) |
| `Pipeline` | `pipeline.dfy` | the orchestrator and its end-to-end properties |

A sample width is modelled the way JavaScript sees it:

- `Absent` is a touch sample without `w`.
- `NotANumber` is what arithmetic on a missing width yields.
- `Finite(v)` is a number.

`Math.sqrt` is a parameter `sqrt` of the operations that measure distances. The lemmas
that need more assume only that it is never negative (`NonNegative`), or the single value
they use.

The constant brush puts its width only on the stroke (`w`,
lib/components/scratchpad-inking.js:113) and leaves the samples without one. The smoother
therefore computes `NaN` for every interpolated width (lines 100-102).
`Pipeline.ConstantBrushExample` shows this on four samples.

## Model

| member | source | states |
|---|---|---|
| `BrushWidth.SmoothedVelocityBetween` | lib/components/scratchpad-inking.js:34-35 | the updated running velocity lies between the previous running velocity and the current one; a current velocity equal to the running one leaves it unchanged |
| `BrushWidth.WidthForVelocity` | lib/components/scratchpad-inking.js:40-49 | the width is at most `slowBrushWidth`; it is at least `fastBrushWidth` when fast ≤ slow; it is exactly `slowBrushWidth` when fast > slow |
| `BrushWidth.DrawnFrom` | lib/components/scratchpad-inking.js:19-50 | the loop's fold emits exactly one drawn sample per remaining input sample |
| `BrushWidth.VariableStrokeFromTouchStroke` | lib/components/scratchpad-inking.js:9-58 | the loop computes the variable stroke: colour and tool of the input, the drawn samples of the fold, and no stroke-level width |
| `BrushWidth.DrawnFromStep` | lib/components/scratchpad-inking.js:34-50 | one loop iteration pushes the head of what remains to be drawn, so the loop invariant is kept |
| `BrushWidth.DrawnFromAt` | lib/components/scratchpad-inking.js:16-50 | the fold agrees, index by index, with the reference running velocity over the prefix `s[..k+1]` |
| `BrushWidth.DrawnSampleAt` | lib/components/scratchpad-inking.js:19-50 | drawn sample `i` has the position of input sample `i` and the width for the running velocity after samples 0..i |
| `BrushWidth.VariableStrokeKeepsShape` | lib/components/scratchpad-inking.js:19-57 | the variable stroke has as many samples as the input, at the same positions, with the same colour and tool |
| `BrushWidth.VariableWidthBounds` | lib/components/scratchpad-inking.js:40-49 | every drawn width is a number ≤ `slowBrushWidth`; all lie in [fast, slow] when fast ≤ slow; all equal `slowBrushWidth` when fast > slow |
| `BrushWidth.WidthsAreCausal` | lib/components/scratchpad-inking.js:19-35 | two strokes sharing a prefix are drawn identically on that prefix |
| `BrushWidth.RunningVelocityPositive` | lib/components/scratchpad-inking.js:16-35 | with a non-negative square root, the running velocity stays positive |
| `BrushWidth.RunningVelocityBounded` | lib/components/scratchpad-inking.js:16-35 | if every step distance is at most a bound ≥ 30, so is the running velocity |
| `BrushWidth.FirstSampleKeepsSeed` | lib/components/scratchpad-inking.js:16-35 | after the first sample the running velocity is still 30, and that sample gets the width for 30 |
| `BrushWidth.WidthDecreasesWithVelocity` | lib/components/scratchpad-inking.js:40-49 | with fast ≤ slow and a positive `fastBrushWidthVelocity`, a higher velocity never gives a wider line |
| `BrushWidth.FastMovementSaturates` | lib/components/scratchpad-inking.js:40-49 | from `fastBrushWidthVelocity` on, the width is `fastBrushWidth` |
| `BrushWidth.StillPointerGivesSlowWidth` | lib/components/scratchpad-inking.js:40-49 | at velocity 0 or below, the width is `slowBrushWidth` |
| `BrushWidth.SingleSampleExample` | lib/components/scratchpad-inking.js:9-58 | a one-sample stroke with brush (10, 2, 20) is drawn with width 2 |
| `BrushWidth.ConstantStrokeFromTouchStroke` | lib/components/scratchpad-inking.js:112-114 | samples, colour and tool are untouched, and the stroke-level width is `brushWidth` |
| `CurveSmoothing.SegmentCount` | lib/components/scratchpad-inking.js:82-85 | the sub-sample count lies in [1, 64] for every distance; it is the floor of distance / length whenever that floor is in range |
| `CurveSmoothing.SegmentCountSaturates` | lib/components/scratchpad-inking.js:82-85 | a midpoint distance of at least 64 subdivision lengths gives 64 |
| `CurveSmoothing.SegmentCountShortDistance` | lib/components/scratchpad-inking.js:82-85 | a midpoint distance below two subdivision lengths gives 1 |
| `CurveSmoothing.SegmentCountMonotone` | lib/components/scratchpad-inking.js:82-85 | farther midpoints never get fewer sub-samples |
| `CurveSmoothing.SubSamplesFrom` | lib/components/scratchpad-inking.js:86-106 | the inner fold from index k emits count − k sub-samples |
| `CurveSmoothing.SubSamplesFromAt` | lib/components/scratchpad-inking.js:86-106 | the j-th sub-sample is the curve point at t = j / count |
| `CurveSmoothing.ParameterInRange` | lib/components/scratchpad-inking.js:86-92 | the parameters visited lie in [0, 1), so t = 1 is never reached |
| `CurveSmoothing.StepAdvances` | lib/components/scratchpad-inking.js:86-105 | adding the step 1 / count to k / count gives (k + 1) / count |
| `CurveSmoothing.Segment` | lib/components/scratchpad-inking.js:82-106 | one triple yields between 1 and 64 sub-samples, the first at t = 0 |
| `CurveSmoothing.AppendSegment` | lib/components/scratchpad-inking.js:68-106 | one outer iteration appends exactly the triple's segment to the smoothed samples |
| `CurveSmoothing.CountTo` | lib/components/scratchpad-inking.js:63-107 | the triples ending before `i` yield between i − 2 and 64·(i − 2) sub-samples |
| `CurveSmoothing.SegmentsTo` | lib/components/scratchpad-inking.js:63-107 | the outer fold emits as many sub-samples as the counts of its triples add up to |
| `CurveSmoothing.SegmentsToStep` | lib/components/scratchpad-inking.js:63-107 | appending the next triple's segment keeps the outer loop invariant |
| `CurveSmoothing.SegmentsToPrefix` | lib/components/scratchpad-inking.js:63-107 | the outer fold only ever appends |
| `CurveSmoothing.SmoothedSamples` | lib/components/scratchpad-inking.js:60-110 | the result is empty for an empty stroke; otherwise its length is 1 + the sum of counts and its first element is the first input sample; fewer than three samples keep only the first; three or more give between n − 1 and 1 + 64·(n − 2) samples |
| `CurveSmoothing.SmoothedStrokeFromDrawnStroke` | lib/components/scratchpad-inking.js:60-110 | the nested loops compute the smoothed samples; every other field of the stroke is kept |
| `CurveSmoothing.SubSampleAtStart` | lib/components/scratchpad-inking.js:94-102 | at t = 0 a sub-sample is the midpoint of the first two samples of its triple; its width is their average, or `NaN` when a width is not a number |
| `CurveSmoothing.BezierBetween` | lib/components/scratchpad-inking.js:94-102 | for 0 ≤ t ≤ 1 the curve value lies between bounds that hold for its three control values |
| `CurveSmoothing.SegmentWidthsWithin` | lib/components/scratchpad-inking.js:100-102 | when the three widths of a triple lie in [lo, hi], so does every interpolated width |
| `CurveSmoothing.SegmentsToWidthsWithin` | lib/components/scratchpad-inking.js:63-107 | when all input widths lie in [lo, hi], so do all widths the outer fold emits |
| `CurveSmoothing.SmoothingKeepsWidthBounds` | lib/components/scratchpad-inking.js:60-110 | smoothing never widens the range of the widths |
| `CurveSmoothing.SegmentsToWithoutWidths` | lib/components/scratchpad-inking.js:63-107 | input samples without widths give only `NaN` widths in the outer fold |
| `CurveSmoothing.SmoothingWithoutWidths` | lib/components/scratchpad-inking.js:60-110 | input samples without widths give smoothed samples without widths: the first keeps its missing width, and all the others are `NaN` |
| `CurveSmoothing.SegmentsToSamePositions` | lib/components/scratchpad-inking.js:63-107 | inputs that differ only in widths give the outer fold the same counts and positions |
| `CurveSmoothing.SmoothingIgnoresWidths` | lib/components/scratchpad-inking.js:60-110 | smoothed positions and length depend on the input positions only |
| `CurveSmoothing.SegmentStartsAtMidpoint` | lib/components/scratchpad-inking.js:62-107 | the segment of the triple ending at `s[i]` starts at index 1 + CountTo(s, i), at the midpoint of `s[i-2]` and `s[i-1]` |
| `Pipeline.SmoothedStrokeFromTouchStroke` | lib/components/scratchpad-inking.js:116-124 | colour and tool are kept. A variable brush gives the smoothed drawn samples and no stroke width. A constant brush gives the smoothed touch samples and stroke width `brushWidth` |
| `Pipeline.GeometryIndependentOfBrush` | lib/components/scratchpad-inking.js:116-124 | whatever the brush, the painted samples lie where smoothing the captured positions puts them |
| `Pipeline.VariablePipelineWidths` | lib/components/scratchpad-inking.js:116-124 | with a variable brush, every painted width lies in [fast, slow] when fast ≤ slow, and equals slow otherwise |
| `Pipeline.ConstantPipelineWidths` | lib/components/scratchpad-inking.js:112-124 | with a constant brush and samples without widths, the stroke carries `brushWidth`; no painted sample carries a number, and all but the first are `NaN` |
| `Pipeline.ConstantBrushExample` | lib/components/scratchpad-inking.js:112-124 | four collinear samples 10 apart, constant width 5 and subdivision length 5 give 5 samples at x = 0, 5, 10, 15, 20, with stroke width 5 and `NaN` sample widths |

## Left out

- Floating point: all numbers are mathematical reals. Rounding is not modelled, in particular in `t += step`, whose sum is taken as exactly k / count. `Math.pow(x, 2)` is the product x·x.
- `Math.sqrt` is an abstract parameter. Only non-negativity, or a single value, is assumed where needed.
- NaN and infinite coordinates are not modelled; only widths can be missing or `NaN`.
- `BrushWidth.VariableStrokeFromTouchStroke`, `BrushWidth.WidthForVelocity`: require `fastBrushWidthVelocity != 0`. In JavaScript a zero makes the running velocity's term `-Infinity`, since that velocity is positive. The clamp then gives `fastBrushWidth` when fast < slow, `slowBrushWidth` when fast > slow, and `NaN` when fast == slow. This case is not modelled; brush velocities are positive configuration values.
- `CurveSmoothing.SmoothedStrokeFromDrawnStroke`, `CurveSmoothing.SegmentCount`: require `subdivisionLength != 0`. In JavaScript a zero gives an infinite quotient, hence 64 sub-samples, or `NaN` (0 / 0), hence a count of `NaN` and no sub-samples; neither is modelled.
- `Pipeline.SmoothedStrokeFromTouchStroke`: requires the stroke's tool to be in the tool set, since an unknown tool makes the lookup fail. The tool module that defines the brushes and tool specifications is not part of this model; `Brush` is its two variants, and any brush type other than `"variable"` takes the constant path.
- Samples and strokes carry only the fields the pipeline reads (position, width; colour, tool, samples, stroke width). The spread copies any other field in JavaScript; the variable brush drops them.
- The outer loop body of the smoother is the method `CurveSmoothing.AppendSegment`, and the loop calls it; the inner loop is inside that method. The computation is the same.
- The style sheets, capture of touch events and rendering of the smoothed stroke are not part of this model.
