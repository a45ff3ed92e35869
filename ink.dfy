/** Strokes, samples, brushes and tool specifications of the scratchpad ink pipeline.
    All coordinates, widths and velocities are modelled as mathematical reals. */
module Ink {

  datatype Option<+T> = None | Some(value: T)

  type Color = string
  type Tool = string

  /** The `w` field of a sample as the JavaScript code sees it: missing (`undefined`),
      `NaN` (what arithmetic on a missing width yields), or a number. */
  datatype Width = Absent | NotANumber | Finite(value: real)

  /** One point of a stroke. Touch samples arrive without a width and the variable brush
      gives each a number; the smoother interpolates whatever widths it is given, so after
      the constant brush they stay missing or become `NaN`. */
  datatype Sample = Sample(x: real, y: real, w: Width)

  /** A stroke: its samples in capture order, plus the colour and the tool that drew it.
      `w` is the stroke-level width that the constant brush adds. */
  datatype Stroke = Stroke(color: Color, tool: Tool, samples: seq<Sample>, w: Option<real>)

  /** The two brush kinds; the pipeline takes the variable path exactly for `VariableBrush`. */
  datatype Brush =
    | ConstantBrush(brushWidth: real)
    | VariableBrush(slowBrushWidth: real, fastBrushWidth: real, fastBrushWidthVelocity: real)

  datatype ToolSpec = ToolSpec(brush: Brush, subdivisionLength: real)

  type ToolSet = map<Tool, ToolSpec>

  /** `Math.sqrt`, kept abstract: a parameter of the operations that measure distances.
      The properties that need it assume only that it is never negative. */
  type SquareRoot = real -> real

  ghost predicate NonNegative(sqrt: SquareRoot) {
    forall v :: 0.0 <= sqrt(v)
  }

  /** The Euclidean length of (dx, dy): the square root of the sum of the squares. */
  function Hypot(dx: real, dy: real, sqrt: SquareRoot): real {
    sqrt(dx * dx + dy * dy)
  }

  /** `Math.min` and `Math.max` on numbers */
  function Min(a: real, b: real): real { if a <= b then a else b }
  function Max(a: real, b: real): real { if a >= b then a else b }
  function MinInt(a: int, b: int): int { if a <= b then a else b }
  function MaxInt(a: int, b: int): int { if a >= b then a else b }

  /** The brush parameters that the variable brush divides by are non-zero. */
  predicate ValidVariableBrush(b: Brush) {
    b.VariableBrush? && b.fastBrushWidthVelocity != 0.0
  }

  /** A tool specification the pipeline can run on without dividing by zero. */
  predicate ValidToolSpec(spec: ToolSpec) {
    spec.subdivisionLength != 0.0 &&
    (spec.brush.VariableBrush? ==> ValidVariableBrush(spec.brush))
  }

  /** Two sample sequences that differ at most in their widths. */
  predicate SamePositions(a: seq<Sample>, b: seq<Sample>) {
    |a| == |b| && forall i :: 0 <= i < |a| ==> a[i].x == b[i].x && a[i].y == b[i].y
  }

  /** Every sample carries a number as width, and it lies in [lo, hi]. */
  predicate WidthsWithin(s: seq<Sample>, lo: real, hi: real) {
    forall i :: 0 <= i < |s| ==> s[i].w.Finite? && lo <= s[i].w.value <= hi
  }

  /** No sample carries a number as width. */
  predicate NoWidths(s: seq<Sample>) {
    forall i :: 0 <= i < |s| ==> !s[i].w.Finite?
  }
}
