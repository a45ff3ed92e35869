/** The pipeline that turns a captured touch stroke into the stroke that is rendered:
    the tool's brush assigns widths, then the curve smoother interpolates the samples. */
module Pipeline {
  import opened Ink
  import opened BrushWidth
  import opened CurveSmoothing

  /** The brush stage: the variable brush when the tool has one, the constant brush
      otherwise. */
  function BrushStroke(touchStroke: Stroke, spec: ToolSpec, sqrt: SquareRoot): Stroke
    requires ValidToolSpec(spec)
  {
    if spec.brush.VariableBrush? then VariableStroke(touchStroke, spec.brush, sqrt)
    else ConstantStrokeFromTouchStroke(touchStroke, spec.brush)
  }

  /** `smoothedStrokeFromTouchStroke`: look the stroke's tool up, run its brush, then
      smooth with the same tool specification. */
  function SmoothedStrokeFromTouchStroke(touchStroke: Stroke, toolSet: ToolSet, sqrt: SquareRoot)
    : (r: Stroke)
    requires touchStroke.tool in toolSet && ValidToolSpec(toolSet[touchStroke.tool])
    ensures r.color == touchStroke.color && r.tool == touchStroke.tool
    ensures var spec := toolSet[touchStroke.tool];
      spec.brush.VariableBrush? ==>
        r.w == None &&
        r.samples == SmoothedSamples(DrawnSamples(touchStroke.samples, spec.brush, sqrt),
                                     spec.subdivisionLength, sqrt)
    ensures var spec := toolSet[touchStroke.tool];
      spec.brush.ConstantBrush? ==>
        r.w == Some(spec.brush.brushWidth) &&
        r.samples == SmoothedSamples(touchStroke.samples, spec.subdivisionLength, sqrt)
  {
    var spec := toolSet[touchStroke.tool];
    SmoothedStroke(BrushStroke(touchStroke, spec, sqrt), spec.subdivisionLength, sqrt)
  }

  /** Whatever the brush, the rendered samples lie where smoothing the captured positions
      puts them: the brush only ever changes widths. */
  lemma GeometryIndependentOfBrush(touchStroke: Stroke, toolSet: ToolSet, sqrt: SquareRoot)
    requires touchStroke.tool in toolSet && ValidToolSpec(toolSet[touchStroke.tool])
    ensures SamePositions(SmoothedStrokeFromTouchStroke(touchStroke, toolSet, sqrt).samples,
                          SmoothedSamples(touchStroke.samples,
                                          toolSet[touchStroke.tool].subdivisionLength, sqrt))
  {
    var spec := toolSet[touchStroke.tool];
    var brushed := BrushStroke(touchStroke, spec, sqrt);
    if spec.brush.VariableBrush? {
      VariableStrokeKeepsShape(touchStroke, spec.brush, sqrt);
    }
    assert SamePositions(brushed.samples, touchStroke.samples);
    SmoothingIgnoresWidths(brushed.samples, touchStroke.samples, spec.subdivisionLength, sqrt);
  }

  /** A variable brush tuned with `fastBrushWidth <= slowBrushWidth` gives every rendered
      sample a width in [fastBrushWidth, slowBrushWidth]; one tuned the other way round
      gives every rendered sample exactly `slowBrushWidth`. */
  lemma VariablePipelineWidths(touchStroke: Stroke, toolSet: ToolSet, sqrt: SquareRoot)
    requires touchStroke.tool in toolSet && ValidToolSpec(toolSet[touchStroke.tool])
    requires toolSet[touchStroke.tool].brush.VariableBrush?
    ensures var b := toolSet[touchStroke.tool].brush;
      b.fastBrushWidth <= b.slowBrushWidth ==>
        WidthsWithin(SmoothedStrokeFromTouchStroke(touchStroke, toolSet, sqrt).samples,
                     b.fastBrushWidth, b.slowBrushWidth)
    ensures var b := toolSet[touchStroke.tool].brush;
      b.slowBrushWidth < b.fastBrushWidth ==>
        WidthsWithin(SmoothedStrokeFromTouchStroke(touchStroke, toolSet, sqrt).samples,
                     b.slowBrushWidth, b.slowBrushWidth)
  {
    var spec := toolSet[touchStroke.tool];
    var b := spec.brush;
    var drawn := DrawnSamples(touchStroke.samples, b, sqrt);
    VariableWidthBounds(touchStroke.samples, b, sqrt);
    if b.fastBrushWidth <= b.slowBrushWidth {
      SmoothingKeepsWidthBounds(drawn, spec.subdivisionLength, sqrt, b.fastBrushWidth, b.slowBrushWidth);
    } else {
      assert WidthsWithin(drawn, b.slowBrushWidth, b.slowBrushWidth);
      SmoothingKeepsWidthBounds(drawn, spec.subdivisionLength, sqrt, b.slowBrushWidth, b.slowBrushWidth);
    }
  }

  /** The constant brush puts its width on the stroke and none on the samples, so when
      the captured samples carry no width, no rendered sample carries a number: the first
      keeps its missing width and every interpolated one is `NaN`. */
  lemma ConstantPipelineWidths(touchStroke: Stroke, toolSet: ToolSet, sqrt: SquareRoot)
    requires touchStroke.tool in toolSet && ValidToolSpec(toolSet[touchStroke.tool])
    requires toolSet[touchStroke.tool].brush.ConstantBrush?
    requires NoWidths(touchStroke.samples)
    ensures var r := SmoothedStrokeFromTouchStroke(touchStroke, toolSet, sqrt);
      r.w == Some(toolSet[touchStroke.tool].brush.brushWidth) && NoWidths(r.samples)
    ensures var r := SmoothedStrokeFromTouchStroke(touchStroke, toolSet, sqrt);
      1 <= |touchStroke.samples| ==> NaNWidths(r.samples[1..])
  {
    SmoothingWithoutWidths(touchStroke.samples, toolSet[touchStroke.tool].subdivisionLength, sqrt);
  }

  /** Four evenly spaced samples on a line, a constant brush of width 5 and a subdivision
      length of 5: each of the two triples has midpoints 10 apart and yields 2 sub-samples,
      so the stroke is rendered as 5 samples at x = 0, 5, 10, 15, 20. The width 5 is on the
      stroke only; the interpolated samples carry `NaN`. */
  lemma ConstantBrushExample(sqrt: SquareRoot)
    requires sqrt(100.0) == 10.0
    ensures var touch := Stroke("black", "pen",
        [Sample(0.0, 0.0, Absent), Sample(10.0, 0.0, Absent),
         Sample(20.0, 0.0, Absent), Sample(30.0, 0.0, Absent)], None);
      var toolSet := map["pen" := ToolSpec(ConstantBrush(5.0), 5.0)];
      SmoothedStrokeFromTouchStroke(touch, toolSet, sqrt)
        == Stroke("black", "pen",
             [Sample(0.0, 0.0, Absent), Sample(5.0, 0.0, NotANumber), Sample(10.0, 0.0, NotANumber),
              Sample(15.0, 0.0, NotANumber), Sample(20.0, 0.0, NotANumber)], Some(5.0))
  {
    var s := [Sample(0.0, 0.0, Absent), Sample(10.0, 0.0, Absent),
              Sample(20.0, 0.0, Absent), Sample(30.0, 0.0, Absent)];
    assert MidpointDistance(s[0], s[1], s[2], sqrt) == 10.0;
    assert MidpointDistance(s[1], s[2], s[3], sqrt) == 10.0;
    assert SegmentCount(10.0, 5.0) == 2;
    var first := SubSamplesFrom(s[0], s[1], s[2], 0, 2);
    var second := SubSamplesFrom(s[1], s[2], s[3], 0, 2);
    assert first == [Sample(5.0, 0.0, NotANumber), Sample(10.0, 0.0, NotANumber)];
    assert second == [Sample(15.0, 0.0, NotANumber), Sample(20.0, 0.0, NotANumber)];
    assert SegmentsTo(s, 4, 5.0, sqrt) == first + second;
  }
}
