/** The inward rectangular spiral that clears one pad
    (generate_rectangular_spiral in svg_cutout.py), as a list of moves. */
module SvgSpiral {
  import opened Geometry

  /** A rapid move (G0) or a cutting move at the XY feed (G1). */
  datatype Move = Rapid(to: Point) | Feed(to: Point)

  /** The k-th move runs parallel to an axis: it keeps the x or the y of the
      move before it. */
  predicate AlignedStep(path: seq<Move>, k: nat)
    requires 0 < k < |path|
  {
    path[k - 1].to.x == path[k].to.x || path[k - 1].to.y == path[k].to.y
  }

  /** Every move from index 6 on runs parallel to an axis. */
  ghost predicate AlignedFrom6(path: seq<Move>)
  {
    forall k :: 6 <= k < |path| ==> AlignedStep(path, k)
  }

  /** Appending a move that keeps the x or the y of the last one keeps the
      path aligned, and keeps it made of cutting moves after the first. */
  lemma AppendAligned(path: seq<Move>, m: Move)
    requires |path| >= 6 && AlignedFrom6(path)
    requires path[|path| - 1].to.x == m.to.x || path[|path| - 1].to.y == m.to.y
    ensures AlignedFrom6(path + [m])
  {
    var p := path + [m];
    forall k | 6 <= k < |p|
      ensures AlignedStep(p, k)
    {
      if k < |path| {
        assert p[k - 1] == path[k - 1] && p[k] == path[k];
        assert AlignedStep(path, k);
      }
    }
  }

  /** When a quantity drops by at least one step, its count of whole steps
      drops by at least one. */
  lemma StepsDrop(a: real, b: real, step: real)
    requires step > 0.0 && a <= b - step
    ensures (a / step).Floor < (b / step).Floor
  {
    var qa, qb := a / step, b / step;
    assert qa * step == a && qb * step == b;
    assert (qb - qa) * step == b - a;
    assert qb - qa >= 1.0;
    assert qa.Floor as real <= qa && qb < qb.Floor as real + 1.0;
    assert qa.Floor as real < qb.Floor as real;
  }

  /** The distance between passes: the tool diameter less the overlap. */
  function StepOver(toolDia: real, overlap: real): real
  {
    toolDia * (1.0 - overlap)
  }

  /** generate_rectangular_spiral. The tool of diameter toolDia clears the
      rectangle from xMin, yMin to xMax, yMax with passes stepOver =
      toolDia * (1 - overlap) apart. The path starts with a rapid move to the
      inset bottom-left corner and traces the inset rectangle once round
      (right-bottom, right-top, left-top, back to left-bottom); then it steps
      diagonally inwards by one step over, and every later cut runs parallel
      to an axis. The loop ends because the gap between top and bottom
      shrinks by a step on every full turn, which needs a positive step. y_mid is the height of
      the rectangle, as the original computes it. */
  method RectangularSpiral(xMin: real, yMin: real, xMax: real, yMax: real, toolDia: real, overlap: real)
    returns (path: seq<Move>)
    requires StepOver(toolDia, overlap) > 0.0
    ensures |path| >= 8
    ensures var r := toolDia / 2.0;
      var left, right, bottom, top := xMin + r, xMax - r, yMin + r, yMax - r;
      var step := StepOver(toolDia, overlap);
      path[..6] == [Rapid(Point(left, bottom)), Feed(Point(right, bottom)), Feed(Point(right, top)),
                    Feed(Point(left, top)), Feed(Point(left, bottom)), Feed(Point(left + step, bottom + step))]
    ensures forall k :: 1 <= k < |path| ==> path[k].Feed?
    ensures AlignedFrom6(path)
  {
    var step := StepOver(toolDia, overlap);
    var yMid := yMax - yMin;
    var xLeft := xMin + toolDia / 2.0;
    var yBottom := yMin + toolDia / 2.0;
    var xRight := xMax - toolDia / 2.0;
    var yTop := yMax - toolDia / 2.0;
    path := [Rapid(Point(xLeft, yBottom))];
    path := path + [Feed(Point(xRight, yBottom)), Feed(Point(xRight, yTop)),
                    Feed(Point(xLeft, yTop)), Feed(Point(xLeft, yBottom))];
    xLeft := xLeft + step;
    xRight := xRight - step;
    yBottom := yBottom + step;
    yTop := yTop - step;
    path := path + [Feed(Point(xLeft, yBottom))];
    ghost var head := path;
    while true
      invariant |path| >= 6 && path[..6] == head
      invariant forall k :: 1 <= k < |path| ==> path[k].Feed?
      invariant AlignedFrom6(path)
      invariant path[|path| - 1].to.y == yBottom
      decreases ((yTop - yBottom) / step).Floor
    {
      ghost var gap := yTop - yBottom;
      AppendAligned(path, Feed(Point(xRight, yBottom)));
      path := path + [Feed(Point(xRight, yBottom))];
      AppendAligned(path, Feed(Point(xRight, yTop)));
      path := path + [Feed(Point(xRight, yTop))];
      if xRight - xLeft < step || yTop - yBottom < step {
        break;
      }
      AppendAligned(path, Feed(Point(xLeft, yTop)));
      path := path + [Feed(Point(xLeft, yTop))];
      yBottom := yBottom + if yBottom < yMid - step then step else 0.0;
      AppendAligned(path, Feed(Point(xLeft, yBottom)));
      path := path + [Feed(Point(xLeft, yBottom))];
      if yTop - yBottom < step {
        break;
      }
      xLeft := xLeft + step;
      xRight := xRight - step;
      yTop := yTop - step;
      StepsDrop(yTop - yBottom, gap, step);
    }
  }
}
