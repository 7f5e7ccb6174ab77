/** Recovering the board outline from an isolation-routing program: the G1
    block of the file (read_gcode_geometry) and the largest closed run of
    points inside it (find_board_outline, with polygon_area). */
module Outline {
  import opened Wrappers
  import opened Geometry

  /** One line of the input program. `xy` is what the X/Y pattern search and
      float conversion make of the text: a pair when both an X and a Y
      number are present. */
  datatype Line = Line(text: string, xy: Option<Point>)

  /** Python's `sub in s` on strings. */
  predicate Contains(s: string, sub: string)
    decreases |s|
  {
    |sub| <= |s| && (sub <= s || Contains(s[1..], sub))
  }

  /** The motion test both functions apply: 'G1' in line or 'G01' in line. */
  predicate IsMotion(text: string)
  {
    Contains(text, "G1") || Contains(text, "G01")
  }

  /** A line that extends a run: a motion line carrying an X/Y pair. */
  predicate IsPointLine(l: Line)
  {
    IsMotion(l.text) && l.xy.Some?
  }

  /** Closing tolerance of a run: both coordinates within 1e-5. */
  const CloseTol: real := 0.00001

  predicate Near(p: Point, q: Point)
  {
    Abs(p.x - q.x) < CloseTol && Abs(p.y - q.y) < CloseTol
  }

  // ---------------------------------------------------------------------
  // read_gcode_geometry

  /** The block from the first to the last motion line. The original slices
      with `None` when there is no motion line at all and fails; that case is
      `None` here. */
  method ReadGcodeGeometry(lines: seq<Line>) returns (block: Option<seq<Line>>, ghost first: nat, ghost last: nat)
    ensures block.None? <==> forall k :: 0 <= k < |lines| ==> !IsMotion(lines[k].text)
    ensures block.Some? ==>
      && first <= last < |lines|
      && block.value == lines[first..last + 1]
      && IsMotion(lines[first].text) && IsMotion(lines[last].text)
      && (forall k :: 0 <= k < first ==> !IsMotion(lines[k].text))
      && (forall k :: last < k < |lines| ==> !IsMotion(lines[k].text))
  {
    var start: Option<nat> := None;
    var end: nat := 0;
    for idx := 0 to |lines|
      invariant start.None? ==> forall k :: 0 <= k < idx ==> !IsMotion(lines[k].text)
      invariant start.Some? ==>
        && start.value <= end < idx
        && IsMotion(lines[start.value].text) && IsMotion(lines[end].text)
        && (forall k :: 0 <= k < start.value ==> !IsMotion(lines[k].text))
        && (forall k :: end < k < idx ==> !IsMotion(lines[k].text))
    {
      if IsMotion(lines[idx].text) {
        if start.None? {
          start := Some(idx);
        }
        end := idx;
      }
    }
    if start.None? {
      block, first, last := None, 0, 0;
    } else {
      block, first, last := Some(lines[start.value..end + 1]), start.value, end;
    }
  }

  // ---------------------------------------------------------------------
  // polygon_area

  /** The shoelace term of edge k of a closed polygon. */
  function Cross(pts: seq<Point>, k: nat): real
    requires k < |pts|
  {
    var p, q := pts[k], pts[(k + 1) % |pts|];
    p.x * q.y - q.x * p.y
  }

  /** The sum of the first k shoelace terms. */
  ghost function CrossSum(pts: seq<Point>, k: nat): real
    requires k <= |pts|
  {
    if k == 0 then 0.0 else CrossSum(pts, k - 1) + Cross(pts, k - 1)
  }

  /** The (unsigned) shoelace area of a closed polygon. */
  ghost function Area(pts: seq<Point>): real
  {
    Abs(CrossSum(pts, |pts|)) / 2.0
  }

  /** polygon_area: the accumulator loop computes the shoelace area, which is
      never negative. */
  method PolygonArea(pts: seq<Point>) returns (area: real)
    ensures area == Area(pts)
    ensures area >= 0.0
  {
    var acc := 0.0;
    var n := |pts|;
    for i := 0 to n
      invariant acc == CrossSum(pts, i)
    {
      var p := pts[i];
      var q := pts[(i + 1) % n];
      acc := acc + (p.x * q.y - q.x * p.y);
    }
    area := Abs(acc) / 2.0;
  }

  /** A "polygon" of one or two vertices encloses nothing: its shoelace terms
      cancel. */
  lemma {:induction false} DegenerateArea(pts: seq<Point>)
    requires |pts| < 3
    ensures Area(pts) == 0.0
  {
    if |pts| == 1 {
      assert CrossSum(pts, 1) == CrossSum(pts, 0) + Cross(pts, 0);
    } else if |pts| == 2 {
      assert CrossSum(pts, 2) == CrossSum(pts, 0) + Cross(pts, 0) + Cross(pts, 1);
    }
  }

  // ---------------------------------------------------------------------
  // find_board_outline: collecting runs

  /** A recorded run `r` that starts at line `s` of the block:
      - it has more than two points;
      - its points are the pairs of consecutive point lines starting at `s`;
      - no shorter prefix of more than two points had already closed;
      - it ends closed (back within tolerance of its first point), at the end
        of the block, or just before a line that is not a point line. */
  ghost predicate ValidRun(block: seq<Line>, s: nat, r: seq<Point>)
  {
    && |r| > 2
    && s + |r| <= |block|
    && (forall j :: s <= j < s + |r| ==> IsPointLine(block[j]) && block[j].xy.value == r[j - s])
    && (forall m :: 2 <= m < |r| - 1 ==> !Near(r[m], r[0]))
    && (Near(r[|r| - 1], r[0]) || s + |r| == |block| || !IsPointLine(block[s + |r|]))
  }

  /** The loop state of find_board_outline: the runs recorded so far and the
      points of the open run. The line indices where each run starts (`spans`)
      and where the open run starts (`cs`) exist only in the proof; the list of
      raw lines the original keeps beside the points always has the same
      length as the points and is not modelled separately. */
  datatype Scan = Scan(outlines: seq<seq<Point>>, cur: seq<Point>, spans: seq<nat>, cs: nat)

  /** One iteration of the loop over the block, on line `l` at index `i`. */
  ghost function ScanStep(sc: Scan, l: Line, i: nat): Scan
  {
    if IsPointLine(l) then
      var xy := l.xy.value;
      if sc.cur == [] then sc.(cur := [xy], cs := i)
      else
        var c := sc.cur + [xy];
        if Near(xy, c[0]) && |c| > 2 then Scan(sc.outlines + [c], [], sc.spans + [sc.cs], i + 1)
        else sc.(cur := c)
    else if sc.cur != [] then
      if |sc.cur| > 2 then Scan(sc.outlines + [sc.cur], [], sc.spans + [sc.cs], i + 1)
      else sc.(cur := [], cs := i + 1)
    else sc.(cs := i + 1)
  }

  /** The state after the first i lines of the block. */
  ghost function ScanUpTo(block: seq<Line>, i: nat): Scan
    requires i <= |block|
  {
    if i == 0 then Scan([], [], [], 0)
    else ScanStep(ScanUpTo(block, i - 1), block[i - 1], i - 1)
  }

  /** The runs once the block is exhausted: an open run of more than two
      points is kept as well. */
  ghost function Runs(block: seq<Line>): seq<seq<Point>>
  {
    var sc := ScanUpTo(block, |block|);
    if |sc.cur| > 2 then sc.outlines + [sc.cur] else sc.outlines
  }

  /** The first line of each run in Runs(block). */
  ghost function Spans(block: seq<Line>): seq<nat>
  {
    var sc := ScanUpTo(block, |block|);
    if |sc.cur| > 2 then sc.spans + [sc.cs] else sc.spans
  }

  /** The recorded runs so far are valid and ordered, and end before the open
      run, which holds the pairs of the point lines from cs up to i. */
  ghost predicate ScanState(block: seq<Line>, i: nat, sc: Scan)
  {
    && i <= |block|
    && |sc.spans| == |sc.outlines|
    && (forall k :: 0 <= k < |sc.outlines| ==>
          ValidRun(block, sc.spans[k], sc.outlines[k]) && sc.spans[k] + |sc.outlines[k]| <= sc.cs)
    && (forall k, k2 :: 0 <= k < k2 < |sc.outlines| ==> sc.spans[k] + |sc.outlines[k]| <= sc.spans[k2])
    && sc.cs + |sc.cur| == i
    && (forall j :: sc.cs <= j < i ==> IsPointLine(block[j]) && block[j].xy.value == sc.cur[j - sc.cs])
    && (forall m :: 2 <= m < |sc.cur| ==> !Near(sc.cur[m], sc.cur[0]))
  }

  /** Recording a run keeps the recorded runs valid and ordered. */
  lemma RecordRun(block: seq<Line>, sc: Scan, r: seq<Point>, s: nat, next: nat)
    requires |sc.spans| == |sc.outlines|
    requires forall k :: 0 <= k < |sc.outlines| ==>
      ValidRun(block, sc.spans[k], sc.outlines[k]) && sc.spans[k] + |sc.outlines[k]| <= s
    requires forall k, k2 :: 0 <= k < k2 < |sc.outlines| ==> sc.spans[k] + |sc.outlines[k]| <= sc.spans[k2]
    requires ValidRun(block, s, r) && s + |r| <= next
    ensures var o, sp := sc.outlines + [r], sc.spans + [s];
      && |sp| == |o|
      && (forall k :: 0 <= k < |o| ==> ValidRun(block, sp[k], o[k]) && sp[k] + |o[k]| <= next)
      && (forall k, k2 :: 0 <= k < k2 < |o| ==> sp[k] + |o[k]| <= sp[k2])
  {
    var o, sp := sc.outlines + [r], sc.spans + [s];
    forall k | 0 <= k < |o|
      ensures ValidRun(block, sp[k], o[k]) && sp[k] + |o[k]| <= next
    {
      if k < |sc.outlines| {
        assert o[k] == sc.outlines[k] && sp[k] == sc.spans[k];
      }
    }
    forall k, k2 | 0 <= k < k2 < |o|
      ensures sp[k] + |o[k]| <= sp[k2]
    {
      assert o[k] == sc.outlines[k] && sp[k] == sc.spans[k];
      if k2 < |sc.outlines| {
        assert sp[k2] == sc.spans[k2];
      }
    }
  }

  /** A point line extends the open run, or closes it and records it. */
  lemma StepPoint(block: seq<Line>, i: nat, sc: Scan)
    requires i < |block| && ScanState(block, i, sc) && IsPointLine(block[i])
    ensures ScanState(block, i + 1, ScanStep(sc, block[i], i))
  {
    var xy := block[i].xy.value;
    if sc.cur != [] {
      var c := sc.cur + [xy];
      forall j | sc.cs <= j < i + 1
        ensures IsPointLine(block[j]) && block[j].xy.value == c[j - sc.cs]
      {
        if j < i {
          assert c[j - sc.cs] == sc.cur[j - sc.cs];
        }
      }
      forall m | 2 <= m < |c| - 1
        ensures !Near(c[m], c[0])
      {
        assert c[m] == sc.cur[m];
      }
      if Near(xy, c[0]) && |c| > 2 {
        assert c[|c| - 1] == xy;
        assert ValidRun(block, sc.cs, c);
        RecordRun(block, sc, c, sc.cs, i + 1);
      }
    }
  }

  /** Any other line ends the open run, which is recorded when it has more
      than two points. */
  lemma StepBreak(block: seq<Line>, i: nat, sc: Scan)
    requires i < |block| && ScanState(block, i, sc) && !IsPointLine(block[i])
    ensures ScanState(block, i + 1, ScanStep(sc, block[i], i))
  {
    if sc.cur != [] && |sc.cur| > 2 {
      assert !IsPointLine(block[sc.cs + |sc.cur|]);
      assert ValidRun(block, sc.cs, sc.cur);
      RecordRun(block, sc, sc.cur, sc.cs, i + 1);
    }
  }

  lemma {:induction false} ScanInvariant(block: seq<Line>, i: nat)
    requires i <= |block|
    ensures ScanState(block, i, ScanUpTo(block, i))
  {
    if i > 0 {
      ScanInvariant(block, i - 1);
      if IsPointLine(block[i - 1]) {
        StepPoint(block, i - 1, ScanUpTo(block, i - 1));
      } else {
        StepBreak(block, i - 1, ScanUpTo(block, i - 1));
      }
    }
  }

  /** Every recorded run is valid (more than two points, consecutive point
      lines, closed only at its first return within tolerance, otherwise
      ended by a non-point line or the end of the block), and runs appear in
      block order without overlapping. */
  lemma RunsAreValid(block: seq<Line>)
    ensures |Spans(block)| == |Runs(block)|
    ensures forall k :: 0 <= k < |Runs(block)| ==> ValidRun(block, Spans(block)[k], Runs(block)[k])
    ensures forall k, k2 :: 0 <= k < k2 < |Runs(block)| ==>
      Spans(block)[k] + |Runs(block)[k]| <= Spans(block)[k2]
  {
    var sc := ScanUpTo(block, |block|);
    ScanInvariant(block, |block|);
    if |sc.cur| > 2 {
      assert ValidRun(block, sc.cs, sc.cur);
      RecordRun(block, sc, sc.cur, sc.cs, |block|);
    }
  }

  /** A run is recorded only if the block holds a point line. */
  lemma {:induction false} RunsNeedPoints(block: seq<Line>)
    ensures Runs(block) != [] ==> exists j :: 0 <= j < |block| && IsPointLine(block[j])
  {
    RunsAreValid(block);
    if Runs(block) != [] {
      var s := Spans(block)[0];
      assert ValidRun(block, s, Runs(block)[0]);
      assert IsPointLine(block[s]);
    }
  }

  /** Lines s, s + 1 and s + 2 of the block are point lines. */
  predicate ThreePointLines(block: seq<Line>, s: nat)
  {
    s + 2 < |block| && IsPointLine(block[s]) && IsPointLine(block[s + 1]) && IsPointLine(block[s + 2])
  }

  /** The scan has recorded a run, or its open run holds at least k points. */
  ghost predicate Progress(sc: Scan, k: nat)
  {
    sc.outlines != [] || |sc.cur| >= k
  }

  /** A point line either records a run or adds a point to the open run. */
  lemma PointProgress(sc: Scan, l: Line, i: nat, k: nat)
    requires IsPointLine(l) && Progress(sc, k)
    ensures Progress(ScanStep(sc, l, i), k + 1)
  {
  }

  /** Once a run is recorded or the open run has three points, some run is
      recorded by the end of any later line: a point line keeps or closes
      the open run, and any other line records it. */
  lemma LineKeepsProgress(sc: Scan, l: Line, i: nat)
    requires Progress(sc, 3)
    ensures Progress(ScanStep(sc, l, i), 3)
  {
    if IsPointLine(l) {
      PointProgress(sc, l, i, 3);
    }
  }

  /** Progress towards a recorded run, once made, lasts to any later line. */
  lemma {:induction false} ProgressKept(block: seq<Line>, i: nat, j: nat)
    requires i <= j <= |block| && Progress(ScanUpTo(block, i), 3)
    ensures Progress(ScanUpTo(block, j), 3)
    decreases j - i
  {
    if i < j {
      LineKeepsProgress(ScanUpTo(block, i), block[i], i);
      ProgressKept(block, i + 1, j);
    }
  }

  /** Three consecutive point lines always give a run: either one closes
      among them, or the open run they build is recorded later, by a closing
      point, by a line that is not a point line, or at the end of the block. */
  lemma ThreeInARow(block: seq<Line>, s: nat)
    requires ThreePointLines(block, s)
    ensures Runs(block) != []
  {
    PointProgress(ScanUpTo(block, s), block[s], s, 0);
    PointProgress(ScanUpTo(block, s + 1), block[s + 1], s + 1, 1);
    PointProgress(ScanUpTo(block, s + 2), block[s + 2], s + 2, 2);
    ProgressKept(block, s + 3, |block|);
  }

  /** The scan finds a run exactly when the block holds three consecutive
      point lines. */
  lemma RunsExactly(block: seq<Line>)
    ensures Runs(block) != [] <==> exists s :: ThreePointLines(block, s)
  {
    if Runs(block) != [] {
      RunsAreValid(block);
      var s := Spans(block)[0];
      assert ValidRun(block, s, Runs(block)[0]);
      assert ThreePointLines(block, s);
    } else if exists s :: ThreePointLines(block, s) {
      var s :| ThreePointLines(block, s);
      ThreeInARow(block, s);
    }
  }

  // ---------------------------------------------------------------------
  // find_board_outline: the loop and the selection

  /** find_board_outline: the points of the first recorded run of largest
      shoelace area, or [] when no run was recorded. */
  method FindBoardOutline(block: seq<Line>) returns (outline: seq<Point>, ghost which: nat)
    ensures outline == [] <==> Runs(block) == []
    ensures outline == [] <==> forall s :: !ThreePointLines(block, s)
    ensures outline != [] ==>
      && which < |Runs(block)|
      && outline == Runs(block)[which]
      && (forall k :: 0 <= k < |Runs(block)| ==> Area(Runs(block)[k]) <= Area(outline))
      && (forall k :: 0 <= k < which ==> Area(Runs(block)[k]) < Area(outline))
  {
    var outlines: seq<seq<Point>> := [];
    var current: seq<Point> := [];
    for i := 0 to |block|
      invariant outlines == ScanUpTo(block, i).outlines && current == ScanUpTo(block, i).cur
    {
      var line := block[i];
      if IsMotion(line.text) && line.xy.Some? {
        var xy := line.xy.value;
        if current == [] {
          current := [xy];
        } else {
          current := current + [xy];
          if Near(xy, current[0]) && |current| > 2 {
            outlines := outlines + [current];
            current := [];
          }
        }
      } else if current != [] {
        if |current| > 2 {
          outlines := outlines + [current];
        }
        current := [];
      }
    }
    if current != [] && |current| > 2 {
      outlines := outlines + [current];
    }
    assert outlines == Runs(block);
    RunsAreValid(block);
    RunsExactly(block);

    if outlines == [] {
      return [], 0;
    }
    var best := FirstLargest(outlines);
    assert ValidRun(block, Spans(block)[best], outlines[best]);
    outline, which := outlines[best], best;
  }

  /** The selection at the end of find_board_outline: the index of the first
      outline of largest area, keeping the earlier one on a tie. */
  method FirstLargest(outlines: seq<seq<Point>>) returns (best: nat)
    requires outlines != []
    ensures best < |outlines|
    ensures forall k :: 0 <= k < |outlines| ==> Area(outlines[k]) <= Area(outlines[best])
    ensures forall k :: 0 <= k < best ==> Area(outlines[k]) < Area(outlines[best])
  {
    best := 0;
    var bestArea := PolygonArea(outlines[0]);
    for k := 1 to |outlines|
      invariant best < k && bestArea == Area(outlines[best])
      invariant forall j :: 0 <= j < k ==> Area(outlines[j]) <= bestArea
      invariant forall j :: 0 <= j < best ==> Area(outlines[j]) < bestArea
    {
      var a := PolygonArea(outlines[k]);
      if a > bestArea {
        best, bestArea := k, a;
      }
    }
  }
}
