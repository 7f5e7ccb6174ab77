/** The CNC test pattern of test_pattern.py: a grid of squares to the left
    of x_start, with one cutting parameter swept along each axis, and the
    description of each sweep that heads the G-code. */
module TestPattern {
  import opened Wrappers

  /** The options that shape the grid (the Config of test_pattern.py). A
      mode names the parameter swept along an axis: 0 none, 1 z_cut,
      2 xy_speed, 3 spindle. */
  datatype Pattern = Pattern(
    zCutStart: real, zCutStep: real,
    xySpeedStart: real, xySpeedStep: real,
    spindleStart: int, spindleStep: int,
    xMode: int, xSteps: int, yMode: int, ySteps: int,
    xStart: real, yStart: real, squareSize: real, gapSize: real)

  /** One entry of the squares list: the lower-left corner and the settings
      it is cut with. */
  datatype Square = Square(x: real, y: real, zCut: real, xySpeed: real, spindle: int)

  /** len(range(steps)): a negative count gives no iterations. */
  function Count(steps: int): (n: nat)
    ensures steps > 0 ==> n == steps
    ensures steps <= 0 ==> n == 0
  {
    if steps > 0 then steps else 0
  }

  /** The distance from one square to the next, along either axis. */
  function Pitch(p: Pattern): real
  {
    p.squareSize + p.gapSize
  }

  /** The x every row starts from: far enough left that the last column
      ends at x_start. */
  function RowStartX(p: Pattern): real
  {
    p.xStart - p.xSteps as real * p.squareSize - (p.xSteps - 1) as real * p.gapSize
  }

  /** How many steps the parameter named by `mode` has advanced at column i
      of row j: the column when the X axis sweeps it (the row reset wins when
      both axes name it), the row when only the Y axis does, none otherwise. */
  function SweepIndex(p: Pattern, mode: int, i: nat, j: nat): nat
  {
    if p.xMode == mode then i else if p.yMode == mode then j else 0
  }

  /** The square at column i of row j, in closed form. */
  function SquareAt(p: Pattern, i: nat, j: nat): Square
  {
    Square(RowStartX(p) + i as real * Pitch(p),
           p.yStart + j as real * Pitch(p),
           p.zCutStart + SweepIndex(p, 1, i, j) as real * p.zCutStep,
           p.xySpeedStart + SweepIndex(p, 2, i, j) as real * p.xySpeedStep,
           p.spindleStart + SweepIndex(p, 3, i, j) * p.spindleStep)
  }

  /** The first i squares of row j. */
  function Row(p: Pattern, j: nat, i: nat): seq<Square>
  {
    if i == 0 then [] else Row(p, j, i - 1) + [SquareAt(p, i - 1, j)]
  }

  /** The first j rows of the grid, each of Count(xSteps) squares. */
  function Rows(p: Pattern, j: nat): seq<Square>
  {
    if j == 0 then [] else Rows(p, j - 1) + Row(p, j - 1, Count(p.xSteps))
  }

  /** The whole grid, row after row. */
  function Grid(p: Pattern): seq<Square>
  {
    Rows(p, Count(p.ySteps))
  }

  lemma {:induction false} RowAt(p: Pattern, j: nat, i: nat, k: nat)
    requires k < i
    ensures |Row(p, j, i)| == i && Row(p, j, i)[k] == SquareAt(p, k, j)
  {
    if k < i - 1 {
      RowAt(p, j, i - 1, k);
    } else if i > 1 {
      RowAt(p, j, i - 1, 0);
    }
  }

  /** One more multiple: (k + 1) * d == k * d + d. */
  lemma MoreReal(k: nat, d: real)
    ensures (k + 1) as real * d == k as real * d + d
  {
  }

  lemma MoreInt(k: nat, d: int)
    ensures (k + 1) * d == k * d + d
  {
  }

  lemma {:induction false} RowLength(p: Pattern, j: nat, i: nat)
    ensures |Row(p, j, i)| == i
  {
    if i > 0 {
      RowLength(p, j, i - 1);
    }
  }

  lemma {:induction false} RowsLength(p: Pattern, j: nat)
    ensures |Rows(p, j)| == j * Count(p.xSteps)
  {
    if j > 0 {
      var n := Count(p.xSteps);
      RowsLength(p, j - 1);
      RowLength(p, j - 1, n);
      MoreInt(j - 1, n);
    }
  }

  /** The grid holds x_steps * y_steps squares, none when either count is
      not positive. */
  lemma GridLength(p: Pattern)
    ensures |Grid(p)| == Count(p.xSteps) * Count(p.ySteps)
  {
    RowsLength(p, Count(p.ySteps));
  }

  /** The grid is in row-major order: square j * nx + i is column i of
      row j. */
  lemma GridAt(p: Pattern, i: nat, j: nat)
    requires i < Count(p.xSteps) && j < Count(p.ySteps)
    ensures j * Count(p.xSteps) + i < |Grid(p)|
    ensures Grid(p)[j * Count(p.xSteps) + i] == SquareAt(p, i, j)
  {
    var nx := Count(p.xSteps);
    RowsAt(p, Count(p.ySteps), i, j);
    RowsLength(p, j);
    assert |Rows(p, j)| + i == j * nx + i;
  }

  lemma {:induction false} RowsPrefix(p: Pattern, j: nat, rows: nat)
    requires j <= rows
    ensures Rows(p, j) <= Rows(p, rows)
    decreases rows - j
  {
    if j < rows {
      RowsPrefix(p, j + 1, rows);
    }
  }

  lemma RowsAt(p: Pattern, rows: nat, i: nat, j: nat)
    requires i < Count(p.xSteps) && j < rows
    ensures |Rows(p, j)| + i < |Rows(p, rows)|
    ensures Rows(p, rows)[|Rows(p, j)| + i] == SquareAt(p, i, j)
  {
    var nx := Count(p.xSteps);
    RowsPrefix(p, j + 1, rows);
    RowAt(p, j, nx, i);
    assert Rows(p, j + 1) == Rows(p, j) + Row(p, j, nx);
  }

  /** Moving one column right moves x by the pitch and advances only the
      parameter the X axis sweeps. */
  lemma ColumnStep(p: Pattern, i: nat, j: nat)
    ensures SquareAt(p, i + 1, j).x == SquareAt(p, i, j).x + Pitch(p)
    ensures SquareAt(p, i + 1, j).y == SquareAt(p, i, j).y
    ensures SquareAt(p, i + 1, j).zCut == SquareAt(p, i, j).zCut + if p.xMode == 1 then p.zCutStep else 0.0
    ensures SquareAt(p, i + 1, j).xySpeed == SquareAt(p, i, j).xySpeed + if p.xMode == 2 then p.xySpeedStep else 0.0
    ensures SquareAt(p, i + 1, j).spindle == SquareAt(p, i, j).spindle + if p.xMode == 3 then p.spindleStep else 0
  {
    MoreReal(i, Pitch(p));
    MoreReal(i, p.zCutStep);
    MoreReal(i, p.xySpeedStep);
    MoreInt(i, p.spindleStep);
  }

  /** Every row starts at RowStartX, with the parameter the X axis sweeps
      back at its start value. */
  lemma RowStart(p: Pattern, j: nat)
    ensures SquareAt(p, 0, j).x == RowStartX(p)
    ensures p.xMode == 1 ==> SquareAt(p, 0, j).zCut == p.zCutStart
    ensures p.xMode == 2 ==> SquareAt(p, 0, j).xySpeed == p.xySpeedStart
    ensures p.xMode == 3 ==> SquareAt(p, 0, j).spindle == p.spindleStart
  {
  }

  /** Moving up from the end of one row to the start of the next moves y by
      the pitch; a parameter the X axis does not sweep is where the row left
      it, advanced by one step when the Y axis sweeps it. */
  lemma RowStep(p: Pattern, i: nat, j: nat)
    ensures SquareAt(p, 0, j + 1).y == SquareAt(p, i, j).y + Pitch(p)
    ensures p.xMode != 1 ==>
      SquareAt(p, 0, j + 1).zCut == SquareAt(p, i, j).zCut + if p.yMode == 1 then p.zCutStep else 0.0
    ensures p.xMode != 2 ==>
      SquareAt(p, 0, j + 1).xySpeed == SquareAt(p, i, j).xySpeed + if p.yMode == 2 then p.xySpeedStep else 0.0
    ensures p.xMode != 3 ==>
      SquareAt(p, 0, j + 1).spindle == SquareAt(p, i, j).spindle + if p.yMode == 3 then p.spindleStep else 0
  {
    MoreReal(j, Pitch(p));
    MoreReal(j, p.zCutStep);
    MoreReal(j, p.xySpeedStep);
    MoreInt(j, p.spindleStep);
  }

  /** The grid loop of the main block: for each row, reset x and the
      parameter the X axis sweeps; for each column, record the square, move
      right and advance that parameter; after the row, move up and advance
      the parameter the Y axis sweeps. The list it builds is the grid. */
  method GridSquares(p: Pattern) returns (squares: seq<Square>)
    ensures squares == Grid(p)
  {
    squares := [];
    var zCut := p.zCutStart;
    var xySpeed := p.xySpeedStart;
    var spindle := p.spindleStart;
    var y := p.yStart;
    var nx, ny := Count(p.xSteps), Count(p.ySteps);
    var j := 0;
    while j < ny
      invariant j <= ny
      invariant squares == Rows(p, j)
      invariant y == SquareAt(p, 0, j).y
      invariant p.xMode != 1 ==> zCut == SquareAt(p, 0, j).zCut
      invariant p.xMode != 2 ==> xySpeed == SquareAt(p, 0, j).xySpeed
      invariant p.xMode != 3 ==> spindle == SquareAt(p, 0, j).spindle
    {
      var x := RowStartX(p);
      if p.xMode == 1 {
        zCut := p.zCutStart;
      } else if p.xMode == 2 {
        xySpeed := p.xySpeedStart;
      } else if p.xMode == 3 {
        spindle := p.spindleStart;
      }
      RowStart(p, j);
      var i := 0;
      while i < nx
        invariant i <= nx
        invariant squares == Rows(p, j) + Row(p, j, i)
        invariant x == SquareAt(p, i, j).x && y == SquareAt(p, i, j).y
        invariant zCut == SquareAt(p, i, j).zCut && xySpeed == SquareAt(p, i, j).xySpeed
        invariant spindle == SquareAt(p, i, j).spindle
      {
        squares := squares + [Square(x, y, zCut, xySpeed, spindle)];
        ColumnStep(p, i, j);
        x := x + p.squareSize + p.gapSize;
        if p.xMode == 1 {
          zCut := zCut + p.zCutStep;
        } else if p.xMode == 2 {
          xySpeed := xySpeed + p.xySpeedStep;
        } else if p.xMode == 3 {
          spindle := spindle + p.spindleStep;
        }
        i := i + 1;
      }
      RowStep(p, nx, j);
      y := y + p.squareSize + p.gapSize;
      if p.yMode == 1 {
        zCut := zCut + p.zCutStep;
      } else if p.yMode == 2 {
        xySpeed := xySpeed + p.xySpeedStep;
      } else if p.yMode == 3 {
        spindle := spindle + p.spindleStep;
      }
      j := j + 1;
    }
  }

  /** One value of a swept parameter, in the type it is written with. */
  datatype Setting = ZCut(depth: real) | XySpeed(feed: real) | Spindle(rpm: int)

  /** What generate_sweep_string describes: no sweep on the axis, or the
      parameter swept and the values it takes. */
  datatype Sweep = NoSweep(axis: string) | Sweeping(axis: string, param: string, values: seq<Setting>)

  /** The parameter a mode names, as the description spells it. */
  function ParamName(mode: int): string
    requires 1 <= mode <= 3
  {
    if mode == 1 then "z_cut" else if mode == 2 then "xy_speed" else "spindle"
  }

  /** The value of the parameter `mode` names after k steps from its start. */
  function SettingAt(p: Pattern, mode: int, k: nat): Setting
    requires 1 <= mode <= 3
  {
    if mode == 1 then ZCut(p.zCutStart + k as real * p.zCutStep)
    else if mode == 2 then XySpeed(p.xySpeedStart + k as real * p.xySpeedStep)
    else Spindle(p.spindleStart + k * p.spindleStep)
  }

  /** The setting a square is cut with for the parameter `mode` names. */
  function SettingOf(sq: Square, mode: int): Setting
    requires 1 <= mode <= 3
  {
    if mode == 1 then ZCut(sq.zCut) else if mode == 2 then XySpeed(sq.xySpeed) else Spindle(sq.spindle)
  }

  /** generate_sweep_string. Mode 0 describes no sweep whatever the count; a
      mode from 1 to 3 lists the named parameter's values for steps 0 up to
      steps - 1 (none for a count below one); any other mode fails, as the
      lookup in the source's tables raises KeyError. */
  function SweepDescription(p: Pattern, axis: string, mode: int, steps: int): (r: Option<Sweep>)
    ensures r.None? <==> !(0 <= mode <= 3)
    ensures mode == 0 ==> r == Some(NoSweep(axis))
    ensures 1 <= mode <= 3 ==>
      (&& r.Some? && r.value.Sweeping? && r.value.axis == axis
       && r.value.param == ParamName(mode) && |r.value.values| == Count(steps)
       && forall k :: 0 <= k < |r.value.values| ==> r.value.values[k] == SettingAt(p, mode, k))
  {
    if mode == 0 then Some(NoSweep(axis))
    else if 1 <= mode <= 3 then
      Some(Sweeping(axis, ParamName(mode), seq(Count(steps), k requires 0 <= k < Count(steps) => SettingAt(p, mode, k))))
    else None
  }

  /** A square is cut with the value its parameter reaches after the
      square's sweep index of steps. */
  lemma SettingOfSquare(p: Pattern, m: int, i: nat, j: nat)
    requires 1 <= m <= 3
    ensures SettingOf(SquareAt(p, i, j), m) == SettingAt(p, m, SweepIndex(p, m, i, j))
  {
    var sq, k := SquareAt(p, i, j), SweepIndex(p, m, i, j);
    if m == 1 {
      assert sq.zCut == p.zCutStart + k as real * p.zCutStep;
    } else if m == 2 {
      assert sq.xySpeed == p.xySpeedStart + k as real * p.xySpeedStep;
    } else {
      assert sq.spindle == p.spindleStart + k * p.spindleStep;
    }
  }

  /** The descriptions match the grid when the two axes sweep different
      parameters: the square at column i of row j is cut with the i-th value
      of the X description and the j-th value of the Y description, and a
      parameter neither axis sweeps keeps its start value. */
  lemma SweepMatchesGrid(p: Pattern, i: nat, j: nat)
    requires i < Count(p.xSteps) && j < Count(p.ySteps)
    ensures 1 <= p.xMode <= 3 ==>
      SettingOf(SquareAt(p, i, j), p.xMode) == SweepDescription(p, "X", p.xMode, p.xSteps).value.values[i]
    ensures 1 <= p.yMode <= 3 && p.yMode != p.xMode ==>
      SettingOf(SquareAt(p, i, j), p.yMode) == SweepDescription(p, "Y", p.yMode, p.ySteps).value.values[j]
    ensures forall m :: 1 <= m <= 3 && m != p.xMode && m != p.yMode ==>
      SettingOf(SquareAt(p, i, j), m) == SettingAt(p, m, 0)
  {
    if 1 <= p.xMode <= 3 {
      SettingOfSquare(p, p.xMode, i, j);
    }
    if 1 <= p.yMode <= 3 && p.yMode != p.xMode {
      SettingOfSquare(p, p.yMode, i, j);
    }
    forall m | 1 <= m <= 3 && m != p.xMode && m != p.yMode
      ensures SettingOf(SquareAt(p, i, j), m) == SettingAt(p, m, 0)
    {
      SettingOfSquare(p, m, i, j);
    }
  }

  /** When both axes name the same parameter, the row reset discards the Y
      step: the value depends on the column only, so every row repeats the
      first one, whatever the Y description lists. */
  lemma SameModeIgnoresRows(p: Pattern, i: nat, j: nat)
    requires 1 <= p.xMode <= 3 && p.yMode == p.xMode
    ensures SettingOf(SquareAt(p, i, j), p.yMode) == SettingOf(SquareAt(p, i, 0), p.yMode)
    ensures SettingOf(SquareAt(p, i, j), p.yMode) == SettingAt(p, p.yMode, i)
  {
    SettingOfSquare(p, p.yMode, i, j);
    SettingOfSquare(p, p.yMode, i, 0);
  }

  /** The grid lies left of x_start: the last column ends exactly at x_start,
      and with a pitch that is not negative every square ends there or
      before. */
  lemma LeftOfStart(p: Pattern, i: nat, j: nat)
    requires i < Count(p.xSteps)
    ensures SquareAt(p, Count(p.xSteps) - 1, j).x + p.squareSize == p.xStart
    ensures Pitch(p) >= 0.0 ==> SquareAt(p, i, j).x + p.squareSize <= p.xStart
  {
    var n := Count(p.xSteps);
    var sz, gap, pitch := p.squareSize, p.gapSize, Pitch(p);
    var bigN, before := n as real, (n - 1) as real;
    assert p.xSteps == n && before == bigN - 1.0;
    assert bigN * sz == before * sz + sz;
    assert before * pitch == before * sz + before * gap;
    assert SquareAt(p, n - 1, j).x == p.xStart - bigN * sz - before * gap + before * pitch;
    var rest := (n - 1 - i) as real;
    assert i as real * pitch == before * pitch - rest * pitch;
    if pitch >= 0.0 {
      assert rest * pitch >= 0.0;
    }
  }

  /** The grid lies in quadrant II, left of the board area in quadrant I,
      when x_start is not right of the Y axis and y_start not below the X
      axis, as with the defaults -0.150 and 0.0, and the pitch is not
      negative. */
  lemma InQuadrantTwo(p: Pattern, i: nat, j: nat)
    requires i < Count(p.xSteps) && Pitch(p) >= 0.0
    requires p.xStart <= 0.0 && p.yStart >= 0.0
    ensures SquareAt(p, i, j).x + p.squareSize <= 0.0
    ensures SquareAt(p, i, j).y >= 0.0
  {
    LeftOfStart(p, i, j);
    RowsFromStart(p, i, j);
  }

  /** Rows go up by the pitch from y_start. */
  lemma RowsFromStart(p: Pattern, i: nat, j: nat)
    ensures SquareAt(p, i, 0).y == p.yStart
    ensures Pitch(p) >= 0.0 ==> SquareAt(p, i, j).y >= p.yStart
  {
    if Pitch(p) >= 0.0 {
      assert j as real * Pitch(p) >= 0.0;
    }
  }
}
