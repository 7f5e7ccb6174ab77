# CNCTools in Dafny

A verified model of the computational core of three small G-code generators:

- **Board cutout** (`board_cutout.py`). It reads the G1 block of an isolation-routing program and keeps the run of points with the largest shoelace area as the board outline. A run is closed when it comes back to its first point, or left open when another line or the end of the block ends it after more than two points. It offsets that outline outward, then re-bases the offset ring so that it starts at a clean axis-aligned edge near the origin. From that ring it cuts four corner paths, leaving a centred tab of `tab_size` on every side. Finally it emits the cutting program: perimeter passes down to tab depth, then corner passes that alternate direction down to the final depth. It also packs the command-line arguments it echoes into comment lines of at most 80 characters, unless one argument alone is longer.
- **SVG pad clearing** (`svg_cutout.py`). It takes the units from the SVG `width`/`height` attributes and the bounding rectangle of every `<path>` from the `M`/`L` pairs of its `d` data. It orders the rectangles greedily by nearest centre, starting at the origin, and clears each with an inward rectangular spiral.
- **Test pattern** (`test_pattern.py`). It lays out a grid of `x_steps` × `y_steps` squares to the left of `x_start`. One machining parameter (cut depth, XY feed or spindle speed) is swept along each axis, and a description of each sweep is produced.

Coordinates, depths and feeds are `real`, and integers are unbounded. Programs are lists of instructions (`Toolpath.Instr`, `SvgSpiral.Move`), not text.

Modules:

| module | file | contents |
|---|---|---|
| `Wrappers` | wrappers.dfy | `Option` |
| `Geometry` | geometry.dfy | points, absolute value, squared distances, bounding boxes |
| `CommandLine` | cmdline.dfy | `build_cmdline_str` |
| `Outline` | outline.dfy | `read_gcode_geometry`, `polygon_area` and `find_board_outline` |
| `Board` | board.dfy | `xs`, `ys`, `extents`, the re-basing in `offset`, and `get_cutout` |
| `Corner` | corner.dfy | the tab geometry of `extract_corner`, `walk_edge` and the start search |
| `Toolpath` | toolpath.dfy | the depth and direction loops of `write_gcode`, and the `z_cut` guard of the main block |
| `SvgRectangles` | svg_rectangles.dfy | unit extraction, the `d`-token walk and the output-unit default |
| `SvgSort` | svg_sort.dfy | `sort_rectangles` |
| `SvgSpiral` | svg_spiral.dfy | `generate_rectangular_spiral` |
| `TestPattern` | test_pattern.dfy | the grid loop and `generate_sweep_string` |

The explicit `for` and `while` loops of the original are methods with loop invariants. Comprehensions and built-ins that iterate (`xs`, `ys`, `min`, `max`, `filter`) are recursive functions. Each method is proved equal to a recursive specification function, or to a closed form. The properties are proved about those functions.

## Model

| member | source | states |
|---|---|---|
| CommandLine.BuildCmdline | board_cutout.py:62-80 | No line is empty, and a line longer than 80 characters is one of the echoed arguments `argv[3:]`. When no argument is empty, the lines come from groups of arguments that flatten back to `argv[3:]`, so no argument is split. Only a one-argument line exceeds 80, and no line could have taken the first argument of the next. The lines joined by spaces equal `argv[3:]` joined by spaces. |
| CommandLine.JoinSpacedAppend | board_cutout.py:75 | Joining two non-empty word lists with spaces is joining each, with one space between them. |
| CommandLine.FlattenNonEmpty | board_cutout.py:69-79 | A non-empty list of non-empty groups flattens to a non-empty list. |
| CommandLine.JoinOfLines | board_cutout.py:69-79 | Lines that are each the spaced join of their group join to the spaced join of all the groups' arguments. |
| CommandLine.NoEmptyArgSnoc | board_cutout.py:69 | A list extended by one argument is free of empty arguments exactly when the list and the new argument both are. |
| CommandLine.ClosePreservesPacking | board_cutout.py:70-72 | Closing the current line when the next argument would overflow keeps the packing invariant. The groups grow by the closed group, and the line before it could not have taken that group's first argument. |
| CommandLine.StepLines | board_cutout.py:69-77 | One loop step keeps every closed line non-empty, and keeps every line over 80 characters, closed or current, equal to one argument. |
| CommandLine.StepGroups | board_cutout.py:69-77 | One loop step keeps the finished lines a packing of groups that, with the current group, flatten to the arguments consumed. |
| CommandLine.RunLines | board_cutout.py:69-77 | The line invariant holds after any number of loop steps. |
| CommandLine.RunGroups | board_cutout.py:69-77 | The group invariant holds after any number of loop steps. |
| CommandLine.CloseLines | board_cutout.py:78-79 | Appending the last current line, when it is non-empty, keeps every line non-empty and every long line an argument. |
| CommandLine.FinishLines | board_cutout.py:62-80 | The returned lines are non-empty, and every line over 80 characters is an argument. |
| CommandLine.PackingJoins | board_cutout.py:69-79 | A packing of lines into groups joins to the same text as the flattened groups. |
| CommandLine.CloseGroups | board_cutout.py:78-79 | After the last step, the final lines pack groups that flatten to exactly the arguments consumed. |
| CommandLine.FinishGroups | board_cutout.py:62-80 | For arguments that are all non-empty, the returned lines pack groups that flatten to the arguments, and they join to the same text. |
| Outline.ReadGcodeGeometry | board_cutout.py:295-309 | The block is the slice from the first to the last line mentioning G1 or G01. Nothing before or after it is such a line. There is no block exactly when no line is a motion line. |
| Outline.PolygonArea | board_cutout.py:325-333 | The accumulator loop computes half the absolute shoelace sum over the closed polygon, so the area is never negative. |
| Outline.DegenerateArea | board_cutout.py:325-333 | A polygon of fewer than three points has area zero. |
| Outline.RecordRun | board_cutout.py:352-353 | Recording a run keeps the recorded runs valid and non-overlapping, in block order. A valid run is a stretch of consecutive point lines whose pairs are its points. It has more than two points and does not come back to its first point before its last. It ends closed, at the end of the block, or before a line that is not a point line. |
| Outline.StepPoint | board_cutout.py:341-357 | A G1 line with an X/Y pair extends the current run, or closes it when it returns within 1e-5 of the run's first point on both axes and the run then has more than two points; the scan invariant is kept. |
| Outline.StepBreak | board_cutout.py:358-364 | Any other line ends the current run, which is kept only if it has more than two points; the scan invariant is kept. |
| Outline.ScanInvariant | board_cutout.py:340-364 | After any prefix of the block, the recorded runs are valid, ordered and disjoint, and the current run is a stretch of point lines. |
| Outline.RunsAreValid | board_cutout.py:340-368 | Every run found is valid (see `Outline.RecordRun`), including an open run of more than two points left at the end. The runs are disjoint and in block order. |
| Outline.RunsNeedPoints | board_cutout.py:340-368 | No run is found in a block with no G1 line carrying coordinates. |
| Outline.PointProgress | board_cutout.py:341-357 | A point line either closes a run, so one is recorded, or adds one point to the open run. |
| Outline.LineKeepsProgress | board_cutout.py:341-364 | Once a run is recorded or the open run has three points, a run is recorded after any further line: a point line keeps or closes the run, and any other line records it. |
| Outline.ProgressKept | board_cutout.py:340-368 | That progress, once made, lasts to the end of the block, where an open run of more than two points is recorded. |
| Outline.ThreeInARow | board_cutout.py:340-368 | Three consecutive G1 lines with coordinates always yield a run. |
| Outline.RunsExactly | board_cutout.py:340-368 | The scan finds a run exactly when the block holds three consecutive G1 lines with coordinates. |
| Outline.FindBoardOutline | board_cutout.py:311-375 | The result is empty exactly when no run was recorded, that is, exactly when the block has no three consecutive G1 lines with coordinates. Otherwise it is a recorded run of maximal area, and the first such run, as `max` returns it. |
| Outline.FirstLargest | board_cutout.py:371-373 | `max` with the area key returns a position whose area no run exceeds, and every run before it has a strictly smaller area. |
| Board.Xs | board_cutout.py:96-98 | The x coordinates of the outline, one per vertex, in order. |
| Board.Ys | board_cutout.py:100-102 | The y coordinates of the outline, one per vertex, in order. |
| Board.Min | board_cutout.py:106 | `min` of a non-empty list is an element of it and no larger than any element. |
| Board.Max | board_cutout.py:106 | `max` of a non-empty list is an element of it and no smaller than any element. |
| Board.Extents | board_cutout.py:104-106 | The extents of a non-empty outline are attained bounds on both axes; an empty outline has none. |
| Geometry.BoundsUnique | board_cutout.py:104-106 | Attained bounds depend only on the set of vertices, so two outlines with the same vertices have the same extents. |
| Board.ClosestToOrigin | board_cutout.py:117 | The index whose vertex has the least squared distance from the origin, and the first such. |
| Board.Ahead | board_cutout.py:122 | Stepping forward modulo the ring length stays inside the ring. |
| Board.Rotate | board_cutout.py:128 | `ring[idx:] + ring[:idx]` keeps the length of the ring. |
| Board.RotateAt | board_cutout.py:128 | Position k of the rotation holds the vertex k steps ahead of idx, cyclically. |
| Board.Rebase | board_cutout.py:116-128 | An empty ring has no re-basing. Otherwise the result is the ring rotated to start at the first vertex, from the one closest to the origin onward, whose edge to its successor is aligned on exactly one axis. If there is none, the search makes one full turn, so the result starts back at the closest vertex. |
| Board.RotationKeepsOutline | board_cutout.py:128 | A rotation has the same vertices with the same multiplicities, and the same extents. |
| Board.Offset | board_cutout.py:108-129 | The offset outline is absent exactly when the buffered ring is empty. Otherwise it is that ring re-based as `Board.Rebase` states: rotated to start at the first vertex, from the first one closest to the origin onward, whose edge to its successor is aligned on exactly one axis, or at the closest vertex after a full turn. It is a rotation of the buffered ring. |
| Board.GetCutout | board_cutout.py:136-137 | The cutout is the outline buffered by half the tool diameter plus the margin, then re-based as `Board.Offset` states. It is absent exactly when that buffered ring is empty. |
| Corner.TabGaps | board_cutout.py:153-168 | On every side of the box, the end of one corner path and the start of the next lie on that side, exactly `tab_size` apart. |
| Corner.TabCentred | board_cutout.py:153-168 | Each tab is centred on its side: the corner paths stop equally far from both ends. |
| Corner.WalkStopExists | board_cutout.py:173-178 | For every corner, some outline vertex fails the walk condition (it lies on the box side the walk runs towards), so the walk stops. |
| Corner.StartSideExists | board_cutout.py:148-150 | For every corner, some vertex lies within tolerance of the coordinate the start search looks for, because the extents are attained. |
| Corner.FindOnSide | board_cutout.py:182 | The `next(...)` search returns the first index whose searched coordinate is within tolerance of the target. |
| Corner.WalkEdge | board_cutout.py:173-178 | The walk from `first` visits, in cyclic order, fewer than n vertices that all meet the walk condition, and stops at one that does not. |
| Corner.StartOfWalk | board_cutout.py:180-212 | The start search finds the first vertex on the starting side. The walk begins there, or one vertex later when that vertex lies on the wrong side of the start point. |
| Corner.ExtractCorner | board_cutout.py:139-215 | The corner path begins at `start_xy[corner]` and ends at `end_xy[corner]`. Every point between them is an outline vertex visited in cyclic order from the start found by the search, and each meets the walk condition. The path has at most n + 1 points, and the extraction never fails. |
| Toolpath.StepsLeftFalls | board_cutout.py:256-264 | With a negative step, the count of steps left before the bound falls with every pass, so the depth loops end. |
| Toolpath.DepthsAt | board_cutout.py:255-264 | The k-th pass depth is `z + k * step`, and every pass depth is above the bound. |
| Toolpath.DepthsEnd | board_cutout.py:255-264 | After the last pass, the next depth is at or below the bound. |
| Toolpath.DepthsStep | board_cutout.py:256-264 | One pass of the loop moves one depth from the remaining list to the finished list. |
| Toolpath.CutsTrace | board_cutout.py:261-262 | Writing one G01 per point plunges nowhere and visits exactly those points. |
| Toolpath.Reverse | board_cutout.py:283 | Reversal keeps the length. |
| Toolpath.ReverseAt | board_cutout.py:283 | Position k of the reversal holds the element k from the end. |
| Toolpath.ReverseTail | board_cutout.py:283 | `corner_poly[-2::-1]` is the reversal with its first point dropped. |
| Toolpath.HeadTrace | board_cutout.py:259-260 | The head of a pass plunges once to its depth and moves nowhere in XY. |
| Toolpath.PerimeterPassTrace | board_cutout.py:257-263 | A perimeter pass plunges once, to its depth, and cuts round the whole outline back to `outline[0]`. |
| Toolpath.PerimeterBlockTrace | board_cutout.py:255-264 | The perimeter passes plunge to exactly the depth sequence, and each goes once round the outline. |
| Toolpath.CornerBlockSnoc | board_cutout.py:277-287 | Another corner pass appends a plunge and the cuts along the path in the current direction. The direction is forward after an even number of passes and reversed after an odd number. |
| Toolpath.ShuttleSnoc | board_cutout.py:283-286 | The next pass adds the path oriented by the parity of the passes done, without its first point. |
| Toolpath.CornerPassTrace | board_cutout.py:278-285 | A corner pass plunges once and visits the oriented path without its first point. |
| Toolpath.CornerBlockTrace | board_cutout.py:275-287 | The corner passes plunge to exactly the depth sequence and shuttle along the path, alternating direction. |
| Toolpath.PassesMeet | board_cutout.py:283-286 | Every pass ends where the next pass, in the other direction, starts. |
| Toolpath.ShuttleEnds | board_cutout.py:275-287 | After any number of passes, the tool stands at the start of the path for the next direction. |
| Toolpath.CutPerimeter | board_cutout.py:254-264 | The perimeter loop emits one pass at each depth 0, z_cut, 2·z_cut, … that lies above `tab_depth`. |
| Toolpath.CutCorner | board_cutout.py:275-287 | The corner loop emits one pass at each depth `tab_depth`, `tab_depth + z_cut`, … that lies above `depth`, starting forward and alternating direction. |
| Toolpath.CornerSectionsSnoc | board_cutout.py:267-287 | Cutting one more corner appends its section: pass height, move to the corner start, tab depth, then its passes. |
| Toolpath.CornerPathsSnoc | board_cutout.py:267-271 | Adding the path `extract_corner` yields for the next corner keeps every path the one `extract_corner` yields for its corner. |
| Toolpath.CutCorners | board_cutout.py:266-287 | There are four corner sections, one per corner in order. Each cuts the path `Corner.ExtractCorner` states for its corner: from its start point, through outline vertices walked in cyclic order from the vertex the start search finds, to its end point. |
| Toolpath.WriteGcode | board_cutout.py:217-293 | The program is the header, safe height, a rapid move to the outline start, the spindle on, pass height, the perimeter passes, the four corner sections, and then a return to safe height and the origin with the spindle off. The four corner paths are those `Corner.ExtractCorner` states. |
| Toolpath.ZAfter | board_cutout.py:264 | The depth after k passes is `z + k * z_cut`. |
| Toolpath.ZeroCutNeverEnds | board_cutout.py:379-381 | The guard as written accepts `z_cut = 0`, and the depth then never reaches `tab_depth = -0.036`. |
| Toolpath.AcceptedCutEnds | board_cutout.py:379-381 | With the guard the message states (`z_cut < 0`), every pass depth is above the bound, and the depth after the passes is at or below it. |
| SvgRectangles.Letters | svg_cutout.py:112 | `filter(str.isalpha, s)`: only letters, every letter of s kept, and empty exactly when s has no letter. |
| SvgRectangles.LettersOne | svg_cutout.py:112 | One character is kept exactly when it is a letter. |
| SvgRectangles.LettersAppend | svg_cutout.py:112 | The letters of a + b are those of a followed by those of b, so the filter keeps the order of the letters. |
| SvgRectangles.LettersOfWord | svg_cutout.py:112 | A string of letters only, such as "mm" or "in", is its own filter. |
| SvgRectangles.SvgUnits | svg_cutout.py:111-116 | The units are the letters of `width` if it has any, else those of `height` if it has any, else "px". They are never empty. |
| SvgRectangles.OutputUnits | svg_cutout.py:371-374 | The output units are "in" or "mm": the SVG units when they are one of these, otherwise "mm". |
| SvgRectangles.Skip | svg_cutout.py:129-145 | Every step of the token walk advances the index by one or two, even past an unparseable pair, so the walk never stalls. |
| SvgRectangles.CollectedFromCommands | svg_cutout.py:129-145 | Every point gathered is a parsed pair that directly follows an `M` or `L` token. |
| SvgRectangles.Lesser | svg_cutout.py:138-140 | `min` of two numbers is one of them and no larger than either. |
| SvgRectangles.Greater | svg_cutout.py:139-141 | `max` of two numbers is one of them and no smaller than either. |
| SvgRectangles.BoundsOne | svg_cutout.py:138-141 | The first pair sets all four running bounds to itself. |
| SvgRectangles.BoundsAdd | svg_cutout.py:138-141 | Folding one more pair into the running min/max gives attained bounds of the extended list. |
| SvgRectangles.WalkStep | svg_cutout.py:129-145 | One step of the walk moves the points it takes from the remaining walk to the gathered list. |
| SvgRectangles.RunningBoxSnoc | svg_cutout.py:138-141 | Folding one more pair into the running minima and maxima of a non-empty list takes the lesser minimum and the greater maximum on each axis. |
| SvgRectangles.RunningBoxBounds | svg_cutout.py:138-141 | The running min/max over all gathered pairs are attained bounds of them. |
| SvgRectangles.RectOf | svg_cutout.py:147-153 | No pairs give no rectangle. Otherwise it is the rectangle spanned by the attained bounds of the pairs. It has width and height at least 0, and every pair lies inside it, with its minima and maxima attained. |
| SvgRectangles.RectOfBounds | svg_cutout.py:147-151 | Any attained bounds of the pairs give the rectangle `(x_min, y_min, x_max - x_min, y_max - y_min)`. |
| SvgRectangles.PathRect | svg_cutout.py:125-153 | The walk over one path's tokens yields the bounding rectangle of the pairs following `M`/`L`, or nothing when there are none. |
| SvgRectangles.RectsFromPaths | svg_cutout.py:119-155 | There is at most one rectangle per path. Each has non-negative width and height and bounds the pairs of some path. |
| SvgRectangles.ParseRectangles | svg_cutout.py:119-155 | The loop over paths appends the rectangle of every path that has one, in document order. |
| SvgSort.Closest | svg_cutout.py:183-186 | `min` over a non-empty list returns a position inside it. |
| SvgSort.ClosestIsFirstLeast | svg_cutout.py:183-186 | `min` returns the first element of least key: nothing has a smaller key, and everything before it has a larger one. |
| SvgSort.RemoveFirst | svg_cutout.py:188 | `list.remove(x)` drops exactly one copy of x when it is present, and otherwise changes nothing. |
| SvgSort.RemoveFirstAt | svg_cutout.py:188 | When no earlier element equals it, removing an element by value removes exactly its position. |
| SvgSort.RemoveClosest | svg_cutout.py:183-188 | `remove` takes out exactly the position `min` chose. |
| SvgSort.GreedyOrderPermutation | svg_cutout.py:172-194 | The greedy order is a permutation of the input. |
| SvgSort.ClosestBeatsRest | svg_cutout.py:183-188 | The chosen rectangle is no farther than any rectangle left after it is removed. |
| SvgSort.FirstIsNearest | svg_cutout.py:179-186 | The first choice is nearest to the origin among all the rectangles. |
| SvgSort.GreedyOrderNearest | svg_cutout.py:179-192 | Every choice is nearest to the previous centre (the origin for the first) among those not yet chosen. |
| SvgSort.GreedyOrderStep | svg_cutout.py:181-192 | One loop iteration moves the chosen element from the remaining walk to the output, and the remaining list shrinks. |
| SvgSort.WalkNearest | svg_cutout.py:175-194 | The while loop produces the greedy nearest-neighbour order. |
| SvgSort.SortRectangles | svg_cutout.py:157-194 | Empty input gives empty output. The result is a permutation of the input in which each rectangle is nearest, by centre distance, to the previous centre among those left, starting from the origin. |
| SvgSpiral.AppendAligned | svg_cutout.py:233-265 | A move that keeps the x or the y of the previous one keeps every move from the sixth on parallel to an axis. |
| SvgSpiral.StepsDrop | svg_cutout.py:216-265 | A gap that shrinks by at least a step loses at least one whole step, which makes the loop end. |
| SvgSpiral.RectangularSpiral | svg_cutout.py:196-267 | With a positive step over, the spiral ends. It starts with a rapid move to the inset bottom-left corner, then cuts to the inset right-bottom, right-top and left-top corners and back to left-bottom. The sixth move is the diagonal cut one step over inwards on both axes. Every move after it is a cut parallel to an axis, and there are at least eight moves. |
| TestPattern.Count | test_pattern.py:197 | `len(range(steps))`: steps when positive, otherwise 0. |
| TestPattern.RowAt | test_pattern.py:210-214 | A row of i squares holds the square of column k at position k. |
| TestPattern.RowLength | test_pattern.py:210-212 | A row of i columns has i squares. |
| TestPattern.RowsLength | test_pattern.py:197-212 | j rows hold j · x_steps squares. |
| TestPattern.GridLength | test_pattern.py:188-233 | The grid has exactly `x_steps · y_steps` squares (none when either is not positive). |
| TestPattern.GridAt | test_pattern.py:188-233 | Square (i, j) sits at position `j · x_steps + i`: row-major order. |
| TestPattern.RowsPrefix | test_pattern.py:197 | The squares of the first j rows are a prefix of those of later rows. |
| TestPattern.RowsAt | test_pattern.py:197-212 | Among the first rows, square (i, j) sits after the j complete rows before it. |
| TestPattern.ColumnStep | test_pattern.py:214-222 | Moving one column right adds `square_size + gap_size` to x, keeps y, and advances only the parameter swept along X. |
| TestPattern.RowStart | test_pattern.py:199-207 | Every row starts at x = `x_start - x_steps·s - (x_steps-1)·g`, and the X-swept parameter is back at its start. |
| TestPattern.RowStep | test_pattern.py:225-233 | From any square of row j to the first of row j+1, y grows by `s + g`. A parameter not swept along X advances by its step exactly when Y sweeps it. |
| TestPattern.GridSquares | test_pattern.py:188-233 | The nested loops append square (i, j) with `x = x_start - x_steps·s - (x_steps-1)·g + i·(s+g)` and `y = y_start + j·(s+g)`, plus the swept values, in row-major order. |
| TestPattern.SweepDescription | test_pattern.py:151-161 | Mode 0 is "no sweep" on that axis. Modes 1 to 3 name z_cut, xy_speed or spindle and list exactly `steps` values, `start + k·step`. Any other mode is a failed lookup. |
| TestPattern.SettingOfSquare | test_pattern.py:190-233 | The value of a parameter at square (i, j) is its start plus the column, row or zero steps by which that parameter is swept. |
| TestPattern.SweepMatchesGrid | test_pattern.py:190-233 | The X-swept value of square (i, j) is the i-th value the X description lists. When the axes sweep different parameters, the Y-swept value is the j-th value of the Y description. A parameter swept by neither axis stays at its start. |
| TestPattern.SameModeIgnoresRows | test_pattern.py:201-233 | When both axes sweep the same parameter, the per-row reset discards the Y increment: the value depends on the column only. |
| TestPattern.LeftOfStart | test_pattern.py:10-12 | The last column ends exactly at `x_start`. With a non-negative pitch, every square ends at or left of it. |
| TestPattern.InQuadrantTwo | test_pattern.py:10-12 | With a non-negative pitch, `x_start <= 0` and `y_start >= 0` (the defaults are -0.150 and 0.0), every square lies in quadrant II: it ends at or left of x = 0 and lies at or above y = 0. |
| TestPattern.RowsFromStart | test_pattern.py:195-225 | The first row is at `y_start`. With a non-negative pitch, no row is below it. |

## Left out

- File and console I/O: reading the input program, writing the output files (`write_gcode`, `write_gcode_spirals`, `write_squares`) and every `print`. Programs are instruction lists, and the output text, number formats and comment columns are not modelled.
- argparse, `sys.argv`, `exit` and the `Config`/`Gcode` globals. Their values are parameters (`Toolpath.Options`, `TestPattern.Pattern`, the spiral's tool diameter and overlap).
- `shapely`'s `Polygon.buffer`. `Board.Offset` and `Board.GetCutout` take the buffering as a function parameter, and only the re-basing of its ring is verified.
- The X/Y regular expression and `float()` in `find_board_outline`. A line is its text plus the optional pair they extract (`Outline.Line`).
- lxml parsing and xpath in `parse_svg_rectangles`, `str.split` of the `d` data, and `float()`. A path is its list of tokens, each with what `split(',')` and `float()` make of it (`SvgRectangles.Token`). A path whose `d` is absent or empty is an empty token list.
- The infinite starting bounds (`float('inf')`) of the `d` walk. The first pair sets the bounds instead, which gives the same rectangle, and "no pair found" is the absent result.
- IEEE floating point: rounding of the accumulated depths and positions, infinities and NaN. Numbers are exact reals.
- The `** 0.5` in the sort key. Keys compare squared distances, which order the rectangles in the same way.
- `str.isalpha` is taken to be ASCII letters only.
- The comments of `write_gcode` other than the argument echo: the board-extents lines, the `; Args:` heading (board_cutout.py:236), the `; Z = … cut` line before each pass (258, 279), the `; Corner N cut` line (269), and the inline comments `write_gcode_line` appends to a command (220-224). Also the overall-dimension print of `convert_svg_to_spirals`. The argument-echo comment lines are the notes given to `Toolpath.WriteGcode`.
- The `tol` parameter of `extract_corner`. It is fixed at the module's `Tolerance`, the default every caller uses.
- The feed rate on the spiral moves: a `SvgSpiral.Move` carries only its target.
- `write_gcode_spirals`, the driver around the spiral, is not modelled. It writes the units (G20 or G21), absolute positioning (G90), the idle height and the spindle on, then the pass height. For each rectangle it writes the spiral's first move, a plunge to `cut_z`, the remaining moves and a lift to `pass_z`. It ends with the spindle off, the idle height and a move to the origin. Only the spiral itself is modelled.
- CommandLine.BuildCmdline: joining and flattening are stated only when no echoed argument is empty. An empty argument at the start of a line is dropped by the original, so the join property fails for it.
- SvgSpiral.RectangularSpiral: requires a positive step over, `tool_dia · (1 - overlap) > 0`. With a non-positive step the original can loop forever: a step of 0 on a rectangle at least as wide and as tall as the tool never meets the break tests at svg_cutout.py:250 and 259. On a smaller rectangle the gap is already negative and the original returns, so the `requires` also excludes those inputs, on which it terminates. After the first six moves, it states that moves are axis-parallel, not their exact coordinates.
- Toolpath.CutPerimeter, Toolpath.CutCorner, Toolpath.CutCorners and Toolpath.WriteGcode: require `z_cut < 0`, the guard the program intends (see Findings). With `z_cut = 0` and `tab_depth < 0` (the default is -0.036) the original never terminates. The `requires` also excludes the inputs with `z_cut = 0` and `tab_depth >= 0`, on which the perimeter loop does not run, and with `depth >= tab_depth` as well the corner loops do not run either, so the original terminates.

## Findings

| source | as written | input that shows it | evidently intended | confidence | as-written member | corrected member |
|---|---|---|---|---|---|---|
| board_cutout.py:379 | `if args.z_cut > 0` rejects only positive steps, so `z_cut = 0` passes the guard | `--z_cut 0` with the default `--tab_depth -0.036`: z stays 0 > -0.036, and the perimeter loop at line 256 never ends | reject `z_cut >= 0`, as the message "z_cut must be < 0" says | not executed | Toolpath.ZeroCutNeverEnds | Toolpath.AcceptedCutEnds |
