/** One corner of the cutout path (BoardGeometry.extract_corner and its
    walk_edge in board_cutout.py): from the tab gap on one side, along the
    outline round the corner, to the tab gap on the next side. */
module Corner {
  import opened Geometry
  import opened Board

  /** 0 = bottom-left, 1 = top-left, 2 = top-right, 3 = bottom-right. */
  type CornerId = c: nat | c < 4

  /** Half of what is left of the width once the tab is taken out. */
  function TabX(b: Box, tabSize: real): real
  {
    (b.maxX - b.minX - tabSize) / 2.0
  }

  /** Half of what is left of the height once the tab is taken out. */
  function TabY(b: Box, tabSize: real): real
  {
    (b.maxY - b.minY - tabSize) / 2.0
  }

  /** Where the corner's path starts: at the tab gap of the side it enters. */
  function StartXY(b: Box, tabSize: real, c: CornerId): Point
  {
    match c
    case 0 => Point(b.minX + TabX(b, tabSize), b.minY)
    case 1 => Point(b.minX, b.maxY - TabY(b, tabSize))
    case 2 => Point(b.maxX - TabX(b, tabSize), b.maxY)
    case 3 => Point(b.maxX, b.minY + TabY(b, tabSize))
  }

  /** Where the corner's path ends: at the tab gap of the side it leaves. */
  function EndXY(b: Box, tabSize: real, c: CornerId): Point
  {
    match c
    case 0 => Point(b.minX, b.minY + TabY(b, tabSize))
    case 1 => Point(b.minX + TabX(b, tabSize), b.maxY)
    case 2 => Point(b.maxX, b.maxY - TabY(b, tabSize))
    case 3 => Point(b.maxX - TabX(b, tabSize), b.minY)
  }

  /** On every side of the box, the end of one corner's path and the start of
      the next one lie on that side, exactly tabSize apart: the tab is left
      standing in the middle of each side. */
  lemma TabGaps(b: Box, tabSize: real)
    ensures EndXY(b, tabSize, 3).y == StartXY(b, tabSize, 0).y == b.minY
    ensures EndXY(b, tabSize, 3).x - StartXY(b, tabSize, 0).x == tabSize
    ensures EndXY(b, tabSize, 0).x == StartXY(b, tabSize, 1).x == b.minX
    ensures StartXY(b, tabSize, 1).y - EndXY(b, tabSize, 0).y == tabSize
    ensures EndXY(b, tabSize, 1).y == StartXY(b, tabSize, 2).y == b.maxY
    ensures StartXY(b, tabSize, 2).x - EndXY(b, tabSize, 1).x == tabSize
    ensures EndXY(b, tabSize, 2).x == StartXY(b, tabSize, 3).x == b.maxX
    ensures EndXY(b, tabSize, 2).y - StartXY(b, tabSize, 3).y == tabSize
  {
  }

  /** The tab is centred: the two cut stretches either side of it on a side
      have the same length. */
  lemma TabCentred(b: Box, tabSize: real)
    ensures StartXY(b, tabSize, 0).x - b.minX == b.maxX - EndXY(b, tabSize, 3).x
    ensures b.maxY - StartXY(b, tabSize, 1).y == EndXY(b, tabSize, 0).y - b.minY
  {
  }

  /** The coordinate searched for the first vertex on the starting side: y
      for the corners that start on a horizontal side, x for the others. */
  function SearchCoord(p: Point, c: CornerId): real
  {
    if c == 0 || c == 2 then p.y else p.x
  }

  /** Whether the vertex found on the starting side still lies before the
      start point (seen along the cut) and the walk begins at the next one. */
  predicate SkipFound(p: Point, start: Point, c: CornerId)
  {
    match c
    case 0 => p.x > start.x
    case 1 => p.y < start.y
    case 2 => p.x < start.x
    case 3 => p.y > start.y
  }

  /** The condition under which walk_edge keeps a vertex and goes on: the
      vertex is not yet on the side the corner leaves by. */
  predicate Walks(b: Box, c: CornerId, p: Point)
  {
    match c
    case 0 => Abs(p.x - b.minX) > Tolerance
    case 1 => Abs(p.y - b.maxY) > Tolerance
    case 2 => Abs(p.x - b.maxX) > Tolerance
    case 3 => Abs(p.y - b.minY) > Tolerance
  }

  /** The bound the walk stops at is attained by a vertex of the outline. */
  lemma WalkStopExists(outline: seq<Point>, b: Box, c: CornerId) returns (stop: nat)
    requires Bounds(outline, b)
    ensures stop < |outline| && !Walks(b, c, outline[stop])
  {
    if c == 0 {
      stop :| 0 <= stop < |outline| && outline[stop].x == b.minX;
    } else if c == 1 {
      stop :| 0 <= stop < |outline| && outline[stop].y == b.maxY;
    } else if c == 2 {
      stop :| 0 <= stop < |outline| && outline[stop].x == b.maxX;
    } else {
      stop :| 0 <= stop < |outline| && outline[stop].y == b.minY;
    }
  }

  /** The search at lines 182/199: the first vertex whose searched
      coordinate lies within Tolerance of the start side's. */
  method FindOnSide(outline: seq<Point>, c: CornerId, target: real) returns (found: nat)
    requires exists k :: 0 <= k < |outline| && Abs(SearchCoord(outline[k], c) - target) <= Tolerance
    ensures found < |outline|
    ensures Abs(SearchCoord(outline[found], c) - target) <= Tolerance
    ensures forall k :: 0 <= k < found ==> Abs(SearchCoord(outline[k], c) - target) > Tolerance
  {
    ghost var onSide :| 0 <= onSide < |outline| && Abs(SearchCoord(outline[onSide], c) - target) <= Tolerance;
    found := 0;
    while Abs(SearchCoord(outline[found], c) - target) > Tolerance
      invariant found <= onSide
      invariant forall k :: 0 <= k < found ==> Abs(SearchCoord(outline[k], c) - target) > Tolerance
      decreases onSide - found
    {
      found := found + 1;
    }
  }

  /** `path` is what walk_edge visits from `first`: the vertices in cyclic
      order from `first`, each satisfying the walk condition, fewer than the
      whole ring, and the vertex after them does not satisfy it. */
  ghost predicate WalkedFrom(outline: seq<Point>, b: Box, c: CornerId, first: nat, path: seq<Point>)
    requires first < |outline|
  {
    && |path| < |outline|
    && (forall t :: 0 <= t < |path| ==>
          path[t] == outline[Ahead(first, t, |outline|)] && Walks(b, c, outline[Ahead(first, t, |outline|)]))
    && !Walks(b, c, outline[Ahead(first, |path|, |outline|)])
  }

  /** walk_edge: the vertices from `first` on, in cyclic order, while they
      satisfy the walk condition. It stops within one turn of the ring because
      the stopping bound is attained by a vertex. */
  method WalkEdge(outline: seq<Point>, b: Box, c: CornerId, first: nat) returns (visited: seq<Point>)
    requires Bounds(outline, b) && first < |outline|
    ensures WalkedFrom(outline, b, c, first, visited)
  {
    var n := |outline|;
    ghost var stop := WalkStopExists(outline, b, c);
    ghost var dist: nat := if stop >= first then stop - first else stop + n - first;
    assert Ahead(first, dist, n) == stop;
    visited := [];
    var idx := first;
    while Walks(b, c, outline[idx])
      invariant |visited| <= dist
      invariant idx == Ahead(first, |visited|, n)
      invariant forall t :: 0 <= t < |visited| ==>
        visited[t] == outline[Ahead(first, t, n)] && Walks(b, c, outline[Ahead(first, t, n)])
      decreases dist - |visited|
    {
      visited := visited + [outline[idx]];
      NextIndex(idx, n);
      idx := (idx + 1) % n;
    }
  }

  /** `found` is the first vertex within Tolerance of the side corner c
      starts on, and `first` the vertex the walk starts from: `found`, or
      the vertex after it when `found` lies before the start point. */
  ghost predicate SearchedStart(outline: seq<Point>, b: Box, c: CornerId, tabSize: real, found: nat, first: nat)
  {
    var target, n := SearchCoord(StartXY(b, tabSize, c), c), |outline|;
    && found < n
    && Abs(SearchCoord(outline[found], c) - target) <= Tolerance
    && (forall k :: 0 <= k < found ==> Abs(SearchCoord(outline[k], c) - target) > Tolerance)
    && first == (if SkipFound(outline[found], StartXY(b, tabSize, c), c) then (found + 1) % n else found)
    && first < n
  }

  /** The vertex walk_edge starts from (lines 180-190 for the bottom-left
      corner, and alike for the others): the search finds the first vertex
      within Tolerance of the start side; the walk starts there, or at the
      next vertex when that one lies before the start point. */
  method StartOfWalk(outline: seq<Point>, b: Box, c: CornerId, tabSize: real)
    returns (found: nat, first: nat)
    requires Bounds(outline, b)
    ensures SearchedStart(outline, b, c, tabSize, found, first)
  {
    var n := |outline|;
    var start := StartXY(b, tabSize, c);
    ghost var onSide := StartSideExists(outline, b, tabSize, c);
    found := FindOnSide(outline, c, SearchCoord(start, c));
    first := found;
    if SkipFound(outline[found], start, c) {
      NextIndex(found, n);
      first := (found + 1) % n;
    }
  }

  /** points is a path extract_corner can return for corner c: from the
      start point to the end point of that corner, through the vertices the
      walk visits from where the start search says it begins. */
  ghost predicate CornerPathOf(outline: seq<Point>, c: CornerId, tabSize: real, points: seq<Point>)
    requires outline != []
  {
    var b := Extents(outline).value;
    && 2 <= |points| <= |outline| + 1
    && points[0] == StartXY(b, tabSize, c)
    && points[|points| - 1] == EndXY(b, tabSize, c)
    && exists found: nat, first: nat ::
         && SearchedStart(outline, b, c, tabSize, found, first)
         && WalkedFrom(outline, b, c, first, points[1..|points| - 1])
  }

  /** extract_corner. The result starts at StartXY and ends at EndXY; in
      between are the outline vertices walk_edge visits from `first`, where
      `first` is where StartOfWalk says the walk starts. */
  method ExtractCorner(outline: seq<Point>, c: CornerId, tabSize: real)
    returns (points: seq<Point>, ghost found: nat, ghost first: nat)
    requires outline != []
    ensures var b := Extents(outline).value;
      && 2 <= |points| <= |outline| + 1
      && points[0] == StartXY(b, tabSize, c)
      && points[|points| - 1] == EndXY(b, tabSize, c)
      && forall k :: 0 < k < |points| - 1 ==> points[k] in outline && Walks(b, c, points[k])
    ensures var b := Extents(outline).value;
      && SearchedStart(outline, b, c, tabSize, found, first)
      && WalkedFrom(outline, b, c, first, points[1..|points| - 1])
    ensures CornerPathOf(outline, c, tabSize, points)
  {
    var b := Extents(outline).value;
    var onSide, start := StartOfWalk(outline, b, c, tabSize);
    found, first := onSide, start;
    var visited := WalkEdge(outline, b, c, start);
    points := [StartXY(b, tabSize, c)] + visited + [EndXY(b, tabSize, c)];
    assert points[1..|points| - 1] == visited;
  }

  /** The start side of a corner is attained by a vertex, so the search
      always finds one. */
  lemma StartSideExists(outline: seq<Point>, b: Box, tabSize: real, c: CornerId) returns (k: nat)
    requires Bounds(outline, b)
    ensures k < |outline|
    ensures Abs(SearchCoord(outline[k], c) - SearchCoord(StartXY(b, tabSize, c), c)) <= Tolerance
  {
    if c == 0 {
      k :| 0 <= k < |outline| && outline[k].y == b.minY;
    } else if c == 1 {
      k :| 0 <= k < |outline| && outline[k].x == b.minX;
    } else if c == 2 {
      k :| 0 <= k < |outline| && outline[k].y == b.maxY;
    } else {
      k :| 0 <= k < |outline| && outline[k].x == b.maxX;
    }
  }
}
