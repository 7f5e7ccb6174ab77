/** The SVG side of the pad spiral generator (parse_svg_rectangles and the
    unit handling of convert_svg_to_spirals in svg_cutout.py): the length
    unit of the drawing, and the bounding rectangle of each path read from
    the coordinate pairs of its `M` and `L` commands. */
module SvgRectangles {
  import opened Wrappers
  import opened Geometry

  // ---------------------------------------------------------------------
  // units

  /** str.isalpha on one character, for the ASCII letters a unit is made of. */
  predicate IsAlpha(c: char)
  {
    'a' <= c <= 'z' || 'A' <= c <= 'Z'
  }

  /** any(char.isalpha() for char in s) */
  predicate HasLetter(s: string)
  {
    exists k :: 0 <= k < |s| && IsAlpha(s[k])
  }

  /** ''.join(filter(str.isalpha, s)): the letters of s, in order. It holds
      only letters, holds every letter of s, and is empty exactly when s has
      no letter. */
  function Letters(s: string): (r: string)
    ensures |r| <= |s|
    ensures forall k :: 0 <= k < |r| ==> IsAlpha(r[k])
    ensures forall k :: 0 <= k < |s| && IsAlpha(s[k]) ==> s[k] in r
    ensures r == [] <==> !HasLetter(s)
  {
    if s == [] then []
    else
      var rest := Letters(s[1..]);
      assert forall k :: 1 <= k < |s| ==> s[k] == s[1..][k - 1];
      (if IsAlpha(s[0]) then [s[0]] else []) + rest
  }

  /** Filtering one character keeps it exactly when it is a letter. */
  lemma LettersOne(c: char)
    ensures Letters([c]) == if IsAlpha(c) then [c] else []
  {
    assert [c][1..] == [];
  }

  /** Filtering works piecewise and keeps the order of the letters: the
      letters of a + b are those of a followed by those of b. */
  lemma {:induction false} LettersAppend(a: string, b: string)
    ensures Letters(a + b) == Letters(a) + Letters(b)
    decreases |a|
  {
    if a == [] {
      assert a + b == b;
    } else {
      assert (a + b)[0] == a[0];
      assert (a + b)[1..] == a[1..] + b;
      LettersAppend(a[1..], b);
    }
  }

  /** A string of letters only is its own filter, so a unit such as "mm"
      or "in" comes through whole and in order. */
  lemma {:induction false} LettersOfWord(s: string)
    requires forall k :: 0 <= k < |s| ==> IsAlpha(s[k])
    ensures Letters(s) == s
    decreases |s|
  {
    if s != [] {
      assert s == [s[0]] + s[1..];
      LettersOne(s[0]);
      LettersAppend([s[0]], s[1..]);
      LettersOfWord(s[1..]);
    }
  }

  /** The unit of the drawing: the letters of the width attribute when it
      has any, else those of the height attribute when it has any, else
      "px". An absent attribute is None. The unit is never empty and is made
      of letters only. */
  function SvgUnits(width: Option<string>, height: Option<string>): (u: string)
    ensures u != [] && forall k :: 0 <= k < |u| ==> IsAlpha(u[k])
    ensures width.Some? && HasLetter(width.value) ==> u == Letters(width.value)
    ensures !(width.Some? && HasLetter(width.value)) && height.Some? && HasLetter(height.value)
      ==> u == Letters(height.value)
    ensures !(width.Some? && HasLetter(width.value)) && !(height.Some? && HasLetter(height.value))
      ==> u == "px"
  {
    if width.Some? && HasLetter(width.value) then Letters(width.value)
    else if height.Some? && HasLetter(height.value) then Letters(height.value)
    else "px"
  }

  /** The unit the G-code is written in: the drawing's unit when it is "in"
      or "mm", otherwise "mm". */
  function OutputUnits(svgUnits: string): (u: string)
    ensures u == "in" || u == "mm"
    ensures svgUnits == "in" || svgUnits == "mm" ==> u == svgUnits
    ensures svgUnits != "in" && svgUnits != "mm" ==> u == "mm"
  {
    if svgUnits == "in" || svgUnits == "mm" then svgUnits else "mm"
  }

  // ---------------------------------------------------------------------
  // the d-token walk

  /** What splitting a token at commas and converting both parts with
      float() gives: not two parts, two parts of which one is not a number
      (float raises ValueError), or a coordinate pair. */
  datatype Coords = NotAPair | Unparseable | Pair(p: Point)

  /** One whitespace-separated token of a path's `d` attribute, with what
      its conversion to a coordinate pair gives. */
  datatype Token = Token(text: string, coords: Coords)

  /** The commands whose following token is read as a coordinate pair. */
  predicate IsMoveOrLine(t: Token)
  {
    t.text == "M" || t.text == "L"
  }

  /** The index the walk goes on from after examining token i. After an M
      or L command the next token is read: both are passed, except that a
      token that fails to convert is passed alone (the `continue` skips the
      second increment, so that token is examined again as a command). */
  function Skip(ts: seq<Token>, i: nat): (j: nat)
    requires i < |ts|
    ensures i < j <= i + 2
  {
    if IsMoveOrLine(ts[i]) && i + 1 < |ts| && ts[i + 1].coords.Unparseable? then i + 1
    else if IsMoveOrLine(ts[i]) then i + 2
    else i + 1
  }

  /** The pair examining token i collects: the one following an M or L
      command, when it converts. */
  function Taken(ts: seq<Token>, i: nat): seq<Point>
    requires i < |ts|
  {
    if IsMoveOrLine(ts[i]) && i + 1 < |ts| && ts[i + 1].coords.Pair? then [ts[i + 1].coords.p] else []
  }

  /** The pairs the walk collects from token i on, in order. */
  function Collected(ts: seq<Token>, i: nat): seq<Point>
    decreases |ts| - i
  {
    if i >= |ts| then [] else Taken(ts, i) + Collected(ts, Skip(ts, i))
  }

  /** Token k converts to p and follows an M or L command. */
  predicate PairAfterCommand(ts: seq<Token>, k: nat, p: Point)
    requires 0 < k < |ts|
  {
    IsMoveOrLine(ts[k - 1]) && ts[k].coords == Pair(p)
  }

  /** p is the converted pair of a token after i that follows an M or L
      command. */
  ghost predicate FollowsCommand(ts: seq<Token>, i: nat, p: Point)
  {
    exists k :: i < k < |ts| && PairAfterCommand(ts, k, p)
  }

  /** Every collected pair is the converted pair of a token that follows an
      M or L command. */
  lemma {:induction false} CollectedFromCommands(ts: seq<Token>, i: nat)
    ensures forall p :: p in Collected(ts, i) ==> FollowsCommand(ts, i, p)
    decreases |ts| - i
  {
    if i < |ts| {
      var j := Skip(ts, i);
      CollectedFromCommands(ts, j);
      forall p | p in Collected(ts, i)
        ensures FollowsCommand(ts, i, p)
      {
        if p in Taken(ts, i) {
          assert PairAfterCommand(ts, i + 1, p);
        } else {
          assert p in Collected(ts, j);
          var k :| j < k < |ts| && PairAfterCommand(ts, k, p);
        }
      }
    }
  }

  /** A rectangle (x_min, y_min, width, height). */
  datatype Rect = Rect(x: real, y: real, w: real, h: real)

  /** The box a rectangle spans. */
  function Span(r: Rect): Box
  {
    Box(r.x, r.x + r.w, r.y, r.y + r.h)
  }

  /** The rectangle spanning a box: its corner and its width and height. */
  function Spanning(b: Box): Rect
  {
    Rect(b.minX, b.minY, b.maxX - b.minX, b.maxY - b.minY)
  }

  /** The rectangle of a path's collected pairs: none when there are none,
      otherwise the one spanning their attained bounds, of non-negative
      width and height, holding every pair, with each side touched by one. */
  ghost function RectOf(pts: seq<Point>): (r: Option<Rect>)
    ensures r.None? <==> pts == []
    ensures r.Some? ==> r.value.w >= 0.0 && r.value.h >= 0.0 && Bounds(pts, Span(r.value))
  {
    if pts == [] then None
    else
      RunningBoxBounds(pts);
      var b :| Bounds(pts, b);
      assert b.minX <= pts[0].x <= b.maxX && b.minY <= pts[0].y <= b.maxY;
      var r := Spanning(b);
      assert Span(r) == b;
      Some(r)
  }

  /** The rectangle of the pairs is the one their bounds span. */
  lemma RectOfBounds(pts: seq<Point>, b: Box)
    requires Bounds(pts, b) && pts != []
    ensures RectOf(pts) == Some(Spanning(b))
  {
    var r := RectOf(pts).value;
    BoundsUnique(pts, pts, b, Span(r));
    assert Spanning(Span(r)) == r;
  }

  /** Python's two-argument min(a, b) on floats. */
  function Lesser(a: real, b: real): (r: real)
    ensures r <= a && r <= b && (r == a || r == b)
  {
    if b < a then b else a
  }

  /** Python's two-argument max(a, b) on floats. */
  function Greater(a: real, b: real): (r: real)
    ensures r >= a && r >= b && (r == a || r == b)
  {
    if b > a then b else a
  }

  /** Folding one more pair into the running minima and maxima keeps them
      the bounds of the pairs seen. */
  lemma BoundsAdd(pts: seq<Point>, b: Box, p: Point)
    requires Bounds(pts, b)
    ensures Bounds(pts + [p], Box(Lesser(b.minX, p.x), Greater(b.maxX, p.x), Lesser(b.minY, p.y), Greater(b.maxY, p.y)))
  {
    var s := pts + [p];
    assert s[|pts|] == p;
    var i :| 0 <= i < |pts| && pts[i].x == b.minX;
    var j :| 0 <= j < |pts| && pts[j].x == b.maxX;
    var k :| 0 <= k < |pts| && pts[k].y == b.minY;
    var l :| 0 <= l < |pts| && pts[l].y == b.maxY;
    assert s[i] == pts[i] && s[j] == pts[j] && s[k] == pts[k] && s[l] == pts[l];
  }

  /** A single pair is bounded by the degenerate box at it. */
  lemma BoundsOne(p: Point)
    ensures Bounds([p], Box(p.x, p.x, p.y, p.y))
  {
    assert [p][0] == p;
  }

  /** One step of the walk, after the pairs collected so far. */
  lemma WalkStep(ts: seq<Token>, i: nat, got: seq<Point>)
    requires i < |ts|
    ensures got + Collected(ts, i) == (got + Taken(ts, i)) + Collected(ts, Skip(ts, i))
  {
  }

  /** The running minima and maxima after folding in the pairs one by one,
      starting from the first. */
  function RunningBox(pts: seq<Point>): Box
    requires pts != []
  {
    var p := pts[|pts| - 1];
    if |pts| == 1 then Box(p.x, p.x, p.y, p.y)
    else
      var b := RunningBox(pts[..|pts| - 1]);
      Box(Lesser(b.minX, p.x), Greater(b.maxX, p.x), Lesser(b.minY, p.y), Greater(b.maxY, p.y))
  }

  /** The running minima and maxima are the bounds of the pairs folded in. */
  lemma {:induction false} RunningBoxBounds(pts: seq<Point>)
    requires pts != []
    ensures Bounds(pts, RunningBox(pts))
  {
    var p := pts[|pts| - 1];
    if |pts| == 1 {
      BoundsOne(p);
      assert pts == [p];
    } else {
      var init := pts[..|pts| - 1];
      RunningBoxBounds(init);
      BoundsAdd(init, RunningBox(init), p);
      assert pts == init + [p];
    }
  }

  /** Folding one more pair into the running box of a non-empty list. */
  lemma RunningBoxSnoc(got: seq<Point>, p: Point)
    requires got != []
    ensures var b := RunningBox(got);
      RunningBox(got + [p]) == Box(Lesser(b.minX, p.x), Greater(b.maxX, p.x), Lesser(b.minY, p.y), Greater(b.maxY, p.y))
  {
    assert (got + [p])[..|got|] == got;
  }

  /** The loop over one path's tokens (lines 125-153): the running minima
      and maxima start at the first pair collected (the original starts
      them at infinity), and the rectangle is produced only when a pair was
      collected. The result is the rectangle of the pairs Collected gives. */
  method PathRect(ts: seq<Token>) returns (r: Option<Rect>)
    ensures r == RectOf(Collected(ts, 0))
  {
    var seen := false;
    var xMin, xMax, yMin, yMax := 0.0, 0.0, 0.0, 0.0;
    ghost var got: seq<Point> := [];
    var i := 0;
    while i < |ts|
      invariant Collected(ts, 0) == got + Collected(ts, i)
      invariant seen <==> got != []
      invariant seen ==> Box(xMin, xMax, yMin, yMax) == RunningBox(got)
      decreases |ts| - i
    {
      ghost var from, before := i, got;
      WalkStep(ts, i, got);
      if IsMoveOrLine(ts[i]) {
        i := i + 1;
        if i < |ts| {
          match ts[i].coords {
            case Pair(p) =>
              assert Taken(ts, from) == [p] && Skip(ts, from) == i + 1;
              if seen {
                RunningBoxSnoc(got, p);
                xMin, xMax := Lesser(xMin, p.x), Greater(xMax, p.x);
                yMin, yMax := Lesser(yMin, p.y), Greater(yMax, p.y);
              } else {
                xMin, xMax, yMin, yMax := p.x, p.x, p.y, p.y;
              }
              got := got + [p];
              seen := true;
            case Unparseable =>
              assert i == Skip(ts, from) && Taken(ts, from) == [];
              continue;
            case NotAPair =>
              assert Taken(ts, from) == [] && Skip(ts, from) == i + 1;
          }
        } else {
          assert Taken(ts, from) == [] && Skip(ts, from) == i + 1;
        }
      } else {
        assert Taken(ts, from) == [] && Skip(ts, from) == i + 1;
      }
      i := i + 1;
      assert i == Skip(ts, from) && got == before + Taken(ts, from);
    }
    assert Collected(ts, i) == [];
    assert Collected(ts, 0) == got;
    if seen {
      var b := Box(xMin, xMax, yMin, yMax);
      RunningBoxBounds(got);
      RectOfBounds(got, b);
      r := Some(Spanning(b));
    } else {
      r := None;
    }
  }

  /** The rectangles of a list of paths, in order, leaving out the paths
      that yield none. */
  ghost function Rects(paths: seq<seq<Token>>): seq<Rect>
  {
    if paths == [] then []
    else
      var last := paths[|paths| - 1];
      Rects(paths[..|paths| - 1])
        + match RectOf(Collected(last, 0)) case Some(r) => [r] case None => []
  }

  /** r is the rectangle of one of the paths. */
  ghost predicate RectOfSomePath(paths: seq<seq<Token>>, r: Rect)
  {
    exists k :: 0 <= k < |paths| && RectOf(Collected(paths[k], 0)) == Some(r)
  }

  /** Every rectangle produced has non-negative width and height and is the
      rectangle of one of the paths; there are at most as many rectangles as
      paths. */
  lemma {:induction false} RectsFromPaths(paths: seq<seq<Token>>)
    ensures |Rects(paths)| <= |paths|
    ensures forall r :: r in Rects(paths) ==> r.w >= 0.0 && r.h >= 0.0 && RectOfSomePath(paths, r)
  {
    if paths != [] {
      var n := |paths|;
      var init := paths[..n - 1];
      var last := RectOf(Collected(paths[n - 1], 0));
      var tail := match last case Some(r) => [r] case None => [];
      assert Rects(paths) == Rects(init) + tail;
      RectsFromPaths(init);
      forall r | r in Rects(paths)
        ensures r.w >= 0.0 && r.h >= 0.0 && RectOfSomePath(paths, r)
      {
        if r in Rects(init) {
          var k :| 0 <= k < n - 1 && RectOf(Collected(init[k], 0)) == Some(r);
          assert paths[k] == init[k];
        } else {
          assert r in tail && last == Some(r);
        }
      }
    }
  }

  /** The loop over the drawing's paths in parse_svg_rectangles: one
      rectangle per path that yields one, in document order. A path without
      a `d` attribute is given as an empty token list, which yields none. */
  method ParseRectangles(paths: seq<seq<Token>>) returns (rects: seq<Rect>)
    ensures rects == Rects(paths)
  {
    rects := [];
    for k := 0 to |paths|
      invariant rects == Rects(paths[..k])
    {
      var r := PathRect(paths[k]);
      assert paths[..k + 1][..k] == paths[..k];
      if r.Some? {
        rects := rects + [r.value];
      }
    }
    assert paths[..|paths|] == paths;
  }
}
