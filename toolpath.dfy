/** The cutting program of the board cutout generator
    (BoardGeometry.write_gcode and the checks in the main block of
    board_cutout.py), as a list of machine instructions rather than text. */
module Toolpath {
  import opened Wrappers
  import opened Geometry
  import opened Board
  import opened Corner

  /** One instruction of the generated program. Comments other than the
      argument echo, and all number formatting, are not modelled. */
  datatype Instr =
    | Note(text: string)            // "; " + text
    | UnitsInches                   // G20
    | AbsoluteCoords                // G90
    | FeedPerMinute                 // G94
    | RapidZ(z: real)               // G00 Z
    | RapidXY(to: Point)            // G00 X Y
    | SpindleOn(rpm: int)           // M03 S
    | Plunge(depth: real, zFeed: real) // G01 Z F
    | SetFeed(xyFeed: real)         // F
    | Cut(target: Point)            // G01 X Y
    | SpindleOff                    // M05

  /** The command-line options write_gcode reads. */
  datatype Options = Options(
    safeZ: real, passZ: real, tabDepth: real, tabSize: real, spindle: int,
    xySpeed: real, zSpeed: real, zCut: real, depth: real)

  // ---------------------------------------------------------------------
  // depth sequences

  /** How many more steps of size -step lie between z and the bound: a
      measure that falls by one with every iteration of the loop. */
  function StepsLeft(z: real, bound: real, step: real): nat
    requires step < 0.0
  {
    if z > bound then ((z - bound) / -step).Floor as nat + 1 else 0
  }

  lemma StepsLeftFalls(z: real, bound: real, step: real)
    requires step < 0.0 && z > bound
    ensures StepsLeft(z + step, bound, step) < StepsLeft(z, bound, step)
  {
    var d := -step;
    var q := (z - bound) / d;
    var r := (z + step - bound) / d;
    assert q * d == z - bound;
    assert r * d == z + step - bound;
    var e := r - (q - 1.0);
    assert e * d == 0.0;
    assert !(e > 0.0) && !(e < 0.0);
    assert r == q - 1.0;
    assert (q - 1.0).Floor == q.Floor - 1;
  }

  /** The depths a `while z > bound: ...; z = z + step` loop cuts at, from z. */
  function Depths(z: real, bound: real, step: real): seq<real>
    requires step < 0.0
    decreases StepsLeft(z, bound, step)
  {
    if z > bound then
      StepsLeftFalls(z, bound, step);
      [z] + Depths(z + step, bound, step)
    else []
  }

  /** The i-th depth is z + i * step, and every depth is above the bound. */
  lemma {:induction false} DepthsAt(z: real, bound: real, step: real)
    requires step < 0.0
    ensures forall i :: 0 <= i < |Depths(z, bound, step)| ==>
      Depths(z, bound, step)[i] == z + (i as real) * step && Depths(z, bound, step)[i] > bound
    decreases StepsLeft(z, bound, step)
  {
    if z > bound {
      StepsLeftFalls(z, bound, step);
      var ds, rest := Depths(z, bound, step), Depths(z + step, bound, step);
      DepthsAt(z + step, bound, step);
      assert ds == [z] + rest;
      forall i | 0 <= i < |ds|
        ensures ds[i] == z + (i as real) * step && ds[i] > bound
      {
        if i > 0 {
          assert ds[i] == rest[i - 1];
          assert (i as real) * step == ((i - 1) as real) * step + step;
        }
      }
    }
  }

  /** One more step after the last depth reaches the bound: the loop runs
      exactly while it should. */
  lemma {:induction false} DepthsEnd(z: real, bound: real, step: real)
    requires step < 0.0
    ensures z + (|Depths(z, bound, step)| as real) * step <= bound
    decreases StepsLeft(z, bound, step)
  {
    if z > bound {
      StepsLeftFalls(z, bound, step);
      var n := |Depths(z + step, bound, step)|;
      DepthsEnd(z + step, bound, step);
      assert |Depths(z, bound, step)| == n + 1;
      assert ((n + 1) as real) * step == (n as real) * step + step;
    }
  }

  /** One iteration of a depth loop: the depth it cuts at moves from the
      depths still to come to the depths done. */
  lemma DepthsStep(start: real, done: seq<real>, z: real, bound: real, step: real)
    requires step < 0.0 && z > bound
    requires Depths(start, bound, step) == done + Depths(z, bound, step)
    ensures Depths(start, bound, step) == (done + [z]) + Depths(z + step, bound, step)
    ensures |Depths(z + step, bound, step)| < |Depths(z, bound, step)|
  {
    assert Depths(z, bound, step) == [z] + Depths(z + step, bound, step);
  }

  // ---------------------------------------------------------------------
  // what a list of instructions does

  /** The depths the instructions plunge to, in order. */
  function Plunges(prog: seq<Instr>): seq<real>
  {
    if prog == [] then []
    else Plunges(prog[..|prog| - 1]) + (if prog[|prog| - 1].Plunge? then [prog[|prog| - 1].depth] else [])
  }

  /** The points the instructions cut to, in order. */
  function Targets(prog: seq<Instr>): seq<Point>
  {
    if prog == [] then []
    else Targets(prog[..|prog| - 1]) + (if prog[|prog| - 1].Cut? then [prog[|prog| - 1].target] else [])
  }

  lemma {:induction false} TraceAppend(a: seq<Instr>, b: seq<Instr>)
    ensures Plunges(a + b) == Plunges(a) + Plunges(b)
    ensures Targets(a + b) == Targets(a) + Targets(b)
    decreases |b|
  {
    if b != [] {
      var b' := b[..|b| - 1];
      assert (a + b)[..|a + b| - 1] == a + b';
      assert (a + b)[|a + b| - 1] == b[|b| - 1];
      TraceAppend(a, b');
    } else {
      assert a + b == a;
    }
  }

  /** One cut to each point, in order. */
  function Cuts(pts: seq<Point>): seq<Instr>
  {
    seq(|pts|, k requires 0 <= k < |pts| => Cut(pts[k]))
  }

  lemma {:induction false} CutsTrace(pts: seq<Point>)
    ensures Plunges(Cuts(pts)) == [] && Targets(Cuts(pts)) == pts
    decreases |pts|
  {
    if pts != [] {
      var pts' := pts[..|pts| - 1];
      assert Cuts(pts)[..|pts| - 1] == Cuts(pts');
      CutsTrace(pts');
    }
  }

  /** The points of a path in the opposite order. */
  function Reverse(s: seq<Point>): (r: seq<Point>)
    ensures |r| == |s|
  {
    if s == [] then [] else [s[|s| - 1]] + Reverse(s[..|s| - 1])
  }

  lemma {:induction false} ReverseAt(s: seq<Point>)
    ensures forall k :: 0 <= k < |s| ==> Reverse(s)[k] == s[|s| - 1 - k]
    decreases |s|
  {
    if s != [] {
      ReverseAt(s[..|s| - 1]);
    }
  }

  /** Dropping the first point of a reversed path is reversing the path
      without its last point (Python's p[-2::-1]). */
  lemma ReverseTail(s: seq<Point>)
    requires s != []
    ensures Reverse(s)[1..] == Reverse(s[..|s| - 1])
  {
    var rest := Reverse(s[..|s| - 1]);
    assert Reverse(s) == [s[|s| - 1]] + rest;
    assert ([s[|s| - 1]] + rest)[1..] == rest;
  }

  // ---------------------------------------------------------------------
  // perimeter passes (lines 254-264)

  /** One perimeter pass: plunge to z, then cut round the closed outline
      from its second vertex back to its first. */
  function PerimeterPass(outline: seq<Point>, z: real, o: Options): seq<Instr>
    requires outline != []
  {
    [Plunge(z, o.zSpeed), SetFeed(o.xySpeed)] + Cuts(outline[1..]) + [Cut(outline[0])]
  }

  /** One perimeter pass per depth. */
  function PerimeterBlock(outline: seq<Point>, ds: seq<real>, o: Options): seq<Instr>
    requires outline != []
  {
    if ds == [] then []
    else PerimeterBlock(outline, ds[..|ds| - 1], o) + PerimeterPass(outline, ds[|ds| - 1], o)
  }

  /** The opening of every pass plunges to its depth and cuts nowhere. */
  lemma HeadTrace(z: real, o: Options)
    ensures Plunges([Plunge(z, o.zSpeed), SetFeed(o.xySpeed)]) == [z]
    ensures Targets([Plunge(z, o.zSpeed), SetFeed(o.xySpeed)]) == []
  {
    var head: seq<Instr> := [Plunge(z, o.zSpeed), SetFeed(o.xySpeed)];
    var one: seq<Instr> := [Plunge(z, o.zSpeed)];
    assert head[..1] == one && one[..0] == [];
    assert Plunges(one) == [z] && Targets(one) == [];
  }

  /** A perimeter pass plunges once, to its depth, and cuts once round the
      whole outline, ending where it began, at the first vertex. */
  lemma PerimeterPassTrace(outline: seq<Point>, z: real, o: Options)
    requires outline != []
    ensures Plunges(PerimeterPass(outline, z, o)) == [z]
    ensures Targets(PerimeterPass(outline, z, o)) == outline[1..] + [outline[0]]
  {
    var head: seq<Instr> := [Plunge(z, o.zSpeed), SetFeed(o.xySpeed)];
    HeadTrace(z, o);
    CutsTrace(outline[1..]);
    TraceAppend(head, Cuts(outline[1..]));
    TraceAppend(head + Cuts(outline[1..]), [Cut(outline[0])]);
    assert [Cut(outline[0])][..0] == [];
  }

  /** The perimeter block plunges to exactly the given depths, in order, and
      every pass traces the closed outline. */
  lemma {:induction false} PerimeterBlockTrace(outline: seq<Point>, ds: seq<real>, o: Options)
    requires outline != []
    ensures Plunges(PerimeterBlock(outline, ds, o)) == ds
    ensures Targets(PerimeterBlock(outline, ds, o)) == RingTimes(outline, |ds|)
    decreases |ds|
  {
    if ds != [] {
      var ds' := ds[..|ds| - 1];
      PerimeterBlockTrace(outline, ds', o);
      PerimeterPassTrace(outline, ds[|ds| - 1], o);
      TraceAppend(PerimeterBlock(outline, ds', o), PerimeterPass(outline, ds[|ds| - 1], o));
    }
  }

  /** The closed outline traced k times from its first vertex. */
  function RingTimes(outline: seq<Point>, k: nat): seq<Point>
    requires outline != []
  {
    if k == 0 then [] else RingTimes(outline, k - 1) + (outline[1..] + [outline[0]])
  }

  // ---------------------------------------------------------------------
  // corner passes (lines 266-287)

  /** Whether a count is even: pass number k goes forward exactly when k is
      even. */
  function Even(k: nat): bool
  {
    if k == 0 then true else !Even(k - 1)
  }

  /** The corner path in the direction of a pass. */
  function Oriented(poly: seq<Point>, forward: bool): seq<Point>
  {
    if forward then poly else Reverse(poly)
  }

  /** One corner pass: plunge to z, then cut along corner_poly[1:] going
      forward or corner_poly[-2::-1] going back. */
  function CornerPass(poly: seq<Point>, z: real, forward: bool, o: Options): seq<Instr>
    requires poly != []
  {
    [Plunge(z, o.zSpeed), SetFeed(o.xySpeed)]
      + Cuts(if forward then poly[1..] else Reverse(poly[..|poly| - 1]))
  }

  /** One corner pass per depth, the first forward and then alternating. */
  function CornerBlock(poly: seq<Point>, ds: seq<real>, o: Options): seq<Instr>
    requires poly != []
  {
    if ds == [] then []
    else CornerBlock(poly, ds[..|ds| - 1], o) + CornerPass(poly, ds[|ds| - 1], Even(|ds| - 1), o)
  }

  /** Appending one more depth appends one pass, in the direction the pass
      count gives. */
  lemma CornerBlockSnoc(poly: seq<Point>, done: seq<real>, z: real, o: Options, path: seq<Point>)
    requires poly != []
    requires path == if Even(|done|) then poly[1..] else Reverse(poly[..|poly| - 1])
    ensures CornerBlock(poly, done + [z], o)
      == CornerBlock(poly, done, o) + ([Plunge(z, o.zSpeed), SetFeed(o.xySpeed)] + Cuts(path))
  {
    assert (done + [z])[..|done|] == done;
  }

  /** The path traced by k alternating passes over the corner path, the
      first forward. */
  function Shuttle(poly: seq<Point>, k: nat): seq<Point>
    requires poly != []
  {
    if k == 0 then [] else Shuttle(poly, k - 1) + Oriented(poly, Even(k - 1))[1..]
  }

  lemma ShuttleSnoc(poly: seq<Point>, k: nat)
    requires poly != []
    ensures Shuttle(poly, k + 1) == Shuttle(poly, k) + Oriented(poly, Even(k))[1..]
  {
  }

  /** A corner pass plunges once and cuts along the oriented corner path from
      its second point to its end. */
  lemma CornerPassTrace(poly: seq<Point>, z: real, forward: bool, o: Options)
    requires poly != []
    ensures Plunges(CornerPass(poly, z, forward, o)) == [z]
    ensures Targets(CornerPass(poly, z, forward, o)) == Oriented(poly, forward)[1..]
  {
    var head: seq<Instr> := [Plunge(z, o.zSpeed), SetFeed(o.xySpeed)];
    var pts := if forward then poly[1..] else Reverse(poly[..|poly| - 1]);
    if !forward {
      ReverseTail(poly);
    }
    CutsTrace(pts);
    TraceAppend(head, Cuts(pts));
    HeadTrace(z, o);
    assert CornerPass(poly, z, forward, o) == head + Cuts(pts);
  }

  /** The corner block plunges to exactly the given depths and traces the
      corner path back and forth, once per depth. */
  lemma {:induction false} CornerBlockTrace(poly: seq<Point>, ds: seq<real>, o: Options)
    requires poly != []
    ensures Plunges(CornerBlock(poly, ds, o)) == ds
    ensures Targets(CornerBlock(poly, ds, o)) == Shuttle(poly, |ds|)
    decreases |ds|
  {
    if ds != [] {
      var ds' := ds[..|ds| - 1];
      assert ds == ds' + [ds[|ds| - 1]];
      var fwd := Even(|ds| - 1);
      var prev, pass := CornerBlock(poly, ds', o), CornerPass(poly, ds[|ds| - 1], fwd, o);
      assert CornerBlock(poly, ds, o) == prev + pass;
      CornerBlockTrace(poly, ds', o);
      CornerPassTrace(poly, ds[|ds| - 1], fwd, o);
      TraceAppend(prev, pass);
      ShuttleSnoc(poly, |ds'|);
    }
  }

  /** Each corner pass starts where the previous one ended: the pass in one
      direction ends at the first point of the pass in the other. */
  lemma PassesMeet(poly: seq<Point>, forward: bool)
    requires poly != []
    ensures Oriented(poly, forward)[|poly| - 1] == Oriented(poly, !forward)[0]
  {
    ReverseAt(poly);
  }

  /** After k corner passes the cutter is at the start of the corner path
      when k is even and at its end when k is odd, which is where the next
      pass begins. */
  lemma ShuttleEnds(poly: seq<Point>, k: nat)
    requires |poly| >= 2
    ensures Shuttle(poly, k + 1)[|Shuttle(poly, k + 1)| - 1] == Oriented(poly, Even(k + 1))[0]
  {
    var o := Oriented(poly, Even(k));
    ShuttleSnoc(poly, k);
    assert Shuttle(poly, k + 1)[|Shuttle(poly, k + 1)| - 1] == o[|o| - 1];
    PassesMeet(poly, Even(k));
  }

  /** One corner's section: lift, move to the start of its path, go down to
      tab depth, then the alternating passes from tab depth to full depth. */
  function CornerSection(poly: seq<Point>, o: Options): seq<Instr>
    requires poly != [] && o.zCut < 0.0
  {
    [RapidZ(o.passZ), RapidXY(poly[0]), RapidZ(o.tabDepth)]
      + CornerBlock(poly, Depths(o.tabDepth, o.depth, o.zCut), o)
  }

  // ---------------------------------------------------------------------
  // the loops

  /** The perimeter loop: passes at 0, z_cut, 2 z_cut, ... while above tab
      depth. */
  method CutPerimeter(outline: seq<Point>, o: Options) returns (prog: seq<Instr>)
    requires outline != [] && o.zCut < 0.0
    ensures prog == PerimeterBlock(outline, Depths(0.0, o.tabDepth, o.zCut), o)
  {
    prog := [];
    var z := 0.0;
    ghost var done: seq<real> := [];
    while z > o.tabDepth
      invariant Depths(0.0, o.tabDepth, o.zCut) == done + Depths(z, o.tabDepth, o.zCut)
      invariant prog == PerimeterBlock(outline, done, o)
      decreases |Depths(z, o.tabDepth, o.zCut)|
    {
      var pass := [Plunge(z, o.zSpeed), SetFeed(o.xySpeed)] + Cuts(outline[1..]) + [Cut(outline[0])];
      DepthsStep(0.0, done, z, o.tabDepth, o.zCut);
      assert PerimeterBlock(outline, done + [z], o) == PerimeterBlock(outline, done, o) + pass by {
        assert (done + [z])[..|done|] == done;
      }
      prog := prog + pass;
      done := done + [z];
      z := z + o.zCut;
    }
    assert done + [] == done;
  }

  /** The corner loop: passes from tab depth down while above full depth,
      the direction flipping after every pass. */
  method CutCorner(poly: seq<Point>, o: Options) returns (prog: seq<Instr>)
    requires poly != [] && o.zCut < 0.0
    ensures prog == CornerBlock(poly, Depths(o.tabDepth, o.depth, o.zCut), o)
  {
    prog := [];
    var direction := 1;
    var z := o.tabDepth;
    ghost var done: seq<real> := [];
    while z > o.depth
      invariant Depths(o.tabDepth, o.depth, o.zCut) == done + Depths(z, o.depth, o.zCut)
      invariant direction == if Even(|done|) then 1 else -1
      invariant prog == CornerBlock(poly, done, o)
      decreases |Depths(z, o.depth, o.zCut)|
    {
      var path := if direction == 1 then poly[1..] else Reverse(poly[..|poly| - 1]);
      var pass := [Plunge(z, o.zSpeed), SetFeed(o.xySpeed)] + Cuts(path);
      DepthsStep(o.tabDepth, done, z, o.depth, o.zCut);
      CornerBlockSnoc(poly, done, z, o, path);
      prog := prog + pass;
      done := done + [z];
      direction := direction * -1;
      z := z + o.zCut;
    }
    assert done + [] == done;
  }

  /** The four corner sections, corner 0 first. */
  function CornerSections(polys: seq<seq<Point>>, o: Options): seq<Instr>
    requires o.zCut < 0.0
    requires forall k :: 0 <= k < |polys| ==> polys[k] != []
  {
    if polys == [] then []
    else CornerSections(polys[..|polys| - 1], o) + CornerSection(polys[|polys| - 1], o)
  }

  lemma CornerSectionsSnoc(polys: seq<seq<Point>>, poly: seq<Point>, o: Options)
    requires o.zCut < 0.0 && poly != []
    requires forall k :: 0 <= k < |polys| ==> polys[k] != []
    ensures CornerSections(polys + [poly], o) == CornerSections(polys, o) + CornerSection(poly, o)
  {
    assert (polys + [poly])[..|polys|] == polys;
  }

  /** The opening of the program: units, coordinates, feed mode and the
      argument echo. */
  function Header(notes: seq<string>): seq<Instr>
  {
    [UnitsInches, AbsoluteCoords, FeedPerMinute] + seq(|notes|, k requires 0 <= k < |notes| => Note(notes[k]))
  }

  /** Each corner path is the one extract_corner returns for its corner:
      from that corner's start point to its end point, through the outline
      vertices the walk visits. */
  ghost predicate CornerPaths(polys: seq<seq<Point>>, cutout: seq<Point>, tabSize: real)
    requires cutout != []
  {
    forall c :: 0 <= c < |polys| && c < 4 ==> CornerPathOf(cutout, c, tabSize, polys[c])
  }

  lemma CornerPathsSnoc(polys: seq<seq<Point>>, poly: seq<Point>, cutout: seq<Point>, tabSize: real)
    requires cutout != [] && |polys| < 4 && CornerPaths(polys, cutout, tabSize)
    requires CornerPathOf(cutout, |polys|, tabSize, poly)
    ensures CornerPaths(polys + [poly], cutout, tabSize)
  {
  }

  /** The corner loop of write_gcode: for the corners 0 to 3 in turn, the
      path extract_corner returns and the section cut along it. */
  method CutCorners(cutout: seq<Point>, o: Options) returns (corners: seq<Instr>, polys: seq<seq<Point>>)
    requires cutout != [] && o.zCut < 0.0
    ensures |polys| == 4 && CornerPaths(polys, cutout, o.tabSize)
    ensures corners == CornerSections(polys, o)
  {
    corners := [];
    polys := [];
    for c := 0 to 4
      invariant |polys| == c
      invariant CornerPaths(polys, cutout, o.tabSize)
      invariant corners == CornerSections(polys, o)
    {
      var poly, found, first := ExtractCorner(cutout, c, o.tabSize);
      var passes := CutCorner(poly, o);
      CornerSectionsSnoc(polys, poly, o);
      CornerPathsSnoc(polys, poly, cutout, o.tabSize);
      corners := corners + ([RapidZ(o.passZ), RapidXY(poly[0]), RapidZ(o.tabDepth)] + passes);
      polys := polys + [poly];
    }
  }

  /** write_gcode, with the argument echo passed in as `notes`. The program is
      the header, the move to the first outline vertex, the perimeter passes,
      the four corner sections on the paths extract_corner returns, and the
      return to safety. */
  method WriteGcode(cutout: seq<Point>, notes: seq<string>, o: Options)
    returns (prog: seq<Instr>, polys: seq<seq<Point>>)
    requires cutout != [] && o.zCut < 0.0
    ensures |polys| == 4 && CornerPaths(polys, cutout, o.tabSize)
    ensures prog ==
      Header(notes)
      + [RapidZ(o.safeZ), RapidXY(cutout[0]), SpindleOn(o.spindle), RapidZ(o.passZ)]
      + PerimeterBlock(cutout, Depths(0.0, o.tabDepth, o.zCut), o)
      + CornerSections(polys, o)
      + [RapidZ(o.safeZ), RapidXY(Origin), SpindleOff]
  {
    var opening := Header(notes) + [RapidZ(o.safeZ), RapidXY(cutout[0]), SpindleOn(o.spindle), RapidZ(o.passZ)];
    var perimeter := CutPerimeter(cutout, o);
    var corners;
    corners, polys := CutCorners(cutout, o);
    prog := opening + perimeter + corners + [RapidZ(o.safeZ), RapidXY(Origin), SpindleOff];
  }

  // ---------------------------------------------------------------------
  // the z_cut check of the main block (line 379)

  /** The check as written: only a positive z_cut is refused. */
  predicate ZCutAcceptedAsWritten(zCut: real)
  {
    !(zCut > 0.0)
  }

  /** The depth after k iterations of `z = z + z_cut` from z. */
  function ZAfter(z: real, step: real, k: nat): (r: real)
    ensures r == z + (k as real) * step
  {
    if k == 0 then z else ZAfter(z, step, k - 1) + step
  }

  /** The check as written lets z_cut = 0 through, and then the perimeter
      loop never ends: with the default tab depth of -0.036, z stays at 0 and
      the loop condition `z > tab_depth` holds after any number of
      iterations. */
  lemma ZeroCutNeverEnds(k: nat)
    ensures ZCutAcceptedAsWritten(0.0)
    ensures ZAfter(0.0, 0.0, k) > -0.036
  {
  }

  /** The check as intended: z_cut must be below zero. */
  predicate ZCutAccepted(zCut: real)
  {
    zCut < 0.0
  }

  /** With the intended check both loops end: from any start depth, z drops
      to or below any bound after finitely many iterations, exactly after as
      many as there are depths to cut. */
  lemma AcceptedCutEnds(z: real, bound: real, zCut: real)
    requires ZCutAccepted(zCut)
    ensures ZAfter(z, zCut, |Depths(z, bound, zCut)|) <= bound
    ensures forall k :: 0 <= k < |Depths(z, bound, zCut)| ==> ZAfter(z, zCut, k) > bound
  {
    DepthsAt(z, bound, zCut);
    DepthsEnd(z, bound, zCut);
    var ds := Depths(z, bound, zCut);
    forall k | 0 <= k < |ds|
      ensures ZAfter(z, zCut, k) > bound
    {
      assert ds[k] == z + (k as real) * zCut;
    }
  }
}
