/** The board geometry of the cutout generator (BoardGeometry in
    board_cutout.py): the coordinate lists, the extents, and the re-basing of
    a buffered outline so that it starts at a clean edge near the origin. */
module Board {
  import opened Wrappers
  import opened Geometry

  /** Tolerance below which two coordinates count as equal (1e-8). */
  const Tolerance: real := 0.00000001

  /** The x coordinates of an outline, in order (BoardGeometry.xs). */
  function Xs(outline: seq<Point>): (xs: seq<real>)
    ensures |xs| == |outline|
    ensures forall k :: 0 <= k < |outline| ==> xs[k] == outline[k].x
  {
    if outline == [] then [] else Xs(outline[..|outline| - 1]) + [outline[|outline| - 1].x]
  }

  /** The y coordinates of an outline, in order (BoardGeometry.ys). */
  function Ys(outline: seq<Point>): (ys: seq<real>)
    ensures |ys| == |outline|
    ensures forall k :: 0 <= k < |outline| ==> ys[k] == outline[k].y
  {
    if outline == [] then [] else Ys(outline[..|outline| - 1]) + [outline[|outline| - 1].y]
  }

  /** Python's min() of a non-empty list: an element no other element is
      below. */
  function Min(s: seq<real>): (m: real)
    requires s != []
    ensures m in s
    ensures forall k :: 0 <= k < |s| ==> m <= s[k]
  {
    if |s| == 1 then s[0]
    else
      var rest := Min(s[1..]);
      assert s[1..][0] in s;
      if s[0] <= rest then s[0] else rest
  }

  /** Python's max() of a non-empty list: an element no other element is
      above. */
  function Max(s: seq<real>): (m: real)
    requires s != []
    ensures m in s
    ensures forall k :: 0 <= k < |s| ==> s[k] <= m
  {
    if |s| == 1 then s[0]
    else
      var rest := Max(s[1..]);
      assert s[1..][0] in s;
      if s[0] >= rest then s[0] else rest
  }

  /** BoardGeometry.extents. The original's min() of an empty list fails;
      that case is None here. */
  function Extents(outline: seq<Point>): (e: Option<Box>)
    ensures e.None? <==> outline == []
    ensures e.Some? ==> Bounds(outline, e.value)
  {
    if outline == [] then None
    else
      var xs, ys := Xs(outline), Ys(outline);
      var b := Box(Min(xs), Max(xs), Min(ys), Max(ys));
      assert Min(xs) in xs && Max(xs) in xs && Min(ys) in ys && Max(ys) in ys;
      Some(b)
  }

  // ---------------------------------------------------------------------
  // offset: re-basing the buffered ring

  /** The edge from vertex k to the next one (cyclically) is axis-aligned in
      exactly one coordinate, judged with Tolerance. */
  predicate CleanEdge(ring: seq<Point>, k: nat)
    requires k < |ring|
  {
    var p, q := ring[k], ring[(k + 1) % |ring|];
    (Abs(p.x - q.x) < Tolerance) != (Abs(p.y - q.y) < Tolerance)
  }

  /** The first vertex of least squared distance to the origin (Python's
      min(range(n), key=...), which keeps the first of equal keys). */
  method ClosestToOrigin(ring: seq<Point>) returns (m: nat)
    requires ring != []
    ensures m < |ring|
    ensures forall k :: 0 <= k < |ring| ==> SqNorm(ring[m]) <= SqNorm(ring[k])
    ensures forall k :: 0 <= k < m ==> SqNorm(ring[k]) > SqNorm(ring[m])
  {
    m := 0;
    for k := 1 to |ring|
      invariant m < k
      invariant forall j :: 0 <= j < k ==> SqNorm(ring[m]) <= SqNorm(ring[j])
      invariant forall j :: 0 <= j < m ==> SqNorm(ring[j]) > SqNorm(ring[m])
    {
      if SqNorm(ring[k]) < SqNorm(ring[m]) {
        m := k;
      }
    }
  }

  /** The index t places after `from` around a ring of n vertices, going
      round at most once. */
  function Ahead(from: nat, t: nat, n: nat): (k: nat)
    requires from < n && t <= n
    ensures k < n
  {
    if from + t < n then from + t else from + t - n
  }

  /** Python's (i + 1) % n for an index i of the ring. */
  lemma NextIndex(i: nat, n: nat)
    requires i < n
    ensures (i + 1) % n == if i + 1 < n then i + 1 else 0
  {
  }

  /** The ring rotated left by idx (Python's ring[idx:] + ring[:idx]). */
  function Rotate(ring: seq<Point>, idx: nat): (r: seq<Point>)
    requires idx <= |ring|
    ensures |r| == |ring|
  {
    ring[idx..] + ring[..idx]
  }

  /** Position k of the rotation holds the vertex k places after idx: the
      cyclic order of the ring is kept. */
  lemma RotateAt(ring: seq<Point>, idx: nat)
    requires idx < |ring|
    ensures forall k :: 0 <= k < |ring| ==> Rotate(ring, idx)[k] == ring[Ahead(idx, k, |ring|)]
  {
    var n := |ring|;
    forall k | 0 <= k < n
      ensures Rotate(ring, idx)[k] == ring[Ahead(idx, k, n)]
    {
    }
  }

  /** r lists the vertices of ring in the same cyclic order, from some
      vertex on. */
  ghost predicate IsRotationOf(r: seq<Point>, ring: seq<Point>)
  {
    exists idx :: 0 <= idx < |ring| && r == Rotate(ring, idx)
  }

  /** r is ring re-based as BoardGeometry.offset does it: `closest` is the
      first vertex of least distance to the origin, `steps` the number of
      advances from it before the first clean outgoing edge (all n of them
      when there is none), and r the ring rotated to start there. */
  ghost predicate RebasedAt(ring: seq<Point>, r: seq<Point>, closest: nat, steps: nat)
  {
    && closest < |ring| && steps <= |ring|
    && (forall k :: 0 <= k < |ring| ==> SqNorm(ring[closest]) <= SqNorm(ring[k]))
    && (forall k :: 0 <= k < closest ==> SqNorm(ring[k]) > SqNorm(ring[closest]))
    && (forall t :: 0 <= t < steps ==> !CleanEdge(ring, Ahead(closest, t, |ring|)))
    && (steps < |ring| ==> CleanEdge(ring, Ahead(closest, steps, |ring|)))
    && r == Rotate(ring, Ahead(closest, steps, |ring|))
  }

  /** The re-basing part of BoardGeometry.offset, on the ring the buffer
      produced. From the vertex closest to the origin it advances at most n
      times to the first vertex whose outgoing edge is clean; when there is
      none the n advances bring it back to the closest vertex. The original
      fails on an empty ring (min of an empty range); that case is None. */
  method Rebase(ring: seq<Point>) returns (out: Option<seq<Point>>, ghost closest: nat, ghost steps: nat)
    ensures out.None? <==> ring == []
    ensures out.Some? ==> RebasedAt(ring, out.value, closest, steps)
  {
    if ring == [] {
      return None, 0, 0;
    }
    var n := |ring|;
    var minIdx := ClosestToOrigin(ring);
    var idx := minIdx;
    var count := 0;
    while count < n
      invariant count <= n
      invariant idx == Ahead(minIdx, count, n)
      invariant forall t :: 0 <= t < count ==> !CleanEdge(ring, Ahead(minIdx, t, n))
    {
      var curr := ring[idx];
      var next := ring[(idx + 1) % n];
      if (Abs(curr.x - next.x) < Tolerance) != (Abs(curr.y - next.y) < Tolerance) {
        break;
      }
      NextIndex(idx, n);
      idx := (idx + 1) % n;
      count := count + 1;
    }
    out, closest, steps := Some(ring[idx..] + ring[..idx]), minIdx, count;
  }

  /** A rotation keeps the length, the points with their multiplicities and
      hence the extents of the outline. */
  lemma RotationKeepsOutline(ring: seq<Point>, idx: nat)
    requires idx <= |ring|
    ensures multiset(Rotate(ring, idx)) == multiset(ring)
    ensures Extents(Rotate(ring, idx)) == Extents(ring)
  {
    var r := Rotate(ring, idx);
    assert ring == ring[..idx] + ring[idx..];
    calc {
      multiset(r);
      multiset(ring[idx..]) + multiset(ring[..idx]);
      multiset(ring);
    }
    forall p
      ensures p in r <==> p in ring
    {
      assert p in r <==> p in multiset(r);
      assert p in ring <==> p in multiset(ring);
    }
    if ring != [] {
      BoundsUnique(r, ring, Extents(r).value, Extents(ring).value);
    }
  }

  /** BoardGeometry.offset with the buffer operation as a parameter: the
      outline buffered by `dist` and then re-based. */
  method Offset(outline: seq<Point>, buffer: (seq<Point>, real) -> seq<Point>, dist: real)
    returns (out: Option<seq<Point>>, ghost closest: nat, ghost steps: nat)
    ensures out.None? <==> buffer(outline, dist) == []
    ensures out.Some? ==> IsRotationOf(out.value, buffer(outline, dist))
    ensures out.Some? ==> RebasedAt(buffer(outline, dist), out.value, closest, steps)
  {
    var ring := buffer(outline, dist);
    out, closest, steps := Rebase(ring);
  }

  /** BoardGeometry.get_cutout: the outline offset by the cutting tool's
      radius plus the margin. */
  method GetCutout(outline: seq<Point>, buffer: (seq<Point>, real) -> seq<Point>, toolDia: real, margin: real)
    returns (out: Option<seq<Point>>, ghost closest: nat, ghost steps: nat)
    ensures out.None? <==> buffer(outline, toolDia / 2.0 + margin) == []
    ensures out.Some? ==> IsRotationOf(out.value, buffer(outline, toolDia / 2.0 + margin))
    ensures out.Some? ==> RebasedAt(buffer(outline, toolDia / 2.0 + margin), out.value, closest, steps)
  {
    out, closest, steps := Offset(outline, buffer, toolDia / 2.0 + margin);
  }
}
