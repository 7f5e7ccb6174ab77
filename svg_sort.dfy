/** The ordering of the pads (sort_rectangles in svg_cutout.py): starting
    at the origin, repeatedly take the remaining rectangle whose centre is
    nearest to the centre of the one taken last. The nearest-neighbour walk
    is stated for any element type, distance key and centre; SortRectangles
    uses it with rectangles and the squared distance between centres. */
module SvgSort {
  import opened Geometry
  import opened SvgRectangles

  /** The centre of a rectangle (x_min + width / 2, y_min + height / 2). */
  function Centre(r: Rect): Point
  {
    Point(r.x + r.w / 2.0, r.y + r.h / 2.0)
  }

  /** The key min() is given: the distance from `at` to the centre. The
      square root is left out; it does not change which key is least. */
  function Key(r: Rect, at: Point): real
  {
    SqDist(Centre(r), at)
  }

  /** min(rem, key=...): the index min() returns. It scans left to right
      and replaces its choice only on a strictly smaller key. */
  function Closest<T>(rem: seq<T>, at: Point, key: (T, Point) -> real): (m: nat)
    requires rem != []
    ensures m < |rem|
  {
    if |rem| == 1 then 0
    else
      var last := |rem| - 1;
      var m := Closest(rem[..last], at, key);
      if key(rem[last], at) < key(rem[m], at) then last else m
  }

  /** min() returns the first element of least key: none has a smaller key,
      and every one before it has a larger key. */
  lemma {:induction false} ClosestIsFirstLeast<T>(rem: seq<T>, at: Point, key: (T, Point) -> real)
    requires rem != []
    ensures forall k :: 0 <= k < |rem| ==> key(rem[Closest(rem, at, key)], at) <= key(rem[k], at)
    ensures forall k :: 0 <= k < Closest(rem, at, key) ==> key(rem[k], at) > key(rem[Closest(rem, at, key)], at)
  {
    if |rem| > 1 {
      var last := |rem| - 1;
      var init := rem[..last];
      ClosestIsFirstLeast(init, at, key);
      var m := Closest(init, at, key);
      assert init[m] == rem[m];
      assert forall k :: 0 <= k < last ==> init[k] == rem[k];
    }
  }

  /** list.remove(x): the list without the first element equal to x. When x
      is present exactly one copy of it goes; otherwise the list is kept. */
  function RemoveFirst<T(==)>(s: seq<T>, x: T): (r: seq<T>)
    ensures x in s ==> multiset(r) == multiset(s) - multiset{x} && |r| == |s| - 1
    ensures x !in s ==> r == s
  {
    if s == [] then []
    else
      assert s == [s[0]] + s[1..];
      if s[0] == x then s[1..]
      else [s[0]] + RemoveFirst(s[1..], x)
  }

  /** Splitting a sequence at m > 0 after taking off its head. */
  lemma HeadSplit<T>(s: seq<T>, m: nat)
    requires 0 < m < |s|
    ensures s[..m] == [s[0]] + s[1..][..m - 1]
    ensures s[m + 1..] == s[1..][m..]
  {
  }

  /** When no element before index m equals s[m], removing s[m] by value
      removes exactly index m. */
  lemma {:induction false} RemoveFirstAt<T>(s: seq<T>, m: nat)
    requires m < |s|
    requires forall k :: 0 <= k < m ==> s[k] != s[m]
    ensures RemoveFirst(s, s[m]) == s[..m] + s[m + 1..]
  {
    if m > 0 {
      var t := s[1..];
      assert t[m - 1] == s[m];
      forall k | 0 <= k < m - 1
        ensures t[k] != t[m - 1]
      {
        assert t[k] == s[k + 1];
      }
      RemoveFirstAt(t, m - 1);
      HeadSplit(s, m);
    }
  }

  /** The element min() picks is the one `remove` takes out: it is the first
      of its key, so no element before it is equal to it. */
  lemma RemoveClosest<T>(rem: seq<T>, at: Point, key: (T, Point) -> real)
    requires rem != []
    ensures var m := Closest(rem, at, key); RemoveFirst(rem, rem[m]) == rem[..m] + rem[m + 1..]
  {
    ClosestIsFirstLeast(rem, at, key);
    RemoveFirstAt(rem, Closest(rem, at, key));
  }

  /** The order the greedy walk produces from the elements `rem` when
      standing at `at`. */
  function GreedyOrder<T(==)>(rem: seq<T>, at: Point, key: (T, Point) -> real, centre: T -> Point): seq<T>
    decreases |rem|
  {
    if rem == [] then []
    else
      var c := rem[Closest(rem, at, key)];
      [c] + GreedyOrder(RemoveFirst(rem, c), centre(c), key, centre)
  }

  /** The greedy order holds the elements with their multiplicities. */
  lemma {:induction false} GreedyOrderPermutation<T>(rem: seq<T>, at: Point, key: (T, Point) -> real, centre: T -> Point)
    ensures multiset(GreedyOrder(rem, at, key, centre)) == multiset(rem)
    decreases |rem|
  {
    if rem != [] {
      var c := rem[Closest(rem, at, key)];
      GreedyOrderPermutation(RemoveFirst(rem, c), centre(c), key, centre);
    }
  }

  /** The point the k-th choice of an order is measured from: `at` for the
      first, the centre of the previous choice for the others. */
  function Anchor<T>(order: seq<T>, at: Point, centre: T -> Point, k: nat): Point
    requires k < |order|
  {
    if k == 0 then at else centre(order[k - 1])
  }

  /** Every choice is no farther from its anchor than any choice after it,
      which with the permutation says that each element taken was nearest
      among those not yet taken. */
  ghost predicate Nearest<T>(order: seq<T>, at: Point, key: (T, Point) -> real, centre: T -> Point)
  {
    forall k, j :: 0 <= k <= j < |order| ==>
      key(order[k], Anchor(order, at, centre, k)) <= key(order[j], Anchor(order, at, centre, k))
  }

  /** The element min() picks is no farther than any that is left after it
      is removed. */
  lemma ClosestBeatsRest<T>(rem: seq<T>, at: Point, key: (T, Point) -> real, x: T)
    requires rem != []
    requires x in multiset(RemoveFirst(rem, rem[Closest(rem, at, key)]))
    ensures key(rem[Closest(rem, at, key)], at) <= key(x, at)
  {
    ClosestIsFirstLeast(rem, at, key);
    assert x in multiset(rem);
    var i :| 0 <= i < |rem| && rem[i] == x;
  }

  /** The first choice of the order is nearest to `at`. */
  lemma FirstIsNearest<T>(rem: seq<T>, at: Point, key: (T, Point) -> real, centre: T -> Point)
    requires rem != []
    ensures forall j :: 0 <= j < |GreedyOrder(rem, at, key, centre)| ==>
      key(GreedyOrder(rem, at, key, centre)[0], at) <= key(GreedyOrder(rem, at, key, centre)[j], at)
  {
    var c := rem[Closest(rem, at, key)];
    var rest := RemoveFirst(rem, c);
    var tail := GreedyOrder(rest, centre(c), key, centre);
    var order := GreedyOrder(rem, at, key, centre);
    assert order == [c] + tail;
    GreedyOrderPermutation(rest, centre(c), key, centre);
    forall j | 0 < j < |order|
      ensures key(c, at) <= key(order[j], at)
    {
      assert order[j] == tail[j - 1];
      assert tail[j - 1] in multiset(tail);
      ClosestBeatsRest(rem, at, key, order[j]);
    }
  }

  /** The greedy order takes the nearest element at every step. */
  lemma {:induction false} GreedyOrderNearest<T>(rem: seq<T>, at: Point, key: (T, Point) -> real, centre: T -> Point)
    ensures Nearest(GreedyOrder(rem, at, key, centre), at, key, centre)
    decreases |rem|
  {
    if rem != [] {
      var c := rem[Closest(rem, at, key)];
      var tail := GreedyOrder(RemoveFirst(rem, c), centre(c), key, centre);
      var order := GreedyOrder(rem, at, key, centre);
      assert order == [c] + tail;
      GreedyOrderNearest(RemoveFirst(rem, c), centre(c), key, centre);
      FirstIsNearest(rem, at, key, centre);
      forall k, j | 0 <= k <= j < |order|
        ensures key(order[k], Anchor(order, at, centre, k)) <= key(order[j], Anchor(order, at, centre, k))
      {
        if k > 0 {
          assert order[k] == tail[k - 1] && order[j] == tail[j - 1];
          assert Anchor(order, at, centre, k) == Anchor(tail, centre(c), centre, k - 1);
        }
      }
    }
  }

  /** One step of the walk, after the elements taken so far. */
  lemma GreedyOrderStep<T>(done: seq<T>, rem: seq<T>, at: Point, key: (T, Point) -> real, centre: T -> Point)
    requires rem != []
    ensures var c := rem[Closest(rem, at, key)];
      && done + GreedyOrder(rem, at, key, centre) == (done + [c]) + GreedyOrder(RemoveFirst(rem, c), centre(c), key, centre)
      && |RemoveFirst(rem, c)| < |rem|
  {
  }

  /** The while loop of sort_rectangles, for any key and centre: take the
      element min() picks, remove it by value and move to its centre. */
  method WalkNearest<T(==)>(items: seq<T>, start: Point, key: (T, Point) -> real, centre: T -> Point)
    returns (order: seq<T>)
    ensures order == GreedyOrder(items, start, key, centre)
  {
    order := [];
    var remaining := items;
    var current := start;
    while remaining != []
      invariant order + GreedyOrder(remaining, current, key, centre) == GreedyOrder(items, start, key, centre)
      decreases |remaining|
    {
      var chosen := remaining[Closest(remaining, current, key)];
      GreedyOrderStep(order, remaining, current, key, centre);
      order := order + [chosen];
      remaining := RemoveFirst(remaining, chosen);
      current := centre(chosen);
    }
    assert order + [] == order;
  }

  /** sort_rectangles. An empty list gives an empty list; otherwise the walk
      starts at the origin with the distance between centres as key. The
      result is a permutation of the input in which each rectangle is
      nearest to the previous centre (the origin for the first) among those
      left. */
  method SortRectangles(rects: seq<Rect>) returns (sorted: seq<Rect>)
    ensures sorted == GreedyOrder(rects, Origin, Key, Centre)
    ensures multiset(sorted) == multiset(rects)
    ensures Nearest(sorted, Origin, Key, Centre)
  {
    GreedyOrderPermutation(rects, Origin, Key, Centre);
    GreedyOrderNearest(rects, Origin, Key, Centre);
    if rects == [] {
      return [];
    }
    sorted := WalkNearest(rects, Origin, Key, Centre);
  }
}
