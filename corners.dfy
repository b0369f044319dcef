/** Canonical order of the four corners of a quadrilateral: top-left, top-right,
    bottom-right, bottom-left, obtained with a stable sort by the vertical coordinate,
    a split into the upper and lower pair, and a stable sort of each pair by the horizontal
    coordinate. */
module Corners {
  import opened Wrappers

  /** An image point; y grows downwards. */
  datatype Point = Point(x: int, y: int)

  datatype Axis = Horizontal | Vertical

  function Key(p: Point, axis: Axis): int {
    match axis
    case Horizontal => p.x
    case Vertical => p.y
  }

  /** `p` placed in front of the first element whose key is not smaller than its own. */
  function Insert(p: Point, s: seq<Point>, axis: Axis): (r: seq<Point>)
    ensures |r| == |s| + 1
  {
    if s == [] || Key(p, axis) <= Key(s[0], axis) then [p] + s
    else [s[0]] + Insert(p, s[1..], axis)
  }

  /** Python's `sorted(s, key=...)`: a stable sort by one coordinate. */
  function SortBy(s: seq<Point>, axis: Axis): (r: seq<Point>)
    ensures |r| == |s|
  {
    if s == [] then [] else Insert(s[0], SortBy(s[1..], axis), axis)
  }

  ghost predicate SortedBy(s: seq<Point>, axis: Axis) {
    forall i, j :: 0 <= i < j < |s| ==> Key(s[i], axis) <= Key(s[j], axis)
  }

  /** The elements of `s` whose key is `k`, in their order in `s`. */
  function WithKey(s: seq<Point>, axis: Axis, k: int): seq<Point> {
    if s == [] then []
    else (if Key(s[0], axis) == k then [s[0]] else []) + WithKey(s[1..], axis, k)
  }

  lemma {:induction false} InsertPermutes(p: Point, s: seq<Point>, axis: Axis)
    ensures |Insert(p, s, axis)| == |s| + 1
    ensures multiset(Insert(p, s, axis)) == multiset{p} + multiset(s)
    decreases |s|
  {
    if !(s == [] || Key(p, axis) <= Key(s[0], axis)) {
      InsertPermutes(p, s[1..], axis);
      assert s == [s[0]] + s[1..];
    }
  }

  lemma {:induction false} InsertSorted(p: Point, s: seq<Point>, axis: Axis)
    requires SortedBy(s, axis)
    ensures SortedBy(Insert(p, s, axis), axis)
    decreases |s|
  {
    if !(s == [] || Key(p, axis) <= Key(s[0], axis)) {
      var t := Insert(p, s[1..], axis);
      InsertSorted(p, s[1..], axis);
      InsertPermutes(p, s[1..], axis);
      forall j | 0 <= j < |t| ensures Key(s[0], axis) <= Key(t[j], axis) {
        assert t[j] in multiset(t);
        if t[j] != p {
          assert t[j] in multiset(s[1..]);
          var m :| 0 <= m < |s[1..]| && s[1..][m] == t[j];
          assert s[m + 1] == t[j];
        }
      }
      assert Insert(p, s, axis) == [s[0]] + t;
    }
  }

  lemma {:induction false} InsertStable(p: Point, s: seq<Point>, axis: Axis, k: int)
    ensures WithKey(Insert(p, s, axis), axis, k) == (if Key(p, axis) == k then [p] else []) + WithKey(s, axis, k)
    decreases |s|
  {
    if s == [] || Key(p, axis) <= Key(s[0], axis) {
      assert ([p] + s)[1..] == s;
    } else {
      var t := Insert(p, s[1..], axis);
      InsertStable(p, s[1..], axis, k);
      assert ([s[0]] + t)[1..] == t;
    }
  }

  /** SortBy is a stable sort: it permutes its input, orders it by the key, and keeps the
      relative order of the elements that share a key. */
  lemma {:induction false} SortByIsStableSort(s: seq<Point>, axis: Axis)
    ensures |SortBy(s, axis)| == |s|
    ensures multiset(SortBy(s, axis)) == multiset(s)
    ensures SortedBy(SortBy(s, axis), axis)
    ensures forall k :: WithKey(SortBy(s, axis), axis, k) == WithKey(s, axis, k)
    decreases |s|
  {
    if s != [] {
      SortByIsStableSort(s[1..], axis);
      assert s == [s[0]] + s[1..];
      forall k ensures WithKey(SortBy(s, axis), axis, k) == WithKey(s, axis, k) {
        InsertStable(s[0], SortBy(s[1..], axis), axis, k);
      }
      InsertPermutes(s[0], SortBy(s[1..], axis), axis);
      InsertSorted(s[0], SortBy(s[1..], axis), axis);
    }
  }

  lemma SortTwo(a: Point, b: Point, axis: Axis)
    ensures SortBy([a, b], axis) == if Key(a, axis) <= Key(b, axis) then [a, b] else [b, a]
  {
    assert [a, b][1..] == [b];
    assert [b][1..] == [];
    assert SortBy([b], axis) == [b];
    assert SortBy([a, b], axis) == Insert(a, [b], axis);
    assert Insert(a, [], axis) == [a];
  }

  /** `order_points`: top-left, top-right, bottom-right, bottom-left. Fewer than four points
      make the indexing fail (None); with more than four, only the two upper points and the
      two leftmost of the others are kept. */
  function OrderPoints(pts: seq<Point>): (r: Option<seq<Point>>)
    ensures r.Some? <==> |pts| >= 4
    ensures r.Some? ==> |r.value| == 4
  {
    var byY := SortBy(pts, Vertical);
    if |byY| < 4 then None
    else
      var top := SortBy(byY[..2], Horizontal);
      var bottom := SortBy(byY[2..], Horizontal);
      if |top| < 2 || |bottom| < 2 then None
      else Some([top[0], top[1], bottom[1], bottom[0]])
  }

  lemma SortByPermutes(s: seq<Point>, axis: Axis)
    ensures |SortBy(s, axis)| == |s| && multiset(SortBy(s, axis)) == multiset(s)
  {
    SortByIsStableSort(s, axis);
  }

  lemma SortBySorted(s: seq<Point>, axis: Axis)
    ensures SortedBy(SortBy(s, axis), axis)
  {
    SortByIsStableSort(s, axis);
  }

  /** In a y-sorted sequence, each of the first two elements is no lower than each later one. */
  lemma UpperBelowLower(byY: seq<Point>, u: Point, l: Point)
    requires |byY| >= 2 && SortedBy(byY, Vertical)
    requires u in byY[..2] && l in byY[2..]
    ensures u.y <= l.y
  {
    var a :| 0 <= a < 2 && byY[..2][a] == u;
    var b :| 0 <= b < |byY[2..]| && byY[2..][b] == l;
    assert byY[a] == u && byY[b + 2] == l;
    assert Key(byY[a], Vertical) <= Key(byY[b + 2], Vertical);
  }

  /** A pair sorted by x: the left point first, the earlier one first on a tie. */
  lemma PairByX(pair: seq<Point>)
    requires |pair| == 2
    ensures var s := SortBy(pair, Horizontal);
      && |s| == 2 && multiset(s) == multiset(pair)
      && s[0].x <= s[1].x
      && (s[0].x == s[1].x ==> s == pair)
  {
    assert pair == [pair[0], pair[1]];
    SortTwo(pair[0], pair[1], Horizontal);
  }

  /** The upper pair of a y-sorted sequence lies above every point of the rest. */
  lemma PairsSeparated(byY: seq<Point>)
    requires |byY| >= 4 && SortedBy(byY, Vertical)
    ensures var top, bottom := SortBy(byY[..2], Horizontal), SortBy(byY[2..], Horizontal);
      |top| == 2 && |bottom| == |byY| - 2 &&
      forall i, j :: 0 <= i < 2 && 0 <= j < |bottom| ==> top[i].y <= bottom[j].y
  {
    var lo, hi := byY[..2], byY[2..];
    SortByPermutes(lo, Horizontal);
    SortByPermutes(hi, Horizontal);
    var top, bottom := SortBy(lo, Horizontal), SortBy(hi, Horizontal);
    forall i, j | 0 <= i < 2 && 0 <= j < |bottom| ensures top[i].y <= bottom[j].y {
      assert top[i] in multiset(lo) && bottom[j] in multiset(hi);
      UpperBelowLower(byY, top[i], bottom[j]);
    }
  }

  /** The four corners picked from the two pairs are among the points of the pairs, and are
      all of them when the lower pair has only two points. */
  lemma PickedCorners(top: seq<Point>, bottom: seq<Point>)
    requires |top| == 2 && |bottom| >= 2
    ensures multiset([top[0], top[1], bottom[1], bottom[0]]) <= multiset(top) + multiset(bottom)
    ensures |bottom| == 2 ==> multiset([top[0], top[1], bottom[1], bottom[0]]) == multiset(top) + multiset(bottom)
  {
    assert top == [top[0], top[1]];
    assert bottom == [bottom[0], bottom[1]] + bottom[2..];
    assert multiset(bottom) == multiset([bottom[0], bottom[1]]) + multiset(bottom[2..]);
  }

  /** The y-sorted points, split into the upper pair and the rest. */
  lemma SplitPermutes(pts: seq<Point>)
    requires |pts| >= 4
    ensures var byY := SortBy(pts, Vertical);
      |byY| == |pts| && SortedBy(byY, Vertical) &&
      multiset(byY[..2]) + multiset(byY[2..]) == multiset(pts)
  {
    var byY := SortBy(pts, Vertical);
    SortByPermutes(pts, Vertical);
    SortBySorted(pts, Vertical);
    assert byY == byY[..2] + byY[2..];
  }

  /** The upper pair and the rest of the points, each sorted by x. */
  function Upper(pts: seq<Point>): seq<Point>
    requires |pts| >= 2
  {
    var byY := SortBy(pts, Vertical);
    if |byY| < 2 then [] else SortBy(byY[..2], Horizontal)
  }

  function Lower(pts: seq<Point>): seq<Point>
    requires |pts| >= 2
  {
    var byY := SortBy(pts, Vertical);
    if |byY| < 2 then [] else SortBy(byY[2..], Horizontal)
  }

  /** What the two sorts establish about the two pairs. */
  lemma PairsSpec(pts: seq<Point>)
    requires |pts| >= 4
    ensures var top, bottom := Upper(pts), Lower(pts);
      && |top| == 2 && |bottom| == |pts| - 2
      && multiset(top) + multiset(bottom) == multiset(pts)
      && (forall i, j :: 0 <= i < 2 && 0 <= j < |bottom| ==> top[i].y <= bottom[j].y)
      && top[0].x <= top[1].x && bottom[0].x <= bottom[1].x
      && (top[0].x == top[1].x ==> top[0].y <= top[1].y)
      && (|pts| == 4 && bottom[0].x == bottom[1].x ==> bottom[0].y <= bottom[1].y)
  {
    var byY := SortBy(pts, Vertical);
    SortByPermutes(pts, Vertical);
    var lo, hi := byY[..2], byY[2..];
    assert Upper(pts) == SortBy(lo, Horizontal) && Lower(pts) == SortBy(hi, Horizontal);
    SplitPermutes(pts);
    PairsSeparated(byY);
    SortByPermutes(lo, Horizontal);
    SortByPermutes(hi, Horizontal);
    PairByX(lo);
    assert SortBy(hi, Horizontal)[0].x <= SortBy(hi, Horizontal)[1].x by {
      SortBySorted(hi, Horizontal);
    }
    assert lo[0].y <= lo[1].y by {
      assert SortedBy(byY, Vertical);
      assert lo[0] == byY[0] && lo[1] == byY[1];
    }
    if |pts| == 4 {
      PairByX(hi);
      assert hi[0].y <= hi[1].y by {
        assert SortedBy(byY, Vertical);
        assert hi[0] == byY[2] && hi[1] == byY[3];
      }
    }
  }

  lemma OrderPointsUnfold(pts: seq<Point>)
    ensures OrderPoints(pts).None? <==> |pts| < 4
    ensures |pts| >= 4 ==>
      OrderPoints(pts) == Some([Upper(pts)[0], Upper(pts)[1], Lower(pts)[1], Lower(pts)[0]])
  {
    SortByPermutes(pts, Vertical);
    if |pts| >= 4 {
      PairsSpec(pts);
    }
  }

  /** The corners are four of the input points, and all of them when there are exactly four. */
  lemma OrderPointsPicks(pts: seq<Point>)
    requires |pts| >= 4
    ensures OrderPoints(pts).Some? && |OrderPoints(pts).value| == 4
    ensures multiset(OrderPoints(pts).value) <= multiset(pts)
    ensures |pts| == 4 ==> multiset(OrderPoints(pts).value) == multiset(pts)
  {
    OrderPointsUnfold(pts);
    PairsSpec(pts);
    PickedCorners(Upper(pts), Lower(pts));
  }

  /** The corners' geometry: upper above lower, left before right, ties in input order. */
  lemma OrderPointsPlaces(pts: seq<Point>)
    requires |pts| >= 4
    ensures OrderPoints(pts).Some? && |OrderPoints(pts).value| == 4
    ensures var r := OrderPoints(pts).value;
      && (forall i, j :: 0 <= i < 2 <= j < 4 ==> r[i].y <= r[j].y)
      && r[0].x <= r[1].x && r[3].x <= r[2].x
      && (r[0].x == r[1].x ==> r[0].y <= r[1].y)
      && (|pts| == 4 && r[3].x == r[2].x ==> r[3].y <= r[2].y)
  {
    OrderPointsUnfold(pts);
    PairsSpec(pts);
    var top, bottom := Upper(pts), Lower(pts);
    var r := [top[0], top[1], bottom[1], bottom[0]];
    assert top[0].y <= bottom[0].y && top[0].y <= bottom[1].y;
    assert top[1].y <= bottom[0].y && top[1].y <= bottom[1].y;
    assert forall i, j :: 0 <= i < 2 <= j < 4 ==> r[i].y <= r[j].y;
  }

  /** The canonical order: four of the input points (all four, permuted, when there are
      exactly four); the upper two are no lower than the lower two; top-left is left of
      top-right and bottom-left left of bottom-right; and the order of ties is that of the
      stable sorts (equal x keeps the upper point first). */
  lemma OrderPointsSpec(pts: seq<Point>)
    ensures OrderPoints(pts).None? <==> |pts| < 4
    ensures OrderPoints(pts).Some? ==>
      var r := OrderPoints(pts).value;
      && |r| == 4
      && multiset(r) <= multiset(pts)
      && (|pts| == 4 ==> multiset(r) == multiset(pts))
      && (forall i, j :: 0 <= i < 2 <= j < 4 ==> r[i].y <= r[j].y)
      && r[0].x <= r[1].x && r[3].x <= r[2].x
      && (r[0].x == r[1].x ==> r[0].y <= r[1].y)
      && (|pts| == 4 && r[3].x == r[2].x ==> r[3].y <= r[2].y)
  {
    OrderPointsUnfold(pts);
    if |pts| >= 4 {
      OrderPointsPicks(pts);
      OrderPointsPlaces(pts);
    }
  }

  /** Moving the lower pair after the upper pair: a stable sort by y of four points whose
      first two are no lower than the last two sorts each pair on its own. */
  lemma SortByYOfSplit(a: Point, b: Point, c: Point, d: Point)
    requires a.y <= c.y && a.y <= d.y && b.y <= c.y && b.y <= d.y
    ensures SortBy([a, b, c, d], Vertical) == SortBy([a, b], Vertical) + SortBy([c, d], Vertical)
  {
    assert [a, b, c, d][1..] == [b, c, d];
    assert [b, c, d][1..] == [c, d];
    SortTwo(c, d, Vertical);
    SortTwo(a, b, Vertical);
    var cd := SortBy([c, d], Vertical);
    assert SortBy([b, c, d], Vertical) == Insert(b, cd, Vertical);
    assert Insert(b, cd, Vertical) == [b] + cd;
    if a.y > b.y {
      assert ([b] + cd)[1..] == cd;
      assert Insert(a, cd, Vertical) == [a] + cd;
    }
  }

  /** A pair already in left-to-right order (the upper point first on a tie) comes back
      out of a sort by y followed by a sort by x in that order, whichever way it went in. */
  lemma PairCanonical(a: Point, b: Point)
    requires a.x <= b.x && (a.x == b.x ==> a.y <= b.y)
    ensures SortBy(SortBy([a, b], Vertical), Horizontal) == [a, b]
    ensures SortBy(SortBy([b, a], Vertical), Horizontal) == [a, b]
  {
    SortTwo(a, b, Vertical);
    SortTwo(b, a, Vertical);
    SortTwo(a, b, Horizontal);
    SortTwo(b, a, Horizontal);
  }

  /** Canonicalising a canonical quadrilateral changes nothing: order_points is idempotent on
      every four-point input, ties included, because both of its sorts are stable. */
  lemma OrderPointsIdempotent(pts: seq<Point>)
    requires |pts| == 4
    ensures OrderPoints(pts).Some?
    ensures OrderPoints(OrderPoints(pts).value) == OrderPoints(pts)
  {
    OrderPointsSpec(pts);
    var r := OrderPoints(pts).value;
    var tl, tr, br, bl := r[0], r[1], r[2], r[3];
    assert r == [tl, tr, br, bl];
    SortByYOfSplit(tl, tr, br, bl);
    var byY := SortBy(r, Vertical);
    var lo, hi := SortBy([tl, tr], Vertical), SortBy([br, bl], Vertical);
    assert |lo| == 2 && |hi| == 2 by {
      SortByPermutes([tl, tr], Vertical);
      SortByPermutes([br, bl], Vertical);
    }
    assert byY[..2] == lo && byY[2..] == hi;
    PairCanonical(tl, tr);
    PairCanonical(bl, br);
    assert Upper(r) == [tl, tr];
    assert Lower(r) == [bl, br];
    OrderPointsUnfold(r);
  }
}
