/**
 * The fiducial locator of venv/omr.py, from the contour bounding boxes
 * onward: keep the boxes larger than 0.002 of the image area, fail when
 * fewer than four remain, keep the four largest, and order their centres
 * top-left, top-right, bottom-right, bottom-left.
 */
module Fiducials {

  import opened Options
  import opened StableSort

  /** A bounding rectangle `(x, y, ww, hh)` as `cv2.boundingRect` returns it. */
  datatype Box = Box(x: int, y: int, ww: int, hh: int)
  {
    function Area(): int { ww * hh }
  }

  datatype Point = Point(x: real, y: real)

  /** `0.002 * w * h` for an image `w` pixels wide and `h` high. */
  function MinArea(w: int, h: int): real
  {
    0.002 * w as real * h as real
  }

  predicate Qualifies(b: Box, w: int, h: int)
  {
    b.Area() as real > MinArea(w, h)
  }

  /** The boxes that pass the area filter, in contour order. */
  function Qualifying(boxes: seq<Box>, w: int, h: int): (squares: seq<Box>)
    ensures forall b :: b in squares <==> b in boxes && Qualifies(b, w, h)
    ensures multiset(squares) <= multiset(boxes)
    ensures forall b {:trigger multiset(squares)[b]} :: multiset(squares)[b] == if Qualifies(b, w, h) then multiset(boxes)[b] else 0
    ensures |squares| <= |boxes|
  {
    if |boxes| == 0 then []
    else
      assert boxes == [boxes[0]] + boxes[1..];
      (if Qualifies(boxes[0], w, h) then [boxes[0]] else []) + Qualifying(boxes[1..], w, h)
  }

  /** One filter step: the first box is kept or dropped on its own. */
  lemma QualifyingCons(x: Box, t: seq<Box>, w: int, h: int)
    ensures Qualifying([x] + t, w, h) == (if Qualifies(x, w, h) then [x] else []) + Qualifying(t, w, h)
  {
    assert ([x] + t)[0] == x && ([x] + t)[1..] == t;
  }

  /** The filter keeps input order: filtering a concatenation concatenates the filtered parts. */
  lemma {:induction false} QualifyingAppend(a: seq<Box>, b: seq<Box>, w: int, h: int)
    ensures Qualifying(a + b, w, h) == Qualifying(a, w, h) + Qualifying(b, w, h)
  {
    if |a| == 0 {
      assert a + b == b;
    } else {
      var x, rest := a[0], a[1..];
      assert a == [x] + rest;
      assert a + b == [x] + (rest + b);
      QualifyingCons(x, rest + b, w, h);
      QualifyingCons(x, rest, w, h);
      QualifyingAppend(rest, b, w, h);
    }
  }

  lemma {:induction false} AllQualify(boxes: seq<Box>, w: int, h: int)
    requires forall i :: 0 <= i < |boxes| ==> Qualifies(boxes[i], w, h)
    ensures Qualifying(boxes, w, h) == boxes
  {
    if |boxes| > 0 {
      AllQualify(boxes[1..], w, h);
    }
  }

  /** The sort key of `sorted(..., key=area, reverse=True)`. */
  predicate LargerArea(a: Box, b: Box)
  {
    a.Area() > b.Area()
  }

  /** The sort key of `sorted(..., key=lambda p: (p[1], p[0]))`. */
  predicate RowMajorBefore(p: Point, q: Point)
  {
    p.y < q.y || (p.y == q.y && p.x < q.x)
  }

  predicate LeftOf(p: Point, q: Point)
  {
    p.x < q.x
  }

  /** The sort key of `sorted(..., key=x, reverse=True)`. */
  predicate RightOf(p: Point, q: Point)
  {
    p.x > q.x
  }

  lemma SortKeysAreWeakOrders()
    ensures StrictWeakOrder(LargerArea)
    ensures StrictWeakOrder(RowMajorBefore)
    ensures StrictWeakOrder(LeftOf)
    ensures StrictWeakOrder(RightOf)
  {
  }

  /** The first four of the squares sorted by decreasing area. */
  function LargestFour(squares: seq<Box>): (r: seq<Box>)
    requires |squares| >= 4
    ensures |r| == 4
    ensures multiset(r) <= multiset(squares)
    ensures forall b, o :: b in r && o in multiset(squares) - multiset(r) ==> o.Area() <= b.Area()
  {
    var sorted := Sort(squares, LargerArea);
    SortKeysAreWeakOrders();
    SortSorted(squares, LargerArea);
    assert sorted == sorted[..4] + sorted[4..];
    var r := sorted[..4];
    assert forall b, o :: b in r && o in multiset(squares) - multiset(r) ==> o.Area() <= b.Area() by {
      forall b, o | b in r && o in multiset(squares) - multiset(r)
        ensures o.Area() <= b.Area()
      {
        var i :| 0 <= i < 4 && r[i] == b;
        assert o in multiset(sorted[4..]);
        assert o in sorted[4..];
        var m :| 0 <= m < |sorted[4..]| && sorted[4..][m] == o;
        assert !LargerArea(sorted[m + 4], sorted[i]);
      }
    }
    r
  }

  /**
   * Four qualifying boxes of one size are all kept, in their input order:
   * the stable sort leaves ties where they were.
   */
  lemma EqualSquaresKept(boxes: seq<Box>, w: int, h: int)
    requires |boxes| == 4
    requires forall i :: 0 <= i < 4 ==> Qualifies(boxes[i], w, h) && boxes[i].Area() == boxes[0].Area()
    ensures Qualifying(boxes, w, h) == boxes
    ensures LargestFour(boxes) == boxes
  {
    AllQualify(boxes, w, h);
    assert SortedBy(boxes, LargerArea);
    SortOfSorted(boxes, LargerArea);
    assert boxes[..4] == boxes;
  }

  /** `(x + ww/2, y + hh/2)`, with Python's true division. */
  function Centre(b: Box): Point
  {
    Point(b.x as real + b.ww as real / 2.0, b.y as real + b.hh as real / 2.0)
  }

  function Centres(bs: seq<Box>): (ps: seq<Point>)
    ensures |ps| == |bs|
    ensures forall i :: 0 <= i < |bs| ==> ps[i] == Centre(bs[i])
  {
    seq(|bs|, i requires 0 <= i < |bs| => Centre(bs[i]))
  }

  /**
   * Four points in the order top-left, top-right, bottom-right,
   * bottom-left: the first two are no further down (in (y, x) order) than
   * the last two, the top pair runs left to right and the bottom pair
   * right to left.
   */
  ghost predicate CornerOrdered(p: seq<Point>)
  {
    && |p| == 4
    && p[0].x <= p[1].x
    && p[2].x >= p[3].x
    && forall i, j :: 0 <= i < 2 <= j < 4 ==> !RowMajorBefore(p[j], p[i])
  }

  function OrderCorners(centres: seq<Point>): (r: seq<Point>)
    requires |centres| == 4
    ensures multiset(r) == multiset(centres)
    ensures CornerOrdered(r)
  {
    var s := Sort(centres, RowMajorBefore);
    var top := Sort(s[..2], LeftOf);
    var bottom := Sort(s[2..], RightOf);
    OrderCornersCorrect(centres);
    [top[0], top[1], bottom[0], bottom[1]]
  }

  lemma OrderCornersCorrect(centres: seq<Point>)
    requires |centres| == 4
    ensures var s := Sort(centres, RowMajorBefore);
      var top := Sort(s[..2], LeftOf);
      var bottom := Sort(s[2..], RightOf);
      && |top| == 2 && |bottom| == 2
      && multiset([top[0], top[1], bottom[0], bottom[1]]) == multiset(centres)
      && CornerOrdered([top[0], top[1], bottom[0], bottom[1]])
  {
    var s := Sort(centres, RowMajorBefore);
    RowMajorSplit(centres);
    assert s[..2] == [s[0], s[1]] && s[2..] == [s[2], s[3]];
    assert s == [s[0], s[1], s[2], s[3]];
    PairOrdered(s[0], s[1], s[2], s[3]);
  }

  /** After the (y, x) sort, the first two centres are above the last two. */
  lemma RowMajorSplit(centres: seq<Point>)
    requires |centres| == 4
    ensures var s := Sort(centres, RowMajorBefore);
      && !RowMajorBefore(s[2], s[0]) && !RowMajorBefore(s[3], s[0])
      && !RowMajorBefore(s[2], s[1]) && !RowMajorBefore(s[3], s[1])
  {
    SortKeysAreWeakOrders();
    SortSorted(centres, RowMajorBefore);
    var s := Sort(centres, RowMajorBefore);
    assert SortedBy(s, RowMajorBefore);
  }

  /** Sorting the upper pair by x and the lower pair by decreasing x. */
  lemma PairOrdered(a: Point, b: Point, c: Point, d: Point)
    requires !RowMajorBefore(c, a) && !RowMajorBefore(d, a)
    requires !RowMajorBefore(c, b) && !RowMajorBefore(d, b)
    ensures var top := Sort([a, b], LeftOf);
      var bottom := Sort([c, d], RightOf);
      && multiset([top[0], top[1], bottom[0], bottom[1]]) == multiset([a, b, c, d])
      && CornerOrdered([top[0], top[1], bottom[0], bottom[1]])
  {
    SortPair(a, b, LeftOf);
    SortPair(c, d, RightOf);
    var top := Sort([a, b], LeftOf);
    var bottom := Sort([c, d], RightOf);
    var r := [top[0], top[1], bottom[0], bottom[1]];
    assert multiset(r) == multiset([a, b, c, d]) by {
      assert r == top + bottom;
      assert [a, b, c, d] == [a, b] + [c, d];
    }
    if LeftOf(b, a) {
      if RightOf(d, c) {
        CornerOrderedOf(b, a, d, c);
      } else {
        CornerOrderedOf(b, a, c, d);
      }
    } else {
      if RightOf(d, c) {
        CornerOrderedOf(a, b, d, c);
      } else {
        CornerOrderedOf(a, b, c, d);
      }
    }
  }

  lemma CornerOrderedOf(p: Point, q: Point, u: Point, v: Point)
    requires p.x <= q.x && u.x >= v.x
    requires !RowMajorBefore(u, p) && !RowMajorBefore(v, p)
    requires !RowMajorBefore(u, q) && !RowMajorBefore(v, q)
    ensures CornerOrdered([p, q, u, v])
  {
    var r := [p, q, u, v];
    forall i, j | 0 <= i < 2 <= j < 4
      ensures !RowMajorBefore(r[j], r[i])
    {
    }
  }

  /**
   * Centres listed top-left, top-right, bottom-left, bottom-right of an
   * upright sheet come out top-left, top-right, bottom-right, bottom-left.
   */
  lemma {:induction false} UprightCorners(tl: Point, tr: Point, bl: Point, br: Point)
    requires tl.y == tr.y < bl.y == br.y
    requires tl.x < tr.x && bl.x < br.x
    ensures OrderCorners([tl, tr, bl, br]) == [tl, tr, br, bl]
  {
    UprightRows(tl, tr, bl, br);
    UprightPairs(tl, tr, bl, br);
    var s := [tl, tr, bl, br];
    assert s[..2] == [tl, tr] && s[2..] == [bl, br];
  }

  lemma UprightRows(tl: Point, tr: Point, bl: Point, br: Point)
    requires tl.y == tr.y < bl.y == br.y
    requires tl.x < tr.x && bl.x < br.x
    ensures Sort([tl, tr, bl, br], RowMajorBefore) == [tl, tr, bl, br]
  {
    var s := [tl, tr, bl, br];
    forall i, j | 0 <= i < j < 4
      ensures !RowMajorBefore(s[j], s[i])
    {
    }
    SortOfSorted([tl, tr, bl, br], RowMajorBefore);
  }

  lemma UprightPairs(tl: Point, tr: Point, bl: Point, br: Point)
    requires tl.x < tr.x && bl.x < br.x
    ensures Sort([tl, tr], LeftOf) == [tl, tr]
    ensures Sort([bl, br], RightOf) == [br, bl]
  {
    SortPair(tl, tr, LeftOf);
    SortPair(bl, br, RightOf);
  }

  /**
   * `find_fiducials` from the bounding boxes of the external contours of an
   * image `w` pixels wide and `h` high; `None` when fewer than four boxes
   * pass the area filter. No other failure exists: any four qualifying
   * boxes give an ordered result.
   */
  function FindFiducials(boxes: seq<Box>, w: int, h: int): (r: Option<seq<Point>>)
    ensures r.None? <==> |Qualifying(boxes, w, h)| < 4
    ensures r.Some? ==>
      && CornerOrdered(r.value)
      && multiset(r.value) == multiset(Centres(LargestFour(Qualifying(boxes, w, h))))
  {
    var squares := Qualifying(boxes, w, h);
    if |squares| < 4 then None
    else Some(OrderCorners(Centres(LargestFour(squares))))
  }

}
