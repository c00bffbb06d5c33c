/**
 * Finder-pattern centres and the canonical ordering of a finder triple
 * (result_point.go). Coordinates are float64 in the source and exact reals
 * here; the Euclidean distance is replaced by its square, which orders pairs
 * of points the same way (see SquareMonotone).
 */
module ResultPoints {

  /** A located point, compared by value. */
  datatype ResultPoint = ResultPointBase(x: real, y: real) {
    function GetX(): real { x }
    function GetY(): real { y }
  }

  function NewResultPoint(x: real, y: real): (p: ResultPoint)
    ensures p.GetX() == x && p.GetY() == y
  {
    ResultPointBase(x, y)
  }

  /** Sign of a product; a step of SquareStrict. */
  lemma ProductPositive(s: real, t: real)
    requires 0.0 < s && 0.0 < t
    ensures 0.0 < s * t
  {
  }

  /** Sign of a product; a step of SquareStrict. */
  lemma ProductNonNegative(s: real, t: real)
    requires 0.0 <= s && 0.0 <= t
    ensures 0.0 <= s * t
  {
  }

  /** Squaring is strictly increasing on the non-negative reals. */
  lemma SquareStrict(a: real, b: real)
    requires 0.0 <= a < b
    ensures a * a < b * b
  {
    var x := a * (b - a);
    var y := (b - a) * b;
    assert 0.0 <= x by { ProductNonNegative(a, b - a); }
    assert 0.0 < y by { ProductPositive(b - a, b); }
    assert x + y == b * b - a * a;
  }

  /** Comparing non-negative lengths is the same as comparing their squares. */
  lemma SquareMonotone(a: real, b: real)
    requires 0.0 <= a && 0.0 <= b
    ensures a <= b <==> a * a <= b * b
  {
    if a < b {
      SquareStrict(a, b);
    } else if b < a {
      SquareStrict(b, a);
    }
  }

  /** The square of the Euclidean distance between two points. */
  function SquaredDistance(p: ResultPoint, q: ResultPoint): (d: real)
    ensures d >= 0.0
  {
    (p.GetX() - q.GetX()) * (p.GetX() - q.GetX()) + (p.GetY() - q.GetY()) * (p.GetY() - q.GetY())
  }

  /** The distance does not depend on the order of the two points. */
  lemma SquaredDistanceSymmetric(p: ResultPoint, q: ResultPoint)
    ensures SquaredDistance(p, q) == SquaredDistance(q, p)
  {
    var dx, dy := p.GetX() - q.GetX(), p.GetY() - q.GetY();
    assert (q.GetX() - p.GetX()) * (q.GetX() - p.GetX()) == dx * dx;
    assert (q.GetY() - p.GetY()) * (q.GetY() - p.GetY()) == dy * dy;
  }

  /** The z component of the cross product (C - B) x (A - B). */
  function CrossProductZ(a: ResultPoint, b: ResultPoint, c: ResultPoint): real
  {
    (c.GetX() - b.GetX()) * (a.GetY() - b.GetY()) - (c.GetY() - b.GetY()) * (a.GetX() - b.GetX())
  }

  /** Exchanging A and C reverses the winding. */
  lemma CrossProductZAntisymmetric(a: ResultPoint, b: ResultPoint, c: ResultPoint)
    ensures CrossProductZ(a, b, c) == -CrossProductZ(c, b, a)
  {
    var ax, ay := a.GetX() - b.GetX(), a.GetY() - b.GetY();
    var cx, cy := c.GetX() - b.GetX(), c.GetY() - b.GetY();
    assert CrossProductZ(a, b, c) == cx * ay - cy * ax;
    assert CrossProductZ(c, b, a) == ax * cy - ay * cx;
  }

  /** The squared length of the side of the triangle p that lies opposite p[i]. */
  function Side(p: seq<ResultPoint>, i: nat): real
    requires |p| == 3 && i < 3
  {
    if i == 0 then SquaredDistance(p[1], p[2])
    else if i == 1 then SquaredDistance(p[0], p[2])
    else SquaredDistance(p[0], p[1])
  }

  /**
   * The index of the point that becomes B: the vertex opposite a longest
   * side, and on ties the first such vertex in the order 0, 1, 2 (that is,
   * sides 1-2, then 0-2, then 0-1).
   */
  function CornerIndex(p: seq<ResultPoint>): (i: nat)
    requires |p| == 3
    ensures i < 3
    ensures forall j :: 0 <= j < 3 ==> Side(p, j) <= Side(p, i)
    ensures forall j :: 0 <= j < i ==> Side(p, j) < Side(p, i)
  {
    var zeroOne, oneTwo, zeroTwo := Side(p, 2), Side(p, 0), Side(p, 1);
    if oneTwo >= zeroOne && oneTwo >= zeroTwo then 0
    else if zeroTwo >= oneTwo && zeroTwo >= zeroOne then 1
    else 2
  }

  /** The first guess [A, B, C]: B is the corner, A and C the other two in input order. */
  function InitialGuess(p: seq<ResultPoint>): (g: seq<ResultPoint>)
    requires |p| == 3
    ensures |g| == 3 && g[1] == p[CornerIndex(p)]
  {
    var b := CornerIndex(p);
    if b == 0 then [p[1], p[0], p[2]]
    else if b == 1 then [p[0], p[1], p[2]]
    else [p[0], p[2], p[1]]
  }

  /**
   * The ordered triple [A, B, C] that OrderBestPatterns leaves in the slice:
   * the initial guess, with A and C exchanged when its winding is negative.
   */
  function OrderedBest(p: seq<ResultPoint>): (r: seq<ResultPoint>)
    requires |p| == 3
    ensures |r| == 3 && r[1] == p[CornerIndex(p)]
  {
    var g := InitialGuess(p);
    if CrossProductZ(g[0], g[1], g[2]) < 0.0 then [g[2], g[1], g[0]] else g
  }

  /** Exchanging the first two entries; the corner-0 guess in OrderedBestPermutation. */
  lemma MultisetSwapFirst(a: ResultPoint, b: ResultPoint, c: ResultPoint)
    ensures multiset([b, a, c]) == multiset([a, b, c])
  {
  }

  /** Exchanging the last two entries; the corner-2 guess in OrderedBestPermutation. */
  lemma MultisetSwapLast(a: ResultPoint, b: ResultPoint, c: ResultPoint)
    ensures multiset([a, c, b]) == multiset([a, b, c])
  {
  }

  /** Exchanging the ends; the winding fix in OrderedBestPermutation. */
  lemma MultisetReverse(a: ResultPoint, b: ResultPoint, c: ResultPoint)
    ensures multiset([c, b, a]) == multiset([a, b, c])
  {
  }

  /** The slice afterwards holds the same three points: a permutation of the input. */
  lemma OrderedBestPermutation(p: seq<ResultPoint>)
    requires |p| == 3
    ensures multiset(OrderedBest(p)) == multiset(p)
  {
    var g, r := InitialGuess(p), OrderedBest(p);
    assert p == [p[0], p[1], p[2]];
    var k := CornerIndex(p);
    if k == 0 {
      MultisetSwapFirst(p[0], p[1], p[2]);
    } else if k == 2 {
      MultisetSwapLast(p[0], p[1], p[2]);
    }
    assert multiset(g) == multiset(p);
    if r != g {
      assert r == [g[2], g[1], g[0]];
      MultisetReverse(g[0], g[1], g[2]);
      assert g == [g[0], g[1], g[2]];
    }
  }

  /** The winding fix never moves B: it keeps the guess or exchanges its ends. */
  lemma OrderedBestSwapsOnlyEnds(p: seq<ResultPoint>)
    requires |p| == 3
    ensures var g, r := InitialGuess(p), OrderedBest(p);
      r[1] == g[1] && (r == g || r == [g[2], g[1], g[0]])
  {
  }

  /** AB and BC are no longer than AC. */
  lemma OrderedBestLongestSide(p: seq<ResultPoint>)
    requires |p| == 3
    ensures var r := OrderedBest(p);
      SquaredDistance(r[0], r[2]) >= SquaredDistance(r[0], r[1]) &&
      SquaredDistance(r[0], r[2]) >= SquaredDistance(r[1], r[2])
  {
    var r := OrderedBest(p);
    SidesOfOrdered(p);
    assert Side(r, 1) >= Side(r, 2) && Side(r, 1) >= Side(r, 0);
  }

  /** The sides of the ordered triple are those of the input, the longest opposite B. */
  lemma SidesOfOrdered(p: seq<ResultPoint>)
    requires |p| == 3
    ensures var r, k := OrderedBest(p), CornerIndex(p);
      Side(r, 1) == Side(p, k) &&
      ((Side(r, 0) == Side(p, Other(k, 0)) && Side(r, 2) == Side(p, Other(k, 1))) ||
       (Side(r, 0) == Side(p, Other(k, 1)) && Side(r, 2) == Side(p, Other(k, 0))))
  {
    var r, k := OrderedBest(p), CornerIndex(p);
    SquaredDistanceSymmetric(p[0], p[1]);
    SquaredDistanceSymmetric(p[0], p[2]);
    SquaredDistanceSymmetric(p[1], p[2]);
    if k == 0 {
      assert r == [p[1], p[0], p[2]] || r == [p[2], p[0], p[1]];
    } else if k == 1 {
      assert r == [p[0], p[1], p[2]] || r == [p[2], p[1], p[0]];
    } else {
      assert r == [p[0], p[2], p[1]] || r == [p[1], p[2], p[0]];
    }
  }

  /** The n-th (n = 0 or 1) of the two indices of {0, 1, 2} other than k, in increasing order. */
  function Other(k: nat, n: nat): nat
    requires k < 3 && n < 2
  {
    var others := match k
      case 0 => (1, 2)
      case 1 => (0, 2)
      case _ => (0, 1);
    if n == 0 then others.0 else others.1
  }

  /** The ordered triple has a non-negative winding: crossProductZ(A, B, C) >= 0. */
  lemma OrderedBestWinding(p: seq<ResultPoint>)
    requires |p| == 3
    ensures var r := OrderedBest(p); CrossProductZ(r[0], r[1], r[2]) >= 0.0
  {
    var g := InitialGuess(p);
    CrossProductZAntisymmetric(g[0], g[1], g[2]);
  }

  /** When one side is strictly the longest, B is the vertex opposite it. */
  lemma OrderedBestUniqueLongest(p: seq<ResultPoint>, j: nat)
    requires |p| == 3 && j < 3
    requires forall i :: 0 <= i < 3 && i != j ==> Side(p, i) < Side(p, j)
    ensures OrderedBest(p)[1] == p[j]
  {
    var k := CornerIndex(p);
    assert Side(p, j) <= Side(p, k);
  }

  /** Ordering twice equals ordering once when the longest side is unique. */
  lemma OrderedBestIdempotent(p: seq<ResultPoint>, j: nat)
    requires |p| == 3 && j < 3
    requires forall i :: 0 <= i < 3 && i != j ==> Side(p, i) < Side(p, j)
    ensures OrderedBest(OrderedBest(p)) == OrderedBest(p)
  {
    var r := OrderedBest(p);
    assert CornerIndex(p) == j by {
      assert Side(p, j) <= Side(p, CornerIndex(p));
    }
    SidesOfOrdered(p);
    assert Side(p, Other(j, 0)) < Side(p, j) && Side(p, Other(j, 1)) < Side(p, j);
    assert Side(r, 0) < Side(r, 1) && Side(r, 2) < Side(r, 1);
    assert CornerIndex(r) == 1;
    assert InitialGuess(r) == r;
    OrderedBestWinding(p);
  }

  /**
   * Under a tie for the longest side, ordering is not idempotent: here sides
   * 1-2 and 0-1 tie, and a second call picks another corner.
   */
  lemma OrderedBestNotIdempotentUnderTie()
    ensures var p := [ResultPointBase(0.0, 0.0), ResultPointBase(1.0, -3.0), ResultPointBase(2.0, 0.0)];
      OrderedBest(OrderedBest(p)) != OrderedBest(p)
  {
    var o, m, t := ResultPointBase(0.0, 0.0), ResultPointBase(1.0, -3.0), ResultPointBase(2.0, 0.0);
    assert SquaredDistance(o, m) == 10.0 && SquaredDistance(m, o) == 10.0;
    assert SquaredDistance(m, t) == 10.0 && SquaredDistance(t, m) == 10.0;
    assert SquaredDistance(o, t) == 4.0 && SquaredDistance(t, o) == 4.0;
    var p := [o, m, t];
    assert CornerIndex(p) == 0;
    assert InitialGuess(p) == [m, o, t];
    assert CrossProductZ(m, o, t) == -6.0;
    var r := OrderedBest(p);
    assert r == [t, o, m];
    assert CornerIndex(r) == 0;
    assert InitialGuess(r) == [o, t, m];
    assert CrossProductZ(o, t, m) == -6.0;
    assert OrderedBest(r) == [m, t, o];
  }

  /**
   * The right-angle corner of a 3-4-5 triangle lands in the middle, and the
   * winding is non-negative, whatever order the three points come in.
   */
  lemma RightTriangleCorner(q: seq<ResultPoint>)
    requires var o, a, b := ResultPointBase(0.0, 0.0), ResultPointBase(3.0, 0.0), ResultPointBase(0.0, 4.0);
      q in {[o, a, b], [o, b, a], [a, o, b], [a, b, o], [b, o, a], [b, a, o]}
    ensures OrderedBest(q)[1] == ResultPointBase(0.0, 0.0)
    ensures var r := OrderedBest(q); CrossProductZ(r[0], r[1], r[2]) >= 0.0
  {
    var o, a, b := ResultPointBase(0.0, 0.0), ResultPointBase(3.0, 0.0), ResultPointBase(0.0, 4.0);
    assert SquaredDistance(o, a) == 9.0 && SquaredDistance(a, o) == 9.0;
    assert SquaredDistance(o, b) == 16.0 && SquaredDistance(b, o) == 16.0;
    assert SquaredDistance(a, b) == 25.0 && SquaredDistance(b, a) == 25.0;
    var j := if q[0] == o then 0 else if q[1] == o then 1 else 2;
    OrderedBestUniqueLongest(q, j);
    OrderedBestWinding(q);
  }

  /**
   * ResultPoint_OrderBestPatterns: reorders the first three entries of the
   * slice in place into [A, B, C]; entries past the third are not touched.
   */
  method OrderBestPatterns(patterns: array<ResultPoint>)
    requires patterns.Length >= 3
    modifies patterns
    ensures patterns[..3] == OrderedBest(old(patterns[..3]))
    ensures forall i :: 3 <= i < patterns.Length ==> patterns[i] == old(patterns[i])
  {
    ghost var p := patterns[..3];
    ghost var g := InitialGuess(p);
    var zeroOneDistance := SquaredDistance(patterns[0], patterns[1]);
    var oneTwoDistance := SquaredDistance(patterns[1], patterns[2]);
    var zeroTwoDistance := SquaredDistance(patterns[0], patterns[2]);

    var pointA, pointB, pointC;
    if oneTwoDistance >= zeroOneDistance && oneTwoDistance >= zeroTwoDistance {
      pointB, pointA, pointC := patterns[0], patterns[1], patterns[2];
      assert CornerIndex(p) == 0;
    } else if zeroTwoDistance >= oneTwoDistance && zeroTwoDistance >= zeroOneDistance {
      pointB, pointA, pointC := patterns[1], patterns[0], patterns[2];
      assert CornerIndex(p) == 1;
    } else {
      pointB, pointA, pointC := patterns[2], patterns[0], patterns[1];
      assert CornerIndex(p) == 2;
    }
    assert pointA == g[0] && pointB == g[1] && pointC == g[2];

    if CrossProductZ(pointA, pointB, pointC) < 0.0 {
      pointA, pointC := pointC, pointA;
    }
    ghost var r := OrderedBest(p);
    assert pointA == r[0] && pointB == r[1] && pointC == r[2];

    patterns[0] := pointA;
    patterns[1] := pointB;
    patterns[2] := pointC;
  }
}
