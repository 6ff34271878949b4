/**
 * The self-intersection test of an irregular polygon under construction:
 * `segmentosSeIntersectan`, an exact integer test on two segments, and
 * `hayInterseccionEntreVertices`, a scan over pairs of edges of the open
 * chain of clicked vertices. The controller and the older frame carry
 * identical copies of both; they are defined once here.
 */
module Geometry {
  import opened Shapes

  /** `p - q`, the `sub` helper. */
  function Sub(p: Point, q: Point): Point
  {
    Point(p.x - q.x, p.y - q.y)
  }

  /** The z component of the cross product of `p` and `q`, the `cross` helper. */
  function Cross(p: Point, q: Point): int
  {
    p.x * q.y - p.y * q.x
  }

  /** One of `u`, `v` is strictly positive and the other strictly negative. */
  predicate StrictlyOpposite(u: int, v: int)
  {
    (u > 0 && v < 0) || (u < 0 && v > 0)
  }

  /**
   * `segmentosSeIntersectan`: segment a-b and segment c-d cross when c and d
   * lie strictly on opposite sides of the line through a and b, and a and b
   * strictly on opposite sides of the line through c and d. A zero cross
   * product (an endpoint on the other line, a shared endpoint, collinear
   * segments) answers false.
   */
  function SegmentosSeIntersectan(a: Point, b: Point, c: Point, d: Point): (r: bool)
    ensures r ==> Cross(Sub(b, a), Sub(c, a)) != 0 && Cross(Sub(b, a), Sub(d, a)) != 0
    ensures r ==> Cross(Sub(d, c), Sub(a, c)) != 0 && Cross(Sub(d, c), Sub(b, c)) != 0
    ensures (a == c || a == d || b == c || b == d) ==> !r
  {
    var ab := Sub(b, a);
    var ac := Sub(c, a);
    var ad := Sub(d, a);
    var cd := Sub(d, c);
    var ca := Sub(a, c);
    var cb := Sub(b, c);
    var cross1 := Cross(ab, ac);
    var cross2 := Cross(ab, ad);
    var cross3 := Cross(cd, ca);
    var cross4 := Cross(cd, cb);
    StrictlyOpposite(cross1, cross2) && StrictlyOpposite(cross3, cross4)
  }

  /**
   * The point at fraction `t` along a-b is the point at fraction `u` along
   * c-d, both fractions strictly between 0 and 1: the two segments meet at a
   * point interior to both.
   */
  ghost predicate MeetAt(a: Point, b: Point, c: Point, d: Point, t: real, u: real)
  {
    0.0 < t < 1.0 && 0.0 < u < 1.0 &&
    a.x as real + t * (b.x - a.x) as real == c.x as real + u * (d.x - c.x) as real &&
    a.y as real + t * (b.y - a.y) as real == c.y as real + u * (d.y - c.y) as real
  }

  /**
   * The geometric meaning of a proper crossing: the segments are not
   * parallel and they meet at a point interior to both.
   */
  ghost predicate ProperCrossing(a: Point, b: Point, c: Point, d: Point)
  {
    Cross(Sub(b, a), Sub(d, c)) != 0 && exists t, u :: MeetAt(a, b, c, d, t, u)
  }

  /** The cross products against a-b (or c-d) of two points differ by the cross product of the two directions. */
  lemma CrossDifferences(a: Point, b: Point, c: Point, d: Point)
    ensures Cross(Sub(b, a), Sub(d, a)) == Cross(Sub(b, a), Sub(c, a)) + Cross(Sub(b, a), Sub(d, c))
    ensures Cross(Sub(d, c), Sub(b, c)) == Cross(Sub(d, c), Sub(a, c)) - Cross(Sub(b, a), Sub(d, c))
  {
  }

  /** In the plane, `Cross(p, q) * w == Cross(w, q) * p + Cross(p, w) * q`, coordinate by coordinate. */
  lemma CrossDecomposition(p: Point, q: Point, w: Point)
    ensures Cross(p, q) * w.x == Cross(w, q) * p.x + Cross(p, w) * q.x
    ensures Cross(p, q) * w.y == Cross(w, q) * p.y + Cross(p, w) * q.y
  {
  }

  lemma ScaleToZero(x: real, k: real)
    requires x * k == 0.0 && k != 0.0
    ensures x == 0.0
  {
  }

  lemma PositiveQuotient(p: real, k: real)
    requires (p > 0.0 && k > 0.0) || (p < 0.0 && k < 0.0)
    ensures p / k > 0.0
  {
    if k < 0.0 {
      assert p / k == (-p) / (-k);
    }
  }

  lemma QuotientSum(p: real, q: real, k: real)
    requires k != 0.0
    ensures p / k + q / k == (p + q) / k
  {
  }

  /** A strict sign test forces the crossing point's fraction `p / (p - q)` into (0, 1). */
  lemma FractionBetween(p: int, q: int, k: int)
    requires k == p - q && StrictlyOpposite(p, q)
    ensures k != 0 && 0.0 < p as real / k as real < 1.0
  {
    var pr, qr, kr := p as real, q as real, k as real;
    PositiveQuotient(pr, kr);
    PositiveQuotient(-qr, kr);
    QuotientSum(pr, -qr, kr);
    assert pr - qr == kr;
    assert kr / kr == 1.0;
  }

  /**
   * One coordinate of the meeting point: when `k·w + c3·p + c1·q == 0`, the
   * fractions `t = c3 / k` and `u = -c1 / k` make `w + t·p - u·q` vanish.
   */
  lemma MeetingCoordinate(w: int, p: int, q: int, k: int, c3: int, c1: int)
    requires k != 0 && k * w + c3 * p + c1 * q == 0
    ensures w as real + (c3 as real / k as real) * p as real - (-c1 as real / k as real) * q as real == 0.0
  {
    var kr := k as real;
    var t, u := c3 as real / kr, -c1 as real / kr;
    assert t * kr == c3 as real;
    assert u * kr == -c1 as real;
    var e := w as real + t * p as real - u * q as real;
    calc {
      e * kr;
      w as real * kr + (t * p as real) * kr - (u * q as real) * kr;
      w as real * kr + (t * kr) * p as real - (u * kr) * q as real;
      w as real * kr + c3 as real * p as real + c1 as real * q as real;
      (k * w + c3 * p + c1 * q) as real;
    }
    ScaleToZero(e, kr);
  }

  /** In the plane, `k·w + cross3·ab + cross1·cd` vanishes, coordinate by coordinate. */
  lemma CrossIdentity(a: Point, b: Point, c: Point, d: Point)
    ensures var ab, cd, w := Sub(b, a), Sub(d, c), Sub(a, c);
      Cross(ab, cd) * w.x + Cross(cd, w) * ab.x + Cross(ab, Sub(c, a)) * cd.x == 0 &&
      Cross(ab, cd) * w.y + Cross(cd, w) * ab.y + Cross(ab, Sub(c, a)) * cd.y == 0
  {
    var ab, cd, w := Sub(b, a), Sub(d, c), Sub(a, c);
    CrossDecomposition(ab, cd, w);
    assert Cross(w, cd) == -Cross(cd, w);
    assert Cross(ab, w) == -Cross(ab, Sub(c, a));
  }

  /** When the test answers true, the segments meet at a point interior to both. */
  lemma CrossingMeets(a: Point, b: Point, c: Point, d: Point)
    requires SegmentosSeIntersectan(a, b, c, d)
    ensures ProperCrossing(a, b, c, d)
  {
    var ab, cd, w := Sub(b, a), Sub(d, c), Sub(a, c);
    var k := Cross(ab, cd);
    var cross1 := Cross(ab, Sub(c, a));
    var cross2 := Cross(ab, Sub(d, a));
    var cross3 := Cross(cd, w);
    var cross4 := Cross(cd, Sub(b, c));
    CrossDifferences(a, b, c, d);
    FractionBetween(cross3, cross4, k);
    FractionBetween(-cross1, -cross2, k);
    CrossIdentity(a, b, c, d);
    MeetingCoordinate(w.x, ab.x, cd.x, k, cross3, cross1);
    MeetingCoordinate(w.y, ab.y, cd.y, k, cross3, cross1);
    var t := cross3 as real / k as real;
    var u := -cross1 as real / k as real;
    assert MeetAt(a, b, c, d, t, u);
  }

  /**
   * Crossing the meeting equation `w + t·ab == u·cd` with `cd`, and with
   * `ab`, isolates `t` and `u`.
   */
  lemma CrossOut(wx: real, wy: real, abx: real, aby: real, cdx: real, cdy: real, t: real, u: real)
    requires wx + t * abx == u * cdx && wy + t * aby == u * cdy
    ensures cdx * wy - cdy * wx == t * (abx * cdy - aby * cdx)
    ensures abx * wy - aby * wx == u * (abx * cdy - aby * cdx)
  {
    calc {
      cdx * wy - cdy * wx;
      cdx * (u * cdy - t * aby) - cdy * (u * cdx - t * abx);
      t * (abx * cdy - aby * cdx);
    }
    calc {
      abx * wy - aby * wx;
      abx * (u * cdy - t * aby) - aby * (u * cdx - t * abx);
      u * (abx * cdy - aby * cdx);
    }
  }

  lemma CrossAsReal(p: Point, q: Point)
    ensures Cross(p, q) as real == p.x as real * q.y as real - p.y as real * q.x as real
  {
  }

  lemma PositiveProduct(p: real, q: real)
    requires p > 0.0 && q > 0.0
    ensures p * q > 0.0
  {
  }

  /** A fraction strictly between 0 and 1 of `k` lies strictly between 0 and `k`. */
  lemma FractionSigns(t: real, k: int, x: int)
    requires 0.0 < t < 1.0 && k != 0 && x as real == t * k as real
    ensures k > 0 ==> 0 < x < k
    ensures k < 0 ==> k < x < 0
  {
    var m := if k > 0 then k as real else -(k as real);
    PositiveProduct(t, m);
    PositiveProduct(1.0 - t, m);
    assert (1.0 - t) * m == m - t * m;
  }

  /** Where the segments meet, `t` and `u` are the cross products `cross3` and `-cross1` divided by `k`. */
  lemma MeetingFractions(a: Point, b: Point, c: Point, d: Point, t: real, u: real)
    requires MeetAt(a, b, c, d, t, u)
    ensures Cross(Sub(d, c), Sub(a, c)) as real == t * Cross(Sub(b, a), Sub(d, c)) as real
    ensures Cross(Sub(b, a), Sub(c, a)) as real == -(u * Cross(Sub(b, a), Sub(d, c)) as real)
  {
    var ab, cd, w := Sub(b, a), Sub(d, c), Sub(a, c);
    assert w.x as real + t * ab.x as real == u * cd.x as real;
    assert w.y as real + t * ab.y as real == u * cd.y as real;
    CrossOut(w.x as real, w.y as real, ab.x as real, ab.y as real, cd.x as real, cd.y as real, t, u);
    CrossAsReal(cd, w);
    CrossAsReal(ab, w);
    CrossAsReal(ab, cd);
    assert Cross(ab, w) == -Cross(ab, Sub(c, a));
  }

  /**
   * The sign test passes once `cross3` and `-cross1` are fractions strictly
   * between 0 and 1 of `k`, `cross2` exceeds `cross1` by `k` and `cross4`
   * falls short of `cross3` by `k`.
   */
  lemma CrossesByFractions(cross1: int, cross2: int, cross3: int, cross4: int, k: int, t: real, u: real)
    requires 0.0 < t < 1.0 && 0.0 < u < 1.0 && k != 0
    requires cross3 as real == t * k as real && cross1 as real == -(u * k as real)
    requires cross2 == cross1 + k && cross4 == cross3 - k
    ensures StrictlyOpposite(cross1, cross2) && StrictlyOpposite(cross3, cross4)
  {
    FractionSigns(t, k, cross3);
    FractionSigns(u, k, -cross1);
  }

  /** When the segments meet at a point interior to both and are not parallel, the test answers true. */
  lemma MeetingCrosses(a: Point, b: Point, c: Point, d: Point, t: real, u: real)
    requires Cross(Sub(b, a), Sub(d, c)) != 0 && MeetAt(a, b, c, d, t, u)
    ensures SegmentosSeIntersectan(a, b, c, d)
  {
    var ab, cd := Sub(b, a), Sub(d, c);
    MeetingFractions(a, b, c, d, t, u);
    CrossDifferences(a, b, c, d);
    CrossesByFractions(Cross(ab, Sub(c, a)), Cross(ab, Sub(d, a)), Cross(cd, Sub(a, c)), Cross(cd, Sub(b, c)),
                       Cross(ab, cd), t, u);
  }

  /**
   * The integer test is exact: it answers true exactly when the two segments
   * are not parallel and meet at a point interior to both.
   */
  lemma CrossingIsProper(a: Point, b: Point, c: Point, d: Point)
    ensures SegmentosSeIntersectan(a, b, c, d) <==> ProperCrossing(a, b, c, d)
  {
    if SegmentosSeIntersectan(a, b, c, d) {
      CrossingMeets(a, b, c, d);
    }
    if ProperCrossing(a, b, c, d) {
      var t, u :| MeetAt(a, b, c, d, t, u);
      MeetingCrosses(a, b, c, d, t, u);
    }
  }

  /**
   * The test evaluated from the six difference vectors it forms, once they
   * are known; with literal vectors the four cross products compute.
   */
  lemma TestFromDifferences(a: Point, b: Point, c: Point, d: Point,
                            ab: Point, ac: Point, ad: Point, cd: Point, ca: Point, cb: Point)
    requires Sub(b, a) == ab && Sub(c, a) == ac && Sub(d, a) == ad
    requires Sub(d, c) == cd && Sub(a, c) == ca && Sub(b, c) == cb
    ensures SegmentosSeIntersectan(a, b, c, d) <==>
      StrictlyOpposite(Cross(ab, ac), Cross(ab, ad)) && StrictlyOpposite(Cross(cd, ca), Cross(cd, cb))
  {
  }

  /**
   * The two diagonals of a square cross; as the first and third edges of the
   * chain (0,0), (10,10), (10,0), (0,10) they form a bowtie.
   */
  lemma DiagonalsCross(a: Point, b: Point, c: Point, d: Point)
    requires a == Point(0, 0) && b == Point(10, 10) && c == Point(10, 0) && d == Point(0, 10)
    ensures SegmentosSeIntersectan(a, b, c, d)
  {
    TestFromDifferences(a, b, c, d, Point(10, 10), Point(10, 0), Point(0, 10), Point(-10, 10), Point(-10, 0), Point(0, 10));
  }

  /**
   * A segment with an endpoint on the line through the other segment (a T
   * junction, a shared endpoint, collinear segments) does not cross it: a
   * zero cross product fails the strict sign test.
   */
  lemma TouchingDoesNotCross(a: Point, b: Point, c: Point, d: Point)
    requires Cross(Sub(b, a), Sub(c, a)) == 0 || Cross(Sub(b, a), Sub(d, a)) == 0
          || Cross(Sub(d, c), Sub(a, c)) == 0 || Cross(Sub(d, c), Sub(b, c)) == 0
    ensures !SegmentosSeIntersectan(a, b, c, d)
  {
  }

  /** Parallel (or collinear) segments never cross. */
  lemma ParallelDoNotCross(a: Point, b: Point, c: Point, d: Point)
    requires Cross(Sub(b, a), Sub(d, c)) == 0
    ensures !SegmentosSeIntersectan(a, b, c, d)
  {
    CrossDifferences(a, b, c, d);
  }

  // ------------------------------------------------------------- Java widths

  /** Every value of Java's `int`. */
  predicate IsJavaInt(x: int) { -0x8000_0000 <= x < 0x8000_0000 }

  /** Every value of Java's `long`. */
  predicate IsJavaLong(x: int) { -0x8000_0000_0000_0000 <= x < 0x8000_0000_0000_0000 }

  /** Canvas coordinates as the model bounds them: less than 2^30 in absolute value. */
  predicate OnCanvas(p: Point) { -0x4000_0000 < p.x < 0x4000_0000 && -0x4000_0000 < p.y < 0x4000_0000 }

  /** Multiplying by a non-negative factor keeps an inequality. */
  lemma MulMonotone(x: int, y: int, c: int)
    requires x <= y && 0 <= c
    ensures x * c <= y * c
  {
  }

  lemma ProductBound(x: int, y: int, m: int)
    requires 0 <= m && -m <= x <= m && -m <= y <= m
    ensures -(m * m) <= x * y <= m * m
  {
    var ax := if x < 0 then -x else x;
    var ay := if y < 0 then -y else y;
    MulMonotone(ax, m, ay);
    MulMonotone(ay, m, m);
    assert ax * ay <= m * m;
    assert x * y == ax * ay || x * y == -(ax * ay);
  }

  /**
   * On the canvas the subtractions of `sub` stay within `int` and the
   * products and difference of `cross` (done in `long`) stay within `long`,
   * so the unbounded arithmetic here is the arithmetic Java performs.
   */
  lemma CrossFitsInLong(p: Point, q: Point, r: Point, s: Point)
    requires OnCanvas(p) && OnCanvas(q) && OnCanvas(r) && OnCanvas(s)
    ensures IsJavaInt(Sub(p, q).x) && IsJavaInt(Sub(p, q).y)
    ensures IsJavaInt(Sub(r, s).x) && IsJavaInt(Sub(r, s).y)
    ensures IsJavaLong(Cross(Sub(p, q), Sub(r, s)))
  {
    var m := 0x7FFF_FFFE;
    var u, v := Sub(p, q), Sub(r, s);
    ProductBound(u.x, v.y, m);
    ProductBound(u.y, v.x, m);
  }

  // ------------------------------------------------------------ the chain

  /** Edge `i` of the chain (from vertex i to vertex i + 1) crosses edge `j`. */
  predicate EdgesCross(v: seq<Point>, i: int, j: int)
    requires 0 <= i < |v| - 1 && 0 <= j < |v| - 1
  {
    SegmentosSeIntersectan(v[i], v[i + 1], v[j], v[j + 1])
  }

  /**
   * The edge pairs the scan of an `n`-vertex chain tests: edge i against a
   * later, non-adjacent edge j of the open chain, except the first edge
   * against the last. The closing edge from the last vertex back to the
   * first is never an edge of the chain.
   */
  predicate CheckedPair(n: int, i: int, j: int)
  {
    0 <= i && i + 2 <= j <= n - 2 && !(i == 0 && j == n - 2)
  }

  /** What `hayInterseccionEntreVertices` answers: some tested pair of edges crosses. */
  predicate ChainSelfCrosses(v: seq<Point>)
  {
    exists i, j :: 0 <= i < |v| && 0 <= j < |v| && CheckedPair(|v|, i, j) && EdgesCross(v, i, j)
  }

  /**
   * `hayInterseccionEntreVertices`: the nested scan with its early exits.
   * Chains of fewer than four vertices are answered false at once.
   */
  method HayInterseccionEntreVertices(v: seq<Point>) returns (r: bool)
    ensures r == ChainSelfCrosses(v)
  {
    var n := |v|;
    if n < 4 {
      return false;
    }
    var i := 0;
    while i < n - 1
      invariant 0 <= i <= n - 1
      invariant forall i', j' :: 0 <= i' < i && CheckedPair(n, i', j') ==> !EdgesCross(v, i', j')
    {
      var a1 := v[i];
      var a2 := v[i + 1];
      var j := i + 2;
      while j < n - 1
        invariant i + 2 <= j
        invariant forall i', j' :: 0 <= i' < i && CheckedPair(n, i', j') ==> !EdgesCross(v, i', j')
        invariant forall j' :: i + 2 <= j' < j && CheckedPair(n, i, j') ==> !EdgesCross(v, i, j')
      {
        if !(i == 0 && j == n - 2) {
          var b1 := v[j];
          var b2 := v[j + 1];
          if SegmentosSeIntersectan(a1, a2, b1, b2) {
            assert CheckedPair(n, i, j) && EdgesCross(v, i, j);
            return true;
          }
        }
        j := j + 1;
      }
      i := i + 1;
    }
    return false;
  }

  /** Chains of at most four vertices are never reported, whatever their shape. */
  lemma ShortChainsPass(v: seq<Point>)
    requires |v| <= 4
    ensures !ChainSelfCrosses(v)
  {
  }

  /**
   * The bowtie (0,0), (10,10), (10,0), (0,10): its first and third edges
   * cross, yet with four vertices no pair is tested and the scan reports
   * nothing.
   */
  lemma BowtieIsNotDetected(a: Point, b: Point, c: Point, d: Point)
    requires a == Point(0, 0) && b == Point(10, 10) && c == Point(10, 0) && d == Point(0, 10)
    ensures SegmentosSeIntersectan(a, b, c, d) && !ChainSelfCrosses([a, b, c, d])
  {
    DiagonalsCross(a, b, c, d);
    ShortChainsPass([a, b, c, d]);
  }

  /**
   * In a five-vertex chain only two pairs of edges are tested, the first with
   * the third and the second with the fourth: the closing edge, from the
   * last vertex back to the first, is never compared with anything.
   */
  lemma {:induction false} FiveVertexChainTests(v: seq<Point>)
    requires |v| == 5
    ensures ChainSelfCrosses(v) <==> EdgesCross(v, 0, 2) || EdgesCross(v, 1, 3)
  {
    if ChainSelfCrosses(v) {
      var i, j :| 0 <= i < |v| && 0 <= j < |v| && CheckedPair(|v|, i, j) && EdgesCross(v, i, j);
      assert (i, j) == (0, 2) || (i, j) == (1, 3);
    }
    if EdgesCross(v, 0, 2) {
      assert CheckedPair(5, 0, 2);
    }
    if EdgesCross(v, 1, 3) {
      assert CheckedPair(5, 1, 3);
    }
  }

  /**
   * The chain (0,0), (10,10), (20,0), (25,-10), (18,8): its closing edge
   * crosses its second edge, while neither tested pair crosses, so the
   * scan lets it through.
   */
  lemma ClosingEdgeNotChecked(p0: Point, p1: Point, p2: Point, p3: Point, p4: Point)
    requires p0 == Point(0, 0) && p1 == Point(10, 10) && p2 == Point(20, 0)
    requires p3 == Point(25, -10) && p4 == Point(18, 8)
    ensures SegmentosSeIntersectan(p4, p0, p1, p2)
    ensures !SegmentosSeIntersectan(p0, p1, p2, p3) && !SegmentosSeIntersectan(p1, p2, p3, p4)
    ensures !ChainSelfCrosses([p0, p1, p2, p3, p4])
  {
    TestFromDifferences(p4, p0, p1, p2, Point(-18, -8), Point(-8, 2), Point(2, -8), Point(10, -10), Point(8, -2), Point(-10, -10));
    TestFromDifferences(p0, p1, p2, p3, Point(10, 10), Point(20, 0), Point(25, -10), Point(5, -10), Point(-20, 0), Point(-10, 10));
    TestFromDifferences(p1, p2, p3, p4, Point(10, -10), Point(15, -20), Point(8, -2), Point(-7, 18), Point(-15, 20), Point(-5, 10));
    FiveVertexChainTests([p0, p1, p2, p3, p4]);
  }
}
