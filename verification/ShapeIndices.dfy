/**
 The triangles of the shapes, by the numbers of their vertices, and that each shape has
 as many as it reserves, all over its own vertices.
 */
module ShapeIndices {
  // ---------- what triangles cover

  datatype Triangle = Triangle(a: nat, b: nat, c: nat) {
    predicate Has(u: nat) {
      u == a || u == b || u == c
    }

    // The line from vertex u to vertex v is a side.
    predicate Side(u: nat, v: nat) {
      u != v && Has(u) && Has(v)
    }

    predicate Proper() {
      a != b && b != c && c != a
    }
  }

  // The k-th triangle of a list of vertices.
  function TriangleAt(tri: seq<nat>, k: nat): Triangle
    requires 3 * k + 3 <= |tri|
  {
    Triangle(tri[3 * k], tri[3 * k + 1], tri[3 * k + 2])
  }

  // Two triangles cover the four-cornered piece between its ends p, q and r, s: each of
  // its four sides belongs to exactly one of them.
  predicate Cover(t: Triangle, u: Triangle, p: nat, q: nat, r: nat, s: nat) {
    && t.Proper() && u.Proper()
    && t.Side(p, q) != u.Side(p, q) && t.Side(r, s) != u.Side(r, s)
    && t.Side(p, r) != u.Side(p, r) && t.Side(q, s) != u.Side(q, s)
  }

  // ---------- rectangles

  const RECT_TRI: seq<nat> := [0, 1, 2, 0, 2, 3]

  // The four corners, which go around.
  lemma RectIsCovered()
    ensures Cover(TriangleAt(RECT_TRI, 0), TriangleAt(RECT_TRI, 1), 0, 1, 3, 2)
  {
  }

  // ---------- filled convex polygons

  // The fan of triangles from corner 0; neighbouring corners are `step` vertices apart.
  function Fan(n: nat, step: nat): seq<nat> {
    if n <= 2 then [] else Fan(n - 1, step) + [0, (n - 2) * step, (n - 1) * step]
  }

  // The fringe along the first k edges of an n-cornered polygon: two triangles
  // between the inner and the outer vertices of the two ends of an edge.
  function FringeEdge(i0: nat, i1: nat): (tri: seq<nat>)
    ensures |tri| == 6
  {
    [2 * i1, 2 * i0, 1 + 2 * i0, 1 + 2 * i0, 1 + 2 * i1, 2 * i1]
  }

  function Fringe(n: nat, k: nat): seq<nat>
    requires n > 0
  {
    if k == 0 then [] else Fringe(n, k - 1) + FringeEdge(if k == 1 then n - 1 else k - 2, k - 1)
  }

  // The triangles of a filled polygon, with or without an anti-aliased edge.
  function PolyTriangles(n: nat, antiAliased: bool): seq<nat>
    requires n > 0
  {
    if antiAliased then Fan(n, 2) + Fringe(n, n) else Fan(n, 1)
  }

  ghost predicate Below(tri: seq<nat>, limit: nat) {
    forall k :: 0 <= k < |tri| ==> tri[k] < limit
  }

  lemma {:induction false} FanFits(n: nat, step: nat, limit: nat)
    requires (step == 1 || step == 2) && n * step <= limit
    ensures Below(Fan(n, step), limit) && |Fan(n, step)| == if n <= 2 then 0 else (n - 2) * 3
  {
    if n > 2 {
      FanFits(n - 1, step, limit);
    }
  }

  lemma {:induction false} FringeFits(n: nat, k: nat)
    requires 0 < n && k <= n
    ensures Below(Fringe(n, k), 2 * n) && |Fringe(n, k)| == 6 * k
    decreases k
  {
    if k > 0 {
      FringeFits(n, k - 1);
    }
  }

  // A polygon writes exactly the indices it reserves, all inside its own vertices.
  lemma PolyFits(n: nat, antiAliased: bool)
    requires n >= 3
    ensures |PolyTriangles(n, antiAliased)| == (n - 2) * 3 + if antiAliased then n * 6 else 0
    ensures Below(PolyTriangles(n, antiAliased), if antiAliased then n * 2 else n)
  {
    if antiAliased {
      FanFits(n, 2, 2 * n);
      FringeFits(n, n);
    } else {
      FanFits(n, 1, n);
    }
  }

  lemma {:induction false} FanAt(n: nat, step: nat, k: nat)
    requires k + 2 < n && |Fan(n, step)| == 3 * (n - 2)
    ensures TriangleAt(Fan(n, step), k) == Triangle(0, (k + 1) * step, (k + 2) * step)
    decreases n
  {
    if k + 3 < n {
      FanAt(n - 1, step, k);
    }
  }

  lemma {:induction false} FanLength(n: nat, step: nat)
    requires 2 <= n
    ensures |Fan(n, step)| == 3 * (n - 2)
  {
    if 2 < n {
      FanLength(n - 1, step);
    }
  }

  // The fan covers the polygon: each side from corner c to the next belongs to exactly one
  // triangle, and each line from corner 0 to a corner c not beside it to exactly two.
  lemma FanIsCovering(n: nat, step: nat, k: nat, c: nat)
    requires n >= 3 && (step == 1 || step == 2) && k + 2 < n && c < n
    ensures |Fan(n, step)| == 3 * (n - 2) && TriangleAt(Fan(n, step), k).Proper()
    ensures var next := if c + 1 == n then 0 else c + 1;
            TriangleAt(Fan(n, step), k).Side(c * step, next * step)
            <==> k == if c == 0 then 0 else if c + 1 == n then n - 3 else c - 1
    ensures 2 <= c < n - 1 ==> (TriangleAt(Fan(n, step), k).Side(0, c * step) <==> k == c - 2 || k == c - 1)
  {
    hide Fan, TriangleAt;
    FanLength(n, step);
    FanAt(n, step, k);
  }

  lemma {:induction false} FringeAt(n: nat, k: nat, i: nat)
    requires 0 < n && i < k && |Fringe(n, k)| == 6 * k
    ensures Fringe(n, k)[6 * i..6 * i + 6] == FringeEdge(if i == 0 then n - 1 else i - 1, i)
    decreases k
  {
    hide FringeEdge;
    if i < k - 1 {
      FringeAt(n, k - 1, i);
      assert Fringe(n, k)[6 * i..6 * i + 6] == Fringe(n, k - 1)[6 * i..6 * i + 6];
    }
  }

  lemma TwoTriangles(tri: seq<nat>, i: nat, pair: seq<nat>)
    requires 6 * i + 6 <= |tri| && |pair| == 6 && tri[6 * i..6 * i + 6] == pair
    ensures TriangleAt(tri, 2 * i) == TriangleAt(pair, 0) && TriangleAt(tri, 2 * i + 1) == TriangleAt(pair, 1)
  {
    assert forall k :: 0 <= k < 6 ==> tri[6 * i + k] == pair[k];
  }

  // The fringe covers, for every edge of the polygon, the piece between the inner and the
  // outer vertices of its two ends.
  lemma FringeIsCovering(n: nat, i: nat)
    requires n >= 2 && i < n
    ensures |Fringe(n, n)| == 6 * n
    ensures var before := if i == 0 then n - 1 else i - 1;
            Cover(TriangleAt(Fringe(n, n), 2 * i), TriangleAt(Fringe(n, n), 2 * i + 1),
                  2 * before, 2 * before + 1, 2 * i, 2 * i + 1)
  {
    hide Fringe;
    FringeFits(n, n);
    FringeAt(n, n, i);
    TwoTriangles(Fringe(n, n), i, FringeEdge(if i == 0 then n - 1 else i - 1, i));
  }

  lemma FringeGoesOn(n: nat, k: nat)
    requires n > 0
    ensures Fringe(n, k + 1) == Fringe(n, k) + FringeEdge(if k == 0 then n - 1 else k - 1, k)
  {
  }

  // ---------- polylines

  // How a line is drawn: along a texture, thin or thick with an anti-aliased edge, or
  // plainly, each segment by itself.
  datatype LineStyle = Textured | Thin | Thick | Plain

  // What decides the style: the flags of the list, and how thick the line is against the
  // width of an anti-aliased edge.
  datatype Stroke = Stroke(antiAliased: bool, texturedLines: bool, thickness: real, fringeScale: real)

  // Lines at least this wide have no texture.
  const TEX_LINES_WIDTH_MAX := 63

  // Only lines of a whole width that is baked into the texture are drawn along it, and
  // only thicknesses above the edge have a solid core.
  function StyleOf(s: Stroke): (style: LineStyle)
    ensures style.Plain? <==> !s.antiAliased
    ensures style.Textured? ==> s.thickness < TEX_LINES_WIDTH_MAX as real
    ensures style.Thick? ==> s.thickness > s.fringeScale
    ensures style.Thin? ==> s.thickness <= s.fringeScale
  {
    var thickLine := s.thickness > s.fringeScale;
    var thickness := if s.thickness >= 1.0 then s.thickness else 1.0;
    var fractional := thickness - thickness.Floor as real;
    if !s.antiAliased then Plain
    else if s.texturedLines && thickness.Floor < TEX_LINES_WIDTH_MAX && fractional <= 0.00001 && s.fringeScale == 1.0
    then Textured
    else if thickLine then Thick else Thin
  }

  // As thick as a baked line, give or take what a texture does not show.
  predicate NearlyWhole(thickness: real, width: int) {
    width as real <= thickness <= width as real + 0.00001
  }

  // Which lines are drawn how; a line thinner than 1 counts as a line of width 1.
  lemma StyleIs(s: Stroke)
    ensures StyleOf(s).Plain? <==> !s.antiAliased
    ensures StyleOf(s).Textured? <==>
              && s.antiAliased && s.texturedLines && s.fringeScale == 1.0
              && (s.thickness < 1.0 || exists w :: 1 <= w < 63 && NearlyWhole(s.thickness, w))
    ensures StyleOf(s).Thick? <==> s.antiAliased && !StyleOf(s).Textured? && s.thickness > s.fringeScale
  {
    if s.thickness >= 1.0 {
      var w := s.thickness.Floor;
      assert NearlyWhole(s.thickness, w) <==> s.thickness - w as real <= 0.00001;
      forall v | 1 <= v < 63 && NearlyWhole(s.thickness, v) ensures v == w {
      }
    }
  }

  // Vertices per point of the line, or per segment of a plain line.
  function Stride(style: LineStyle): nat {
    match style case Textured => 2 case Thin => 3 case Thick => 4 case Plain => 4
  }

  function IndicesPerSegment(style: LineStyle): nat {
    match style case Textured => 6 case Thin => 12 case Thick => 18 case Plain => 6
  }

  // The triangles of a segment between the points whose first vertices are a and b.
  function Segment(style: LineStyle, a: nat, b: nat): (tri: seq<nat>)
    ensures |tri| == IndicesPerSegment(style)
    ensures forall k :: 0 <= k < |tri| ==> tri[k] < a + Stride(style) || tri[k] < b + Stride(style)
  {
    match style
    case Textured => [b + 0, a + 0, a + 1, b + 1, a + 1, b + 0]
    case Thin => [b + 0, a + 0, a + 2, a + 2, b + 2, b + 0, b + 1, a + 1, a + 0, a + 0, b + 0, b + 1]
    case Thick =>
      [b + 1, a + 1, a + 2, a + 2, b + 2, b + 1, b + 1, a + 1, a + 0, a + 0, b + 0, b + 1,
       b + 2, a + 2, a + 3, a + 3, b + 3, b + 2]
    case Plain => [a, a + 1, a + 2, a, a + 2, a + 3]
  }

  // Where the second point of segment k - 1 has its vertices: a closed line of n
  // points ends where it starts.
  function EndOf(style: LineStyle, n: nat, k: nat): nat {
    if k == n then 0 else k * Stride(style)
  }

  // The first k segments of a line of n points.
  function Segments(style: LineStyle, n: nat, k: nat): seq<nat> {
    if k == 0 then [] else Segments(style, n, k - 1) + Segment(style, (k - 1) * Stride(style), EndOf(style, n, k))
  }

  function SegmentCount(n: nat, closed: bool): nat
    requires n >= 2
  {
    if closed then n else n - 1
  }

  function LineVertices(style: LineStyle, n: nat, closed: bool): nat
    requires n >= 2
  {
    (if style.Plain? then SegmentCount(n, closed) else n) * Stride(style)
  }

  lemma {:induction false} SegmentsLength(style: LineStyle, n: nat, k: nat)
    ensures |Segments(style, n, k)| == k * IndicesPerSegment(style)
  {
    if k > 0 {
      SegmentsLength(style, n, k - 1);
      assert k * IndicesPerSegment(style) == (k - 1) * IndicesPerSegment(style) + IndicesPerSegment(style);
    }
  }

  lemma {:induction false} SegmentsFit(style: LineStyle, n: nat, k: nat, points: nat)
    requires k <= points && (style.Plain? || k <= n == points)
    ensures |Segments(style, n, k)| == k * IndicesPerSegment(style)
    ensures Below(Segments(style, n, k), points * Stride(style))
    decreases k
  {
    hide Segment, Stride, IndicesPerSegment;
    SegmentsLength(style, n, k);
    if k > 0 {
      SegmentsFit(style, n, k - 1, points);
      LastSegmentFits(style, n, k, points);
    }
  }

  lemma LastSegmentFits(style: LineStyle, n: nat, k: nat, points: nat)
    requires 0 < k <= points && (style.Plain? || k <= n == points)
    ensures Below(Segment(style, (k - 1) * Stride(style), EndOf(style, n, k)), points * Stride(style))
  {
    ProductsInOrder(k, points, Stride(style));
    if !style.Plain? && k < n {
      ProductsInOrder(k + 1, points, Stride(style));
    }
    assert k * Stride(style) == (k - 1) * Stride(style) + Stride(style);
    assert (k + 1) * Stride(style) == k * Stride(style) + Stride(style);
  }

  lemma ProductsInOrder(a: nat, b: nat, s: nat)
    requires a <= b
    ensures a * s <= b * s
  {
  }

  // A polyline writes exactly the indices it reserves, all inside its own vertices.
  lemma LineFits(style: LineStyle, n: nat, closed: bool)
    requires n >= 2
    ensures var k := SegmentCount(n, closed);
            && |Segments(style, n, k)| == k * IndicesPerSegment(style)
            && Below(Segments(style, n, k), LineVertices(style, n, closed))
  {
    var k := SegmentCount(n, closed);
    SegmentsFit(style, n, k, if style.Plain? then k else n);
  }

  // Two triangles cover each piece of a segment, from its one end to the other: a thin
  // line has a piece on either side of its middle, a thick one a core and two edges.
  ghost predicate SegmentCovers(style: LineStyle, tri: seq<nat>, a: nat, b: nat)
    requires |tri| == IndicesPerSegment(style)
  {
    match style
    case Textured => Cover(TriangleAt(tri, 0), TriangleAt(tri, 1), a, a + 1, b, b + 1)
    case Thin =>
      && Cover(TriangleAt(tri, 0), TriangleAt(tri, 1), a, a + 2, b, b + 2)
      && Cover(TriangleAt(tri, 2), TriangleAt(tri, 3), a, a + 1, b, b + 1)
    case Thick =>
      && Cover(TriangleAt(tri, 0), TriangleAt(tri, 1), a + 1, a + 2, b + 1, b + 2)
      && Cover(TriangleAt(tri, 2), TriangleAt(tri, 3), a, a + 1, b, b + 1)
      && Cover(TriangleAt(tri, 4), TriangleAt(tri, 5), a + 2, a + 3, b + 2, b + 3)
    case Plain => Cover(TriangleAt(tri, 0), TriangleAt(tri, 1), a, a + 1, a + 3, a + 2)
  }

  lemma SegmentIsCovering(style: LineStyle, a: nat, b: nat)
    requires a + Stride(style) <= b || b + Stride(style) <= a
    ensures SegmentCovers(style, Segment(style, a, b), a, b)
  {
  }

  lemma {:induction false} SegmentAt(style: LineStyle, n: nat, k: nat, i: nat)
    requires i < k && |Segments(style, n, k)| == k * IndicesPerSegment(style)
    requires |Segments(style, n, k - 1)| == (k - 1) * IndicesPerSegment(style)
    ensures var m := IndicesPerSegment(style);
            && (i + 1) * m <= k * m
            && Segments(style, n, k)[i * m..(i + 1) * m] == Segment(style, i * Stride(style), EndOf(style, n, i + 1))
    decreases k
  {
    hide Segment;
    var m := IndicesPerSegment(style);
    ProductsInOrder(i + 1, k, m);
    assert (i + 1) * m == i * m + m;
    if i < k - 1 {
      SegmentsLength(style, n, k - 2);
      SegmentAt(style, n, k - 1, i);
      assert Segments(style, n, k)[i * m..(i + 1) * m] == Segments(style, n, k - 1)[i * m..(i + 1) * m];
    }
  }

  // The triangles of a line cover it: between every point and the next, and for a closed
  // line between the last and the first, they cover all pieces, and there are no others.
  lemma LineIsCovered(style: LineStyle, n: nat, closed: bool, i: nat)
    requires n >= 2 && (i + 1 < n || (i + 1 == n && closed))
    ensures var m := IndicesPerSegment(style); var tri := Segments(style, n, SegmentCount(n, closed));
            && |tri| == (if closed then n else n - 1) * m
            && (i + 1) * m <= |tri| && (i + 1) * m - i * m == m
            && SegmentCovers(style, tri[i * m..(i + 1) * m], i * Stride(style),
                             if i + 1 == n then 0 else (i + 1) * Stride(style))
  {
    hide Segment, Segments;
    var k := SegmentCount(n, closed);
    SegmentsLength(style, n, k);
    SegmentsLength(style, n, k - 1);
    SegmentAt(style, n, k, i);
    var a, b := i * Stride(style), EndOf(style, n, i + 1);
    assert (i + 1) * Stride(style) == a + Stride(style);
    if i + 1 == n {
      ProductsInOrder(1, i, Stride(style));
    }
    SegmentIsCovering(style, a, b);
  }

  lemma SegmentTouches(style: LineStyle, a: nat, b: nat, off: nat)
    requires off < Stride(style)
    ensures a + off in Segment(style, a, b)
    ensures !style.Plain? ==> b + off in Segment(style, a, b)
  {
    var tri := Segment(style, a, b);
    match style
    case Textured => assert tri[1] == a && tri[2] == a + 1 && tri[0] == b && tri[3] == b + 1;
    case Thin =>
      assert tri[1] == a && tri[2] == a + 2 && tri[7] == a + 1;
      assert tri[0] == b && tri[4] == b + 2 && tri[6] == b + 1;
    case Thick =>
      assert tri[1] == a + 1 && tri[2] == a + 2 && tri[8] == a && tri[14] == a + 3;
      assert tri[0] == b + 1 && tri[4] == b + 2 && tri[10] == b && tri[16] == b + 3;
    case Plain => assert tri[0] == a && tri[1] == a + 1 && tri[2] == a + 2 && tri[5] == a + 3;
  }

  lemma {:induction false} VerticesOfSegment(style: LineStyle, n: nat, k: nat, i: nat, v: nat)
    requires i < k && v in Segment(style, i * Stride(style), EndOf(style, n, i + 1))
    ensures v in Segments(style, n, k)
    decreases k
  {
    hide Segment;
    if i < k - 1 {
      VerticesOfSegment(style, n, k - 1, i, v);
    }
  }

  // No vertex of a line is written for nothing.
  lemma EveryVertexIsUsed(style: LineStyle, n: nat, closed: bool, v: nat)
    requires n >= 2 && v < LineVertices(style, n, closed)
    ensures v in Segments(style, n, SegmentCount(n, closed))
  {
    hide Segment, Segments;
    var i, off := v / Stride(style), v % Stride(style);
    var count := SegmentCount(n, closed);
    assert v == i * Stride(style) + off;
    if i < count {
      SegmentTouches(style, i * Stride(style), EndOf(style, n, i + 1), off);
      VerticesOfSegment(style, n, count, i, v);
    } else {
      NoFurther(i, if style.Plain? then count else n, Stride(style), off);
      SegmentTouches(style, (i - 1) * Stride(style), EndOf(style, n, i), off);
      VerticesOfSegment(style, n, count, i - 1, v);
    }
  }

  lemma NoFurther(i: nat, points: nat, stride: nat, off: nat)
    requires i * stride + off < points * stride
    ensures i < points
  {
    if points <= i {
      ProductsInOrder(points, i, stride);
    }
  }

  lemma {:induction false} SegmentsShorter(style: LineStyle, n: nat, k: nat, count: nat)
    requires k <= count
    ensures |Segments(style, n, k)| <= |Segments(style, n, count)|
    decreases count
  {
    if k < count {
      SegmentsShorter(style, n, k, count - 1);
    }
  }
}
