/**
 The shapes: filled rectangles, images, filled convex polygons and polylines, each
 written into exactly the room it reserved.
 */
module DrawShapes {
  import opened DrawList
  import opened DrawSpec
  import opened DrawTrace
  import opened ShapeIndices

  // ---------- rectangles

  function RectCorners(a: Vec2, c: Vec2, uvA: Vec2, uvC: Vec2, col: int): seq<DrawVert> {
    [DrawVert(a, uvA, col), DrawVert(Vec2(c.x, a.y), Vec2(uvC.x, uvA.y), col),
     DrawVert(c, uvC, col), DrawVert(Vec2(a.x, c.y), Vec2(uvA.x, uvC.y), col)]
  }

  // The corners go around the rectangle from a over c, and each has the texture
  // coordinates that belong to its sides.
  lemma CornersGoAround(a: Vec2, c: Vec2, uvA: Vec2, uvC: Vec2, col: int)
    ensures var v := RectCorners(a, c, uvA, uvC, col);
            && |v| == 4 && (v[0].pos, v[0].uv) == (a, uvA) && (v[2].pos, v[2].uv) == (c, uvC)
            && v[0].pos.y == v[1].pos.y && v[1].pos.x == v[2].pos.x && v[2].pos.y == v[3].pos.y && v[3].pos.x == v[0].pos.x
            && v[0].uv.y == v[1].uv.y && v[1].uv.x == v[2].uv.x && v[2].uv.y == v[3].uv.y && v[3].uv.x == v[0].uv.x
            && forall k :: 0 <= k < 4 ==> v[k].col == col
  {
  }

  // Opaque enough to be drawn: the alpha byte is not zero.
  predicate Visible(col: int) {
    (col / 0x100_0000) % 0x100 != 0
  }

  // The alpha byte is the highest of the four.
  lemma VisibleIffAlpha(a: nat, b: nat, g: nat, r: nat)
    requires a < 0x100 && b < 0x100 && g < 0x100 && r < 0x100
    ensures Visible(a * 0x100_0000 + b * 0x1_0000 + g * 0x100 + r) <==> a != 0
  {
  }

  // A rectangle written into a reservation of 6 indices and 4 vertices.
  method PrimRectUV(dl: DrawList, a: Vec2, c: Vec2, uvA: Vec2, uvC: Vec2, col: int)
    requires dl.idxWrite + 6 <= |dl.idxBuffer| && dl.vtxWrite + 4 <= |dl.vtxBuffer|
    modifies dl`idxBuffer, dl`idxWrite, dl`vtxBuffer, dl`vtxWrite, dl`vtxCurrentIdx
    ensures |dl.idxBuffer| == |old(dl.idxBuffer)| && dl.idxWrite == old(dl.idxWrite) + 6
    ensures |dl.vtxBuffer| == |old(dl.vtxBuffer)| && dl.vtxWrite == old(dl.vtxWrite) + 4
    ensures dl.vtxCurrentIdx == old(dl.vtxCurrentIdx) + 4
    ensures dl.idxBuffer[..dl.idxWrite] == old(dl.idxBuffer[..dl.idxWrite]) + Indices(old(dl.vtxCurrentIdx), RECT_TRI)
    ensures dl.vtxBuffer[..dl.vtxWrite] == old(dl.vtxBuffer[..dl.vtxWrite]) + RectCorners(a, c, uvA, uvC, col)
  {
    var b, d, uvB, uvD := Vec2(c.x, a.y), Vec2(a.x, c.y), Vec2(uvC.x, uvA.y), Vec2(uvA.x, uvC.y);
    var idx := dl.vtxCurrentIdx % INDEX_LIMIT;
    var i1, i2, i3 := (idx + 1) % INDEX_LIMIT, (idx + 2) % INDEX_LIMIT, (idx + 3) % INDEX_LIMIT;
    CutTwice(dl.vtxCurrentIdx, 1);
    CutTwice(dl.vtxCurrentIdx, 2);
    CutTwice(dl.vtxCurrentIdx, 3);
    assert Indices(dl.vtxCurrentIdx, RECT_TRI) == [idx, i1, i2, idx, i2, i3];
    dl.PrimWriteIdx(idx);
    dl.PrimWriteIdx(i1);
    dl.PrimWriteIdx(i2);
    dl.PrimWriteIdx(idx);
    dl.PrimWriteIdx(i2);
    dl.PrimWriteIdx(i3);
    dl.WriteVertices([DrawVert(a, uvA, col), DrawVert(b, uvB, col), DrawVert(c, uvC, col), DrawVert(d, uvD, col)]);
    dl.vtxCurrentIdx := dl.vtxCurrentIdx + 4;
  }

  // Cutting to 16 bits before and after an addition is the same as cutting after it.
  lemma CutTwice(n: nat, k: nat)
    ensures (n % INDEX_LIMIT + k) % INDEX_LIMIT == (n + k) % INDEX_LIMIT
  {
    assert n == n / INDEX_LIMIT * INDEX_LIMIT + n % INDEX_LIMIT;
  }

  method AddRectUV(dl: DrawList, a: Vec2, c: Vec2, uvA: Vec2, uvC: Vec2, col: int)
    requires dl.Valid()
    modifies dl`cmdBuffer, dl`idxBuffer, dl`vtxBuffer, dl`cmdHeader, dl`vtxCurrentIdx, dl`vtxWrite, dl`idxWrite
    ensures dl.Drew(Figure(RectCorners(a, c, uvA, uvC, col), RECT_TRI, 4, 4))
  {
    hide Trace, Contiguous, Fetch, Indices, Ordered, Batched, WithFigure;
    ghost var f := Figure(RectCorners(a, c, uvA, uvC, col), RECT_TRI, 4, 4);
    ghost var over := dl.StartsOver(4);
    dl.PrimReserve(6, 4);
    ghost var kept, was := old(dl.idxBuffer), dl.idxBuffer[|old(dl.idxBuffer)|..];
    assert dl.idxBuffer == kept + was;
    ghost var cur := dl.vtxCurrentIdx;
    PrimRectUV(dl, a, c, uvA, uvC, col);
    assert dl.idxBuffer == dl.idxBuffer[..dl.idxWrite] == kept + Indices(cur, RECT_TRI);
    assert dl.vtxBuffer == dl.vtxBuffer[..dl.vtxWrite];
    dl.Rewritten(kept, was, Indices(cur, RECT_TRI), old(dl.Meaning()));
    FigureBatched(old(dl.cmdBuffer), over, dl.cmdHeader, |kept|, f, |old(dl.vtxBuffer)|);
  }

  // Nothing has been drawn and nothing changed that drawing depends on.
  twostate predicate Untouched(dl: DrawList)
    reads dl
  {
    && dl.cmdBuffer == old(dl.cmdBuffer) && dl.idxBuffer == old(dl.idxBuffer) && dl.vtxBuffer == old(dl.vtxBuffer)
    && dl.cmdHeader == old(dl.cmdHeader) && dl.vtxCurrentIdx == old(dl.vtxCurrentIdx)
  }

  // A filled rectangle with square corners; nothing if it is fully transparent.
  method AddRectFilled(dl: DrawList, min: Vec2, max: Vec2, uv: Vec2, col: int)
    requires dl.Valid()
    modifies dl`cmdBuffer, dl`idxBuffer, dl`vtxBuffer, dl`cmdHeader, dl`vtxCurrentIdx, dl`vtxWrite, dl`idxWrite
    ensures if Visible(col) then dl.Drew(Figure(RectCorners(min, max, uv, uv, col), RECT_TRI, 4, 4)) else Untouched(dl)
  {
    if (col / 0x100_0000) % 0x100 == 0 {
      return;
    }
    AddRectUV(dl, min, max, uv, uv, col);
  }

  // An image: drawn under its own texture, after which the texture in force is again
  // what it was.
  method AddImage(dl: DrawList, tex: int, min: Vec2, max: Vec2, uvMin: Vec2, uvMax: Vec2, col: int)
    requires dl.Valid() && dl.cmdHeader.tex == Last(dl.textureIdStack, 0)
    modifies dl`cmdBuffer, dl`idxBuffer, dl`vtxBuffer, dl`cmdHeader, dl`vtxCurrentIdx, dl`vtxWrite, dl`idxWrite,
             dl`textureIdStack
    ensures dl.Valid() && dl.textureIdStack == old(dl.textureIdStack)
    ensures !Visible(col) ==> Untouched(dl)
    ensures Visible(col) ==>
      var over := old(dl.StartsOver(4));
      var cur := if over then 0 else old(dl.vtxCurrentIdx);
      && dl.cmdHeader == (if over then old(dl.cmdHeader).(vtxOffset := |old(dl.vtxBuffer)|) else old(dl.cmdHeader))
      && dl.vtxCurrentIdx == cur + 4
      && dl.vtxBuffer == old(dl.vtxBuffer) + RectCorners(min, max, uvMin, uvMax, col)
      && dl.idxBuffer == old(dl.idxBuffer) + Indices(cur, RECT_TRI)
      && dl.Meaning() == old(dl.Meaning()) + Fetch(dl.cmdHeader.(tex := tex), Indices(cur, RECT_TRI))
  {
    hide Trace, Contiguous, Fetch, Indices, Ordered, Batched;
    if (col / 0x100_0000) % 0x100 == 0 {
      return;
    }
    var push := tex != dl.cmdHeader.tex;
    if push {
      dl.PushTextureID(tex);
    }
    AddRectUV(dl, min, max, uvMin, uvMax, col);
    if push {
      assert dl.textureIdStack[..|dl.textureIdStack| - 1] == old(dl.textureIdStack);
      dl.PopTextureID();
    }
  }

  // ---------- filled convex polygons

  // Write the fan of a polygon.
  method WriteFan(dl: DrawList, n: nat, step: nat, cur: nat)
    requires n >= 3 && (step == 1 || step == 2) && dl.idxWrite + (n - 2) * 3 <= |dl.idxBuffer|
    modifies dl`idxBuffer, dl`idxWrite
    ensures |dl.idxBuffer| == |old(dl.idxBuffer)| && dl.idxWrite == old(dl.idxWrite) + (n - 2) * 3
    ensures dl.idxBuffer[..dl.idxWrite] == old(dl.idxBuffer[..dl.idxWrite]) + Indices(cur, Fan(n, step))
  {
    hide Indices;
    var i := 2;
    assert Indices(cur, Fan(2, step)) == [];
    while i < n
      invariant 2 <= i <= n && |dl.idxBuffer| == |old(dl.idxBuffer)| && dl.idxWrite == old(dl.idxWrite) + (i - 2) * 3
      invariant dl.idxBuffer[..dl.idxWrite] == old(dl.idxBuffer[..dl.idxWrite]) + Indices(cur, Fan(i, step))
    {
      IndicesConcat(cur, Fan(i, step), [0, (i - 1) * step, i * step]);
      dl.WriteIndices(cur, [0, (i - 1) * step, i * step]);
      i := i + 1;
    }
  }

  // Write the fringe of a polygon, with the inner and outer vertex of each corner.
  method WriteFringe(dl: DrawList, n: nat, verts: seq<DrawVert>, cur: nat)
    requires n >= 3 && |verts| == 2 * n
    requires dl.idxWrite + n * 6 <= |dl.idxBuffer| && dl.vtxWrite + n * 2 <= |dl.vtxBuffer|
    modifies dl`idxBuffer, dl`idxWrite, dl`vtxBuffer, dl`vtxWrite
    ensures |dl.idxBuffer| == |old(dl.idxBuffer)| && dl.idxWrite == old(dl.idxWrite) + n * 6
    ensures dl.idxBuffer[..dl.idxWrite] == old(dl.idxBuffer[..dl.idxWrite]) + Indices(cur, Fringe(n, n))
    ensures |dl.vtxBuffer| == |old(dl.vtxBuffer)| && dl.vtxWrite == old(dl.vtxWrite) + n * 2
    ensures dl.vtxBuffer[..dl.vtxWrite] == old(dl.vtxBuffer[..dl.vtxWrite]) + verts
  {
    hide Indices, Fringe, FringeEdge;
    var i0, i1 := n - 1, 0;
    FringeStarts(n, cur);
    while i1 < n
      invariant 0 <= i1 <= n && i0 == if i1 == 0 then n - 1 else i1 - 1
      invariant |dl.idxBuffer| == |old(dl.idxBuffer)| && dl.idxWrite == old(dl.idxWrite) + i1 * 6
      invariant dl.idxBuffer[..dl.idxWrite] == old(dl.idxBuffer[..dl.idxWrite]) + Indices(cur, Fringe(n, i1))
      invariant |dl.vtxBuffer| == |old(dl.vtxBuffer)| && dl.vtxWrite == old(dl.vtxWrite) + i1 * 2
      invariant dl.vtxBuffer[..dl.vtxWrite] == old(dl.vtxBuffer[..dl.vtxWrite]) + verts[..2 * i1]
    {
      dl.WriteVertices([verts[2 * i1], verts[2 * i1 + 1]]);
      assert verts[..2 * (i1 + 1)] == verts[..2 * i1] + [verts[2 * i1], verts[2 * i1 + 1]];
      FringeGoesOn(n, i1);
      IndicesConcat(cur, Fringe(n, i1), FringeEdge(i0, i1));
      dl.WriteIndices(cur, FringeEdge(i0, i1));
      i0 := i1;
      i1 := i1 + 1;
    }
    assert verts[..2 * n] == verts;
  }

  lemma FringeStarts(n: nat, cur: nat)
    requires n > 0
    ensures Indices(cur, Fringe(n, 0)) == []
  {
  }

  method WritePoly(dl: DrawList, n: nat, verts: seq<DrawVert>, antiAliased: bool, cur: nat)
    requires n >= 3 && |verts| == (if antiAliased then n * 2 else n)
    requires dl.idxWrite + |PolyTriangles(n, antiAliased)| <= |dl.idxBuffer| && dl.vtxWrite + |verts| <= |dl.vtxBuffer|
    modifies dl`idxBuffer, dl`idxWrite, dl`vtxBuffer, dl`vtxWrite
    ensures |dl.idxBuffer| == |old(dl.idxBuffer)| && dl.idxWrite == old(dl.idxWrite) + |PolyTriangles(n, antiAliased)|
    ensures dl.idxBuffer[..dl.idxWrite] == old(dl.idxBuffer[..dl.idxWrite]) + Indices(cur, PolyTriangles(n, antiAliased))
    ensures |dl.vtxBuffer| == |old(dl.vtxBuffer)| && dl.vtxWrite == old(dl.vtxWrite) + |verts|
    ensures dl.vtxBuffer[..dl.vtxWrite] == old(dl.vtxBuffer[..dl.vtxWrite]) + verts
  {
    hide Indices, Fan, Fringe;
    PolyFits(n, antiAliased);
    if antiAliased {
      // The fan first, then the fringe edge by edge
      WriteFan(dl, n, 2, cur);
      WriteFringe(dl, n, verts, cur);
      IndicesConcat(cur, Fan(n, 2), Fringe(n, n));
    } else {
      dl.WriteVertices(verts);
      WriteFan(dl, n, 1, cur);
    }
  }

  // A filled convex polygon of n corners.  The vertices are the corners, or with an
  // anti-aliased edge an inner and an outer vertex for each.  Their number is cut to 16
  // bits where it is added to the next free index.
  method AddConvexPolyFilled(dl: DrawList, n: int, verts: seq<DrawVert>, antiAliased: bool)
    requires dl.Valid()
    requires n >= 3 ==> |verts| == if antiAliased then 2 * n else n
    modifies dl`cmdBuffer, dl`idxBuffer, dl`vtxBuffer, dl`cmdHeader, dl`vtxCurrentIdx, dl`vtxWrite, dl`idxWrite
    ensures n < 3 ==> Untouched(dl)
    ensures n >= 3 ==>
      && dl.Drew(Figure(verts, PolyTriangles(n, antiAliased), |verts|, |verts| % INDEX_LIMIT))
      && (old(dl.Level() || dl.StartsOver(|verts|)) ==> (dl.Level() <==> |verts| < INDEX_LIMIT))
  {
    hide Trace, Contiguous, Fetch, Indices, Ordered, PolyTriangles, Batched, WithFigure;
    if n < 3 {
      return;
    }
    PolyFits(n, antiAliased);
    var idxCount := (n - 2) * 3 + if antiAliased then n * 6 else 0;
    var vtxCount := if antiAliased then n * 2 else n;
    ghost var over := dl.StartsOver(vtxCount);
    dl.PrimReserve(idxCount, vtxCount);
    ghost var kept, was := old(dl.idxBuffer), dl.idxBuffer[|old(dl.idxBuffer)|..];
    assert dl.idxBuffer == kept + was;
    var cur := dl.vtxCurrentIdx;
    WritePoly(dl, n, verts, antiAliased, cur);
    dl.vtxCurrentIdx := dl.vtxCurrentIdx + vtxCount % INDEX_LIMIT;
    ghost var tri := PolyTriangles(n, antiAliased);
    assert dl.idxBuffer == dl.idxBuffer[..dl.idxWrite] == kept + Indices(cur, tri);
    assert dl.vtxBuffer == dl.vtxBuffer[..dl.vtxWrite];
    dl.Rewritten(kept, was, Indices(cur, tri), old(dl.Meaning()));
    FigureBatched(old(dl.cmdBuffer), over, dl.cmdHeader, |kept|, Figure(verts, tri, |verts|, |verts| % INDEX_LIMIT),
                  |old(dl.vtxBuffer)|);
  }

  // ---------- polylines

  lemma SegmentsStart(style: LineStyle, n: nat, cur: nat)
    ensures Indices(cur, Segments(style, n, 0)) == []
  {
  }

  // Write the segments of a line whose vertices are shared between neighbours.
  method WriteSegments(dl: DrawList, style: LineStyle, n: nat, count: nat, cur: nat)
    requires count <= n && dl.idxWrite + |Segments(style, n, count)| <= |dl.idxBuffer|
    requires |Segments(style, n, count)| == count * IndicesPerSegment(style)
    modifies dl`idxBuffer, dl`idxWrite
    ensures |dl.idxBuffer| == |old(dl.idxBuffer)| && dl.idxWrite == old(dl.idxWrite) + |Segments(style, n, count)|
    ensures dl.idxBuffer[..dl.idxWrite] == old(dl.idxBuffer[..dl.idxWrite]) + Indices(cur, Segments(style, n, count))
  {
    hide Indices, Segment;
    var idx1, i1 := 0, 0;
    SegmentsStart(style, n, cur);
    while i1 < count
      invariant 0 <= i1 <= count && (i1 < count ==> idx1 == i1 * Stride(style))
      invariant |dl.idxBuffer| == |old(dl.idxBuffer)|
      invariant |Segments(style, n, i1)| <= |Segments(style, n, count)|
      invariant dl.idxWrite == old(dl.idxWrite) + |Segments(style, n, i1)|
      invariant dl.idxBuffer[..dl.idxWrite] == old(dl.idxBuffer[..dl.idxWrite]) + Indices(cur, Segments(style, n, i1))
    {
      var idx2 := if i1 + 1 == n then 0 else idx1 + Stride(style);
      assert (i1 + 1) * Stride(style) == i1 * Stride(style) + Stride(style);
      SegmentsShorter(style, n, i1 + 1, count);
      IndicesConcat(cur, Segments(style, n, i1), Segment(style, idx1, idx2));
      dl.WriteIndices(cur, Segment(style, idx1, idx2));
      idx1 := idx2;
      i1 := i1 + 1;
    }
  }

  // A polyline of n points, closed or open.  The vertices are those of its points, or
  // of the segments of a plain line, which is the only one to count them without a cut.
  method AddPolyline(dl: DrawList, n: int, closed: bool, stroke: Stroke, verts: seq<DrawVert>)
    requires dl.Valid()
    requires n >= 2 ==> |verts| == LineVertices(StyleOf(stroke), n, closed)
    modifies dl`cmdBuffer, dl`idxBuffer, dl`vtxBuffer, dl`cmdHeader, dl`vtxCurrentIdx, dl`vtxWrite, dl`idxWrite
    ensures n < 2 ==> Untouched(dl)
    ensures n >= 2 ==>
      var style := StyleOf(stroke);
      && dl.Drew(Figure(verts, Segments(style, n, SegmentCount(n, closed)), |verts|,
                        if style.Plain? then |verts| else |verts| % INDEX_LIMIT))
      && (old(dl.Level() || dl.StartsOver(|verts|)) ==> (dl.Level() <==> !stroke.antiAliased || |verts| < INDEX_LIMIT))
  {
    hide Trace, Contiguous, Fetch, Indices, Ordered, Segments, LineVertices, Batched, WithFigure;
    if n < 2 {
      return;
    }
    var style := StyleOf(stroke);
    LineFits(style, n, closed);
    var count := SegmentCount(n, closed);
    var idxCount := count * IndicesPerSegment(style);
    ghost var over := dl.StartsOver(|verts|);
    dl.PrimReserve(idxCount, |verts|);
    ghost var tri := Segments(style, n, count);
    ghost var kept, was := old(dl.idxBuffer), dl.idxBuffer[|old(dl.idxBuffer)|..];
    assert dl.idxBuffer == kept + was;
    var cur := dl.vtxCurrentIdx;
    WriteSegments(dl, style, n, count, cur);
    dl.WriteVertices(verts);
    var counted := if style.Plain? then |verts| else |verts| % INDEX_LIMIT;
    dl.vtxCurrentIdx := dl.vtxCurrentIdx + counted;
    assert dl.idxBuffer == dl.idxBuffer[..dl.idxWrite] == kept + Indices(cur, tri);
    assert dl.vtxBuffer == dl.vtxBuffer[..dl.vtxWrite];
    dl.Rewritten(kept, was, Indices(cur, tri), old(dl.Meaning()));
    FigureBatched(old(dl.cmdBuffer), over, dl.cmdHeader, |kept|, Figure(verts, tri, |verts|, counted), |old(dl.vtxBuffer)|);
  }
}
