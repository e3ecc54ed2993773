/**
 Building the font atlas: the custom rectangles and the glyphs of every font
 source are packed into one texture, the texture is made high enough, and the
 glyphs are copied to their places.
 */
module Atlas {
  import opened Packing
  import opened RectSort
  import opened RectPack
  import opened PackCalls
  import opened CallLaws
  import opened Texture

  const TEX_HEIGHT_MAX: int := 1024 * 32

  // A glyph and the rectangle packed for it.
  datatype Job = Job(rect: Rect, glyph: Glyph)

  // The size asked of the packer, cut to 16 bits; nothing for a missing glyph.
  function RectFor(g: Glyph, padding: nat): Rect {
    if g.loaded then Rect(0, (g.width + padding) % 0x10000, (g.height + padding) % 0x10000, 0, 0, 0)
    else Rect(0, 0, 0, 0, 0, 0)
  }

  // A missing glyph asks for nothing.  A loaded one asks for its size and the padding,
  // as long as 16 bits hold them, and otherwise for less, which shows; it asks for nothing
  // at all exactly when both sides are multiples of 65536.
  lemma SizeAsked(g: Glyph, padding: nat)
    ensures var r := RectFor(g, padding); var w, h := g.width + padding, g.height + padding;
            && 0 <= r.w < 0x10000 && 0 <= r.h < 0x10000
            && (!g.loaded ==> r.w == 0 && r.h == 0)
            && (g.loaded ==>
                  && (r.w == w <==> w <= 0xffff) && r.w <= w && (r.w == 0 <==> w % 0x10000 == 0)
                  && (r.h == h <==> h <= 0xffff) && r.h <= h && (r.h == 0 <==> h % 0x10000 == 0))
  {
  }

  // ---------- rectangles packed over several calls

  ghost predicate SameTarget(p: Packer, q: Packer) {
    q.height == p.height && q.Width() == p.Width() && q.numNodes == p.numNodes
  }

  // Everything packed so far: inside the target, among the placed boxes, and no
  // two overlapping.
  ghost predicate Laid(rects: seq<Rect>, p: Packer) {
    && (forall i :: 0 <= i < |rects| && TakesRoom(rects[i]) ==>
          Inside(BoxOf(rects[i]), p.Width(), p.height) && BoxOf(rects[i]) in p.placed)
    && (forall i, j :: 0 <= i < j < |rects| && TakesRoom(rects[i]) && TakesRoom(rects[j]) ==>
          Apart(BoxOf(rects[i]), BoxOf(rects[j])))
  }

  lemma CallExtendsLayout(rects: seq<Rect>, before: seq<Rect>, after: seq<Rect>, perm: seq<int>, states: seq<Packer>)
    requires PackCall(before, after, perm, states) && Inv(states[0]) && Laid(rects, states[0])
    ensures Laid(rects + after, states[|perm|])
    ensures SameTarget(states[0], states[|perm|])
  {
    hide PackCall, Inv, TakesRoom;
    CallSizes(before, after, perm, states);
    var all := rects + after;
    forall i | 0 <= i < |after| && TakesRoom(after[i])
      ensures Inside(BoxOf(after[i]), states[0].Width(), states[0].height) && BoxOf(after[i]) in states[|perm|].placed
      ensures forall k :: 0 <= k < |rects| && TakesRoom(rects[k]) ==> Apart(BoxOf(rects[k]), BoxOf(after[i]))
      ensures forall j :: 0 <= j < |after| && j != i && TakesRoom(after[j]) ==> Apart(BoxOf(after[i]), BoxOf(after[j]))
    {
      CallNeverOverlaps(before, after, perm, states, i);
    }
    forall i | 0 <= i < |rects| && TakesRoom(rects[i]) ensures BoxOf(rects[i]) in states[|perm|].placed {
      assert BoxOf(rects[i]) in states[0].placed;
    }
  }

  lemma CallSizes(before: seq<Rect>, after: seq<Rect>, perm: seq<int>, states: seq<Packer>)
    requires PackCall(before, after, perm, states) && Inv(states[0])
    ensures |after| == |before| == |perm| && |states| == |perm| + 1
    ensures states[0].placed <= states[|perm|].placed
    ensures SameTarget(states[0], states[|perm|])
  {
    CallOnlyAdds(before, after, perm, states, 0, |perm|);
  }

  // ---------- what the finished texture shows

  // The glyph of the job can be read back at its place in the texture.
  ghost predicate Drawn(t: seq<bv32>, W: int, H: int, job: Job, padding: nat, color: bool)
    requires |t| == W * H && WholeBitmap(job.glyph)
  {
    forall y, x :: 0 <= y < job.glyph.height && 0 <= x < job.glyph.width ==> Shows(t, W, H, job, padding, color, y, x)
  }

  // The texture shows texel (y, x) of the glyph where the padding leaves off.
  ghost predicate Shows(t: seq<bv32>, W: int, H: int, job: Job, padding: nat, color: bool, y: int, x: int)
    requires |t| == W * H && WholeBitmap(job.glyph) && 0 <= y < job.glyph.height && 0 <= x < job.glyph.width
  {
    var r, c := job.rect.y + padding + y, job.rect.x + padding + x;
    0 <= r < H && 0 <= c < W && At(t, W, H, r, c) == GlyphTexel(job.glyph, color, y, x)
  }

  // Nothing was written inside the box.
  ghost predicate Blank(t: seq<bv32>, W: int, H: int, b: Box)
    requires |t| == W * H
  {
    forall r, c :: b.y <= r < b.y + b.h && b.x <= c < b.x + b.w && 0 <= r < H && 0 <= c < W ==> At(t, W, H, r, c) == 0
  }

  // The rectangle has room for the glyph and its padding, as the code asserts.
  predicate RoomFor(job: Job, padding: nat) {
    job.glyph.width + padding <= job.rect.w && job.glyph.height + padding <= job.rect.h
  }

  lemma BlitDraws(t: seq<bv32>, t': seq<bv32>, W: int, H: int, job: Job, padding: nat, color: bool)
    requires |t| == |t'| == W * H && WholeBitmap(job.glyph)
    requires var tx, ty := job.rect.x + padding, job.rect.y + padding;
             && 0 <= tx && 0 <= ty
             && (job.glyph.width > 0 && job.glyph.height > 0 ==> tx + job.glyph.width <= W && ty + job.glyph.height <= H)
             && Copied(t, t', W, H, job.glyph, color, tx, ty, job.glyph.height, 0)
    ensures Drawn(t', W, H, job, padding, color)
  {
    hide At, GlyphTexel;
    forall y, x | 0 <= y < job.glyph.height && 0 <= x < job.glyph.width
      ensures Shows(t', W, H, job, padding, color, y, x)
    {
      assert Covered(job.glyph, job.rect.x + padding, job.rect.y + padding, job.rect.y + padding + y, job.rect.x + padding + x);
    }
  }

  // A later blit leaves alone what lies in a box apart from its own.
  lemma BlitSpares(t: seq<bv32>, t': seq<bv32>, W: int, H: int, job: Job, padding: nat, color: bool, b: Box, r: int, c: int)
    requires |t| == |t'| == W * H && WholeBitmap(job.glyph) && RoomFor(job, padding)
    requires Copied(t, t', W, H, job.glyph, color, job.rect.x + padding, job.rect.y + padding, job.glyph.height, 0)
    requires job.rect.w > 0 && job.rect.h > 0 ==> Apart(b, BoxOf(job.rect))
    requires b.y <= r < b.y + b.h && b.x <= c < b.x + b.w && 0 <= r < H && 0 <= c < W
    ensures At(t', W, H, r, c) == At(t, W, H, r, c)
  {
    hide At, GlyphTexel;
  }

  lemma BlitKeepsDrawn(t: seq<bv32>, t': seq<bv32>, W: int, H: int, job: Job, padding: nat, color: bool, other: Job)
    requires |t| == |t'| == W * H && WholeBitmap(job.glyph) && RoomFor(job, padding)
    requires Copied(t, t', W, H, job.glyph, color, job.rect.x + padding, job.rect.y + padding, job.glyph.height, 0)
    requires WholeBitmap(other.glyph) && RoomFor(other, padding) && Drawn(t, W, H, other, padding, color)
    requires job.rect.w > 0 && job.rect.h > 0 && other.rect.w > 0 && other.rect.h > 0 ==>
               Apart(BoxOf(other.rect), BoxOf(job.rect))
    ensures Drawn(t', W, H, other, padding, color)
  {
    hide At, GlyphTexel, Copied, Apart;
    forall y, x | 0 <= y < other.glyph.height && 0 <= x < other.glyph.width
      ensures Shows(t', W, H, other, padding, color, y, x)
    {
      assert Shows(t, W, H, other, padding, color, y, x);
      BlitSpares(t, t', W, H, job, padding, color, BoxOf(other.rect),
                 other.rect.y + padding + y, other.rect.x + padding + x);
    }
  }

  lemma BlitKeepsBlank(t: seq<bv32>, t': seq<bv32>, W: int, H: int, job: Job, padding: nat, color: bool, b: Box)
    requires |t| == |t'| == W * H && WholeBitmap(job.glyph) && RoomFor(job, padding) && Blank(t, W, H, b)
    requires Copied(t, t', W, H, job.glyph, color, job.rect.x + padding, job.rect.y + padding, job.glyph.height, 0)
    requires job.rect.w > 0 && job.rect.h > 0 ==> Apart(b, BoxOf(job.rect))
    ensures Blank(t', W, H, b)
  {
    hide At, Copied, Apart;
    forall r, c | b.y <= r < b.y + b.h && b.x <= c < b.x + b.w && 0 <= r < H && 0 <= c < W
      ensures At(t', W, H, r, c) == 0
    {
      BlitSpares(t, t', W, H, job, padding, color, b, r, c);
    }
  }

  // ---------- packing all sources

  // The lowest edge of all packed rectangles, at least h0.
  function LowestEdge(h0: int, rects: seq<Rect>): (h: int)
    ensures h0 <= h
    ensures forall i :: 0 <= i < |rects| && rects[i].wasPacked != 0 ==> rects[i].y + rects[i].h <= h
  {
    if |rects| == 0 then h0
    else
      var h := LowestEdge(h0, rects[..|rects| - 1]);
      var r := rects[|rects| - 1];
      if r.wasPacked != 0 && r.y + r.h > h then r.y + r.h else h
  }

  // It is no lower than it must be: some packed rectangle ends there, or it is h0.
  lemma {:induction false} EdgeIsReached(h0: int, rects: seq<Rect>)
    ensures LowestEdge(h0, rects) == h0
         || exists i :: 0 <= i < |rects| && rects[i].wasPacked != 0 && rects[i].y + rects[i].h == LowestEdge(h0, rects)
    decreases |rects|
  {
    if |rects| > 0 {
      var front := rects[..|rects| - 1];
      EdgeIsReached(h0, front);
      if LowestEdge(h0, front) != h0 {
        var i :| 0 <= i < |front| && front[i].wasPacked != 0 && front[i].y + front[i].h == LowestEdge(h0, front);
        assert rects[i] == front[i];
      }
    }
  }

  method NewNodes(n: nat) returns (nodes: seq<Node>)
    ensures |nodes| == n && AllDistinct(nodes) && forall i :: 0 <= i < n ==> fresh(nodes[i])
  {
    nodes := [];
    while |nodes| < n
      invariant |nodes| <= n && AllDistinct(nodes) && forall i :: 0 <= i < |nodes| ==> fresh(nodes[i])
    {
      var node := new Node();
      nodes := nodes + [node];
    }
  }

  // Pack a batch of rectangles and raise the texture height over them.
  method PackBatch(c: Context, batch: seq<Rect>, h0: int, ghost laid: seq<Rect>) returns (packed: seq<Rect>, h: int)
    requires c.Valid() && Coordinates(batch) && Laid(laid, c.State())
    modifies c, c.pool
    ensures c.Valid() && c.pool == old(c.pool)
    ensures SameTarget(old(c.State()), c.State())
    ensures Answers(batch, packed) && Laid(laid + packed, c.State())
    ensures h == LowestEdge(h0, packed)
  {
    hide Inv, Laid, Served, TakesRoom, IsPermutation, PackCall, Context.Linked;
    var rects := new Rect[|batch|](i requires 0 <= i < |batch| => batch[i]);
    assert rects[..] == batch;
    c.Basics();
    ghost var perm, states;
    var all;
    all, perm, states := PackRects(c, rects);
    packed := rects[..];
    CallExtendsLayout(laid, batch, packed, perm, states);
    CallSizes(batch, packed, perm, states);
    assert Answers(batch, packed) by {
      forall i | 0 <= i < |batch| ensures SameRect(batch[i], packed[i]) && Settled(packed[i]) {
        CallSettles(batch, packed, perm, states, i);
      }
    }
    h := h0;
    var i := 0;
    while i < |packed|
      invariant 0 <= i <= |packed| && h == LowestEdge(h0, packed[..i])
    {
      assert packed[..i + 1][..i] == packed[..i];
      if packed[i].wasPacked != 0 && packed[i].y + packed[i].h > h {
        h := packed[i].y + packed[i].h;
      }
      i := i + 1;
    }
    assert packed[..|packed|] == packed;
  }

  // The rectangles of a batch, packed: each keeps its index, id and size, and its
  // flag says whether it has a place.
  ghost predicate Answers(batch: seq<Rect>, packed: seq<Rect>) {
    && |packed| == |batch|
    && forall i :: 0 <= i < |batch| ==> SameRect(batch[i], packed[i]) && Settled(packed[i])
  }

  // ---------- the atlas

  datatype CustomRect = CustomRect(width: int, height: int, x: int, y: int)

  class FontAtlas {
    var texWidth: int
    var texHeight: int
    var texGlyphPadding: nat
    var noPowerOfTwoHeight: bool
    var color: bool
    var customRects: seq<CustomRect>
    var tex: array<bv32>

    constructor (texWidth: int, padding: nat, noPowerOfTwoHeight: bool, color: bool, customRects: seq<CustomRect>)
      ensures this.texWidth == texWidth && texHeight == 0 && texGlyphPadding == padding && this.color == color
      ensures this.noPowerOfTwoHeight == noPowerOfTwoHeight && this.customRects == customRects
    {
      this.texWidth, texHeight, texGlyphPadding := texWidth, 0, padding;
      this.noPowerOfTwoHeight, this.color, this.customRects := noPowerOfTwoHeight, color, customRects;
      tex := new bv32[0];
    }

    // Pack the custom rectangles first, and note where they went.
    method PackCustomRects(c: Context) returns (ghost packed: seq<Rect>)
      requires c.Valid() && Laid([], c.State())
      requires CustomSizes(customRects)
      modifies this`customRects, this`texHeight, c, c.pool
      ensures c.Valid() && c.pool == old(c.pool) && Laid(packed, c.State())
      ensures SameTarget(old(c.State()), c.State())
      ensures Noted(old(customRects), customRects, packed) && texHeight == LowestEdge(old(texHeight), packed)
    {
      hide Laid, LowestEdge, Inv, Context.Linked;
      var batch := seq(|customRects|, i requires 0 <= i < |customRects| reads this =>
                         Rect(0, customRects[i].width, customRects[i].height, 0, 0, 0));
      var rects, h := PackBatch(c, batch, texHeight, []);
      packed := rects;
      assert [] + packed == packed;
      texHeight := h;
      NotePlaces(rects);
    }

    method NotePlaces(rects: seq<Rect>)
      requires |rects| == |customRects|
      modifies this`customRects
      ensures |customRects| == |rects|
      ensures forall i :: 0 <= i < |rects| ==>
        customRects[i] == if rects[i].wasPacked != 0
                          then old(customRects[i]).(x := rects[i].x, y := rects[i].y) else old(customRects[i])
    {
      var i := 0;
      while i < |rects|
        invariant 0 <= i <= |rects| && |customRects| == |rects|
        invariant forall m :: 0 <= m < |rects| ==>
          customRects[m] == if m < i && rects[m].wasPacked != 0
                            then old(customRects[m]).(x := rects[m].x, y := rects[m].y) else old(customRects[m])
      {
        if rects[i].wasPacked != 0 {
          customRects := customRects[i := customRects[i].(x := rects[i].x, y := rects[i].y)];
        }
        i := i + 1;
      }
    }

    // Pack the glyphs of one font source after everything laid out so far.
    method PackSource(c: Context, glyphs: seq<Glyph>, ghost laid: seq<Rect>) returns (jobs: seq<Job>)
      requires c.Valid() && Laid(laid, c.State())
      modifies this`texHeight, c, c.pool
      ensures c.Valid() && c.pool == old(c.pool)
      ensures SameTarget(old(c.State()), c.State())
      ensures JobsFor(jobs, glyphs, texGlyphPadding) && Laid(laid + RectsOf(jobs), c.State())
      ensures texHeight == LowestEdge(old(texHeight), RectsOf(jobs))
    {
      hide Laid, LowestEdge;
      var batch := seq(|glyphs|, i requires 0 <= i < |glyphs| reads this => RectFor(glyphs[i], texGlyphPadding));
      var rects, h := PackBatch(c, batch, texHeight, laid);
      texHeight := h;
      jobs := seq(|glyphs|, i requires 0 <= i < |glyphs| => Job(rects[i], glyphs[i]));
      assert RectsOf(jobs) == rects;
    }
  }

  function RectsOf(jobs: seq<Job>): (rects: seq<Rect>)
    ensures |rects| == |jobs| && forall i :: 0 <= i < |jobs| ==> rects[i] == jobs[i].rect
  {
    seq(|jobs|, i requires 0 <= i < |jobs| => jobs[i].rect)
  }

  // One job for every glyph, with the size the glyph asks for.
  ghost predicate JobsFor(jobs: seq<Job>, glyphs: seq<Glyph>, padding: nat) {
    && |jobs| == |glyphs|
    && forall i :: 0 <= i < |jobs| ==>
         && jobs[i].glyph == glyphs[i]
         && SameRect(RectFor(glyphs[i], padding), jobs[i].rect)
         && Settled(jobs[i].rect)
  }

  ghost function Flatten(sources: seq<seq<Glyph>>): seq<Glyph> {
    if |sources| == 0 then [] else Flatten(sources[..|sources| - 1]) + sources[|sources| - 1]
  }

  lemma JobsAppend(jobs: seq<Job>, more: seq<Job>, sources: seq<seq<Glyph>>, i: nat, padding: nat)
    requires i < |sources| && JobsFor(jobs, Flatten(sources[..i]), padding) && JobsFor(more, sources[i], padding)
    ensures JobsFor(jobs + more, Flatten(sources[..i + 1]), padding)
  {
    assert sources[..i + 1][..i] == sources[..i];
  }

  lemma {:induction false} LowestEdgeAppend(h0: int, a: seq<Rect>, b: seq<Rect>)
    ensures LowestEdge(LowestEdge(h0, a), b) == LowestEdge(h0, a + b)
    decreases |b|
  {
    if |b| == 0 {
      assert a + b == a;
    } else {
      LowestEdgeAppend(h0, a, b[..|b| - 1]);
      assert (a + b)[..|a + b| - 1] == a + b[..|b| - 1];
    }
  }

  // Pack the glyphs of all sources, one call each.
  method PackSources(atlas: FontAtlas, c: Context, sources: seq<seq<Glyph>>, ghost customs: seq<Rect>) returns (jobs: seq<Job>)
    requires c.Valid() && Laid(customs, c.State())
    modifies atlas`texHeight, c, c.pool
    ensures c.Valid() && JobsFor(jobs, Flatten(sources), atlas.texGlyphPadding)
    ensures Laid(customs + RectsOf(jobs), c.State())
    ensures SameTarget(old(c.State()), c.State())
    ensures atlas.texHeight == LowestEdge(old(atlas.texHeight), RectsOf(jobs))
  {
    hide Laid, LowestEdge, JobsFor, Flatten, RectsOf, Inv, Context.Linked, Context.State;
    jobs := [];
    var i := 0;
    NoJobs(old(atlas.texHeight), atlas.texGlyphPadding);
    assert customs + RectsOf(jobs) == customs && sources[..0] == [];
    while i < |sources|
      invariant 0 <= i <= |sources|
      invariant c.Valid() && c.pool == old(c.pool)
      invariant SameTarget(old(c.State()), c.State())
      invariant JobsFor(jobs, Flatten(sources[..i]), atlas.texGlyphPadding)
      invariant Laid(customs + RectsOf(jobs), c.State())
      invariant atlas.texHeight == LowestEdge(old(atlas.texHeight), RectsOf(jobs))
    {
      if |sources[i]| == 0 {
        SkipSource(jobs, sources, i, atlas.texGlyphPadding);
      } else {
        var more := atlas.PackSource(c, sources[i], customs + RectsOf(jobs));
        JobsAppend(jobs, more, sources, i, atlas.texGlyphPadding);
        LowestEdgeAppend(old(atlas.texHeight), RectsOf(jobs), RectsOf(more));
        assert RectsOf(jobs + more) == RectsOf(jobs) + RectsOf(more);
        assert customs + RectsOf(jobs) + RectsOf(more) == customs + RectsOf(jobs + more);
        jobs := jobs + more;
      }
      i := i + 1;
    }
    assert sources[..|sources|] == sources;
  }

  lemma NoJobs(h0: int, padding: nat)
    ensures JobsFor([], Flatten([]), padding) && LowestEdge(h0, RectsOf([])) == h0
  {
  }

  lemma SkipSource(jobs: seq<Job>, sources: seq<seq<Glyph>>, i: nat, padding: nat)
    requires i < |sources| && |sources[i]| == 0 && JobsFor(jobs, Flatten(sources[..i]), padding)
    ensures JobsFor(jobs, Flatten(sources[..i + 1]), padding)
  {
    assert sources[..i + 1][..i] == sources[..i];
    assert Flatten(sources[..i]) + sources[i] == Flatten(sources[..i]);
  }

  // ---------- the texture

  function PowerFrom(p: nat, v: nat): (r: nat)
    requires 0 < p
    ensures v <= r
    decreases v - p
  {
    if v <= p then p else PowerFrom(2 * p, v)
  }

  function UpperPowerOfTwo(v: nat): (r: nat)
    ensures v <= r
  {
    if v == 0 then 0 else PowerFrom(1, v)
  }

  ghost function TwoTo(k: nat): (p: nat)
    ensures 0 < p
  {
    if k == 0 then 1 else 2 * TwoTo(k - 1)
  }

  lemma {:induction false} PowerFromIs(k: nat, v: nat) returns (n: nat)
    requires k > 0 ==> TwoTo(k - 1) < v
    ensures PowerFrom(TwoTo(k), v) == TwoTo(n) && v <= TwoTo(n) && (n > 0 ==> TwoTo(n - 1) < v)
    decreases v - TwoTo(k)
  {
    if v <= TwoTo(k) {
      n := k;
    } else {
      n := PowerFromIs(k + 1, v);
    }
  }

  // The least power of two that is not below v, or 0 for 0.
  lemma UpperPowerIsLeast(v: nat) returns (n: nat)
    ensures UpperPowerOfTwo(0) == 0
    ensures v > 0 ==> UpperPowerOfTwo(v) == TwoTo(n) && v <= TwoTo(n) && (n > 0 ==> TwoTo(n - 1) < v)
  {
    if v == 0 {
      n := 0;
    } else {
      n := PowerFromIs(0, v);
    }
  }

  // Is this glyph drawn at all?
  predicate Rendered(job: Job) {
    !(job.rect.w == 0 && job.rect.h == 0)
  }

  // What drawing the first n jobs must show: each of their glyphs, and blanks where
  // the custom rectangles are.
  ghost predicate Shown(t: seq<bv32>, W: int, H: int, jobs: seq<Job>, n: nat, padding: nat, color: bool, customs: seq<Rect>)
    requires |t| == W * H && n <= |jobs| && forall k :: 0 <= k < |jobs| ==> WholeBitmap(jobs[k].glyph)
  {
    && (forall k :: 0 <= k < n && Rendered(jobs[k]) ==>
          RoomFor(jobs[k], padding) && Drawn(t, W, H, jobs[k], padding, color))
    && (forall k :: 0 <= k < |customs| && TakesRoom(customs[k]) ==> Blank(t, W, H, BoxOf(customs[k])))
  }

  // Where a rendered glyph goes: inside the texture.
  lemma JobFits(customs: seq<Rect>, jobs: seq<Job>, p: Packer, h0: int, H: int, n: nat, padding: nat)
    requires Inv(p) && Laid(customs + RectsOf(jobs), p) && n < |jobs|
    requires LowestEdge(h0, RectsOf(jobs)) <= H
    requires Settled(jobs[n].rect) && jobs[n].rect.wasPacked != 0 && RoomFor(jobs[n], padding)
    requires 0 <= jobs[n].rect.w && 0 <= jobs[n].rect.h
    ensures var job := jobs[n]; var tx, ty := job.rect.x + padding, job.rect.y + padding;
            && 0 <= tx && 0 <= ty
            && (job.glyph.width > 0 && job.glyph.height > 0 ==>
                tx + job.glyph.width <= p.Width() && ty + job.glyph.height <= H)
  {
    hide Inv;
    var r := jobs[n].rect;
    assert (customs + RectsOf(jobs))[|customs| + n] == r;
    assert RectsOf(jobs)[n] == r;
    if r.w != 0 && r.h != 0 {
      assert TakesRoom(r);
      assert Inside(BoxOf(r), p.Width(), p.height);
    }
  }

  // A rectangle laid out before job n is apart from it.
  lemma ApartFromJob(customs: seq<Rect>, jobs: seq<Job>, p: Packer, n: nat, i: nat)
    requires Laid(customs + RectsOf(jobs), p) && n < |jobs| && i < |customs| + n
    requires TakesRoom((customs + RectsOf(jobs))[i]) && Settled(jobs[n].rect) && jobs[n].rect.wasPacked != 0
    ensures jobs[n].rect.w > 0 && jobs[n].rect.h > 0 ==> Apart(BoxOf((customs + RectsOf(jobs))[i]), BoxOf(jobs[n].rect))
  {
    var all := customs + RectsOf(jobs);
    assert all[|customs| + n] == jobs[n].rect;
    if jobs[n].rect.w > 0 && jobs[n].rect.h > 0 {
      assert TakesRoom(all[|customs| + n]);
    }
  }

  // Drawing one more glyph shows it and spoils nothing drawn before.
  lemma DrawNext(t: seq<bv32>, t': seq<bv32>, W: int, H: int, jobs: seq<Job>, n: nat, padding: nat, color: bool,
                 customs: seq<Rect>, p: Packer)
    requires |t| == |t'| == W * H && n < |jobs| && forall k :: 0 <= k < |jobs| ==> WholeBitmap(jobs[k].glyph)
    requires Laid(customs + RectsOf(jobs), p) && Shown(t, W, H, jobs, n, padding, color, customs)
    requires forall k :: 0 <= k <= n ==> Settled(jobs[k].rect) && jobs[k].rect.wasPacked != 0
    requires RoomFor(jobs[n], padding)
    requires var job := jobs[n]; var tx, ty := job.rect.x + padding, job.rect.y + padding;
             && 0 <= tx && 0 <= ty
             && (job.glyph.width > 0 && job.glyph.height > 0 ==> tx + job.glyph.width <= W && ty + job.glyph.height <= H)
             && Copied(t, t', W, H, job.glyph, color, tx, ty, job.glyph.height, 0)
    ensures Shown(t', W, H, jobs, n + 1, padding, color, customs)
  {
    hide Copied, Drawn, Blank, Apart, Laid, WholeBitmap;
    var all := customs + RectsOf(jobs);
    BlitDraws(t, t', W, H, jobs[n], padding, color);
    forall k | 0 <= k < n && Rendered(jobs[k]) ensures Drawn(t', W, H, jobs[k], padding, color) {
      assert all[|customs| + k] == jobs[k].rect;
      if jobs[k].rect.w > 0 && jobs[k].rect.h > 0 {
        ApartFromJob(customs, jobs, p, n, |customs| + k);
      }
      BlitKeepsDrawn(t, t', W, H, jobs[n], padding, color, jobs[k]);
    }
    forall k | 0 <= k < |customs| && TakesRoom(customs[k]) ensures Blank(t', W, H, BoxOf(customs[k])) {
      assert all[k] == customs[k];
      ApartFromJob(customs, jobs, p, n, k);
      BlitKeepsBlank(t, t', W, H, jobs[n], padding, color, BoxOf(customs[k]));
    }
  }

  // An assertion of the code stops at this job.
  predicate Stops(job: Job, padding: nat) {
    job.rect.wasPacked == 0 || (Rendered(job) && !RoomFor(job, padding))
  }

  // Copy all glyphs to their places.  The answer is false where the code would stop
  // at an assertion: a glyph without a place, or one too big for its rectangle.
  method DrawJobs(atlas: FontAtlas, tex: array<bv32>, jobs: seq<Job>,
                  ghost customs: seq<Rect>, ghost p: Packer, ghost h0: int) returns (ok: bool)
    requires Inv(p) && p.Width() == atlas.texWidth && Laid(customs + RectsOf(jobs), p)
    requires LowestEdge(h0, RectsOf(jobs)) <= atlas.texHeight && tex.Length == atlas.texWidth * atlas.texHeight
    requires forall k :: 0 <= k < |jobs| ==>
      Settled(jobs[k].rect) && WholeBitmap(jobs[k].glyph) && 0 <= jobs[k].rect.w && 0 <= jobs[k].rect.h
    requires forall i :: 0 <= i < tex.Length ==> tex[i] == 0
    modifies tex
    ensures ok ==>
      Shown(tex[..], atlas.texWidth, atlas.texHeight, jobs, |jobs|, atlas.texGlyphPadding, atlas.color, customs)
    ensures ok <==> forall k :: 0 <= k < |jobs| ==> !Stops(jobs[k], atlas.texGlyphPadding)
  {
    hide Inv, Laid, Copied, Settled, LowestEdge, Shown, WholeBitmap;
    var W, H, padding := atlas.texWidth, atlas.texHeight, atlas.texGlyphPadding;
    NothingShown(tex[..], W, H, jobs, padding, atlas.color, customs);
    var n := 0;
    while n < |jobs|
      invariant 0 <= n <= |jobs|
      invariant forall k :: 0 <= k < n ==> !Stops(jobs[k], padding)
      invariant Shown(tex[..], W, H, jobs, n, padding, atlas.color, customs)
    {
      var job := jobs[n];
      if job.rect.wasPacked == 0 {
        return false;
      }
      if job.rect.w == 0 && job.rect.h == 0 {
        SkipJob(tex[..], W, H, jobs, n, padding, atlas.color, customs);
      } else {
        if !RoomFor(job, padding) {
          return false;
        }
        JobFits(customs, jobs, p, h0, H, n, padding);
        ghost var t := tex[..];
        Blit(tex, W, H, job.glyph, atlas.color, job.rect.x + padding, job.rect.y + padding);
        DrawNext(t, tex[..], W, H, jobs, n, padding, atlas.color, customs, p);
      }
      n := n + 1;
    }
    ok := true;
  }

  lemma NothingShown(t: seq<bv32>, W: int, H: int, jobs: seq<Job>, padding: nat, color: bool, customs: seq<Rect>)
    requires |t| == W * H && forall k :: 0 <= k < |jobs| ==> WholeBitmap(jobs[k].glyph)
    requires forall i :: 0 <= i < |t| ==> t[i] == 0
    ensures Shown(t, W, H, jobs, 0, padding, color, customs)
  {
    forall r, c | 0 <= r < H && 0 <= c < W ensures At(t, W, H, r, c) == 0 {
      InTexture(W, H, r, c);
    }
  }

  lemma SkipJob(t: seq<bv32>, W: int, H: int, jobs: seq<Job>, n: nat, padding: nat, color: bool, customs: seq<Rect>)
    requires |t| == W * H && n < |jobs| && forall k :: 0 <= k < |jobs| ==> WholeBitmap(jobs[k].glyph)
    requires Shown(t, W, H, jobs, n, padding, color, customs) && !Rendered(jobs[n])
    ensures Shown(t, W, H, jobs, n + 1, padding, color, customs)
  {
    hide Drawn, Blank;
  }

  ghost predicate CustomSizes(rects: seq<CustomRect>) {
    forall i :: 0 <= i < |rects| ==> 0 <= rects[i].width <= MAX_COORD && 0 <= rects[i].height <= MAX_COORD
  }

  // The custom rectangles know where they were put.
  ghost predicate Noted(before: seq<CustomRect>, after: seq<CustomRect>, customs: seq<Rect>) {
    && |before| == |after| == |customs|
    && forall i :: 0 <= i < |customs| ==>
         && customs[i].w == before[i].width && customs[i].h == before[i].height && Settled(customs[i])
         && after[i] == if customs[i].wasPacked != 0 then before[i].(x := customs[i].x, y := customs[i].y) else before[i]
  }

  // Where a custom rectangle says it is.
  function PlaceOf(c: CustomRect): Box {
    Box(c.x, c.y, c.width, c.height)
  }

  predicate HasRoom(c: CustomRect, packed: Rect) {
    packed.wasPacked != 0 && 0 < c.width && 0 < c.height
  }

  // The places the custom rectangles say they have are inside the texture and apart.
  ghost predicate CustomsApart(after: seq<CustomRect>, customs: seq<Rect>, width: int)
    requires |after| == |customs|
  {
    && (forall i :: 0 <= i < |after| && HasRoom(after[i], customs[i]) ==> Inside(PlaceOf(after[i]), width, TEX_HEIGHT_MAX))
    && (forall i, j :: 0 <= i < j < |after| && HasRoom(after[i], customs[i]) && HasRoom(after[j], customs[j]) ==>
          Apart(PlaceOf(after[i]), PlaceOf(after[j])))
  }

  lemma NotedPlaces(before: seq<CustomRect>, after: seq<CustomRect>, customs: seq<Rect>, i: nat)
    requires Noted(before, after, customs) && i < |after| && HasRoom(after[i], customs[i])
    ensures TakesRoom(customs[i]) && PlaceOf(after[i]) == BoxOf(customs[i])
  {
  }

  lemma CustomsAreApart(before: seq<CustomRect>, after: seq<CustomRect>, customs: seq<Rect>, rest: seq<Rect>, p: Packer)
    requires Noted(before, after, customs) && Laid(customs + rest, p) && p.height == TEX_HEIGHT_MAX
    ensures |after| == |customs| && CustomsApart(after, customs, p.Width())
  {
    hide Noted, Apart, Inside, HasRoom, PlaceOf, TakesRoom;
    NotedLengths(before, after, customs);
    var all := customs + rest;
    forall i | 0 <= i < |after| && HasRoom(after[i], customs[i])
      ensures all[i] == customs[i] && TakesRoom(all[i]) && PlaceOf(after[i]) == BoxOf(all[i])
    {
      NotedPlaces(before, after, customs, i);
    }
  }

  lemma NotedLengths(before: seq<CustomRect>, after: seq<CustomRect>, customs: seq<Rect>)
    requires Noted(before, after, customs)
    ensures |before| == |after| == |customs|
  {
  }

  // And nothing is drawn there.
  lemma CustomsAreBlank(t: seq<bv32>, W: int, H: int, jobs: seq<Job>, padding: nat, color: bool,
                        before: seq<CustomRect>, after: seq<CustomRect>, customs: seq<Rect>)
    requires |t| == W * H && forall k :: 0 <= k < |jobs| ==> WholeBitmap(jobs[k].glyph)
    requires Noted(before, after, customs) && Shown(t, W, H, jobs, |jobs|, padding, color, customs)
    ensures |after| == |customs|
    ensures forall i :: 0 <= i < |after| && HasRoom(after[i], customs[i]) ==> Blank(t, W, H, PlaceOf(after[i]))
  {
    hide Noted, Drawn, Blank, WholeBitmap, RoomFor, Rendered, HasRoom, TakesRoom, PlaceOf;
    NotedLengths(before, after, customs);
    forall i | 0 <= i < |after| && HasRoom(after[i], customs[i]) ensures Blank(t, W, H, PlaceOf(after[i])) {
      NotedPlaces(before, after, customs, i);
    }
  }

  // Pack the custom rectangles, then the glyphs of every source, into one target.
  method PackAll(atlas: FontAtlas, sources: seq<seq<Glyph>>)
    returns (jobs: seq<Job>, ghost customs: seq<Rect>, ghost p: Packer)
    requires 1 <= atlas.texWidth <= MAX_COORD && 1 <= atlas.texWidth - atlas.texGlyphPadding
    requires CustomSizes(atlas.customRects)
    modifies atlas`texHeight, atlas`customRects
    ensures Noted(old(atlas.customRects), atlas.customRects, customs)
    ensures JobsFor(jobs, Flatten(sources), atlas.texGlyphPadding)
    ensures Inv(p) && p.Width() == atlas.texWidth && p.height == 32768 && Laid(customs + RectsOf(jobs), p)
    ensures p.numNodes == atlas.texWidth - atlas.texGlyphPadding
    ensures atlas.texHeight == LowestEdge(LowestEdge(0, customs), RectsOf(jobs))
  {
    hide Inv, Laid, Settled, LowestEdge, Flatten;
    atlas.texHeight := 0;
    var nodes := NewNodes(atlas.texWidth - atlas.texGlyphPadding);
    var c := new Context.InitTarget(atlas.texWidth, TEX_HEIGHT_MAX, nodes);
    NothingLaid(c.State());
    customs := atlas.PackCustomRects(c);
    jobs := PackSources(atlas, c, sources, customs);
    c.Basics();
    p := c.State();
  }

  // Build the atlas: pack everything, fix the height, allocate a blank texture, and
  // copy the glyphs in.
  method Build(atlas: FontAtlas, sources: seq<seq<Glyph>>)
    returns (ok: bool, jobs: seq<Job>, ghost customs: seq<Rect>)
    requires 1 <= atlas.texWidth <= MAX_COORD && 1 <= atlas.texWidth - atlas.texGlyphPadding
    requires 1 <= |atlas.customRects| && CustomSizes(atlas.customRects)
    requires forall g :: g in Flatten(sources) ==> WholeBitmap(g)
    modifies atlas`texHeight, atlas`customRects, atlas`tex
    ensures Noted(old(atlas.customRects), atlas.customRects, customs)
    ensures JobsFor(jobs, Flatten(sources), atlas.texGlyphPadding)
    ensures forall k :: 0 <= k < |jobs| ==> WholeBitmap(jobs[k].glyph)
    ensures atlas.tex.Length == atlas.texWidth * atlas.texHeight
    ensures ok ==>
      Shown(atlas.tex[..], atlas.texWidth, atlas.texHeight, jobs, |jobs|, atlas.texGlyphPadding, atlas.color, customs)
    ensures ok <==> forall k :: 0 <= k < |jobs| ==> !Stops(jobs[k], atlas.texGlyphPadding)
    ensures atlas.texHeight == Height(LowestEdge(LowestEdge(0, customs), RectsOf(jobs)), atlas.noPowerOfTwoHeight)
    ensures ok ==> forall k :: 0 <= k < |jobs| && jobs[k].glyph.loaded ==>
      || Drawn(atlas.tex[..], atlas.texWidth, atlas.texHeight, jobs[k], atlas.texGlyphPadding, atlas.color)
      || Lost(jobs[k].glyph, atlas.texGlyphPadding)
    ensures |atlas.customRects| == |customs| && CustomsApart(atlas.customRects, customs, atlas.texWidth)
    ensures ok ==> forall i :: 0 <= i < |customs| && HasRoom(atlas.customRects[i], customs[i]) ==>
      Blank(atlas.tex[..], atlas.texWidth, atlas.texHeight, PlaceOf(atlas.customRects[i]))
  {
    hide Inv, Laid, Shown, Settled, LowestEdge, WholeBitmap, Flatten, JobsFor, Noted, Drawn, Blank, CustomsApart, HasRoom;
    ghost var p;
    jobs, customs, p := PackAll(atlas, sources);
    CustomsAreApart(old(atlas.customRects), atlas.customRects, customs, RectsOf(jobs), p);
    var edge := atlas.texHeight;
    LowestEdgeIsHigh(customs, RectsOf(jobs));
    atlas.texHeight := Height(edge, atlas.noPowerOfTwoHeight);
    AreaIsNonnegative(atlas.texWidth, atlas.texHeight);
    var tex := new bv32[atlas.texWidth * atlas.texHeight](_ => 0);
    atlas.tex := tex;
    JobsAreWhole(jobs, sources, atlas.texGlyphPadding);
    ok := DrawJobs(atlas, tex, jobs, customs, p, LowestEdge(0, customs));
    if ok {
      CustomsAreBlank(tex[..], atlas.texWidth, atlas.texHeight, jobs, atlas.texGlyphPadding, atlas.color,
                      old(atlas.customRects), atlas.customRects, customs);
      LoadedAreDrawn(tex[..], atlas.texWidth, atlas.texHeight, jobs, Flatten(sources), atlas.texGlyphPadding, atlas.color, customs);
    }
  }

  // The height of the texture over its lowest edge.
  function Height(edge: nat, noPowerOfTwo: bool): (h: nat)
    ensures edge <= h
  {
    if noPowerOfTwo then edge + 1 else UpperPowerOfTwo(edge)
  }

  // The 16 bits for the size asked keep nothing of either side.
  predicate Lost(g: Glyph, padding: nat) {
    (g.width + padding) % 0x10000 == 0 && (g.height + padding) % 0x10000 == 0
  }

  // What becomes of a glyph, by its own size: a missing one is not drawn; the code stops
  // at a loaded one without a place, or with a side that 16 bits do not hold, but for one
  // that asks for nothing at all, which is skipped.
  lemma LoadedGlyphs(jobs: seq<Job>, glyphs: seq<Glyph>, padding: nat, k: nat)
    requires JobsFor(jobs, glyphs, padding) && k < |jobs|
    ensures var job := jobs[k]; var g := job.glyph;
            && (!g.loaded ==> job.rect.w == 0 == job.rect.h && !Rendered(job))
            && (g.loaded ==> (Rendered(job) <==> !Lost(g, padding)))
            && (g.loaded ==>
                  (Stops(job, padding) <==>
                    || job.rect.wasPacked == 0
                    || (!Lost(g, padding) && (g.width + padding > 0xffff || g.height + padding > 0xffff))))
  {
    hide RectFor, Settled;
    SizeAsked(glyphs[k], padding);
  }

  lemma LoadedAreDrawn(t: seq<bv32>, W: int, H: int, jobs: seq<Job>, glyphs: seq<Glyph>, padding: nat, color: bool,
                       customs: seq<Rect>)
    requires |t| == W * H && forall k :: 0 <= k < |jobs| ==> WholeBitmap(jobs[k].glyph)
    requires JobsFor(jobs, glyphs, padding) && Shown(t, W, H, jobs, |jobs|, padding, color, customs)
    ensures forall k :: 0 <= k < |jobs| && jobs[k].glyph.loaded ==>
              Drawn(t, W, H, jobs[k], padding, color) || Lost(jobs[k].glyph, padding)
  {
    hide JobsFor, Drawn, Blank, WholeBitmap, RoomFor, Rendered;
    forall k | 0 <= k < |jobs| && jobs[k].glyph.loaded
      ensures Drawn(t, W, H, jobs[k], padding, color) || Lost(jobs[k].glyph, padding)
    {
      LoadedGlyphs(jobs, glyphs, padding, k);
    }
  }

  lemma NothingLaid(p: Packer)
    ensures Laid([], p)
  {
  }

  lemma LowestEdgeIsHigh(a: seq<Rect>, b: seq<Rect>)
    ensures 0 <= LowestEdge(LowestEdge(0, a), b)
  {
  }

  lemma AreaIsNonnegative(w: int, h: int)
    requires 0 <= w && 0 <= h
    ensures 0 <= w * h
  {
  }

  lemma JobsAreWhole(jobs: seq<Job>, sources: seq<seq<Glyph>>, padding: nat)
    requires JobsFor(jobs, Flatten(sources), padding) && forall g :: g in Flatten(sources) ==> WholeBitmap(g)
    ensures forall k :: 0 <= k < |jobs| ==>
      Settled(jobs[k].rect) && WholeBitmap(jobs[k].glyph) && 0 <= jobs[k].rect.w && 0 <= jobs[k].rect.h
  {
    hide Flatten, WholeBitmap, Settled;
    forall k | 0 <= k < |jobs|
      ensures Settled(jobs[k].rect) && WholeBitmap(jobs[k].glyph) && 0 <= jobs[k].rect.w && 0 <= jobs[k].rect.h
    {
      assert jobs[k].glyph in Flatten(sources);
    }
  }
}
