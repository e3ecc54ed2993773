/**
 Whole runs of drawing calls on a draw list and its splitter, against the unbatched
 renderer.
 */
module DrawRun {
  import opened DrawList
  import opened DrawShapes
  import opened DrawSpec
  import opened DrawSplitter
  import opened DrawTrace
  import opened MergeLaws
  import opened ShapeIndices

  // The draw list and its splitter stand where the pen stands.
  ghost predicate Follows(dl: DrawList, sp: Splitter, pen: Pen, config: Config)
    reads dl, sp
  {
    && sp.Holds(dl, pen.channels) && sp.current == pen.current
    && dl.cmdHeader == Header(pen.clip, pen.tex, pen.base) && dl.vtxCurrentIdx == pen.cur && dl.vtxBuffer == pen.vtx
    && dl.clipRectStack == pen.clips && dl.textureIdStack == pen.texs
    && dl.allowVtxOffset == config.allowVtxOffset && dl.fullscreen == config.fullscreen
  }

  // What is emitted into the current channel leaves the parked ones alone.
  lemma StayParked(channels: seq<Channel>, count: nat, current: nat, out: seq<seq<Event>>, e: seq<Event>)
    requires Parked(channels, count, current, out) && current < |out|
    ensures Parked(channels, count, current, out[current := out[current] + e])
  {
  }

  lemma FigureEventsAreFetched(pen: Pen, f: Figure, config: Config)
    ensures FigureEvents(pen, f, config, false)
         == Fetch(Header(pen.clip, pen.tex, BaseFor(pen, f.room, config)), Indices(CurFor(pen, f.room, config), f.tri))
  {
  }

  // A call that draws a figure.
  method CarryFigure(dl: DrawList, sp: Splitter, op: Op, ghost pen: Pen, ghost config: Config)
    requires Follows(dl, sp, pen, config) && Allowed(pen, op) && (op.Prim? || op.ConvexPoly? || op.Polyline?)
    modifies dl
    ensures Follows(dl, sp, Play(pen, op, config, false), config)
    ensures old(dl.Compact()) ==> dl.Compact()
  {
    hide Fetch, Indices, FigureEvents, Ordered, Batched, Parked, Contiguous, Trace, PolyTriangles, Segments, LineVertices, StyleOf;
    if FigureOf(op).Some? {
      ghost var f := FigureOf(op).value;
      FigureIsBelow(pen, op);
      assert |f.tri| > 0 ==> f.tri[0] < |f.vtx|;
      FigureEventsAreFetched(pen, f, config);
      StayParked(sp.channels, sp.count, sp.current, pen.channels, FigureEvents(pen, f, config, false));
    }
    match op
    case Prim(vtx, tri, spareIdx, spareVtx) => dl.AddPrim(vtx, tri, spareIdx, spareVtx);
    case ConvexPoly(n, vtx, antiAliased) => AddConvexPolyFilled(dl, n, vtx, antiAliased);
    case Polyline(n, closed, stroke, vtx) => AddPolyline(dl, n, closed, stroke, vtx);
  }

  // The call keeps to one channel.
  predicate DrawsOnly(op: Op) {
    !op.Split? && !op.SetChannel? && !op.Merge?
  }

  // One call, carried out.
  method Carry(dl: DrawList, sp: Splitter, op: Op, ghost pen: Pen, ghost config: Config)
    requires Follows(dl, sp, pen, config) && Allowed(pen, op)
    modifies dl, sp
    ensures Follows(dl, sp, Play(pen, op, config, false), config)
    ensures DrawsOnly(op) && old(dl.Compact()) ==> dl.Compact()
  {
    hide Batched, Parked, Ordered, Contiguous, Trace, LineVertices, StyleOf, FigureOf;
    match op
    case PushClip(min, max, intersect) => dl.PushClipRect(min, max, intersect);
    case PopClip => dl.PopClipRect();
    case PushTexture(tex) => dl.PushTextureID(tex);
    case PopTexture => dl.PopTextureID();
    case RunCallback(callback) =>
      dl.AddCallback(callback);
      StayParked(sp.channels, sp.count, sp.current, pen.channels, [Called(callback)]);
    case Prim(_, _, _, _) => CarryFigure(dl, sp, op, pen, config);
    case ConvexPoly(_, _, _) => CarryFigure(dl, sp, op, pen, config);
    case Polyline(_, _, _, _) => CarryFigure(dl, sp, op, pen, config);
    case _ => CarryChannels(dl, sp, op, pen, config);
  }

  // A call about channels.
  method CarryChannels(dl: DrawList, sp: Splitter, op: Op, ghost pen: Pen, ghost config: Config)
    requires Follows(dl, sp, pen, config) && Allowed(pen, op) && (op.Split? || op.SetChannel? || op.Merge?)
    modifies dl, sp
    ensures Follows(dl, sp, Play(pen, op, config, false), config)
  {
    hide Parked, Ordered, Contiguous, Trace;
    match op
    case Split(count) => sp.Split(dl, count, pen.channels);
    case SetChannel(channel) => sp.SetCurrentChannel(dl, channel, pen.channels);
    case Merge =>
      if |pen.channels| == 1 {
        JoinedOne(pen.channels);
      }
      sp.Merge(dl, pen.channels);
  }

  // Carry out all calls on a fresh draw list.  Its buffers then mean exactly what the
  // unbatched renderer says, and are ready for more.  On one channel no command could be
  // spared: none but the last is unused, and no two neighbours could be one.
  method Render(ops: seq<Op>, config: Config) returns (cmds: seq<Cmd>, idx: seq<int>, vtx: seq<DrawVert>)
    requires Ordered(config.fullscreen) && AllAllowed(ops, config)
    ensures var pen := PlayAll(ops, config, false);
            && pen.current < |pen.channels| && Trace(cmds, idx) == pen.channels[pen.current]
            && vtx == pen.vtx
            && |cmds| > 0 && cmds[|cmds| - 1].callback.None?
            && cmds[|cmds| - 1].header == Header(pen.clip, pen.tex, pen.base)
    ensures forall k :: 0 <= k < |cmds| ==> cmds[k].idxOffset == Total(cmds[..k])
    ensures Total(cmds) == |idx|
    ensures (forall n :: 0 <= n < |ops| ==> DrawsOnly(ops[n])) ==> Batched(cmds, |vtx|)
  {
    hide Allowed, Play, AllAllowed, Trace, Follows, Batched, DrawsOnly;
    var dl := new DrawList(config.allowVtxOffset, config.fullscreen);
    var sp := new Splitter();
    StartsTogether(dl, sp, config);
    var n := 0;
    assert ops[..0] == [];
    ghost var oneChannel := forall n :: 0 <= n < |ops| ==> DrawsOnly(ops[n]);
    while n < |ops|
      invariant 0 <= n <= |ops| && fresh(dl) && fresh(sp)
      invariant Follows(dl, sp, PlayAll(ops[..n], config, false), config)
      invariant oneChannel ==> dl.Compact()
    {
      RuleFor(ops, config, n);
      assert ops[..n + 1][..n] == ops[..n];
      Carry(dl, sp, ops[n], PlayAll(ops[..n], config, false), config);
      n := n + 1;
    }
    assert ops[..n] == ops;
    cmds, idx, vtx := dl.cmdBuffer, dl.idxBuffer, dl.vtxBuffer;
    Results(dl, sp, PlayAll(ops, config, false), config);
  }

  lemma StartsTogether(dl: DrawList, sp: Splitter, config: Config)
    requires dl.Valid() && dl.Level() && dl.Meaning() == [] && dl.cmdHeader == Header(NO_CLIP, 0, 0) && dl.vtxCurrentIdx == 0
    requires dl.clipRectStack == [] && dl.textureIdStack == [] && dl.vtxBuffer == []
    requires dl.allowVtxOffset == config.allowVtxOffset && dl.fullscreen == config.fullscreen
    requires sp.current == 0 && sp.count == 1 && sp.channels == []
    ensures Follows(dl, sp, PlayAll([], config, false), config)
  {
  }

  // The calls are allowed at the pen with 16-bit indices just as at the exact one.
  lemma RuleFor(ops: seq<Op>, config: Config, n: nat)
    requires AllAllowed(ops, config) && n < |ops|
    ensures Allowed(PlayAll(ops[..n], config, false), ops[n])
  {
    hide Allowed, Play, SameShape;
    assert forall m :: 0 <= m < n ==> ops[..n][..m] == ops[..m];
    RunsAgree(ops[..n], config);
    SameShapeSameRules(PlayAll(ops[..n], config, false), PlayAll(ops[..n], config, true), ops[n], config);
  }

  lemma Results(dl: DrawList, sp: Splitter, pen: Pen, config: Config)
    requires Follows(dl, sp, pen, config)
    ensures pen.current < |pen.channels| && Trace(dl.cmdBuffer, dl.idxBuffer) == pen.channels[pen.current]
    ensures dl.vtxBuffer == pen.vtx && |dl.cmdBuffer| > 0
    ensures var c := dl.cmdBuffer[|dl.cmdBuffer| - 1];
            c.callback.None? && c.header == Header(pen.clip, pen.tex, pen.base)
    ensures forall k :: 0 <= k < |dl.cmdBuffer| ==> dl.cmdBuffer[k].idxOffset == Total(dl.cmdBuffer[..k])
    ensures Total(dl.cmdBuffer) == |dl.idxBuffer|
  {
    hide Trace;
    forall k | 0 <= k < |dl.cmdBuffer| ensures dl.cmdBuffer[k].idxOffset == Total(dl.cmdBuffer[..k]) {
      OffsetsArePrefixSums(dl.cmdBuffer, 0, |dl.idxBuffer|, k);
    }
    OffsetsArePrefixSums(dl.cmdBuffer, 0, |dl.idxBuffer|, 0);
  }
}
