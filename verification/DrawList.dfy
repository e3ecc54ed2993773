/**
 The draw list: command, index and vertex buffers, the header that new vertices are
 drawn under, and the calls that batch primitives into as few commands as they can.
 */
module DrawList {
  import opened Options
  import opened DrawTrace
  import opened DrawSpec

  // A buffer of commands that is ready to be drawn into: contiguous, and ending in a
  // command that is not a callback.
  ghost predicate Ready(cmds: seq<Cmd>, count: int) {
    |cmds| > 0 && Contiguous(cmds, 0, count) && cmds[|cmds| - 1].callback.None?
  }

  function WithoutUnused(cmds: seq<Cmd>): seq<Cmd> {
    if |cmds| > 0 && cmds[|cmds| - 1].elemCount == 0 && cmds[|cmds| - 1].callback.None? then cmds[..|cmds| - 1] else cmds
  }

  // The 16-bit indices of a primitive whose vertex 0 has index cur.
  function Indices(cur: nat, tri: seq<nat>): (idx: seq<int>)
    ensures |idx| == |tri| && forall k :: 0 <= k < |tri| ==> idx[k] == (cur + tri[k]) % INDEX_LIMIT
  {
    seq(|tri|, k requires 0 <= k < |tri| => (cur + tri[k]) % INDEX_LIMIT)
  }

  lemma IndicesConcat(cur: nat, a: seq<nat>, b: seq<nat>)
    ensures Indices(cur, a + b) == Indices(cur, a) + Indices(cur, b)
  {
  }

  // ---------- what the calls below do to the commands, and that none can be spared

  // A callback, in the last command if that is unused and else behind it, and a new
  // command behind that.
  lemma CallbackBatched(cmds: seq<Cmd>, front: seq<Cmd>, call: Cmd, after: seq<Cmd>, written: nat)
    requires |cmds| > 0 && call.callback.Some? && call.elemCount == 0 && cmds[|cmds| - 1].callback.None?
    requires front == if cmds[|cmds| - 1].elemCount == 0 then cmds[..|cmds| - 1] else cmds
    requires |after| == |front| + 2 && after[..|front| + 1] == front + [call] && after[|front| + 1].elemCount == 0
    ensures Batched(cmds, written) ==> Batched(after, written)
  {
    hide Batched;
    if Batched(cmds, written) {
      var n := |cmds| - 1;
      assert cmds == cmds[..n] + [cmds[n]];
      BatchedFront(cmds[..n], cmds[n], written);
      BatchedAdd(front, call, written);
      BatchedAdd(front + [call], after[|front| + 1], written);
      assert after == front + [call] + [after[|front| + 1]];
    }
  }

  // The commands after a change of clip rectangle or texture to the header h: a new one
  // if the last one is used under another header, else the one before or the last one.
  function Changed(cmds: seq<Cmd>, h: Header, count: nat): seq<Cmd>
    requires |cmds| > 0
  {
    var n := |cmds| - 1;
    if cmds[n].elemCount != 0 then if cmds[n].header != h then cmds + [Cmd(h, count, 0, None)] else cmds
    else if n > 0 && cmds[n - 1].header == h && cmds[n - 1].callback.None? then cmds[..n]
    else cmds[..n] + [cmds[n].(header := h)]
  }

  lemma HeaderBatched(cmds: seq<Cmd>, h: Header, count: nat, written: nat)
    requires |cmds| > 0 && cmds[|cmds| - 1].callback.None?
    ensures Batched(cmds, written) ==> Batched(Changed(cmds, h, count), written)
  {
    hide Batched;
    if Batched(cmds, written) {
      var n := |cmds| - 1;
      assert cmds == cmds[..n] + [cmds[n]];
      BatchedFront(cmds[..n], cmds[n], written);
      if cmds[n].elemCount != 0 && cmds[n].header != h {
        BatchedAdd(cmds, Cmd(h, count, 0, None), written);
      } else if cmds[n].elemCount == 0 && !(n > 0 && cmds[n - 1].header == h && cmds[n - 1].callback.None?) {
        BatchedReplace(cmds[..n], cmds[n], cmds[n].(header := h), written, written);
      }
    }
  }

  // The same for a change of vertex offset: the code does not look at the command before.
  function Rebased(cmds: seq<Cmd>, h: Header, count: nat): (r: seq<Cmd>)
    requires |cmds| > 0
    ensures |r| > 0
  {
    var n := |cmds| - 1;
    if cmds[n].elemCount != 0 then cmds + [Cmd(h, count, 0, None)] else cmds[..n] + [cmds[n].(header := h)]
  }

  // The last command takes up more indices, or fewer.
  function TakingUp(cmds: seq<Cmd>, more: int): seq<Cmd>
    requires |cmds| > 0 && cmds[|cmds| - 1].elemCount + more >= 0
  {
    var n := |cmds| - 1;
    cmds[..n] + [cmds[n].(elemCount := cmds[n].elemCount + more)]
  }

  // The vertex offset is one that no command has drawn from yet.
  lemma OffsetBatched(cmds: seq<Cmd>, h: Header, count: nat, written: nat)
    requires |cmds| > 0 && cmds[|cmds| - 1].callback.None?
    ensures Batched(cmds, written) && h.vtxOffset == written ==> Batched(Rebased(cmds, h, count), written)
  {
    hide Batched;
    if Batched(cmds, written) && h.vtxOffset == written {
      var n := |cmds| - 1;
      assert cmds == cmds[..n] + [cmds[n]];
      BatchedFront(cmds[..n], cmds[n], written);
      if cmds[n].elemCount != 0 {
        BatchedAdd(cmds, Cmd(h, count, 0, None), written);
      } else {
        BatchedReplace(cmds[..n], cmds[n], cmds[n].(header := h), written, written);
      }
    }
  }

  // The last command takes up indices, of vertices that come with them.
  lemma ReserveBatched(cmds: seq<Cmd>, idxCount: nat, written: nat, vtxCount: nat)
    requires |cmds| > 0 && cmds[|cmds| - 1].header.vtxOffset <= written
    ensures Batched(cmds, written) && (idxCount > 0 ==> vtxCount > 0) ==>
              Batched(TakingUp(cmds, idxCount), written + vtxCount)
  {
    hide Batched;
    if Batched(cmds, written) && (idxCount > 0 ==> vtxCount > 0) {
      var front, last := cmds[..|cmds| - 1], cmds[|cmds| - 1];
      assert cmds == front + [last];
      BatchedFront(front, last, written);
      BatchedReplace(front, last, last.(elemCount := last.elemCount + idxCount), written, written + vtxCount);
    }
  }

  // The commands after a figure: a new vertex offset if one is started, and the indices
  // of the figure.
  function WithFigure(cmds: seq<Cmd>, over: bool, h: Header, count: nat, idxCount: nat): seq<Cmd>
    requires |cmds| > 0
  {
    TakingUp(if over then Rebased(cmds, h, count) else cmds, idxCount)
  }

  lemma FigureBatched(cmds: seq<Cmd>, over: bool, h: Header, count: nat, f: Figure, written: nat)
    requires |cmds| > 0 && cmds[|cmds| - 1].callback.None?
    requires if over then h.vtxOffset == written else cmds[|cmds| - 1].header == h
    ensures Batched(cmds, written) && h.vtxOffset <= written && (|f.tri| > 0 ==> |f.vtx| > 0) ==>
              Batched(WithFigure(cmds, over, h, count, |f.tri|), written + |f.vtx|)
  {
    hide Batched;
    OffsetBatched(cmds, h, count, written);
    if h.vtxOffset <= written {
      ReserveBatched(if over then Rebased(cmds, h, count) else cmds, |f.tri|, written, |f.vtx|);
    }
  }

  class DrawList {
    var cmdBuffer: seq<Cmd>
    var idxBuffer: seq<int>
    var vtxBuffer: seq<DrawVert>
    var allowVtxOffset: bool
    var vtxCurrentIdx: nat
    var vtxWrite: nat
    var idxWrite: nat
    var clipRectStack: seq<Clip>
    var textureIdStack: seq<int>
    var cmdHeader: Header
    const fullscreen: Clip

    // What a renderer does with the list as it stands.
    ghost function Meaning(): seq<Event>
      reads this
    {
      Trace(cmdBuffer, idxBuffer)
    }

    // Every clip rectangle that can come into force is well formed.
    ghost predicate ClipsOrdered()
      reads this
    {
      && Ordered(cmdHeader.clip) && Ordered(fullscreen)
      && forall i :: 0 <= i < |clipRectStack| ==> Ordered(clipRectStack[i])
    }

    // The last command has the header in force.
    ghost predicate Valid()
      reads this
    {
      && Ready(cmdBuffer, |idxBuffer|)
      && cmdBuffer[|cmdBuffer| - 1].header == cmdHeader
      && ClipsOrdered()
    }

    // All reserved vertices have been written.
    ghost predicate Level()
      reads this
    {
      cmdHeader.vtxOffset + vtxCurrentIdx == |vtxBuffer|
    }

    // No command could be spared.
    ghost predicate Compact()
      reads this
    {
      Batched(cmdBuffer, |vtxBuffer|) && cmdHeader.vtxOffset <= |vtxBuffer|
    }

    constructor (allowVtxOffset: bool, fullscreen: Clip)
      requires Ordered(fullscreen)
      ensures Valid() && Level() && Meaning() == [] && Compact()
      ensures this.allowVtxOffset == allowVtxOffset && this.fullscreen == fullscreen
      ensures cmdHeader == Header(NO_CLIP, 0, 0) && vtxCurrentIdx == 0
      ensures clipRectStack == [] && textureIdStack == [] && vtxBuffer == [] && idxBuffer == [] && |cmdBuffer| == 1
    {
      this.allowVtxOffset, this.fullscreen := allowVtxOffset, fullscreen;
      cmdHeader := Header(NO_CLIP, 0, 0);
      vtxCurrentIdx, vtxWrite, idxWrite := 0, 0, 0;
      clipRectStack, textureIdStack := [], [];
      cmdBuffer, idxBuffer, vtxBuffer := [Cmd(Header(NO_CLIP, 0, 0), 0, 0, None)], [], [];
      new;
      TraceOfEmpty([], cmdBuffer[0], idxBuffer);
      assert [] + [cmdBuffer[0]] == cmdBuffer;
    }

    // ---------- commands

    // A new command under the header in force.  The code asserts that its clip
    // rectangle is ordered.
    method AddDrawCmd()
      requires Contiguous(cmdBuffer, 0, |idxBuffer|) && ClipsOrdered()
      modifies this`cmdBuffer
      ensures cmdBuffer == old(cmdBuffer) + [Cmd(cmdHeader, |idxBuffer|, 0, None)]
      ensures Valid() && Meaning() == old(Meaning())
    {
      var drawCmd := Cmd(cmdHeader, |idxBuffer|, 0, None);
      assert drawCmd.header.clip.x <= drawCmd.header.clip.z && drawCmd.header.clip.y <= drawCmd.header.clip.w;
      TraceOfEmpty(cmdBuffer, drawCmd, idxBuffer);
      cmdBuffer := cmdBuffer + [drawCmd];
    }

    // Drop a trailing command that draws nothing.
    method PopUnusedDrawCmd()
      requires Contiguous(cmdBuffer, 0, |idxBuffer|)
      modifies this`cmdBuffer
      ensures Contiguous(cmdBuffer, 0, |idxBuffer|) && Meaning() == old(Meaning())
      ensures cmdBuffer == WithoutUnused(old(cmdBuffer))
    {
      hide Trace, Contiguous;
      if |cmdBuffer| == 0 {
        return;
      }
      var currCmd := cmdBuffer[|cmdBuffer| - 1];
      if currCmd.elemCount == 0 && currCmd.callback.None? {
        assert cmdBuffer[..|cmdBuffer| - 1] + [currCmd] == cmdBuffer;
        TraceOfEmpty(cmdBuffer[..|cmdBuffer| - 1], currCmd, idxBuffer);
        cmdBuffer := cmdBuffer[..|cmdBuffer| - 1];
      }
    }

    // Replace the last command.
    method SetLast(c: Cmd)
      requires |cmdBuffer| > 0
      modifies this`cmdBuffer
      ensures cmdBuffer == old(cmdBuffer)[..|old(cmdBuffer)| - 1] + [c]
    {
      cmdBuffer := cmdBuffer[|cmdBuffer| - 1 := c];
    }

    method AddCallback(callback: Callback)
      requires Valid()
      modifies this`cmdBuffer
      ensures Valid() && Meaning() == old(Meaning()) + [Called(callback)]
      ensures old(Compact()) ==> Compact()
    {
      hide Batched, Trace, Contiguous, Ordered;
      var currCmd := cmdBuffer[|cmdBuffer| - 1];
      assert currCmd.callback.None?;
      if currCmd.elemCount != 0 {
        AddDrawCmd();
        currCmd := cmdBuffer[|cmdBuffer| - 1];
      }
      ghost var front := cmdBuffer[..|cmdBuffer| - 1];
      assert cmdBuffer == front + [currCmd];
      Append(front, currCmd, idxBuffer);
      TraceOfEmpty(front, currCmd, idxBuffer);
      Append(front, currCmd.(callback := Some(callback)), idxBuffer);
      SetLast(currCmd.(callback := Some(callback)));
      // What is drawn next must not join the callback's command
      AddDrawCmd();
      CallbackBatched(old(cmdBuffer), front, currCmd.(callback := Some(callback)), cmdBuffer, |vtxBuffer|);
    }

    // ---------- the header changed

    // The last command is in step with the header, but for the field just changed.
    ghost predicate Behind(h: Header)
      reads this
    {
      Ready(cmdBuffer, |idxBuffer|) && cmdBuffer[|cmdBuffer| - 1].header == h && ClipsOrdered()
    }

    // The last command is unused, and the one before it has the header in force.
    ghost predicate MayMerge()
      reads this
    {
      var n := |cmdBuffer|;
      n > 1 && cmdBuffer[n - 1].elemCount == 0 && cmdBuffer[n - 2].header == cmdHeader && cmdBuffer[n - 2].callback.None?
    }

    // Try to go on with the previous command, if it has the header in force.
    method TryMerge() returns (merged: bool)
      requires Ready(cmdBuffer, |idxBuffer|) && ClipsOrdered()
      modifies this`cmdBuffer
      ensures merged <==> old(MayMerge())
      ensures merged ==> Valid() && Meaning() == old(Meaning()) && cmdBuffer == old(cmdBuffer)[..|old(cmdBuffer)| - 1]
      ensures !merged ==> cmdBuffer == old(cmdBuffer)
    {
      var currCmd := cmdBuffer[|cmdBuffer| - 1];
      merged := false;
      if currCmd.elemCount == 0 && |cmdBuffer| > 1 {
        var prevCmd := cmdBuffer[|cmdBuffer| - 2];
        if cmdHeader == prevCmd.header && prevCmd.callback.None? {
          assert cmdBuffer[..|cmdBuffer| - 1] + [currCmd] == cmdBuffer;
          TraceOfEmpty(cmdBuffer[..|cmdBuffer| - 1], currCmd, idxBuffer);
          cmdBuffer := cmdBuffer[..|cmdBuffer| - 1];
          merged := true;
        }
      }
    }

    // Give the last, still empty command the header in force.
    method Restart(h: Header)
      requires Ready(cmdBuffer, |idxBuffer|) && ClipsOrdered() && h == cmdHeader
      requires cmdBuffer[|cmdBuffer| - 1].elemCount == 0 || cmdBuffer[|cmdBuffer| - 1].header == h
      modifies this`cmdBuffer
      ensures Valid() && Meaning() == old(Meaning())
      ensures var n := |old(cmdBuffer)| - 1; cmdBuffer == old(cmdBuffer)[..n] + [old(cmdBuffer)[n].(header := h)]
    {
      var currCmd := cmdBuffer[|cmdBuffer| - 1];
      ghost var front := cmdBuffer[..|cmdBuffer| - 1];
      assert cmdBuffer == front + [currCmd];
      Append(front, currCmd, idxBuffer);
      Append(front, currCmd.(header := h), idxBuffer);
      assert currCmd.elemCount == 0 ==> Slice(idxBuffer, currCmd.idxOffset, 0) == [];
      SetLast(currCmd.(header := h));
    }

    method OnChangedClipRect(ghost h: Header)
      requires Behind(h) && h.(clip := cmdHeader.clip) == cmdHeader
      modifies this`cmdBuffer
      ensures Valid() && Meaning() == old(Meaning())
      ensures old(Compact()) ==> Compact()
    {
      hide Batched, Trace, Contiguous, Ordered;
      ghost var cmds := cmdBuffer;
      // Elements drawn under another header stay in a command of their own
      var currCmd := cmdBuffer[|cmdBuffer| - 1];
      if currCmd.elemCount != 0 && currCmd.header.clip != cmdHeader.clip {
        AddDrawCmd();
        HeaderBatched(cmds, cmdHeader, |idxBuffer|, |vtxBuffer|);
        return;
      }
      // An unused last command may turn out to repeat the one before it
      var merged := TryMerge();
      if !merged {
        Restart(currCmd.header.(clip := cmdHeader.clip));
      }
      assert cmds == cmds[..|cmds| - 1] + [currCmd];
      assert cmdBuffer == Changed(cmds, cmdHeader, |idxBuffer|);
      HeaderBatched(cmds, cmdHeader, |idxBuffer|, |vtxBuffer|);
    }

    method OnChangedTextureID(ghost h: Header)
      requires Behind(h) && h.(tex := cmdHeader.tex) == cmdHeader
      modifies this`cmdBuffer
      ensures Valid() && Meaning() == old(Meaning())
      ensures old(Compact()) ==> Compact()
    {
      hide Batched, Trace, Contiguous, Ordered;
      ghost var cmds := cmdBuffer;
      // Elements drawn under another header stay in a command of their own
      var currCmd := cmdBuffer[|cmdBuffer| - 1];
      if currCmd.elemCount != 0 && currCmd.header.tex != cmdHeader.tex {
        AddDrawCmd();
        HeaderBatched(cmds, cmdHeader, |idxBuffer|, |vtxBuffer|);
        return;
      }
      // An unused last command may turn out to repeat the one before it
      var merged := TryMerge();
      if !merged {
        Restart(currCmd.header.(tex := cmdHeader.tex));
      }
      assert cmds == cmds[..|cmds| - 1] + [currCmd];
      assert cmdBuffer == Changed(cmds, cmdHeader, |idxBuffer|);
      HeaderBatched(cmds, cmdHeader, |idxBuffer|, |vtxBuffer|);
    }

    method OnChangedVtxOffset(ghost h: Header)
      requires Behind(h) && h.(vtxOffset := cmdHeader.vtxOffset) == cmdHeader
      modifies this`cmdBuffer, this`vtxCurrentIdx
      ensures Valid() && Meaning() == old(Meaning()) && vtxCurrentIdx == 0
      ensures cmdBuffer == Rebased(old(cmdBuffer), cmdHeader, |idxBuffer|)
    {
      hide Batched, Trace, Contiguous, Ordered;
      vtxCurrentIdx := 0;
      var currCmd := cmdBuffer[|cmdBuffer| - 1];
      if currCmd.elemCount != 0 {
        AddDrawCmd();
        return;
      }
      Restart(currCmd.header.(vtxOffset := cmdHeader.vtxOffset));
    }

    // ---------- clip rectangles and textures

    method PushClipRect(min: Vec2, max: Vec2, intersect: bool)
      requires Valid()
      modifies this`cmdBuffer, this`cmdHeader, this`clipRectStack
      ensures Valid() && Meaning() == old(Meaning())
      ensures cmdHeader == old(cmdHeader).(clip := Clipped(old(cmdHeader.clip), min, max, intersect))
      ensures clipRectStack == old(clipRectStack) + [cmdHeader.clip]
      ensures old(Compact()) ==> Compact()
    {
      hide Batched;
      var cr := Clip(min.x, min.y, max.x, max.y);
      if intersect {
        var current := cmdHeader.clip;
        if cr.x < current.x { cr := cr.(x := current.x); }
        if cr.y < current.y { cr := cr.(y := current.y); }
        if cr.z > current.z { cr := cr.(z := current.z); }
        if cr.w > current.w { cr := cr.(w := current.w); }
      }
      cr := cr.(z := RMax(cr.x, cr.z));
      cr := cr.(w := RMax(cr.y, cr.w));
      ghost var h := cmdHeader;
      clipRectStack := clipRectStack + [cr];
      cmdHeader := cmdHeader.(clip := cr);
      OnChangedClipRect(h);
    }

    method PopClipRect()
      requires Valid() && |clipRectStack| > 0
      modifies this`cmdBuffer, this`cmdHeader, this`clipRectStack
      ensures Valid() && Meaning() == old(Meaning())
      ensures clipRectStack == old(clipRectStack)[..|old(clipRectStack)| - 1]
      ensures cmdHeader == old(cmdHeader).(clip := Last(clipRectStack, fullscreen))
      ensures old(Compact()) ==> Compact()
    {
      hide Batched;
      ghost var h := cmdHeader;
      clipRectStack := clipRectStack[..|clipRectStack| - 1];
      cmdHeader := cmdHeader.(clip := if |clipRectStack| == 0 then fullscreen else clipRectStack[|clipRectStack| - 1]);
      OnChangedClipRect(h);
    }

    method PushTextureID(tex: int)
      requires Valid()
      modifies this`cmdBuffer, this`cmdHeader, this`textureIdStack
      ensures Valid() && Meaning() == old(Meaning())
      ensures textureIdStack == old(textureIdStack) + [tex] && cmdHeader == old(cmdHeader).(tex := tex)
      ensures old(Compact()) ==> Compact()
    {
      hide Batched;
      ghost var h := cmdHeader;
      textureIdStack := textureIdStack + [tex];
      cmdHeader := cmdHeader.(tex := tex);
      OnChangedTextureID(h);
    }

    method PopTextureID()
      requires Valid() && |textureIdStack| > 0
      modifies this`cmdBuffer, this`cmdHeader, this`textureIdStack
      ensures Valid() && Meaning() == old(Meaning())
      ensures textureIdStack == old(textureIdStack)[..|old(textureIdStack)| - 1]
      ensures cmdHeader == old(cmdHeader).(tex := Last(textureIdStack, 0))
      ensures old(Compact()) ==> Compact()
    {
      hide Batched;
      ghost var h := cmdHeader;
      textureIdStack := textureIdStack[..|textureIdStack| - 1];
      cmdHeader := cmdHeader.(tex := if |textureIdStack| == 0 then 0 else textureIdStack[|textureIdStack| - 1]);
      OnChangedTextureID(h);
    }

    // ---------- primitives

    // A reservation of this many vertices starts a new vertex offset.
    ghost predicate StartsOver(vtxCount: nat)
      reads this
    {
      vtxCurrentIdx + vtxCount >= INDEX_LIMIT && allowVtxOffset
    }

    // Room for a primitive: the last command takes up the indices, and what is in the
    // new room is left over from before.
    method PrimReserve(idxCount: nat, vtxCount: nat)
      requires Valid()
      modifies this`cmdBuffer, this`idxBuffer, this`vtxBuffer, this`cmdHeader, this`vtxCurrentIdx, this`vtxWrite, this`idxWrite
      ensures Valid()
      ensures if old(StartsOver(vtxCount))
              then cmdHeader == old(cmdHeader).(vtxOffset := |old(vtxBuffer)|) && vtxCurrentIdx == 0
              else cmdHeader == old(cmdHeader) && vtxCurrentIdx == old(vtxCurrentIdx)
      ensures cmdBuffer == WithFigure(old(cmdBuffer), old(StartsOver(vtxCount)), cmdHeader, |old(idxBuffer)|, idxCount)
      ensures |idxBuffer| == |old(idxBuffer)| + idxCount && old(idxBuffer) <= idxBuffer && idxWrite == |old(idxBuffer)|
      ensures |vtxBuffer| == |old(vtxBuffer)| + vtxCount && old(vtxBuffer) <= vtxBuffer && vtxWrite == |old(vtxBuffer)|
      ensures cmdBuffer[|cmdBuffer| - 1].elemCount >= idxCount
      ensures Meaning() == old(Meaning()) + Fetch(cmdHeader, idxBuffer[|old(idxBuffer)|..])
    {
      hide Trace, Contiguous, Fetch, Ordered, Batched;
      // Large meshes, where the renderer can handle them
      if vtxCurrentIdx + vtxCount >= INDEX_LIMIT && allowVtxOffset {
        ghost var h := cmdHeader;
        cmdHeader := cmdHeader.(vtxOffset := |vtxBuffer|);
        OnChangedVtxOffset(h);
      }
      var indices, vertices := Leftovers(idxCount, vtxCount);
      var drawCmd := cmdBuffer[|cmdBuffer| - 1];
      ghost var front := cmdBuffer[..|cmdBuffer| - 1];
      assert cmdBuffer == front + [drawCmd];
      TraceGrow(front, drawCmd, idxBuffer, indices);
      SetLast(drawCmd.(elemCount := drawCmd.elemCount + idxCount));
      vtxWrite, idxWrite := |vtxBuffer|, |idxBuffer|;
      vtxBuffer := vtxBuffer + vertices;
      idxBuffer := idxBuffer + indices;
      assert idxBuffer[|old(idxBuffer)|..] == indices;
    }

    // What a grown buffer holds before it is written.
    static method Leftovers(idxCount: nat, vtxCount: nat) returns (indices: seq<int>, vertices: seq<DrawVert>)
      ensures |indices| == idxCount && |vertices| == vtxCount
    {
      ghost var zero := DrawVert(Vec2(0.0, 0.0), Vec2(0.0, 0.0), 0);
      assert |seq(idxCount, _ => 0)| == idxCount && |seq(vtxCount, _ => zero)| == vtxCount;
      indices :| |indices| == idxCount;
      vertices :| |vertices| == vtxCount;
    }

    // Give back the end of the last reservation.
    method PrimUnreserve(idxCount: nat, vtxCount: nat)
      requires Valid() && vtxCount <= |vtxBuffer| && idxCount <= cmdBuffer[|cmdBuffer| - 1].elemCount
      modifies this`cmdBuffer, this`idxBuffer, this`vtxBuffer
      ensures Valid() && idxBuffer == old(idxBuffer)[..|old(idxBuffer)| - idxCount]
      ensures vtxBuffer == old(vtxBuffer)[..|old(vtxBuffer)| - vtxCount]
      ensures cmdBuffer == TakingUp(old(cmdBuffer), -(idxCount as int))
      ensures old(Meaning()) == Meaning() + Fetch(cmdHeader, old(idxBuffer)[|old(idxBuffer)| - idxCount..])
    {
      hide Fetch, CmdTrace, Ordered;
      var drawCmd := cmdBuffer[|cmdBuffer| - 1];
      var c := drawCmd.(elemCount := drawCmd.elemCount - idxCount);
      ghost var front := cmdBuffer[..|cmdBuffer| - 1];
      ghost var kept, given := idxBuffer[..|idxBuffer| - idxCount], idxBuffer[|idxBuffer| - idxCount..];
      assert cmdBuffer == front + [drawCmd] && idxBuffer == kept + given;
      Append(front, drawCmd, idxBuffer);
      Append(front, c, kept);
      TraceGrow(front, c, kept, given);
      SetLast(c);
      vtxBuffer := vtxBuffer[..|vtxBuffer| - vtxCount];
      idxBuffer := idxBuffer[..|idxBuffer| - idxCount];
    }

    // The indices in the room of the last reservation were `was` and are `now`.
    lemma Rewritten(kept: seq<int>, was: seq<int>, now: seq<int>, before: seq<Event>)
      requires Valid() && idxBuffer == kept + now && |was| == |now| <= cmdBuffer[|cmdBuffer| - 1].elemCount
      requires Trace(cmdBuffer, kept + was) == before + Fetch(cmdHeader, was)
      ensures Meaning() == before + Fetch(cmdHeader, now)
    {
      hide Trace, Contiguous, Fetch;
      var front, c := cmdBuffer[..|cmdBuffer| - 1], cmdBuffer[|cmdBuffer| - 1];
      assert cmdBuffer == front + [c];
      TraceRewritten(front, c, kept, was, now, before);
    }

    // Write one vertex, and count it.
    method PrimWriteVtx(v: DrawVert)
      requires vtxWrite < |vtxBuffer|
      modifies this`vtxBuffer, this`vtxWrite, this`vtxCurrentIdx
      ensures |vtxBuffer| == |old(vtxBuffer)| && vtxWrite == old(vtxWrite) + 1 && vtxCurrentIdx == old(vtxCurrentIdx) + 1
      ensures vtxBuffer[..vtxWrite] == old(vtxBuffer[..vtxWrite]) + [v]
    {
      vtxBuffer := vtxBuffer[vtxWrite := v];
      vtxWrite := vtxWrite + 1;
      vtxCurrentIdx := vtxCurrentIdx + 1;
    }

    // Write one index.
    method PrimWriteIdx(i: int)
      requires idxWrite < |idxBuffer|
      modifies this`idxBuffer, this`idxWrite
      ensures |idxBuffer| == |old(idxBuffer)| && idxWrite == old(idxWrite) + 1
      ensures idxBuffer[..idxWrite] == old(idxBuffer[..idxWrite]) + [i]
    {
      idxBuffer := idxBuffer[idxWrite := i];
      idxWrite := idxWrite + 1;
    }

    // Write a group of indices, counted from the index cur and cut to 16 bits.
    method WriteIndices(cur: nat, tri: seq<nat>)
      requires idxWrite + |tri| <= |idxBuffer|
      modifies this`idxBuffer, this`idxWrite
      ensures |idxBuffer| == |old(idxBuffer)| && idxWrite == old(idxWrite) + |tri|
      ensures idxBuffer[..idxWrite] == old(idxBuffer[..idxWrite]) + Indices(cur, tri)
    {
      hide Indices;
      var k := 0;
      assert Indices(cur, tri[..0]) == [];
      while k < |tri|
        invariant 0 <= k <= |tri| && |idxBuffer| == |old(idxBuffer)| && idxWrite == old(idxWrite) + k
        invariant idxBuffer[..idxWrite] == old(idxBuffer[..idxWrite]) + Indices(cur, tri[..k])
      {
        assert tri[..k + 1] == tri[..k] + [tri[k]];
        IndicesConcat(cur, tri[..k], [tri[k]]);
        assert Indices(cur, [tri[k]]) == [(cur + tri[k]) % INDEX_LIMIT];
        PrimWriteIdx((cur + tri[k]) % INDEX_LIMIT);
        k := k + 1;
      }
      assert tri[..|tri|] == tri;
    }

    // Write a group of vertices, without counting them.
    method WriteVertices(vtx: seq<DrawVert>)
      requires vtxWrite + |vtx| <= |vtxBuffer|
      modifies this`vtxBuffer, this`vtxWrite
      ensures |vtxBuffer| == |old(vtxBuffer)| && vtxWrite == old(vtxWrite) + |vtx|
      ensures vtxBuffer[..vtxWrite] == old(vtxBuffer[..vtxWrite]) + vtx
    {
      var k := 0;
      while k < |vtx|
        invariant 0 <= k <= |vtx| && |vtxBuffer| == |old(vtxBuffer)| && vtxWrite == old(vtxWrite) + k
        invariant vtxBuffer[..vtxWrite] == old(vtxBuffer[..vtxWrite]) + vtx[..k]
      {
        vtxBuffer := vtxBuffer[vtxWrite := vtx[k]];
        vtxWrite := vtxWrite + 1;
        k := k + 1;
      }
    }

    // What drawing a figure comes to.
    twostate predicate Drew(f: Figure)
      reads this
    {
      var over := old(StartsOver(f.room));
      var cur := if over then 0 else old(vtxCurrentIdx);
      && Valid()
      && vtxBuffer == old(vtxBuffer) + f.vtx && idxBuffer == old(idxBuffer) + Indices(cur, f.tri)
      && cmdHeader == (if over then old(cmdHeader).(vtxOffset := |old(vtxBuffer)|) else old(cmdHeader))
      && vtxCurrentIdx == cur + f.counted
      && Meaning() == old(Meaning()) + Fetch(cmdHeader, Indices(cur, f.tri))
      && (old(Compact()) && (|f.tri| > 0 ==> |f.vtx| > 0) ==> Compact())
    }

    // Reserve, write all indices, write all vertices one by one, and give back the room
    // that is left.
    method AddPrim(vtx: seq<DrawVert>, tri: seq<nat>, spareIdx: nat, spareVtx: nat)
      requires Valid()
      modifies this`cmdBuffer, this`idxBuffer, this`vtxBuffer, this`cmdHeader, this`vtxCurrentIdx, this`vtxWrite, this`idxWrite
      ensures Drew(Figure(vtx, tri, |vtx| + spareVtx, |vtx|))
    {
      hide Trace, Contiguous, Fetch, Indices, Ordered, Batched, WithFigure;
      ghost var f, over := Figure(vtx, tri, |vtx| + spareVtx, |vtx|), StartsOver(|vtx| + spareVtx);
      PrimReserve(|tri| + spareIdx, |vtx| + spareVtx);
      WritePrim(vtx, tri, spareIdx, spareVtx, old(idxBuffer), old(vtxBuffer), old(Meaning()));
      GivenBack(old(cmdBuffer), over, cmdHeader, |old(idxBuffer)|, |tri|, spareIdx);
      ghost var all, n := Meaning(), |old(idxBuffer)| + |tri|;
      ghost var drawn := old(Meaning()) + Fetch(cmdHeader, Indices(vtxCurrentIdx - |vtx|, tri));
      assert n == |idxBuffer| - spareIdx;
      PrimUnreserve(spareIdx, spareVtx);
      SameEnd(all, drawn, Meaning(), spareIdx);
      FigureBatched(old(cmdBuffer), over, cmdHeader, |old(idxBuffer)|, f, |old(vtxBuffer)|);
    }

    // Write the indices and vertices of a primitive into the room made for it.
    method WritePrim(vtx: seq<DrawVert>, tri: seq<nat>, spareIdx: nat, spareVtx: nat,
                     ghost kept: seq<int>, ghost before: seq<DrawVert>, ghost meant: seq<Event>)
      requires Valid() && |idxBuffer| == |kept| + |tri| + spareIdx && kept <= idxBuffer && idxWrite == |kept|
      requires |vtxBuffer| == |before| + |vtx| + spareVtx && before <= vtxBuffer && vtxWrite == |before|
      requires cmdBuffer[|cmdBuffer| - 1].elemCount >= |tri| + spareIdx
      requires Meaning() == meant + Fetch(cmdHeader, idxBuffer[|kept|..])
      modifies this`idxBuffer, this`vtxBuffer, this`vtxCurrentIdx, this`vtxWrite, this`idxWrite
      ensures Valid() && vtxCurrentIdx == old(vtxCurrentIdx) + |vtx|
      ensures |idxBuffer| == |old(idxBuffer)| && |vtxBuffer| == |old(vtxBuffer)|
      ensures idxBuffer[..|kept| + |tri|] == kept + Indices(old(vtxCurrentIdx), tri)
      ensures vtxBuffer[..|before| + |vtx|] == before + vtx
      ensures Meaning() == meant + Fetch(cmdHeader, Indices(old(vtxCurrentIdx), tri))
                           + Fetch(cmdHeader, idxBuffer[|kept| + |tri|..])
    {
      hide Trace, Contiguous, Fetch, Indices, Ordered;
      ghost var was := idxBuffer[|kept|..];
      assert idxBuffer == kept + was && idxBuffer[..|kept|] == kept && vtxBuffer[..|before|] == before;
      WriteIndices(vtxCurrentIdx, tri);
      ghost var now, left := Indices(vtxCurrentIdx, tri), idxBuffer[|kept| + |tri|..];
      assert idxBuffer == kept + (now + left);
      Rewritten(kept, was, now + left, meant);
      FetchConcat(cmdHeader, now, left);
      assert meant + (Fetch(cmdHeader, now) + Fetch(cmdHeader, left)) == meant + Fetch(cmdHeader, now) + Fetch(cmdHeader, left);
      var k := 0;
      while k < |vtx|
        invariant 0 <= k <= |vtx| && |vtxBuffer| == |old(vtxBuffer)| && vtxWrite == |before| + k
        invariant vtxCurrentIdx == old(vtxCurrentIdx) + k
        invariant vtxBuffer[..vtxWrite] == before + vtx[..k]
        modifies this`vtxBuffer, this`vtxWrite, this`vtxCurrentIdx
      {
        PrimWriteVtx(vtx[k]);
        k := k + 1;
      }
      assert vtx[..k] == vtx;
    }
  }

  // What is left when the same end is taken from both.
  lemma SameEnd(all: seq<Event>, a: seq<Event>, b: seq<Event>, n: nat)
    requires |a| + n == |all| == |b| + n && a == all[..|a|] && b == all[..|b|]
    ensures a == b
  {
  }

  // Taking up more indices and giving the surplus back.
  lemma GivenBack(cmds: seq<Cmd>, over: bool, h: Header, count: nat, idxCount: nat, spare: nat)
    requires |cmds| > 0
    ensures var all := WithFigure(cmds, over, h, count, idxCount + spare);
            && |all| > 0 && all[|all| - 1].elemCount >= spare
            && TakingUp(all, -(spare as int)) == WithFigure(cmds, over, h, count, idxCount)
  {
  }
}
