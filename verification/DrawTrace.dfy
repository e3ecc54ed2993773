/**
 What a command buffer means: the sequence of vertices a renderer would fetch, each
 with the clip rectangle and texture in force, and the callbacks in between.
 */
module DrawTrace {
  import opened Options

  datatype Clip = Clip(x: real, y: real, z: real, w: real)

  // Textures and callbacks are opaque; texture 0 is none.
  datatype Callback = Callback(function_: int, data: int)

  // What commands must share to be drawn as one.
  datatype Header = Header(clip: Clip, tex: int, vtxOffset: nat)

  datatype Cmd = Cmd(header: Header, idxOffset: nat, elemCount: nat, callback: Option<Callback>)

  // One vertex fetched by a renderer, by its place in the whole vertex buffer, or a
  // callback run.
  datatype Event = Vertex(clip: Clip, tex: int, place: int) | Called(callback: Callback)

  function Fetch(h: Header, idx: seq<int>): (e: seq<Event>)
    ensures |e| == |idx|
    ensures forall k :: 0 <= k < |idx| ==> e[k] == Vertex(h.clip, h.tex, h.vtxOffset + idx[k])
  {
    seq(|idx|, k requires 0 <= k < |idx| => Vertex(h.clip, h.tex, h.vtxOffset + idx[k]))
  }

  function Slice(idx: seq<int>, from: nat, count: nat): seq<int> {
    if from + count <= |idx| then idx[from..from + count] else []
  }

  function CmdTrace(c: Cmd, idx: seq<int>): seq<Event> {
    if c.callback.Some? then [Called(c.callback.value)] else Fetch(c.header, Slice(idx, c.idxOffset, c.elemCount))
  }

  // What a renderer does with the buffers.
  function Trace(cmds: seq<Cmd>, idx: seq<int>): seq<Event> {
    if |cmds| == 0 then [] else Trace(cmds[..|cmds| - 1], idx) + CmdTrace(cmds[|cmds| - 1], idx)
  }

  // The commands take up the indices from lo to hi, one after the other without gaps
  // or overlaps; a callback takes up none.
  ghost predicate Contiguous(cmds: seq<Cmd>, lo: int, hi: int) {
    if |cmds| == 0 then lo == hi
    else
      var c := cmds[|cmds| - 1];
      && c.idxOffset + c.elemCount == hi
      && (c.callback.Some? ==> c.elemCount == 0)
      && Contiguous(cmds[..|cmds| - 1], lo, c.idxOffset)
  }

  // The number of indices the commands consume.
  function Total(cmds: seq<Cmd>): nat {
    if |cmds| == 0 then 0 else Total(cmds[..|cmds| - 1]) + cmds[|cmds| - 1].elemCount
  }

  // Contiguous says that every index offset is the sum of the counts before it.
  lemma {:induction false} OffsetsArePrefixSums(cmds: seq<Cmd>, lo: int, hi: int, k: nat)
    requires Contiguous(cmds, lo, hi) && k < |cmds|
    ensures cmds[k].idxOffset == lo + Total(cmds[..k])
    ensures hi == lo + Total(cmds)
    decreases |cmds|
  {
    var front := cmds[..|cmds| - 1];
    if |front| > 0 {
      OffsetsArePrefixSums(front, lo, cmds[|cmds| - 1].idxOffset, if k < |front| then k else 0);
    }
    if k < |front| {
      assert front[..k] == cmds[..k];
    }
  }

  lemma {:induction false} ContiguousIsOrdered(cmds: seq<Cmd>, lo: int, hi: int)
    requires Contiguous(cmds, lo, hi)
    ensures lo <= hi
    decreases |cmds|
  {
    if |cmds| > 0 {
      ContiguousIsOrdered(cmds[..|cmds| - 1], lo, cmds[|cmds| - 1].idxOffset);
    }
  }

  lemma {:induction false} ContiguousJoin(a: seq<Cmd>, b: seq<Cmd>, lo: int, mid: int, hi: int)
    requires Contiguous(a, lo, mid) && Contiguous(b, mid, hi)
    ensures Contiguous(a + b, lo, hi)
    decreases |b|
  {
    if |b| == 0 {
      assert a + b == a;
    } else {
      ContiguousJoin(a, b[..|b| - 1], lo, mid, b[|b| - 1].idxOffset);
      assert (a + b)[..|a + b| - 1] == a + b[..|b| - 1];
    }
  }

  lemma {:induction false} TraceConcat(a: seq<Cmd>, b: seq<Cmd>, idx: seq<int>)
    ensures Trace(a + b, idx) == Trace(a, idx) + Trace(b, idx)
    decreases |b|
  {
    hide CmdTrace, Trace;
    if |b| == 0 {
      assert a + b == a;
      TraceOfNone(idx);
    } else {
      TraceConcat(a, b[..|b| - 1], idx);
      assert (a + b)[..|a + b| - 1] == a + b[..|b| - 1];
      TraceLast(a + b, idx);
      TraceLast(b, idx);
    }
  }

  lemma TraceOfNone(idx: seq<int>)
    ensures Trace([], idx) == []
  {
  }

  lemma TraceLast(cmds: seq<Cmd>, idx: seq<int>)
    requires |cmds| > 0
    ensures Trace(cmds, idx) == Trace(cmds[..|cmds| - 1], idx) + CmdTrace(cmds[|cmds| - 1], idx)
  {
  }

  // A trace depends on nothing behind the last index its commands consume.
  lemma {:induction false} TraceIgnoresRest(cmds: seq<Cmd>, idx: seq<int>, idx': seq<int>, lo: int, hi: int)
    requires Contiguous(cmds, lo, hi) && hi <= |idx| && hi <= |idx'|
    requires forall k :: 0 <= k < hi ==> idx[k] == idx'[k]
    ensures Trace(cmds, idx) == Trace(cmds, idx')
    decreases |cmds|
  {
    if |cmds| > 0 {
      var c := cmds[|cmds| - 1];
      ContiguousIsOrdered(cmds[..|cmds| - 1], lo, c.idxOffset);
      TraceIgnoresRest(cmds[..|cmds| - 1], idx, idx', lo, c.idxOffset);
      assert Slice(idx, c.idxOffset, c.elemCount) == Slice(idx', c.idxOffset, c.elemCount);
    }
  }

  // One command more at the end.
  lemma Append(front: seq<Cmd>, c: Cmd, idx: seq<int>)
    ensures Trace(front + [c], idx) == Trace(front, idx) + CmdTrace(c, idx)
    ensures forall lo, hi :: Contiguous(front + [c], lo, hi) <==>
              c.idxOffset + c.elemCount == hi && (c.callback.Some? ==> c.elemCount == 0) && Contiguous(front, lo, c.idxOffset)
  {
    assert (front + [c])[..|front|] == front;
  }

  // The last command takes up more indices: they come behind, under its header.
  lemma TraceGrow(front: seq<Cmd>, c: Cmd, idx: seq<int>, more: seq<int>)
    requires Contiguous(front + [c], 0, |idx|) && c.callback.None?
    ensures var c' := c.(elemCount := c.elemCount + |more|);
            && Contiguous(front + [c'], 0, |idx + more|)
            && Trace(front + [c'], idx + more) == Trace(front + [c], idx) + Fetch(c.header, more)
  {
    hide CmdTrace, Trace, Contiguous, Fetch;
    var c' := c.(elemCount := c.elemCount + |more|);
    Append(front, c, idx);
    Append(front, c', idx + more);
    ContiguousIsOrdered(front, 0, c.idxOffset);
    TraceIgnoresRest(front, idx, idx + more, 0, c.idxOffset);
    CmdGrow(c, idx, more);
  }

  lemma CmdGrow(c: Cmd, idx: seq<int>, more: seq<int>)
    requires c.callback.None? && c.idxOffset + c.elemCount == |idx|
    ensures CmdTrace(c.(elemCount := c.elemCount + |more|), idx + more) == CmdTrace(c, idx) + Fetch(c.header, more)
  {
    hide Fetch;
    var c' := c.(elemCount := c.elemCount + |more|);
    assert Slice(idx + more, c'.idxOffset, c'.elemCount) == Slice(idx, c.idxOffset, c.elemCount) + more;
    FetchConcat(c.header, Slice(idx, c.idxOffset, c.elemCount), more);
  }

  lemma FetchConcat(h: Header, a: seq<int>, b: seq<int>)
    ensures Fetch(h, a + b) == Fetch(h, a) + Fetch(h, b)
  {
    hide Fetch;
  }

  // Rewriting the indices that the last command took up last changes their events,
  // and only theirs.
  lemma TraceRewritten(front: seq<Cmd>, c: Cmd, kept: seq<int>, was: seq<int>, now: seq<int>, before: seq<Event>)
    requires Contiguous(front + [c], 0, |kept + was|) && c.callback.None? && |was| == |now| <= c.elemCount
    requires Trace(front + [c], kept + was) == before + Fetch(c.header, was)
    ensures Contiguous(front + [c], 0, |kept + now|)
    ensures Trace(front + [c], kept + now) == before + Fetch(c.header, now)
  {
    hide CmdTrace, Trace, Contiguous, Fetch;
    Append(front, c, kept + was);
    Append(front, c, kept + now);
    ContiguousIsOrdered(front, 0, c.idxOffset);
    TraceIgnoresRest(front, kept + was, kept + now, 0, c.idxOffset);
    CmdRewritten(c, kept, was);
    CmdRewritten(c, kept, now);
    Regroup(Trace(front, kept + was), Fetch(c.header, kept[c.idxOffset..]), Fetch(c.header, was), Fetch(c.header, now), before);
  }

  lemma Regroup(start: seq<Event>, own: seq<Event>, was: seq<Event>, now: seq<Event>, before: seq<Event>)
    requires start + (own + was) == before + was
    ensures start + (own + now) == before + now
  {
    assert |start + own| == |before|;
    assert start + own == (start + (own + was))[..|before|];
    assert before == (before + was)[..|before|];
    assert start + (own + now) == (start + own) + now;
  }

  lemma CmdRewritten(c: Cmd, kept: seq<int>, last: seq<int>)
    requires c.callback.None? && c.idxOffset + c.elemCount == |kept + last| && |last| <= c.elemCount
    ensures CmdTrace(c, kept + last) == Fetch(c.header, kept[c.idxOffset..]) + Fetch(c.header, last)
  {
    assert Slice(kept + last, c.idxOffset, c.elemCount) == kept[c.idxOffset..] + last;
    FetchConcat(c.header, kept[c.idxOffset..], last);
  }

  // An empty command at the end means nothing.
  lemma TraceOfEmpty(cmds: seq<Cmd>, c: Cmd, idx: seq<int>)
    requires c.elemCount == 0 && c.callback.None?
    ensures Trace(cmds + [c], idx) == Trace(cmds, idx)
    ensures forall lo :: Contiguous(cmds + [c], lo, |idx|) <==> c.idxOffset == |idx| && Contiguous(cmds, lo, |idx|)
  {
    Append(cmds, c, idx);
  }

  // ---------- the unbatched meaning of commands that move to another buffer

  // cmds' are cmds with their index offsets moved up by `shift`.
  ghost predicate Moved(cmds: seq<Cmd>, cmds': seq<Cmd>, shift: int) {
    && |cmds'| == |cmds|
    && forall k :: 0 <= k < |cmds| ==> cmds[k].idxOffset + shift >= 0 && cmds'[k] == cmds[k].(idxOffset := cmds[k].idxOffset + shift)
  }

  // Behind other indices, with moved offsets, commands mean what they meant.
  lemma {:induction false} TraceMoved(cmds: seq<Cmd>, cmds': seq<Cmd>, before: seq<int>, idx: seq<int>, lo: nat, hi: nat)
    requires Contiguous(cmds, lo, hi) && hi <= |idx| && Moved(cmds, cmds', |before|)
    ensures Contiguous(cmds', lo + |before|, hi + |before|)
    ensures Trace(cmds', before + idx) == Trace(cmds, idx)
    decreases |cmds|
  {
    hide CmdTrace;
    if |cmds| > 0 {
      var c := cmds[|cmds| - 1];
      ContiguousIsOrdered(cmds[..|cmds| - 1], lo, c.idxOffset);
      TraceMoved(cmds[..|cmds| - 1], cmds'[..|cmds| - 1], before, idx, lo, c.idxOffset);
      CmdMoved(c, before, idx);
    }
  }

  lemma CmdMoved(c: Cmd, before: seq<int>, idx: seq<int>)
    requires c.idxOffset + c.elemCount <= |idx|
    ensures CmdTrace(c.(idxOffset := c.idxOffset + |before|), before + idx) == CmdTrace(c, idx)
  {
    assert Slice(before + idx, c.idxOffset + |before|, c.elemCount) == Slice(idx, c.idxOffset, c.elemCount);
  }

  lemma SliceJoin(idx: seq<int>, from: nat, m: nat, n: nat)
    requires from + m + n <= |idx|
    ensures Slice(idx, from, m + n) == Slice(idx, from, m) + Slice(idx, from + m, n)
  {
  }

  // Two neighbouring commands with the same header, neither a callback, can be drawn
  // as one.
  lemma TraceFused(a: Cmd, b: Cmd, idx: seq<int>)
    requires a.header == b.header && a.callback.None? && b.callback.None?
    requires b.idxOffset == a.idxOffset + a.elemCount && b.idxOffset + b.elemCount <= |idx|
    ensures CmdTrace(a.(elemCount := a.elemCount + b.elemCount), idx) == CmdTrace(a, idx) + CmdTrace(b, idx)
  {
    hide Fetch, Slice;
    SliceJoin(idx, a.idxOffset, a.elemCount, b.elemCount);
    FetchConcat(a.header, Slice(idx, a.idxOffset, a.elemCount), Slice(idx, b.idxOffset, b.elemCount));
  }

  // ---------- as few commands as there can be

  predicate CanFuse(a: Cmd, b: Cmd) {
    a.header == b.header && a.callback.None? && b.callback.None?
  }

  // Command k is there for something, and the next one could not be part of it.
  predicate Needed(cmds: seq<Cmd>, k: int)
    requires 0 <= k < |cmds| - 1
  {
    (cmds[k].callback.Some? || cmds[k].elemCount > 0) && !CanFuse(cmds[k], cmds[k + 1])
  }

  // Every command but the last is needed; what is drawn starts among the `written`
  // vertices.
  ghost predicate Batched(cmds: seq<Cmd>, written: nat) {
    && (forall k :: 0 <= k < |cmds| - 1 ==> Needed(cmds, k))
    && (forall k :: 0 <= k < |cmds| && cmds[k].elemCount > 0 ==> cmds[k].header.vtxOffset < written)
  }

  lemma BatchedAdd(cmds: seq<Cmd>, c: Cmd, written: nat)
    requires Batched(cmds, written) && c.elemCount == 0
    requires |cmds| > 0 ==>
      var last := cmds[|cmds| - 1]; (last.callback.Some? || last.elemCount > 0) && !CanFuse(last, c)
    ensures Batched(cmds + [c], written)
  {
    var all := cmds + [c];
    forall k | 0 <= k < |all| - 1 ensures Needed(all, k) {
      assert k < |cmds| - 1 ==> Needed(cmds, k);
    }
  }

  lemma BatchedFront(front: seq<Cmd>, last: Cmd, written: nat)
    requires Batched(front + [last], written)
    ensures Batched(front, written)
    ensures |front| > 0 ==>
      var f := front[|front| - 1]; (f.callback.Some? || f.elemCount > 0) && !CanFuse(f, last)
    ensures |front| > 0 && front[|front| - 1].elemCount > 0 ==> front[|front| - 1].header.vtxOffset < written
    ensures last.elemCount > 0 ==> last.header.vtxOffset < written
  {
    var all := front + [last];
    forall k | 0 <= k < |front| - 1 ensures Needed(front, k) {
      assert Needed(all, k);
    }
    forall k | 0 <= k < |front| && front[k].elemCount > 0 ensures front[k].header.vtxOffset < written {
      assert all[k] == front[k];
    }
    if |front| > 0 {
      assert Needed(all, |front| - 1);
    }
    assert all[|front|] == last;
  }

  // The last command is replaced, and more vertices may have been written.
  lemma BatchedReplace(front: seq<Cmd>, last: Cmd, c: Cmd, written: nat, now: nat)
    requires Batched(front + [last], written) && written <= now
    requires |front| > 0 ==> !CanFuse(front[|front| - 1], c)
    requires c.elemCount > 0 ==> c.header.vtxOffset < now
    ensures Batched(front + [c], now)
  {
    BatchedFront(front, last, written);
    var all := front + [c];
    forall k | 0 <= k < |all| - 1 ensures Needed(all, k) {
      assert k < |front| - 1 ==> Needed(front, k);
    }
  }
}
