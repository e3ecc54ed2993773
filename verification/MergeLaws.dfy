/**
 What merging channels may do to their commands: drop an unused one, fuse two at a
 boundary, and move the offsets of all that follow.
 */
module MergeLaws {
  import opened Options
  import opened DrawTrace
  import opened DrawList

  datatype Channel = Channel(cmds: seq<Cmd>, idx: seq<int>)

  // A stored channel: never drawn into, or ready to be drawn into again.
  ghost predicate Stored(ch: Channel) {
    ch == Channel([], []) || Ready(ch.cmds, |ch.idx|)
  }

  // The commands and indices of channels 1 to n - 1, one after the other.
  function CmdsOf(channels: seq<Channel>, n: nat): seq<Cmd>
    requires n <= |channels|
  {
    if n <= 1 then [] else CmdsOf(channels, n - 1) + channels[n - 1].cmds
  }

  function IdxOf(channels: seq<Channel>, n: nat): seq<int>
    requires n <= |channels|
  {
    if n <= 1 then [] else IdxOf(channels, n - 1) + channels[n - 1].idx
  }

  // Offsets given out one after the other.
  function Renumber(cmds: seq<Cmd>, from: nat): (r: seq<Cmd>)
    ensures |r| == |cmds|
    decreases |cmds|
  {
    if |cmds| == 0 then []
    else
      var front := Renumber(cmds[..|cmds| - 1], from);
      front + [cmds[|cmds| - 1].(idxOffset := from + Total(cmds[..|cmds| - 1]))]
  }

  // Renumbering contiguous commands just moves them.
  lemma {:induction false} RenumberMoves(cmds: seq<Cmd>, lo: nat, hi: nat, from: nat)
    requires Contiguous(cmds, lo, hi)
    ensures Moved(cmds, Renumber(cmds, from), from - lo)
    decreases |cmds|
  {
    if |cmds| > 0 {
      var n := |cmds| - 1;
      ContiguousIsOrdered(cmds[..n], lo, cmds[n].idxOffset);
      OffsetsArePrefixSums(cmds, lo, hi, n);
      RenumberMoves(cmds[..n], lo, cmds[n].idxOffset, from);
    }
  }

  // A channel's commands, renumbered behind what is there already, mean what they
  // meant, and everything stays contiguous.
  lemma AppendChannel(all: seq<Cmd>, idx: seq<int>, cmds: seq<Cmd>, own: seq<int>)
    requires Contiguous(all, 0, |idx|) && Contiguous(cmds, 0, |own|)
    ensures Contiguous(all + Renumber(cmds, |idx|), 0, |idx + own|)
    ensures Trace(all + Renumber(cmds, |idx|), idx + own) == Trace(all, idx) + Trace(cmds, own)
  {
    hide Trace, Contiguous;
    var moved := Renumber(cmds, |idx|);
    RenumberMoves(cmds, 0, |own|, |idx|);
    TraceMoved(cmds, moved, idx, own, 0, |own|);
    ContiguousJoin(all, moved, 0, |idx|, |idx + own|);
    TraceConcat(all, moved, idx + own);
    TraceIgnoresRest(all, idx, idx + own, 0, |idx|);
  }

  // The first command of the channel is drawn together with the last one before.
  lemma FuseChannel(front: seq<Cmd>, last: Cmd, idx: seq<int>, first: Cmd, rest: seq<Cmd>, own: seq<int>)
    requires Contiguous(front + [last], 0, |idx|) && Contiguous([first] + rest, 0, |own|) && CanFuse(last, first)
    ensures var fused := last.(elemCount := last.elemCount + first.elemCount);
            var all := front + [fused] + Renumber(rest, |idx| + first.elemCount);
            && Contiguous(all, 0, |idx + own|)
            && Trace(all, idx + own) == Trace(front + [last], idx) + Trace([first] + rest, own)
  {
    hide Trace, Contiguous, CmdTrace, Renumber;
    var fused := last.(elemCount := last.elemCount + first.elemCount);
    var moved := first.(idxOffset := |idx|);
    var tail := Renumber(rest, |idx| + first.elemCount);
    RenumberFirst(first, rest, |idx|);
    AppendChannel(front + [last], idx, [first] + rest, own);
    assert front + [last] + ([moved] + tail) == (front + [last, moved]) + tail;
    FirstStartsAtZero(first, rest, |own|);
    Append(front, last, idx);
    FuseTwo(front, last, moved, tail, idx + own);
    assert Contiguous((front + [last, moved]) + tail, 0, |idx + own|);
    FuseContiguous(front, last, moved, tail, |idx + own|);
  }

  lemma {:induction false} RenumberFirst(first: Cmd, rest: seq<Cmd>, from: nat)
    ensures Renumber([first] + rest, from) == [first.(idxOffset := from)] + Renumber(rest, from + first.elemCount)
    decreases |rest|
  {
    var all := [first] + rest;
    if |rest| == 0 {
      assert all == [first] && all[..0] == [];
      assert Renumber(all[..0], from) == [];
    } else {
      var n := |rest| - 1;
      assert all[..|all| - 1] == [first] + rest[..n];
      RenumberFirst(first, rest[..n], from);
      TotalFirst(first, rest[..n]);
    }
  }

  lemma {:induction false} TotalFirst(first: Cmd, rest: seq<Cmd>)
    ensures Total([first] + rest) == first.elemCount + Total(rest)
    decreases |rest|
  {
    var all := [first] + rest;
    if |rest| == 0 {
      assert all == [first] && all[..0] == [];
      assert Total(all[..0]) == 0;
    } else {
      assert all[..|all| - 1] == [first] + rest[..|rest| - 1];
      TotalFirst(first, rest[..|rest| - 1]);
    }
  }

  lemma FirstStartsAtZero(first: Cmd, rest: seq<Cmd>, hi: int)
    requires Contiguous([first] + rest, 0, hi)
    ensures first.elemCount <= hi && first.idxOffset == 0
  {
    OffsetsArePrefixSums([first] + rest, 0, hi, 0);
    assert ([first] + rest)[..0] == [];
    TotalFirst(first, rest);
  }

  lemma FuseTwo(front: seq<Cmd>, a: Cmd, b: Cmd, tail: seq<Cmd>, idx: seq<int>)
    requires CanFuse(a, b) && b.idxOffset == a.idxOffset + a.elemCount && b.idxOffset + b.elemCount <= |idx|
    ensures Trace(front + [a.(elemCount := a.elemCount + b.elemCount)] + tail, idx) == Trace((front + [a, b]) + tail, idx)
  {
    hide Trace, CmdTrace;
    var fused := a.(elemCount := a.elemCount + b.elemCount);
    TraceFused(a, b, idx);
    Append(front, fused, idx);
    Append(front, a, idx);
    Append(front + [a], b, idx);
    assert front + [a] + [b] == front + [a, b];
    assert Trace(front, idx) + (CmdTrace(a, idx) + CmdTrace(b, idx)) == Trace(front, idx) + CmdTrace(a, idx) + CmdTrace(b, idx);
    TraceConcat(front + [fused], tail, idx);
    TraceConcat(front + [a, b], tail, idx);
  }

  lemma {:induction false} FuseContiguous(front: seq<Cmd>, a: Cmd, b: Cmd, tail: seq<Cmd>, hi: int)
    requires a.callback.None? && b.callback.None? && Contiguous((front + [a, b]) + tail, 0, hi)
    ensures Contiguous(front + [a.(elemCount := a.elemCount + b.elemCount)] + tail, 0, hi)
    decreases |tail|
  {
    var fused := a.(elemCount := a.elemCount + b.elemCount);
    if |tail| == 0 {
      assert (front + [a, b]) + tail == front + [a] + [b] && front + [fused] + tail == front + [fused];
      Append(front + [a], b, []);
      Append(front, a, []);
      Append(front, fused, []);
    } else {
      var t, c := tail[..|tail| - 1], tail[|tail| - 1];
      assert (front + [a, b]) + tail == ((front + [a, b]) + t) + [c];
      assert front + [fused] + tail == (front + [fused] + t) + [c];
      Append((front + [a, b]) + t, c, []);
      Append(front + [fused] + t, c, []);
      FuseContiguous(front, a, b, t, c.idxOffset);
    }
  }

  // ---------- no command to spare

  // All commands, the last one too, are there for something, and no two could be one.
  ghost predicate Tight(cmds: seq<Cmd>, written: nat) {
    Batched(cmds, written) && (|cmds| > 0 ==> Used(cmds[|cmds| - 1]))
  }

  predicate Used(c: Cmd) {
    c.callback.Some? || c.elemCount > 0
  }

  lemma {:induction false} RenumberKeepsRest(cmds: seq<Cmd>, from: nat)
    ensures forall k :: 0 <= k < |cmds| ==> Renumber(cmds, from)[k] == cmds[k].(idxOffset := Renumber(cmds, from)[k].idxOffset)
    decreases |cmds|
  {
    if |cmds| > 0 {
      RenumberKeepsRest(cmds[..|cmds| - 1], from);
    }
  }

  lemma RenumberKeepsTight(cmds: seq<Cmd>, from: nat, written: nat)
    requires Tight(cmds, written)
    ensures Tight(Renumber(cmds, from), written)
  {
    hide Renumber;
    RenumberKeepsRest(cmds, from);
    var r := Renumber(cmds, from);
    forall k | 0 <= k < |r| - 1 ensures Needed(r, k) {
      assert Needed(cmds, k);
    }
  }

  // Commands put behind others, where the last one before and the first could not be one.
  lemma AppendKeepsTight(all: seq<Cmd>, cmds: seq<Cmd>, written: nat)
    requires Tight(all, written) && Tight(cmds, written)
    requires |all| > 0 && |cmds| > 0 ==> !CanFuse(all[|all| - 1], cmds[0])
    ensures Tight(all + cmds, written)
  {
    var r := all + cmds;
    forall k | 0 <= k < |r| - 1 ensures Needed(r, k) {
      if k < |all| - 1 {
        assert Needed(all, k);
      } else if |all| <= k {
        assert Needed(cmds, k - |all|);
      }
    }
  }

  // And where they could, and now are.
  lemma FuseKeepsTight(front: seq<Cmd>, last: Cmd, first: Cmd, rest: seq<Cmd>, written: nat)
    requires Tight(front + [last], written) && Tight([first] + rest, written) && CanFuse(last, first)
    ensures Tight(front + [last.(elemCount := last.elemCount + first.elemCount)] + rest, written)
  {
    var fused := last.(elemCount := last.elemCount + first.elemCount);
    var a, b, r := front + [last], [first] + rest, front + [fused] + rest;
    assert Used(a[|a| - 1]);
    forall k | 0 <= k < |r| - 1 ensures Needed(r, k) {
      if k < |front| {
        assert Needed(a, k);
      } else {
        assert Needed(b, k - |front|);
      }
    }
    forall k | 0 <= k < |r| && r[k].elemCount > 0 ensures r[k].header.vtxOffset < written {
      if k < |front| {
        assert a[k] == r[k];
      } else if k == |front| {
        assert a[k] == last;
      } else {
        assert b[k - |front|] == r[k];
      }
    }
    if |rest| > 0 {
      assert Used(b[|b| - 1]);
    }
  }

  // ---------- where the merge stands

  // The holder of the last command so far: 0 is the draw list itself, j is channel j.
  // No channel behind it holds any commands.
  ghost predicate HoldsLast(own: seq<Cmd>, channels: seq<Channel>, n: nat, holder: Option<nat>)
    requires 1 <= n <= |channels|
  {
    match holder
    case None => own == [] && CmdsOf(channels, n) == []
    case Some(j) =>
      && j < n && |(if j == 0 then own else channels[j].cmds)| > 0
      && forall k :: j < k < n && k >= 1 ==> channels[k].cmds == []
  }

  function LastOf(own: seq<Cmd>, channels: seq<Channel>, j: nat): Cmd
    requires j < |channels| && |(if j == 0 then own else channels[j].cmds)| > 0
  {
    var cmds := if j == 0 then own else channels[j].cmds;
    cmds[|cmds| - 1]
  }

  // The commands up to the last one of the holder.
  ghost function Front(own: seq<Cmd>, channels: seq<Channel>, n: nat, j: nat): seq<Cmd>
    requires 1 <= n <= |channels| && HoldsLast(own, channels, n, Some(j))
  {
    if j == 0 then own[..|own| - 1] else own + CmdsOf(channels, j) + channels[j].cmds[..|channels[j].cmds| - 1]
  }

  lemma {:induction false} EmptyTail(channels: seq<Channel>, j: nat, n: nat)
    requires 1 <= j <= n <= |channels| && forall k :: j <= k < n ==> channels[k].cmds == []
    ensures CmdsOf(channels, n) == CmdsOf(channels, j)
    decreases n
  {
    if j < n {
      EmptyTail(channels, j, n - 1);
    }
  }

  lemma HolderEndsIt(own: seq<Cmd>, channels: seq<Channel>, n: nat, j: nat)
    requires 1 <= n <= |channels| && HoldsLast(own, channels, n, Some(j))
    ensures own + CmdsOf(channels, n) == Front(own, channels, n, j) + [LastOf(own, channels, j)]
  {
    EmptyTail(channels, if j == 0 then 1 else j + 1, n);
    if j > 0 {
      var cmds := channels[j].cmds;
      assert cmds == cmds[..|cmds| - 1] + [cmds[|cmds| - 1]];
      assert CmdsOf(channels, j + 1) == CmdsOf(channels, j) + cmds;
    }
  }

  lemma {:induction false} SameChannels(a: seq<Channel>, b: seq<Channel>, n: nat)
    requires n <= |a| && n <= |b| && forall k :: 1 <= k < n ==> a[k] == b[k]
    ensures CmdsOf(a, n) == CmdsOf(b, n) && IdxOf(a, n) == IdxOf(b, n)
    decreases n
  {
    if n > 1 {
      SameChannels(a, b, n - 1);
    }
  }

  lemma {:induction false} SameIndices(a: seq<Channel>, b: seq<Channel>, n: nat)
    requires n <= |a| && n <= |b| && forall k :: 1 <= k < n ==> a[k].idx == b[k].idx
    ensures IdxOf(a, n) == IdxOf(b, n)
    decreases n
  {
    if n > 1 {
      SameIndices(a, b, n - 1);
    }
  }
}
