/**
 The splitter: it keeps the buffers of the channels that are not being drawn into,
 swaps them with those of the draw list, and in the end flattens all channels into
 the draw list.
 */
module DrawSplitter {
  import opened Options
  import opened DrawTrace
  import opened DrawSpec
  import opened DrawList
  import opened MergeLaws

  // ---------- one step of the merge, on values

  // The merge has dealt with the channels below n: what they hold together is
  // contiguous and means what the first n outputs say, in order.
  ghost predicate Merging(own: seq<Cmd>, idx: seq<int>, channels: seq<Channel>, n: nat, holder: Option<nat>,
                          out: seq<seq<Event>>) {
    && 1 <= n <= |channels| && n <= |out|
    && HoldsLast(own, channels, n, holder)
    && Contiguous(own + CmdsOf(channels, n), 0, |idx + IdxOf(channels, n)|)
    && Trace(own + CmdsOf(channels, n), idx + IdxOf(channels, n)) == Joined(out[..n])
  }

  // Channels n and up are as they were stored.
  ghost predicate Waiting(channels: seq<Channel>, n: nat, out: seq<seq<Event>>) {
    forall k :: n <= k < |channels| && k < |out| ==>
      Stored(channels[k]) && Trace(channels[k].cmds, channels[k].idx) == out[k]
  }

  lemma JoinOneMore(out: seq<seq<Event>>, n: nat)
    requires n < |out|
    ensures Joined(out[..n + 1]) == Joined(out[..n]) + out[n]
  {
    assert out[..n + 1][..n] == out[..n];
  }

  // The channel's commands go behind those before, renumbered.
  lemma MergeByAppending(own: seq<Cmd>, idx: seq<int>, channels: seq<Channel>, n: nat, holder: Option<nat>,
                         out: seq<seq<Event>>, cmds: seq<Cmd>, channels': seq<Channel>)
    requires Merging(own, idx, channels, n, holder, out) && n < |channels| && n < |out|
    requires Contiguous(cmds, 0, |channels[n].idx|) && Trace(cmds, channels[n].idx) == out[n]
    requires channels' == channels[n := Channel(Renumber(cmds, |idx + IdxOf(channels, n)|), channels[n].idx)]
    ensures Merging(own, idx, channels', n + 1, if |cmds| > 0 then Some(n) else holder, out)
  {
    hide Trace, Contiguous, Renumber, Joined;
    var all, before := own + CmdsOf(channels, n), idx + IdxOf(channels, n);
    AppendChannel(all, before, cmds, channels[n].idx);
    JoinOneMore(out, n);
    SameChannels(channels, channels', n);
    assert own + CmdsOf(channels', n + 1) == all + channels'[n].cmds;
    assert idx + IdxOf(channels', n + 1) == before + channels[n].idx;
  }

  // The last command so far takes up the channel's first, and the rest go behind.
  lemma MergeByFusing(own: seq<Cmd>, idx: seq<int>, channels: seq<Channel>, n: nat, j: nat, out: seq<seq<Event>>,
                      cmds: seq<Cmd>, own': seq<Cmd>, channels': seq<Channel>)
    requires Merging(own, idx, channels, n, Some(j), out) && n < |channels| && n < |out|
    requires |cmds| > 0 && Contiguous(cmds, 0, |channels[n].idx|) && Trace(cmds, channels[n].idx) == out[n]
    requires CanFuse(LastOf(own, channels, j), cmds[0])
    requires var last := LastOf(own, channels, j); var fused := last.(elemCount := last.elemCount + cmds[0].elemCount);
             var tail := Renumber(cmds[1..], |idx + IdxOf(channels, n)| + cmds[0].elemCount);
             var taken := if j == 0 then channels
                          else channels[j := channels[j].(cmds := channels[j].cmds[|channels[j].cmds| - 1 := fused])];
             && own' == (if j == 0 then own[|own| - 1 := fused] else own)
             && channels' == taken[n := Channel(tail, channels[n].idx)]
    ensures Merging(own', idx, channels', n + 1, if |cmds| > 1 then Some(n) else Some(j), out)
  {
    hide Trace, Contiguous, Renumber, Joined, CmdsOf, IdxOf;
    var before := idx + IdxOf(channels, n);
    var last := LastOf(own, channels, j);
    var fused := last.(elemCount := last.elemCount + cmds[0].elemCount);
    var front := Front(own, channels, n, j);
    HolderEndsIt(own, channels, n, j);
    assert cmds == [cmds[0]] + cmds[1..];
    FuseChannel(front, last, before, cmds[0], cmds[1..], channels[n].idx);
    JoinOneMore(out, n);
    ReplacedLast(own, channels, n, j, fused, own', channels');
    NextChannel(channels', n);
    SameIndices(channels, channels', n);
    assert own' + CmdsOf(channels', n + 1) == front + [fused] + channels'[n].cmds;
    assert idx + IdxOf(channels', n + 1) == before + channels[n].idx;
    EmptyBehind(own', channels', n + 1, if |cmds| > 1 then n else j);
  }

  // What a channel has to draw with: a last command that draws nothing is dropped.
  function Worn(cmds: seq<Cmd>): seq<Cmd> {
    if |cmds| > 0 && cmds[|cmds| - 1].elemCount == 0 then cmds[..|cmds| - 1] else cmds
  }

  lemma AppendingStaysTight(own: seq<Cmd>, channels: seq<Channel>, n: nat, holder: Option<nat>, cmds: seq<Cmd>, from: nat,
                            channels': seq<Channel>, written: nat)
    requires 1 <= n < |channels| && HoldsLast(own, channels, n, holder)
    requires |cmds| > 0 && holder.Some? ==> !CanFuse(LastOf(own, channels, holder.value), cmds[0])
    requires channels' == channels[n := Channel(Renumber(cmds, from), channels[n].idx)]
    requires Tight(own + CmdsOf(channels, n), written) && Tight(cmds, written)
    ensures Tight(own + CmdsOf(channels', n + 1), written)
  {
    hide Tight, CmdsOf, Renumber;
    var all, moved := own + CmdsOf(channels, n), Renumber(cmds, from);
    SameChannels(channels, channels', n);
    NextChannel(channels', n);
    RenumberKeepsTight(cmds, from, written);
    RenumberKeepsRest(cmds, from);
    if holder.Some? {
      HolderEndsIt(own, channels, n, holder.value);
      assert all[|all| - 1] == LastOf(own, channels, holder.value);
    }
    AppendKeepsTight(all, moved, written);
    assert own + CmdsOf(channels', n + 1) == all + moved;
  }

  lemma FusingStaysTight(own: seq<Cmd>, channels: seq<Channel>, n: nat, j: nat, cmds: seq<Cmd>, from: nat,
                         own': seq<Cmd>, channels': seq<Channel>, written: nat)
    requires 1 <= n < |channels| && HoldsLast(own, channels, n, Some(j))
    requires |cmds| > 0 && CanFuse(LastOf(own, channels, j), cmds[0])
    requires var last := LastOf(own, channels, j); var fused := last.(elemCount := last.elemCount + cmds[0].elemCount);
             var taken := if j == 0 then channels
                          else channels[j := channels[j].(cmds := channels[j].cmds[|channels[j].cmds| - 1 := fused])];
             && own' == (if j == 0 then own[|own| - 1 := fused] else own)
             && channels' == taken[n := Channel(Renumber(cmds[1..], from), channels[n].idx)]
    requires Tight(own + CmdsOf(channels, n), written) && Tight(cmds, written)
    ensures Tight(own' + CmdsOf(channels', n + 1), written)
  {
    hide Tight, CmdsOf, Renumber, CanFuse;
    var last := LastOf(own, channels, j);
    var fused := last.(elemCount := last.elemCount + cmds[0].elemCount);
    var front, rest, moved := Front(own, channels, n, j), cmds[1..], Renumber(cmds[1..], from);
    HolderEndsIt(own, channels, n, j);
    assert cmds == [cmds[0]] + rest;
    RenumberedRest(cmds[0], rest, from, written);
    FuseKeepsTight(front, last, cmds[0], moved, written);
    ReplacedLast(own, channels, n, j, fused, own', channels');
    NextChannel(channels', n);
    assert own' + CmdsOf(channels', n + 1) == front + [fused] + moved;
  }

  lemma RenumberedRest(first: Cmd, rest: seq<Cmd>, from: nat, written: nat)
    requires Tight([first] + rest, written)
    ensures Tight([first] + Renumber(rest, from), written)
  {
    hide Renumber;
    RenumberKeepsRest(rest, from);
    var cmds, r := [first] + rest, [first] + Renumber(rest, from);
    assert forall k :: 0 <= k < |r| ==> r[k] == cmds[k].(idxOffset := r[k].idxOffset);
    forall k | 0 <= k < |r| - 1 ensures Needed(r, k) {
      assert Needed(cmds, k);
    }
  }

  lemma NextChannel(channels: seq<Channel>, n: nat)
    requires 1 <= n < |channels|
    ensures CmdsOf(channels, n + 1) == CmdsOf(channels, n) + channels[n].cmds
    ensures IdxOf(channels, n + 1) == IdxOf(channels, n) + channels[n].idx
  {
  }

  lemma EmptyBehind(own: seq<Cmd>, channels: seq<Channel>, n: nat, j: nat)
    requires 1 <= n <= |channels| && j < n && |(if j == 0 then own else channels[j].cmds)| > 0
    requires forall k :: j < k < n && k >= 1 ==> channels[k].cmds == []
    ensures HoldsLast(own, channels, n, Some(j))
  {
  }

  // Changing the holder's last command changes the last command of all.
  lemma ReplacedLast(own: seq<Cmd>, channels: seq<Channel>, n: nat, j: nat, fused: Cmd, own': seq<Cmd>, channels': seq<Channel>)
    requires 1 <= n <= |channels| == |channels'| && HoldsLast(own, channels, n, Some(j))
    requires own' == if j == 0 then own[|own| - 1 := fused] else own
    requires forall k :: 1 <= k < n && k != j ==> channels'[k] == channels[k]
    requires j > 0 ==> channels'[j] == channels[j].(cmds := channels[j].cmds[|channels[j].cmds| - 1 := fused])
    ensures own' + CmdsOf(channels', n) == Front(own, channels, n, j) + [fused]
  {
    HolderEndsIt(own', channels', n, j);
    if j > 0 {
      SameChannels(channels, channels', j);
      var cmds, cmds' := channels[j].cmds, channels'[j].cmds;
      assert cmds'[..|cmds'| - 1] == cmds[..|cmds| - 1];
    } else {
      assert own'[..|own'| - 1] == own[..|own| - 1];
    }
  }

  // Every channel but the current one is stored, and means what it should.
  ghost predicate Parked(channels: seq<Channel>, count: nat, current: nat, out: seq<seq<Event>>) {
    forall k :: 0 <= k < count && k != current && k < |channels| && k < |out| ==>
      Stored(channels[k]) && Trace(channels[k].cmds, channels[k].idx) == out[k]
  }

  // The commands of the draw list and what the other channels have to draw with: none to
  // spare.
  ghost predicate AllTight(own: seq<Cmd>, channels: seq<Channel>, count: nat, written: nat) {
    Tight(own, written) && forall k :: 1 <= k < count && k < |channels| ==> Tight(Worn(channels[k].cmds), written)
  }

  // ---------- the splitter

  class Splitter {
    var current: nat
    var count: nat
    var channels: seq<Channel>

    // Channel k means out[k]: the current one is in the draw list, the others are
    // stored here.
    ghost predicate Holds(dl: DrawList, out: seq<seq<Event>>)
      reads this, dl
    {
      && dl.Valid() && |out| == count && current < count && (count > 1 ==> count <= |channels|)
      && dl.Meaning() == out[current]
      && Parked(channels, count, current, out)
    }

    // The commands of channel k, without a last one that draws nothing.
    ghost function CmdsIn(dl: DrawList, k: nat): seq<Cmd>
      reads this, dl
    {
      WithoutUnused(if k == current then dl.cmdBuffer else if k < |channels| then channels[k].cmds else [])
    }

    constructor ()
      ensures current == 0 && count == 1 && channels == []
    {
      current, count, channels := 0, 1, [];
    }

    // Start with `n` channels, all but the first one empty.
    method Split(dl: DrawList, n: nat, ghost out: seq<seq<Event>>)
      requires Holds(dl, out) && current == 0 && count <= 1 && n >= 1
      modifies this
      ensures Holds(dl, out + seq(n - 1, _ => [])) && current == 0
    {
      if |channels| < n {
        channels := channels + seq(n - |channels|, _ => Channel([], []));
      }
      count := n;
      channels := channels[0 := Channel([], [])];
      var i := 1;
      while i < n
        invariant 1 <= i <= n <= |channels| && count == n && current == 0
        invariant forall k :: 0 <= k < i ==> channels[k] == Channel([], [])
        modifies this`channels
      {
        channels := channels[i := Channel([], [])];
        i := i + 1;
      }
    }

    // Give the draw list a last command with the header in force.
    static method Resume(dl: DrawList)
      requires (dl.cmdBuffer == [] && dl.idxBuffer == []) || Ready(dl.cmdBuffer, |dl.idxBuffer|)
      requires dl.ClipsOrdered()
      modifies dl`cmdBuffer
      ensures dl.Valid() && dl.Meaning() == old(dl.Meaning())
      ensures WithoutUnused(dl.cmdBuffer) == WithoutUnused(old(dl.cmdBuffer))
      ensures Tight(old(dl.cmdBuffer), |dl.vtxBuffer|) ==> Batched(dl.cmdBuffer, |dl.vtxBuffer|)
      ensures |old(dl.cmdBuffer)| > 0 && old(dl.cmdBuffer[|dl.cmdBuffer| - 1].header) == dl.cmdHeader ==>
                dl.cmdBuffer == old(dl.cmdBuffer)
    {
      hide Batched;
      ghost var added := Cmd(dl.cmdHeader, |dl.idxBuffer|, 0, None);
      // Elements drawn under another header stay in a command of their own
      if |dl.cmdBuffer| == 0 {
        TightAdd(dl.cmdBuffer, added, |dl.vtxBuffer|);
        dl.AddDrawCmd();
      } else {
        var currCmd := dl.cmdBuffer[|dl.cmdBuffer| - 1];
        if currCmd.elemCount == 0 {
          dl.Restart(dl.cmdHeader);
        } else if currCmd.header != dl.cmdHeader {
          TightAdd(dl.cmdBuffer, added, |dl.vtxBuffer|);
          dl.AddDrawCmd();
        }
      }
    }

    method SetCurrentChannel(dl: DrawList, idx: nat, ghost out: seq<seq<Event>>)
      requires Holds(dl, out) && idx < count
      modifies this`current, this`channels, dl`cmdBuffer, dl`idxBuffer, dl`idxWrite
      ensures Holds(dl, out) && current == idx && count == old(count)
      ensures current != old(current) ==> dl.idxWrite == |dl.idxBuffer|
      ensures forall k :: 0 <= k < count ==> CmdsIn(dl, k) == old(CmdsIn(dl, k))
      ensures |channels| == |old(channels)|
    {
      hide Trace, Contiguous, Ordered, WithoutUnused;
      if current == idx {
        return;
      }
      channels := channels[current := Channel(dl.cmdBuffer, dl.idxBuffer)];
      current := idx;
      dl.cmdBuffer, dl.idxBuffer := channels[idx].cmds, channels[idx].idx;
      dl.idxWrite := |dl.idxBuffer|;
      Resume(dl);
    }

    // Number the commands of a channel on from `from`.
    static method Number(cmds: seq<Cmd>, from: nat) returns (numbered: seq<Cmd>, next: nat)
      ensures numbered == Renumber(cmds, from) && next == from + Total(cmds)
    {
      numbered, next := cmds, from;
      var n := 0;
      assert cmds[..0] == [];
      while n < |cmds|
        invariant 0 <= n <= |cmds| == |numbered| && next == from + Total(cmds[..n])
        invariant numbered[..n] == Renumber(cmds[..n], from) && numbered[n..] == cmds[n..]
      {
        assert cmds[..n + 1][..n] == cmds[..n] && cmds[..n + 1][n] == cmds[n];
        ghost var was := numbered;
        numbered := numbered[n := cmds[n].(idxOffset := next)];
        next := next + cmds[n].elemCount;
        assert numbered[..n + 1] == was[..n] + [numbered[n]];
        assert numbered[n + 1..] == was[n..][1..];
        n := n + 1;
      }
      assert cmds[..n] == cmds && numbered[..n] == numbered;
    }

    // Deal with channel i: drop its unused command, fuse its first command with the
    // last one so far if they match, number the others.
    method MergeChannel(dl: DrawList, i: nat, holder0: Option<nat>, idxOffset0: nat, ghost out: seq<seq<Event>>,
                        ghost written: nat)
      returns (holder: Option<nat>, idxOffset: nat)
      requires 1 <= i < |channels| && i < |out|
      requires Merging(dl.cmdBuffer, dl.idxBuffer, channels, i, holder0, out) && Waiting(channels, i, out)
      requires idxOffset0 == |dl.idxBuffer| + |IdxOf(channels, i)|
      modifies this`channels, dl`cmdBuffer
      ensures |channels| == |old(channels)|
      ensures Merging(dl.cmdBuffer, dl.idxBuffer, channels, i + 1, holder, out) && Waiting(channels, i + 1, out)
      ensures idxOffset == |dl.idxBuffer| + |IdxOf(channels, i + 1)|
      ensures forall k :: i < k < |channels| ==> channels[k] == old(channels[k])
      ensures Tight(old(dl.cmdBuffer + CmdsOf(channels, i)), written) && Tight(Worn(old(channels[i].cmds)), written) ==>
                Tight(dl.cmdBuffer + CmdsOf(channels, i + 1), written)
    {
      hide Merging, Trace, Contiguous, Renumber, Waiting, IdxOf, CmdsOf, Joined, Tight;
      var ch := channels[i];
      TakeChannel(channels, i, out);
      var cmds := if |ch.cmds| > 0 && ch.cmds[|ch.cmds| - 1].elemCount == 0 then ch.cmds[..|ch.cmds| - 1] else ch.cmds;
      holder, idxOffset := holder0, idxOffset0;
      ghost var own, before := dl.cmdBuffer, channels;
      HolderIsThere(own, dl.idxBuffer, channels, i, holder0, out);
      if |cmds| > 0 && holder0.Some? && CanFuse(LastOf(dl.cmdBuffer, channels, holder0.value), cmds[0]) {
        var j, next := holder0.value, cmds[0];
        var last := LastOf(dl.cmdBuffer, channels, j);
        var fused := last.(elemCount := last.elemCount + next.elemCount);
        if j == 0 {
          dl.cmdBuffer := dl.cmdBuffer[|dl.cmdBuffer| - 1 := fused];
        } else {
          channels := channels[j := channels[j].(cmds := channels[j].cmds[|channels[j].cmds| - 1 := fused])];
        }
        idxOffset := idxOffset + next.elemCount;
        var rest := cmds[1..];
        var numbered;
        numbered, idxOffset := Number(rest, idxOffset);
        channels := channels[i := Channel(numbered, ch.idx)];
        MergeByFusing(own, dl.idxBuffer, before, i, j, out, cmds, dl.cmdBuffer, channels);
        if Tight(own + CmdsOf(before, i), written) && Tight(cmds, written) {
          FusingStaysTight(own, before, i, j, cmds, idxOffset0 + next.elemCount, dl.cmdBuffer, channels, written);
        }
        if |rest| > 0 {
          holder := Some(i);
        }
      } else {
        var numbered;
        numbered, idxOffset := Number(cmds, idxOffset);
        channels := channels[i := Channel(numbered, ch.idx)];
        MergeByAppending(own, dl.idxBuffer, before, i, holder0, out, cmds, channels);
        if Tight(own + CmdsOf(before, i), written) && Tight(cmds, written) {
          AppendingStaysTight(own, before, i, holder0, cmds, idxOffset0, channels, written);
        }
        if |cmds| > 0 {
          holder := Some(i);
        }
      }
      StillWaiting(before, channels, i, out);
      IndicesBefore(before, channels, i, cmds);
    }

    // Deal with every channel in turn, from the draw list's own on.
    method MergeAll(dl: DrawList, ghost out: seq<seq<Event>>, ghost written: nat) returns (ghost holder: Option<nat>)
      requires 1 <= count <= |channels| && count == |out|
      requires Contiguous(dl.cmdBuffer, 0, |dl.idxBuffer|) && dl.Meaning() == out[0] && Waiting(channels, 1, out)
      modifies this`channels, dl`cmdBuffer
      ensures |channels| == |old(channels)| && Merging(dl.cmdBuffer, dl.idxBuffer, channels, count, holder, out)
      ensures old(AllTight(dl.cmdBuffer, channels, count, written)) ==> Tight(dl.cmdBuffer + CmdsOf(channels, count), written)
    {
      hide Waiting, Joined, Trace, Tight, Worn;
      var last: Option<nat> := if |dl.cmdBuffer| > 0 then Some(0) else None;
      var idxOffset := if |dl.cmdBuffer| > 0
                       then dl.cmdBuffer[|dl.cmdBuffer| - 1].idxOffset + dl.cmdBuffer[|dl.cmdBuffer| - 1].elemCount else 0;
      OwnCommandsFirst(dl.cmdBuffer, dl.idxBuffer, channels, last, out);
      assert dl.cmdBuffer + CmdsOf(channels, 1) == dl.cmdBuffer;
      var i := 1;
      while i < count
        invariant 1 <= i <= count <= |channels| && |channels| == |old(channels)|
        invariant Merging(dl.cmdBuffer, dl.idxBuffer, channels, i, last, out) && Waiting(channels, i, out)
        invariant forall k :: i <= k < |channels| ==> channels[k] == old(channels[k])
        invariant old(AllTight(dl.cmdBuffer, channels, count, written)) ==> Tight(dl.cmdBuffer + CmdsOf(channels, i), written)
        invariant idxOffset == |dl.idxBuffer| + |IdxOf(channels, i)|
      {
        last, idxOffset := MergeChannel(dl, i, last, idxOffset, out, written);
        i := i + 1;
      }
      holder := last;
    }

    // Write the commands and indices of all channels behind those of the draw list.
    method Flatten(dl: DrawList)
      requires 1 <= count <= |channels|
      modifies dl`cmdBuffer, dl`idxBuffer, dl`idxWrite
      ensures dl.cmdBuffer == old(dl.cmdBuffer) + CmdsOf(channels, count)
      ensures dl.idxBuffer == old(dl.idxBuffer) + IdxOf(channels, count) && dl.idxWrite == |dl.idxBuffer|
    {
      var i := 1;
      while i < count
        invariant 1 <= i <= count
        invariant dl.cmdBuffer == old(dl.cmdBuffer) + CmdsOf(channels, i)
        invariant dl.idxBuffer == old(dl.idxBuffer) + IdxOf(channels, i)
      {
        NextChannel(channels, i);
        dl.cmdBuffer := dl.cmdBuffer + channels[i].cmds;
        dl.idxBuffer := dl.idxBuffer + channels[i].idx;
        i := i + 1;
      }
      dl.idxWrite := |dl.idxBuffer|;
    }

    // Go back to channel 0, with nothing drawn since.
    method Gather(dl: DrawList, ghost out: seq<seq<Event>>)
      requires Holds(dl, out) && count > 1
      modifies this`current, this`channels, dl`cmdBuffer, dl`idxBuffer, dl`idxWrite
      ensures count == old(count) <= |channels| && current == 0 && dl.ClipsOrdered() && count == |out|
      ensures Contiguous(dl.cmdBuffer, 0, |dl.idxBuffer|) && dl.Meaning() == out[0] && Waiting(channels, 1, out)
      ensures old(forall k :: 0 <= k < count ==> Tight(CmdsIn(dl, k), |dl.vtxBuffer|)) ==>
                AllTight(dl.cmdBuffer, channels, count, |dl.vtxBuffer|)
    {
      hide Trace, Contiguous, Ordered, Waiting, Tight, WithoutUnused;
      SetCurrentChannel(dl, 0, out);
      ghost var first := CmdsIn(dl, 0);
      dl.PopUnusedDrawCmd();
      AllWait(channels, out);
      forall k | 1 <= k < count ensures Worn(channels[k].cmds) == CmdsIn(dl, k) {
        WornIs(channels[k].cmds, channels[k].idx);
      }
      assert dl.cmdBuffer == first == old(CmdsIn(dl, 0));
      assert forall k :: 1 <= k < count ==> Worn(channels[k].cmds) == old(CmdsIn(dl, k));
    }

    // The list must end in a command that can take up elements.
    method Finish(dl: DrawList)
      requires Contiguous(dl.cmdBuffer, 0, |dl.idxBuffer|) && (|dl.cmdBuffer| == 0 ==> |dl.idxBuffer| == 0)
      requires dl.ClipsOrdered()
      modifies dl`cmdBuffer
      ensures dl.Valid() && dl.Meaning() == old(dl.Meaning())
      ensures Tight(old(dl.cmdBuffer), |dl.vtxBuffer|) ==> Batched(dl.cmdBuffer, |dl.vtxBuffer|)
    {
      hide Trace, Contiguous, Ordered, Batched;
      if |dl.cmdBuffer| == 0 || dl.cmdBuffer[|dl.cmdBuffer| - 1].callback.Some? {
        TightAdd(dl.cmdBuffer, Cmd(dl.cmdHeader, |dl.idxBuffer|, 0, None), |dl.vtxBuffer|);
        dl.AddDrawCmd();
      }
      Resume(dl);
    }

    // Flatten all channels into the draw list: it then means what the channels mean,
    // one after the other.  If no channel has a command to spare, but for a last one that
    // draws nothing, neither has the list.
    method Merge(dl: DrawList, ghost out: seq<seq<Event>>)
      requires Holds(dl, out)
      modifies this, dl`cmdBuffer, dl`idxBuffer, dl`idxWrite
      ensures Holds(dl, [Joined(out)]) && current == 0 && count == 1
      ensures old(count > 1 && forall k :: 0 <= k < count ==> Tight(CmdsIn(dl, k), |dl.vtxBuffer|)) ==>
                Batched(dl.cmdBuffer, |dl.vtxBuffer|)
    {
      hide Trace, Contiguous, Ordered, Waiting, Merging, Tight, Batched, WithoutUnused;
      if count <= 1 {
        JoinedOne(out);
        return;
      }
      Gather(dl, out);
      ghost var holder := MergeAll(dl, out, |dl.vtxBuffer|);
      ghost var own, idx := dl.cmdBuffer, dl.idxBuffer;
      Flatten(dl);
      AllMerged(own, idx, channels, count, holder, out);
      Finish(dl);
      count := 1;
    }
  }

  lemma TightAdd(cmds: seq<Cmd>, c: Cmd, written: nat)
    requires c.elemCount == 0 && (|cmds| > 0 ==> !CanFuse(cmds[|cmds| - 1], c))
    ensures Tight(cmds, written) ==> Batched(cmds + [c], written)
  {
    if Tight(cmds, written) {
      BatchedAdd(cmds, c, written);
    }
  }

  // A stored channel ends in no callback, so dropping its last command without a look at
  // the callback is the same.
  lemma WornIs(cmds: seq<Cmd>, idx: seq<int>)
    requires Stored(Channel(cmds, idx))
    ensures Worn(cmds) == WithoutUnused(cmds)
  {
  }

  lemma OwnCommandsFirst(own: seq<Cmd>, idx: seq<int>, channels: seq<Channel>, last: Option<nat>, out: seq<seq<Event>>)
    requires 1 <= |channels| && 1 <= |out| && Contiguous(own, 0, |idx|) && Trace(own, idx) == out[0]
    requires last == if |own| > 0 then Some(0) else None
    ensures Merging(own, idx, channels, 1, last, out)
    ensures |own| > 0 ==> own[|own| - 1].idxOffset + own[|own| - 1].elemCount == |idx|
    ensures |own| == 0 ==> |idx| == 0
  {
    assert own + CmdsOf(channels, 1) == own && idx + IdxOf(channels, 1) == idx;
    assert out[..1][..0] == [] && Joined(out[..1]) == Joined(out[..1][..0]) + out[0];
  }

  lemma AllWait(channels: seq<Channel>, out: seq<seq<Event>>)
    requires |out| <= |channels|
    requires forall k :: 1 <= k < |out| ==> Stored(channels[k]) && Trace(channels[k].cmds, channels[k].idx) == out[k]
    ensures Waiting(channels, 1, out)
  {
  }

  lemma AllMerged(own: seq<Cmd>, idx: seq<int>, channels: seq<Channel>, n: nat, holder: Option<nat>, out: seq<seq<Event>>)
    requires Merging(own, idx, channels, n, holder, out) && n == |out|
    ensures var cmds, all := own + CmdsOf(channels, n), idx + IdxOf(channels, n);
            && Contiguous(cmds, 0, |all|) && Trace(cmds, all) == Joined(out)
            && (|cmds| == 0 ==> |all| == 0)
            && (|cmds| > 0 && cmds[|cmds| - 1].callback.None? ==> Ready(cmds, |all|))
  {
    assert out[..n] == out;
  }

  lemma JoinedOne(out: seq<seq<Event>>)
    requires |out| == 1
    ensures [Joined(out)] == out
  {
    assert Joined(out[..|out| - 1]) == [];
    assert Joined(out) == out[0];
  }

  // What is known of a stored channel once its unused command is dropped.
  lemma TakeChannel(channels: seq<Channel>, i: nat, out: seq<seq<Event>>)
    requires i < |channels| && i < |out| && Waiting(channels, i, out)
    ensures var ch := channels[i];
            var cmds := if |ch.cmds| > 0 && ch.cmds[|ch.cmds| - 1].elemCount == 0 then ch.cmds[..|ch.cmds| - 1] else ch.cmds;
            Contiguous(cmds, 0, |ch.idx|) && Trace(cmds, ch.idx) == out[i]
  {
    var ch := channels[i];
    assert Stored(ch);
    if |ch.cmds| > 0 && ch.cmds[|ch.cmds| - 1].elemCount == 0 {
      assert ch.cmds == ch.cmds[..|ch.cmds| - 1] + [ch.cmds[|ch.cmds| - 1]];
      TraceOfEmpty(ch.cmds[..|ch.cmds| - 1], ch.cmds[|ch.cmds| - 1], ch.idx);
    }
  }

  lemma HolderIsThere(own: seq<Cmd>, idx: seq<int>, channels: seq<Channel>, n: nat, holder: Option<nat>, out: seq<seq<Event>>)
    requires Merging(own, idx, channels, n, holder, out)
    ensures HoldsLast(own, channels, n, holder)
  {
  }

  lemma StillWaiting(before: seq<Channel>, after: seq<Channel>, i: nat, out: seq<seq<Event>>)
    requires Waiting(before, i, out) && |after| == |before| && forall k :: i < k < |before| ==> after[k] == before[k]
    ensures Waiting(after, i + 1, out)
  {
  }

  lemma IndicesBefore(before: seq<Channel>, after: seq<Channel>, i: nat, cmds: seq<Cmd>)
    requires 1 <= i < |before| == |after| && forall k :: 1 <= k <= i ==> after[k].idx == before[k].idx
    requires Contiguous(cmds, 0, |before[i].idx|)
    ensures |IdxOf(after, i + 1)| == |IdxOf(before, i)| + Total(cmds)
    ensures |cmds| > 0 ==> Total(cmds) == cmds[0].elemCount + Total(cmds[1..])
  {
    SameIndices(before, after, i);
    if |cmds| > 0 {
      OffsetsArePrefixSums(cmds, 0, |before[i].idx|, 0);
      assert cmds == [cmds[0]] + cmds[1..];
      TotalFirst(cmds[0], cmds[1..]);
    }
  }
}
