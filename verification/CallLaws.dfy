/**
 What a caller of the packer gets, over any number of calls on one context:
 rectangles that never overlap, and flags that mean what they say.
 */
module CallLaws {
  import opened Packing
  import opened PackingLaws
  import opened RectSort
  import opened PackCalls

  function BoxOf(r: Rect): Box {
    Box(r.x, r.y, r.w, r.h)
  }

  // A rectangle that takes up room in the target.
  predicate TakesRoom(r: Rect) {
    r.w != 0 && r.h != 0 && Answer(r).Some?
  }

  lemma ServingKeepsInv(p: Packer, r: Rect, p': Packer)
    requires Served(p, r, p')
    ensures Inv(p') && p'.height == p.height && p'.Width() == p.Width() && p'.numNodes == p.numNodes
    ensures p'.placed == if TakesRoom(r) then p.placed + [BoxOf(r)] else p.placed
  {
    hide Inv, Chosen;
    if r.w != 0 && r.h != 0 {
      StepKeepsInv(p, r.w, r.h, Answer(r), p');
    }
  }

  lemma {:induction false} CallOnlyAdds(before: seq<Rect>, after: seq<Rect>, perm: seq<int>, states: seq<Packer>, i: nat, k: nat)
    requires PackCall(before, after, perm, states) && Inv(states[0]) && i <= k <= |perm|
    ensures Inv(states[k]) && states[i].placed <= states[k].placed
    ensures states[k].height == states[i].height && states[k].Width() == states[i].Width()
    ensures states[k].numNodes == states[i].numNodes
    decreases k
  {
    hide Inv, Served;
    if i < k {
      CallOnlyAdds(before, after, perm, states, i, k - 1);
      assert Served(states[k - 1], after[perm[k - 1]], states[k - 1 + 1]);
      ServingKeepsInv(states[k - 1], after[perm[k - 1]], states[k]);
    } else if k > 0 {
      CallOnlyAdds(before, after, perm, states, i - 1, k - 1);
      assert Served(states[k - 1], after[perm[k - 1]], states[k - 1 + 1]);
      ServingKeepsInv(states[k - 1], after[perm[k - 1]], states[k]);
    }
  }

  // The box of the rectangle served in step k is placed box number |states[k].placed|.
  lemma ServedBoxIsPlaced(before: seq<Rect>, after: seq<Rect>, perm: seq<int>, states: seq<Packer>, k: nat)
    requires PackCall(before, after, perm, states) && Inv(states[0]) && k < |perm| && TakesRoom(after[perm[k]])
    ensures |states[0].placed| <= |states[k].placed| < |states[|perm|].placed|
    ensures |states[k + 1].placed| == |states[k].placed| + 1
    ensures states[|perm|].placed[|states[k].placed|] == BoxOf(after[perm[k]])
  {
    hide Inv, Served;
    assert Served(states[k], after[perm[k]], states[k + 1]);
    ServingKeepsInv(states[k], after[perm[k]], states[k + 1]);
    CallOnlyAdds(before, after, perm, states, 0, k);
    CallOnlyAdds(before, after, perm, states, k + 1, |perm|);
  }

  // Two rectangles of one call never overlap, nor does a rectangle overlap any box
  // placed by an earlier call; all lie inside the target, and all stay placed.
  lemma CallNeverOverlaps(before: seq<Rect>, after: seq<Rect>, perm: seq<int>, states: seq<Packer>, i: nat)
    requires PackCall(before, after, perm, states) && Inv(states[0]) && i < |after| && TakesRoom(after[i])
    ensures Inside(BoxOf(after[i]), states[0].Width(), states[0].height)
    ensures BoxOf(after[i]) in states[|perm|].placed
    ensures forall b :: b in states[0].placed ==> Apart(b, BoxOf(after[i]))
    ensures forall j :: 0 <= j < |after| && j != i && TakesRoom(after[j]) ==> Apart(BoxOf(after[i]), BoxOf(after[j]))
  {
    hide Served, TakesRoom, Answer;
    PermutationCovers(perm, |before|, i);
    var k :| 0 <= k < |perm| && perm[k] == i;
    CallOnlyAdds(before, after, perm, states, 0, |perm|);
    ServedBoxIsPlaced(before, after, perm, states, k);
    var all, m := states[|perm|].placed, |states[k].placed|;
    assert Inside(all[m], |states[|perm|].heights|, states[|perm|].height);
    assert forall a :: 0 <= a < |states[0].placed| ==> all[a] == states[0].placed[a];
    forall j | 0 <= j < |after| && j != i && TakesRoom(after[j]) ensures Apart(BoxOf(after[i]), BoxOf(after[j])) {
      PermutationCovers(perm, |before|, j);
      var l :| 0 <= l < |perm| && perm[l] == j;
      ServedBoxIsPlaced(before, after, perm, states, l);
      DifferentSteps(before, after, perm, states, k, l);
    }
  }

  lemma DifferentSteps(before: seq<Rect>, after: seq<Rect>, perm: seq<int>, states: seq<Packer>, k: nat, l: nat)
    requires PackCall(before, after, perm, states) && Inv(states[0]) && k < |perm| && l < |perm| && k != l
    requires TakesRoom(after[perm[k]]) && TakesRoom(after[perm[l]])
    ensures |states[k].placed| != |states[l].placed|
  {
    hide Inv, Served;
    ServedBoxIsPlaced(before, after, perm, states, k);
    ServedBoxIsPlaced(before, after, perm, states, l);
    if k < l {
      CallOnlyAdds(before, after, perm, states, k + 1, l);
    } else {
      CallOnlyAdds(before, after, perm, states, l + 1, k);
    }
  }

  // The flag is set exactly for empty rectangles and for those that found a place:
  // a real position is never mistaken for the mark of a refusal.
  lemma FlagMeansPlaced(before: seq<Rect>, after: seq<Rect>, perm: seq<int>, states: seq<Packer>, k: nat)
    requires PackCall(before, after, perm, states) && Inv(states[0]) && k < |perm|
    ensures var r := after[perm[k]]; var grown := |states[k + 1].placed| == |states[k].placed| + 1;
            && (r.wasPacked != 0 <==> r.w == 0 || r.h == 0 || grown)
            && (r.wasPacked == 0 <==> r.x == 65535 && r.y == 65535)
            && (grown ==> states[k + 1].placed == states[k].placed + [BoxOf(r)])
            && (!grown ==> states[k + 1] == states[k])
    ensures var r := after[perm[k]];
            r.wasPacked == 0 ==>
              var w := RoundUp(r.w, states[k].align);
              0 < w && (states[k].free == 0 || !FitsSomewhere(states[k].heights, w, r.h, states[k].height))
  {
    hide Inv, Chosen, RoundUp, FitsSomewhere;
    var r := after[perm[k]];
    assert Served(states[k], r, states[k + 1]) && SameRect(before[perm[k]], r) && r.wasPacked == Flag(r);
    if r.w != 0 && r.h != 0 {
      PackingLaws.ChosenIffFits(states[k], r.w, r.h);
      StepKeepsInv(states[k], r.w, r.h, Answer(r), states[k + 1]);
    }
  }

  // The rectangles are served from the highest to the lowest, equally high ones from the
  // widest to the narrowest.
  lemma HighestFirst(before: seq<Rect>, after: seq<Rect>, perm: seq<int>, states: seq<Packer>, k: nat, l: nat)
    requires PackCall(before, after, perm, states) && k < l < |perm|
    ensures 0 <= perm[k] < |before| && 0 <= perm[l] < |before|
    ensures var p, q := before[perm[k]], before[perm[l]]; p.h > q.h || (p.h == q.h && p.w >= q.w)
  {
    OrdersAre(before[perm[k]], before[perm[l]]);
  }

  // A rectangle the packer is done with: the flag says whether it has a place, and
  // an empty one sits at the origin.
  predicate Settled(r: Rect) {
    r.wasPacked == Flag(r) && (r.w == 0 || r.h == 0 ==> r.x == 0 && r.y == 0)
  }

  lemma CallSettles(before: seq<Rect>, after: seq<Rect>, perm: seq<int>, states: seq<Packer>, i: nat)
    requires PackCall(before, after, perm, states) && i < |after|
    ensures Settled(after[i]) && SameRect(before[i], after[i])
  {
    PermutationCovers(perm, |before|, i);
    var k :| 0 <= k < |perm| && perm[k] == i;
    assert Served(states[k], after[perm[k]], states[k + 1]);
  }
}
