/**
 What whole runs of the packer promise: no overlap between any two placed
 rectangles, conservation of area, and the exact refusal condition.
 */
module PackingRuns {
  import opened Options
  import opened Skyline
  import opened Packing
  import opened PackingLaws

  // ---------- no overlap, over every run

  lemma {:induction false} RunKeepsInv(states: seq<Packer>, reqs: seq<Request>, rs: seq<Option<Pos>>, k: nat)
    requires IsRun(states, reqs, rs) && Inv(states[0]) && k <= |reqs|
    ensures Inv(states[k])
    decreases k
  {
    if k > 0 {
      RunKeepsInv(states, reqs, rs, k - 1);
      assert StepsTo(states[k - 1], reqs[k - 1], rs[k - 1], states[k - 1 + 1]);
      StepKeepsInv(states[k - 1], reqs[k - 1].w, reqs[k - 1].h, rs[k - 1], states[k]);
    }
  }

  function BoxOf(req: Request, q: Pos): Box {
    Box(q.x, q.y, req.w, req.h)
  }

  // What was placed stays placed, and the sizes of packer and target stay.
  lemma {:induction false} RunOnlyAdds(states: seq<Packer>, reqs: seq<Request>, rs: seq<Option<Pos>>, i: nat, k: nat)
    requires IsRun(states, reqs, rs) && i <= k <= |reqs|
    ensures states[i].placed <= states[k].placed
    ensures states[k].height == states[i].height && states[k].Width() == states[i].Width()
    ensures states[k].align == states[i].align && states[k].bestFit == states[i].bestFit
    ensures states[k].numNodes == states[i].numNodes
    decreases k
  {
    if i < k {
      RunOnlyAdds(states, reqs, rs, i, k - 1);
      assert StepsTo(states[k - 1], reqs[k - 1], rs[k - 1], states[k - 1 + 1]);
    }
  }

  // Any two rectangles placed in the course of a run, and any one of them and any
  // box placed before the run, do not overlap, and all lie inside the target.
  lemma RunNeverOverlaps(states: seq<Packer>, reqs: seq<Request>, rs: seq<Option<Pos>>, i: nat, j: nat)
    requires IsRun(states, reqs, rs) && Inv(states[0])
    requires i < j < |reqs| && rs[i].Some? && rs[j].Some?
    ensures Apart(BoxOf(reqs[i], rs[i].value), BoxOf(reqs[j], rs[j].value))
    ensures Inside(BoxOf(reqs[i], rs[i].value), states[0].Width(), states[0].height)
    ensures Inside(BoxOf(reqs[j], rs[j].value), states[0].Width(), states[0].height)
    ensures forall b :: b in states[0].placed ==> Apart(b, BoxOf(reqs[j], rs[j].value))
  {
    assert StepsTo(states[i], reqs[i], rs[i], states[i + 1]) && StepsTo(states[j], reqs[j], rs[j], states[j + 1]);
    RunKeepsInv(states, reqs, rs, j + 1);
    RunOnlyAdds(states, reqs, rs, i + 1, j);
    RunOnlyAdds(states, reqs, rs, 0, j);
    var all := states[j + 1].placed;
    var m, n := |states[i].placed|, |states[j].placed|;
    assert all[m] == BoxOf(reqs[i], rs[i].value) && all[n] == BoxOf(reqs[j], rs[j].value) && m < n;
    assert states[j + 1].Width() == states[0].Width();
    assert forall k :: 0 <= k < |states[0].placed| ==> all[k] == states[0].placed[k];
  }

  // ---------- area is conserved

  ghost function SkylineArea(p: Packer): int {
    Sum(p.heights, 0, |p.heights|)
  }

  // How far the skyline is raised when a block of w columns is put at q.
  ghost function ReachOf(p: Packer, w: int, q: Pos): (e: int)
    requires Sized(p) && 0 <= q.x && 0 < w && q.x + w <= p.Width()
    ensures q.x + w <= e <= p.Width()
  {
    SpliceCuts(p.knots, p.Width(), q.x, q.x + w);
    Reach(p.knots, q.x, q.x + w)
  }

  // The area lost to a block put at q: what it shuts in below its level, and what is
  // raised along with it beyond its right edge.
  ghost function ShutIn(p: Packer, w: int, h: int, q: Pos): int
    requires Sized(p) && 0 <= q.x && 0 < w && q.x + w <= p.Width()
  {
    var e := ReachOf(p, w, q);
    (e - q.x - w) * h + Area(p.heights, q.x, e, q.y)
  }

  // With bottom-left, or without rounding, a block ends exactly where it should.
  lemma ChosenReachIsExact(p: Packer, w: int, h: int, q: Pos)
    requires Inv(p) && 0 < w && 0 < h && Chosen(p, w, h, q) && (!p.bestFit || p.align == 1)
    ensures 0 <= q.x && q.x + w <= p.Width() && Reach(p.knots, q.x, q.x + w) == q.x + w
  {
    ChosenRests(p, w, h, q);
    ReachIsExact(p.knots, p.Width(), q.x, q.x + w);
    if p.bestFit {
      CandidateReach(p.knots, p.heights, w, q.x);
    } else {
      BottomLeftIsOnKnot(p.knots, p.heights, RoundUp(w, p.align), q);
    }
  }

  lemma CandidateReach(s: seq<Knot>, h: seq<int>, w: int, x: int)
    requires Outlines(s, h) && 0 < w && Candidate(s, |h|, w, x)
    ensures s[Locate(s, x)].x == x || s[Locate(s, x) + 1].x <= x + w
  {
    var i :| 0 <= i < |s| && (s[i].x == x || s[i].x == x + w);
    var k := Locate(s, x);
    assert k + 1 < i ==> s[k + 1].x < s[i].x;
  }

  // Raising the window from a to b to the level y + d, from below y: the sum grows by
  // the block and by what lies between the window and y.
  lemma RaisedSum(h: seq<int>, a: int, b: int, y: int, d: int)
    requires 0 <= a <= b <= |h| && 0 <= y + d
    ensures Sum(Raised(h, a, b, y + d), 0, |h|) == Sum(h, 0, |h|) + (b - a) * d + Area(h, a, b, y)
  {
    var g := Raised(h, a, b, y + d);
    SumSplit(g, 0, a, |h|);
    SumSplit(g, a, b, |h|);
    SumSplit(h, 0, a, |h|);
    SumSplit(h, a, b, |h|);
    SumOfEqualColumns(h, g, 0, a);
    SumOfEqualColumns(h, g, b, |h|);
    FlatWindow(g, a, b, y + d, y + d);
    AreaAndSum(h, a, b, y);
    assert (b - a) * (y + d) == (b - a) * y + (b - a) * d;
  }

  // Each placement raises the skyline area by the rectangle and by what is lost to it.
  // The loss is never negative; with bottom-left, or without rounding, it all lies below
  // the rectangle; with both it is the waste the search measured.
  lemma PlacementConservesArea(p: Packer, w: int, h: int, q: Pos)
    requires Inv(p) && 0 < w && 0 < h && Chosen(p, w, h, q)
    ensures 0 <= q.x && q.x + w <= p.Width()
    ensures SkylineArea(Place(p, w, h, q)) == SkylineArea(p) + w * h + ShutIn(p, w, h, q)
    ensures 0 <= ShutIn(p, w, h, q)
    ensures !p.bestFit || p.align == 1 ==> ShutIn(p, w, h, q) == Area(p.heights, q.x, q.x + w, q.y)
    ensures !p.bestFit && p.align == 1 ==> ShutIn(p, w, h, q) == Survey(p.knots, Locate(p.knots, q.x), q.x, w).waste
  {
    hide Inv, Sized, Chosen, Place, ShutIn, Survey, SkylineArea;
    InvIsSized(p);
    ChosenRests(p, w, h, q);
    PlacementArea(p, w, RoundUp(w, p.align), h, q);
    if !p.bestFit || p.align == 1 {
      ChosenReachIsExact(p, w, h, q);
      ShutInIsBelow(p, w, h, q);
      if !p.bestFit && p.align == 1 {
        BelowIsWaste(p, w, h, q);
      }
    }
  }

  lemma InvIsSized(p: Packer)
    requires Inv(p)
    ensures Sized(p) && 1 <= p.align
  {
  }

  lemma ShutInIsBelow(p: Packer, w: int, h: int, q: Pos)
    requires Sized(p) && 0 < w && 0 <= q.x && q.x + w <= p.Width() && Reach(p.knots, q.x, q.x + w) == q.x + w
    ensures ShutIn(p, w, h, q) == Area(p.heights, q.x, q.x + w, q.y)
  {
    hide Sized, Reach, Area;
    ReachIs(p, w, q);
    assert 0 * h == 0;
  }

  lemma BelowIsWaste(p: Packer, w: int, h: int, q: Pos)
    requires Sized(p) && 0 < w && 0 < h && Chosen(p, w, h, q) && !p.bestFit && p.align == 1
    requires 0 <= q.x && q.x + w <= p.Width()
    ensures Area(p.heights, q.x, q.x + w, q.y) == Survey(p.knots, Locate(p.knots, q.x), q.x, w).waste
  {
    hide Survey;
    BottomLeftIsOnKnot(p.knots, p.heights, w, q);
    SurveyFindsRest(p.knots, p.heights, Locate(p.knots, q.x), q.x, w);
  }

  lemma PlacementArea(p: Packer, w: int, rw: int, h: int, q: Pos)
    requires Sized(p) && Resting(p, w, rw, h, q)
    ensures SkylineArea(Place(p, w, h, q)) == SkylineArea(p) + w * h + ShutIn(p, w, h, q)
    ensures 0 <= ShutIn(p, w, h, q)
  {
    hide Splice, Outlines;
    var e := ReachOf(p, w, q);
    RaisedSum(p.heights, q.x, e, q.y, h);
    assert (e - q.x) * h == (e - q.x - w) * h + w * h;
    LostIsNonnegative(p, w, rw, h, q);
  }

  lemma LostIsNonnegative(p: Packer, w: int, rw: int, h: int, q: Pos)
    requires Sized(p) && Resting(p, w, rw, h, q)
    ensures 0 <= ShutIn(p, w, h, q)
  {
    hide Sized, Outlines, Splice, Reach, Resting, Area;
    var e := RaisedAreLow(p, w, rw, h, q);
    AreaIsNonnegative(p.heights, q.x, e, q.y);
    assert 0 <= (e - q.x - w) * h;
  }

  lemma RaisedAreLow(p: Packer, w: int, rw: int, h: int, q: Pos) returns (e: int)
    requires Sized(p) && Resting(p, w, rw, h, q)
    ensures 0 <= q.x && 0 < w && q.x + w <= p.Width() && 0 < h
    ensures e == ReachOf(p, w, q)
    ensures forall c :: q.x <= c < e ==> p.heights[c] <= q.y
  {
    hide Outlines, Splice, Reach;
    e := ReachOf(p, w, q);
    ReachIs(p, w, q);
    forall c | q.x <= c < e ensures p.heights[c] <= q.y {
      ReachedColumnsAreLow(p.knots, p.heights, q.x, q.x + w, rw, c);
    }
  }

  lemma ReachIs(p: Packer, w: int, q: Pos)
    requires Sized(p) && 0 <= q.x && 0 < w && q.x + w <= p.Width()
    ensures |p.knots| >= 2 && p.knots[0].x <= q.x < p.knots[|p.knots| - 1].x
    ensures ReachOf(p, w, q) == Reach(p.knots, q.x, q.x + w)
  {
  }

  lemma {:induction false} AreaIsNonnegative(h: seq<int>, a: int, b: int, y: int)
    requires 0 <= a <= b <= |h| && forall c :: a <= c < b ==> h[c] <= y
    ensures 0 <= Area(h, a, b, y)
    decreases b - a
  {
    if a < b {
      AreaIsNonnegative(h, a, b - 1, y);
    }
  }

  // The area of what a run placed, and the area lost to it, up to step k.
  ghost function PackedArea(states: seq<Packer>, reqs: seq<Request>, rs: seq<Option<Pos>>, k: nat): int
    requires IsRun(states, reqs, rs) && k <= |reqs|
  {
    if k == 0 then 0
    else PackedArea(states, reqs, rs, k - 1) + if rs[k - 1].Some? then reqs[k - 1].w * reqs[k - 1].h else 0
  }

  ghost function ShutInArea(states: seq<Packer>, reqs: seq<Request>, rs: seq<Option<Pos>>, k: nat): int
    requires IsRun(states, reqs, rs) && k <= |reqs|
  {
    if k == 0 then 0
    else
      var p, req, r := states[k - 1], reqs[k - 1], rs[k - 1];
      ShutInArea(states, reqs, rs, k - 1)
      + if r.Some? && Sized(p) && 0 <= r.value.x && 0 < req.w && r.value.x + req.w <= p.Width()
        then ShutIn(p, req.w, req.h, r.value) else 0
  }

  lemma StepConservesArea(p: Packer, req: Request, r: Option<Pos>, p': Packer)
    requires Inv(p) && StepsTo(p, req, r, p')
    ensures r.None? ==> SkylineArea(p') == SkylineArea(p)
    ensures r.Some? ==>
      && 0 <= r.value.x && r.value.x + req.w <= p.Width()
      && 0 <= ShutIn(p, req.w, req.h, r.value)
      && SkylineArea(p') == SkylineArea(p) + req.w * req.h + ShutIn(p, req.w, req.h, r.value)
  {
    if r.Some? {
      PlacementConservesArea(p, req.w, req.h, r.value);
    }
  }

  lemma AreasUpTo(states: seq<Packer>, reqs: seq<Request>, rs: seq<Option<Pos>>, k: nat)
    requires IsRun(states, reqs, rs) && 0 < k <= |reqs|
    ensures StepsTo(states[k - 1], reqs[k - 1], rs[k - 1], states[k])
    ensures rs[k - 1].None? ==>
      && PackedArea(states, reqs, rs, k) == PackedArea(states, reqs, rs, k - 1)
      && ShutInArea(states, reqs, rs, k) == ShutInArea(states, reqs, rs, k - 1)
    ensures var p, req, r := states[k - 1], reqs[k - 1], rs[k - 1];
      r.Some? && Sized(p) && 0 <= r.value.x && 0 < req.w && r.value.x + req.w <= p.Width() ==>
        && PackedArea(states, reqs, rs, k) == PackedArea(states, reqs, rs, k - 1) + req.w * req.h
        && ShutInArea(states, reqs, rs, k) == ShutInArea(states, reqs, rs, k - 1) + ShutIn(p, req.w, req.h, r.value)
  {
    hide StepsTo, ShutIn;
    assert states[k - 1 + 1] == states[k];
  }

  // Over a whole run, with any heuristic and rounding, the skyline encloses exactly what
  // was packed and what was lost.
  lemma {:induction false} RunConservesArea(states: seq<Packer>, reqs: seq<Request>, rs: seq<Option<Pos>>, k: nat)
    requires IsRun(states, reqs, rs) && Inv(states[0]) && k <= |reqs|
    ensures SkylineArea(states[k])
         == SkylineArea(states[0]) + PackedArea(states, reqs, rs, k) + ShutInArea(states, reqs, rs, k)
    ensures 0 <= ShutInArea(states, reqs, rs, k)
    decreases k
  {
    hide Inv, StepsTo, IsRun, SkylineArea, ShutIn, PackedArea, ShutInArea;
    RunLengths(states, reqs, rs);
    if k == 0 {
      NoAreas(states, reqs, rs);
    } else {
      RunConservesArea(states, reqs, rs, k - 1);
      RunKeepsInv(states, reqs, rs, k - 1);
      RunOnlyAdds(states, reqs, rs, 0, k - 1);
      AreasUpTo(states, reqs, rs, k);
      StepConservesArea(states[k - 1], reqs[k - 1], rs[k - 1], states[k]);
      StepAsksForWidth(states[k - 1], reqs[k - 1], rs[k - 1], states[k]);
    }
  }

  lemma RunLengths(states: seq<Packer>, reqs: seq<Request>, rs: seq<Option<Pos>>)
    requires IsRun(states, reqs, rs)
    ensures |states| == |reqs| + 1 == |rs| + 1
  {
  }

  lemma NoAreas(states: seq<Packer>, reqs: seq<Request>, rs: seq<Option<Pos>>)
    requires IsRun(states, reqs, rs)
    ensures PackedArea(states, reqs, rs, 0) == 0 == ShutInArea(states, reqs, rs, 0)
  {
  }

  lemma StepAsksForWidth(p: Packer, req: Request, r: Option<Pos>, p': Packer)
    requires StepsTo(p, req, r, p')
    ensures 0 < req.w && 0 < req.h
  {
  }

  // So what a run packs, together with what lay there before, never exceeds the target.
  lemma RunPacksAtMostTarget(states: seq<Packer>, reqs: seq<Request>, rs: seq<Option<Pos>>, k: nat)
    requires IsRun(states, reqs, rs) && Inv(states[0]) && k <= |reqs|
    ensures SkylineArea(states[0]) + PackedArea(states, reqs, rs, k) <= states[0].Width() * states[0].height
  {
    hide Inv, IsRun, PackedArea, ShutInArea, SkylineArea;
    RunLengths(states, reqs, rs);
    RunConservesArea(states, reqs, rs, k);
    RunKeepsInv(states, reqs, rs, k);
    RunOnlyAdds(states, reqs, rs, 0, k);
    SkylineIsInside(states[k]);
  }

  lemma SkylineIsInside(p: Packer)
    requires Inv(p)
    ensures 0 <= SkylineArea(p) <= p.Width() * p.height
  {
    SumIsBounded(p.heights, 0, p.Width(), p.height);
  }

  lemma {:induction false} SumIsBounded(h: seq<int>, a: int, b: int, m: int)
    requires 0 <= a <= b <= |h| && forall c :: a <= c < b ==> 0 <= h[c] <= m
    ensures 0 <= Sum(h, a, b) <= (b - a) * m
    decreases b - a
  {
    if a < b {
      SumIsBounded(h, a, b - 1, m);
      assert (b - 1 - a) * m + m == (b - a) * m;
    }
  }

  // ---------- refusal

  // A rectangle is refused exactly when the nodes are used up or its rounded width
  // fits nowhere below the top.
  lemma RefusedIff(p: Packer, w: int, h: int, r: Option<Pos>, p': Packer)
    requires Inv(p) && 0 < w && 0 < h && Step(p, w, h, r, p')
    ensures w <= RoundUp(w, p.align)
    ensures r.None? <==> p.free == 0 || !FitsSomewhere(p.heights, RoundUp(w, p.align), h, p.height)
  {
    ChosenIffFits(p, w, h);
  }
}
