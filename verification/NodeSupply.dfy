/**
 How many nodes a packer needs: runs that use them up, and when there are none.
 */
module NodeSupply {
  import opened Options
  import opened Skyline
  import opened Packing
  import opened PackingLaws
  import opened PackingRuns

  // The knots stand at distinct columns of 0..width.
  lemma {:induction false} KnotsSpread(s: seq<Knot>, W: int, i: nat)
    requires WellFormed(s, W) && i < |s|
    ensures i <= s[i].x
    decreases i
  {
    if i > 0 {
      KnotsSpread(s, W, i - 1);
    }
  }

  // A rectangle that fits is refused for lack of a node.
  ghost predicate Starves(p: Packer, req: Request)
    requires Sized(p) && 0 < req.w && 0 < req.h
  {
    p.free == 0 && exists q :: Chosen(p, req.w, req.h, q)
  }

  ghost predicate FedThroughout(states: seq<Packer>, reqs: seq<Request>, rs: seq<Option<Pos>>)
    requires IsRun(states, reqs, rs)
  {
    forall k :: 0 <= k < |reqs| ==> StepsTo(states[k], reqs[k], rs[k], states[k + 1]) && !Starves(states[k], reqs[k])
  }

  ghost predicate NeverStarves(p: Packer) {
    forall states: seq<Packer>, reqs: seq<Request>, rs: seq<Option<Pos>> ::
      IsRun(states, reqs, rs) && states[0] == p ==> FedThroughout(states, reqs, rs)
  }

  lemma EnoughNodesNeverStarve(p: Packer, states: seq<Packer>, reqs: seq<Request>, rs: seq<Option<Pos>>)
    requires Inv(p) && p.numNodes >= p.Width() && IsRun(states, reqs, rs) && states[0] == p
    ensures FedThroughout(states, reqs, rs)
    ensures forall k :: 0 <= k < |states| ==> states[k].free > 0
  {
    forall k | 0 <= k < |states| ensures states[k].free > 0 {
      RunKeepsInv(states, reqs, rs, k);
      RunOnlyAdds(states, reqs, rs, 0, k);
      KnotsSpread(states[k].knots, states[k].Width(), |states[k].knots| - 1);
    }
    forall k | 0 <= k < |reqs|
      ensures StepsTo(states[k], reqs[k], rs[k], states[k + 1]) && !Starves(states[k], reqs[k])
    {
      assert StepsTo(states[k], reqs[k], rs[k], states[k + 1]);
      assert states[k].free > 0;
    }
  }

  // ---------- a comb of unit squares uses up every node

  ghost function Comb(p: Packer, k: nat): Packer
    requires k <= p.Width()
  {
    p.(knots := seq(k, i => Knot(i, 1)) + [Knot(k, 0), Knot(p.Width(), SENTINEL_Y)],
       heights := seq(p.Width(), c => if c < k then 1 else 0),
       free := p.free - k,
       placed := seq(k, i => Box(i, 0, 1, 1)))
  }

  lemma CombIsSized(p: Packer, k: nat)
    requires Sized(p) && k < p.Width()
    ensures Sized(Comb(p, k))
  {
    var c := Comb(p, k);
    assert forall i :: 0 <= i < k ==> c.knots[i] == Knot(i, 1);
  }

  lemma CombRests(p: Packer, k: nat, x: int)
    requires Sized(p) && k < p.Width() && 0 <= x && x + p.align <= p.Width()
    ensures Sized(Comb(p, k)) && RoundUp(1, p.align) == p.align
    ensures if x < k then 0 < RestAt(Comb(p, k).heights, x, p.align) else RestAt(Comb(p, k).heights, x, p.align) == 0
  {
    CombIsSized(p, k);
    var c, a := Comb(p, k), p.align;
    PeakIsMaximum(c.heights, x, x + a);
    assert c.heights[x] == if x < k then 1 else 0;
  }

  // On the floor right of the comb nothing is wasted, wherever a block starts.
  lemma CombWastesNothing(p: Packer, k: nat, x: int)
    requires Sized(p) && k <= x && x + p.align <= p.Width()
    ensures Sized(Comb(p, k)) && KeyOf(Comb(p, k).knots, Comb(p, k).heights, x, p.align) == Key(0, 0, x)
  {
    hide Outlines;
    CombRests(p, k, x);
    var c := Comb(p, k);
    KnotsAscend(c);
    LocateUnique(c.knots, k, x);
    FloorSurvey(c.knots, k, x, p.align);
  }

  lemma KnotsAscend(p: Packer)
    requires Sized(p)
    ensures Ascending(p.knots)
  {
  }

  lemma FloorSurvey(s: seq<Knot>, k: nat, x: int, w: int)
    requires k + 1 < |s| && 0 < w && s[k].x <= x && x + w <= s[k + 1].x && s[k].y == 0
    ensures Survey(s, k, x, w).waste == 0
  {
    var t := Pass(Tally(0, 0, 0), s[k], s[k + 1].x, x, w);
    assert t.waste == 0;
    assert Sweep(s, k + 1, x, w, t) == t;
  }

  // The next unit square goes to the floor right of the comb, with either heuristic.
  lemma CombChooses(p: Packer, k: nat)
    requires Sized(p) && 1 <= p.height && k + p.align <= p.Width()
    ensures Sized(Comb(p, k)) && Chosen(Comb(p, k), 1, 1, Pos(k, 0))
  {
    hide Outlines;
    CombRests(p, k, k);
    if p.bestFit {
      CombFitsBest(p, k);
    } else {
      CombIsLowest(p, k);
    }
  }

  lemma CombIsLowest(p: Packer, k: nat)
    requires Sized(p) && k + p.align <= p.Width()
    ensures BottomLeft(Comb(p, k).heights, p.align, Pos(k, 0))
  {
    hide Sized, RestAt;
    AtLeastOne(p);
    CombRests(p, k, k);
    forall x | 0 <= x && x + p.align <= p.Width()
      ensures 0 < RestAt(Comb(p, k).heights, x, p.align)
           || (0 == RestAt(Comb(p, k).heights, x, p.align) && k <= x)
    {
      CombRests(p, k, x);
    }
  }

  lemma AtLeastOne(p: Packer)
    requires Sized(p)
    ensures 1 <= p.align
  {
  }

  lemma CombFitsBest(p: Packer, k: nat)
    requires Sized(p) && 1 <= p.height && k + p.align <= p.Width()
    ensures Sized(Comb(p, k))
    ensures BestFit(Comb(p, k).knots, Comb(p, k).heights, p.align, 1, p.height, Pos(k, 0))
  {
    hide Outlines, RestAt, Survey;
    CombIsSized(p, k);
    CombRests(p, k, k);
    CombWastesNothing(p, k, k);
    var c, a := Comb(p, k), p.align;
    assert c.knots[k] == Knot(k, 0);
    assert FittingCandidate(c.knots, c.heights, a, 1, p.height, k);
    forall x | FittingCandidate(c.knots, c.heights, a, 1, p.height, x)
      ensures NoWorse(KeyOf(c.knots, c.heights, k, a), KeyOf(c.knots, c.heights, x, a))
    {
      CombRests(p, k, x);
      if k <= x {
        CombWastesNothing(p, k, x);
      }
    }
  }

  lemma CombGrows(p: Packer, k: nat)
    requires Sized(p) && k + 1 < p.Width()
    ensures Sized(Comb(p, k)) && Place(Comb(p, k), 1, 1, Pos(k, 0)) == Comb(p, k + 1)
  {
    CombIsSized(p, k);
    var c := Comb(p, k);
    LocateUnique(c.knots, k, k);
    assert KeepTo(c.knots, k) == k && DropTo(c.knots, k, k + 1) == k;
    assert c.knots[..k] + [Knot(k, 1)] == seq(k + 1, i => Knot(i, 1));
    assert Splice(c.knots, k, k + 1, 1) == Comb(p, k + 1).knots;
    assert Raised(c.heights, k, Reach(c.knots, k, k + 1), 1) == Comb(p, k + 1).heights;
    assert c.placed + [Box(k, 0, 1, 1)] == Comb(p, k + 1).placed;
  }

  // With fewer nodes than columns the rounded width still leaves room for a
  // square per node.
  lemma RoomForComb(width: int, n: int)
    requires 1 <= n < width
    ensures n - 1 + (width + n - 1) / n <= width
  {
    var a, m := (width + n - 1) / n, width + n - 1;
    assert m == n * a + m % n;
    assert a <= 1 ==> n * a <= n;
    ProductBound(a, n);
  }

  lemma ProductBound(a: int, n: int)
    requires 2 <= a && 1 <= n
    ensures 2 * n - 2 + a <= n * a
  {
    assert 0 <= (a - 2) * (n - 1);
    assert (a - 2) * (n - 1) == n * a - a - 2 * n + 2;
  }

  // One unit square per node, and then one more.
  ghost function CombStates(p: Packer, n: nat): seq<Packer>
    requires n < p.Width()
  {
    seq(n + 2, k requires 0 <= k < n + 2 => if k <= n then Comb(p, k) else Comb(p, n))
  }

  ghost function CombAnswers(n: nat): seq<Option<Pos>> {
    seq(n + 1, k => if k < n then Some(Pos(k, 0)) else None)
  }

  lemma CombIsRun(p: Packer, n: nat)
    requires Sized(p) && 1 <= p.height && p.free == n < p.Width() && n - 1 + p.align <= p.Width()
    ensures IsRun(CombStates(p, n), seq(n + 1, _ => Request(1, 1)), CombAnswers(n))
  {
    var states, reqs, rs := CombStates(p, n), seq(n + 1, _ => Request(1, 1)), CombAnswers(n);
    forall k | 0 <= k < n + 1 ensures StepsTo(states[k], reqs[k], rs[k], states[k + 1]) {
      hide Comb, Place, Chosen, Sized;
      CombIsSized(p, k);
      if k < n {
        CombChooses(p, k);
        CombGrows(p, k);
        CombHasFree(p, k);
      } else {
        CombHasFree(p, n);
      }
    }
  }

  lemma CombHasFree(p: Packer, k: nat)
    requires k <= p.Width()
    ensures Comb(p, k).free == p.free - k && Comb(p, k).Width() == p.Width()
  {
  }

  // On top of a comb of unit squares there is always room for one more.
  lemma FullCombHasRoom(p: Packer, n: nat)
    requires Sized(p) && 2 <= p.height && n < p.Width() && p.align <= p.Width()
    ensures Sized(Comb(p, n)) && exists q :: Chosen(Comb(p, n), 1, 1, q)
  {
    CombIsSized(p, n);
    var c, a := Comb(p, n), p.align;
    assert RoundUp(1, a) == a;
    PeakAtMost(c.heights, 0, a, 1);
    assert RestAt(c.heights, 0, a) + 1 <= c.height;
    if p.bestFit {
      var q := BestFitExists(c.knots, c.heights, a, 1, c.height);
      assert Chosen(c, 1, 1, q);
    } else {
      var q := BottomLeftExists(c.heights, a, 1, c.height);
      assert Chosen(c, 1, 1, q);
    }
  }

  lemma CombStarves(p: Packer, n: nat)
    requires Sized(p) && 1 <= p.height && p == Comb(p, 0)
    requires p.free == n < p.Width() && n - 1 + p.align <= p.Width() && 1 <= n
    requires p.height == 1 ==> n + p.align <= p.Width()
    ensures !NeverStarves(p)
  {
    var states, reqs, rs := CombStates(p, n), seq(n + 1, _ => Request(1, 1)), CombAnswers(n);
    CombIsRun(p, n);
    if p.height == 1 {
      CombChooses(p, n);
    } else {
      FullCombHasRoom(p, n);
    }
    hide Comb, Chosen, Sized, Step;
    CombHasFree(p, n);
    assert states[0] == p && states[n] == Comb(p, n);
    assert Starves(states[n], reqs[n]);
    assert !FedThroughout(states, reqs, rs);
  }

  // ---------- targets of a single row

  // Every node taken is a box placed, and every box has an area.
  lemma {:induction false} NodesAreBoxes(states: seq<Packer>, reqs: seq<Request>, rs: seq<Option<Pos>>, k: nat)
    requires IsRun(states, reqs, rs) && k <= |reqs|
    ensures states[0].free + |states[0].placed| <= states[k].free + |states[k].placed|
    ensures |states[k].placed| <= |states[0].placed| + PackedArea(states, reqs, rs, k)
    decreases k
  {
    hide IsRun, StepsTo, PackedArea;
    RunLengths(states, reqs, rs);
    if k == 0 {
      NoAreas(states, reqs, rs);
    } else {
      NodesAreBoxes(states, reqs, rs, k - 1);
      AreaUpTo(states, reqs, rs, k);
      StepTakesANode(states[k - 1], reqs[k - 1], rs[k - 1], states[k]);
    }
  }

  lemma AreaUpTo(states: seq<Packer>, reqs: seq<Request>, rs: seq<Option<Pos>>, k: nat)
    requires IsRun(states, reqs, rs) && 0 < k <= |reqs|
    ensures StepsTo(states[k - 1], reqs[k - 1], rs[k - 1], states[k])
    ensures PackedArea(states, reqs, rs, k)
         == PackedArea(states, reqs, rs, k - 1) + if rs[k - 1].Some? then reqs[k - 1].w * reqs[k - 1].h else 0
  {
    hide StepsTo;
    assert states[k - 1 + 1] == states[k];
  }

  lemma StepTakesANode(p: Packer, req: Request, r: Option<Pos>, p': Packer)
    requires StepsTo(p, req, r, p')
    ensures r.None? ==> p' == p
    ensures r.Some? ==> p.free <= p'.free + 1 && |p'.placed| == |p.placed| + 1 && 1 <= req.w * req.h
  {
    hide Chosen, Splice, Reach, Outlines;
    if r.Some? {
      assert 0 <= (req.w - 1) * req.h;
    }
  }

  lemma FreeWindow(h: seq<int>, x: int, rw: int)
    requires 0 <= x && 0 <= rw && x + rw <= |h|
    requires forall c :: 0 <= c < |h| ==> 0 <= h[c] <= 1
    requires forall c :: x <= c < x + rw ==> h[c] == 0
    ensures Sum(h, 0, |h|) <= |h| - rw
  {
    hide Sum;
    SumSplit(h, 0, x, |h|);
    SumSplit(h, x, x + rw, |h|);
    SumIsBounded(h, 0, x, 1);
    SumIsBounded(h, x, x + rw, 0);
    SumIsBounded(h, x + rw, |h|, 1);
  }

  lemma RestsOnFloor(p: Packer, w: int, rw: int, h: int, q: Pos)
    requires Resting(p, w, rw, h, q) && p.height == 1
    requires forall c :: 0 <= c < |p.heights| ==> 0 <= p.heights[c]
    ensures 0 <= q.x && q.x + rw <= |p.heights|
    ensures forall c :: q.x <= c < q.x + rw ==> p.heights[c] == 0
  {
    PeakIsMaximum(p.heights, q.x, q.x + rw);
  }

  // In a single row a rectangle fits only beside the boxes: they leave its rounded
  // width of columns free.
  lemma OneRowFits(p: Packer, w: int, h: int, q: Pos)
    requires Inv(p) && p.height == 1 && 0 < w && 0 < h && Chosen(p, w, h, q)
    ensures SkylineArea(p) + p.align <= p.Width()
  {
    hide Inv, Sized, Chosen, Resting, RoundUp;
    InvIsSized(p);
    ChosenRests(p, w, h, q);
    LowRow(p);
    RestsOnFloor(p, w, RoundUp(w, p.align), h, q);
    AtLeastOneQuantum(w, p.align);
    FreeWindow(p.heights, q.x, RoundUp(w, p.align));
  }

  lemma AtLeastOneQuantum(w: int, align: int)
    requires 0 < w && 1 <= align
    ensures align <= RoundUp(w, align)
  {
    var m := w + align - 1;
    if m < 2 * align {
      assert m % align == m - align;
    } else {
      assert m % align < align;
    }
  }

  lemma LowRow(p: Packer)
    requires Inv(p)
    ensures forall c :: 0 <= c < p.Width() ==> 0 <= p.heights[c] <= p.height
  {
  }

  lemma OneRowNeverStarves(p: Packer, states: seq<Packer>, reqs: seq<Request>, rs: seq<Option<Pos>>, k: nat)
    requires Inv(p) && p.height == 1 && p.placed == [] && SkylineArea(p) == 0
    requires p.free + p.align > p.Width() && IsRun(states, reqs, rs) && states[0] == p && k < |reqs|
    requires 0 < reqs[k].w && 0 < reqs[k].h && Sized(states[k])
    ensures !Starves(states[k], reqs[k])
  {
    hide Inv, Sized, Chosen, IsRun, PackedArea, ShutInArea, SkylineArea;
    RunLengths(states, reqs, rs);
    RunKeepsInv(states, reqs, rs, k);
    RunOnlyAdds(states, reqs, rs, 0, k);
    NodesAreBoxes(states, reqs, rs, k);
    RunConservesArea(states, reqs, rs, k);
    if Starves(states[k], reqs[k]) {
      var q :| Chosen(states[k], reqs[k].w, reqs[k].h, q);
      OneRowFits(states[k], reqs[k].w, reqs[k].h, q);
    }
  }

  lemma NoRowNeverStarves(p: Packer, req: Request)
    requires Inv(p) && p.height == 0 && 0 < req.w && 0 < req.h
    ensures Sized(p) && !Starves(p, req)
  {
    hide Inv, Chosen;
    InvIsSized(p);
    if Starves(p, req) {
      var q :| Chosen(p, req.w, req.h, q);
      ChosenRests(p, req.w, req.h, q);
    }
  }

  // ---------- when the nodes are enough

  lemma LowTargetIsFed(p: Packer, states: seq<Packer>, reqs: seq<Request>, rs: seq<Option<Pos>>)
    requires Inv(p) && p.placed == [] && SkylineArea(p) == 0
    requires p.height == 0 || (p.height == 1 && p.free + p.align > p.Width())
    requires IsRun(states, reqs, rs) && states[0] == p
    ensures FedThroughout(states, reqs, rs)
  {
    hide Starves, Step, Inv, SkylineArea;
    forall k | 0 <= k < |reqs|
      ensures StepsTo(states[k], reqs[k], rs[k], states[k + 1]) && !Starves(states[k], reqs[k])
    {
      assert StepsTo(states[k], reqs[k], rs[k], states[k + 1]);
      if p.height == 0 {
        RunKeepsInv(states, reqs, rs, k);
        RunOnlyAdds(states, reqs, rs, 0, k);
        NoRowNeverStarves(states[k], reqs[k]);
      } else {
        OneRowNeverStarves(p, states, reqs, rs, k);
      }
    }
  }

  lemma FreshIsBlank(width: nat, height: int, numNodes: int, allowOutOfMem: bool)
    requires numNodes != 0
    ensures SkylineArea(Start(width, height, numNodes, allowOutOfMem)) == 0
  {
    var h := Start(width, height, numNodes, allowOutOfMem).heights;
    SumIsBounded(h, 0, width, 0);
  }

  // There are nodes enough for every run: one for every column, or no row at all, or a
  // single row that is full before they are used up.
  predicate Enough(width: nat, height: int, numNodes: int, align: int) {
    numNodes >= width || height == 0 || (height == 1 && numNodes + align > width)
  }

  lemma EnoughIsEnough(p: Packer)
    requires Inv(p) && p.placed == [] && SkylineArea(p) == 0 && p.free == p.numNodes
    requires Enough(p.Width(), p.height, p.numNodes, p.align)
    ensures NeverStarves(p)
  {
    hide Inv, FedThroughout, SkylineArea;
    forall states: seq<Packer>, reqs: seq<Request>, rs: seq<Option<Pos>> |
      IsRun(states, reqs, rs) && states[0] == p
      ensures FedThroughout(states, reqs, rs)
    {
      if p.numNodes >= p.Width() {
        EnoughNodesNeverStarve(p, states, reqs, rs);
      } else {
        LowTargetIsFed(p, states, reqs, rs);
      }
    }
  }

  lemma FreshKeepsInv(width: nat, height: int, numNodes: int, allowOutOfMem: bool, bestFit: bool)
    requires 1 <= width <= MAX_COORD && 0 <= height <= MAX_COORD && 1 <= numNodes
    ensures Inv(Start(width, height, numNodes, allowOutOfMem).(bestFit := bestFit))
  {
    StartKeepsInv(width, height, numNodes, allowOutOfMem);
  }

  // The promise that a packer never runs out of nodes holds, with either heuristic and on
  // all targets but those of a single row, exactly when there is a node for every column;
  // rounding the widths does not make up for fewer nodes, and neither does switching the
  // rounding off.
  lemma NodeSupplySufficesIff(width: nat, height: int, numNodes: int, allowOutOfMem: bool, bestFit: bool)
    requires 1 <= width <= MAX_COORD && 0 <= height <= MAX_COORD && 1 <= numNodes
    ensures NeverStarves(Start(width, height, numNodes, allowOutOfMem).(bestFit := bestFit))
       <==> Enough(width, height, numNodes, Quantum(width, numNodes, allowOutOfMem))
  {
    hide Inv, Sized, NeverStarves, SkylineArea;
    var p := Start(width, height, numNodes, allowOutOfMem).(bestFit := bestFit);
    FreshKeepsInv(width, height, numNodes, allowOutOfMem, bestFit);
    if Enough(width, height, numNodes, p.align) {
      FreshIsBlank(width, height, numNodes, allowOutOfMem);
      SameArea(Start(width, height, numNodes, allowOutOfMem), p);
      EnoughIsEnough(p);
    } else {
      InvIsSized(p);
      RoomForComb(width, numNodes);
      assert p.knots == Comb(p, 0).knots && p.heights == Comb(p, 0).heights && p.placed == Comb(p, 0).placed;
      CombStarves(p, numNodes);
    }
  }

  lemma SameArea(p: Packer, p': Packer)
    requires p.heights == p'.heights
    ensures SkylineArea(p) == SkylineArea(p')
  {
  }
}
