/**
 What the rectangle packer promises, as a state machine on values.  One step asks
 for one rectangle; the step relation says which position is chosen, when the
 rectangle is refused, and what the skyline and the node supply become.
 */
module Packing {
  import opened Options
  import opened Skyline

  const MAX_COORD: int := 0xffff
  const SENTINEL_Y: int := 65535

  datatype Pos = Pos(x: int, y: int)

  datatype Box = Box(x: int, y: int, w: int, h: int)

  // `knots` is the active list, `heights` the column heights it outlines, `free`
  // the number of nodes on the free list, `placed` the boxes placed so far.
  datatype Packer = Packer(
    height: int, align: int, bestFit: bool, numNodes: int,
    knots: seq<Knot>, heights: seq<int>, free: int, placed: seq<Box>)
  {
    function Width(): int { |heights| }
  }

  ghost predicate Apart(a: Box, b: Box) {
    a.x + a.w <= b.x || b.x + b.w <= a.x || a.y + a.h <= b.y || b.y + b.h <= a.y
  }

  ghost predicate Inside(b: Box, width: int, height: int) {
    0 <= b.x && 0 < b.w && b.x + b.w <= width && 0 <= b.y && 0 < b.h && b.y + b.h <= height
  }

  ghost predicate Under(b: Box, h: seq<int>)
    requires 0 <= b.x && b.x + b.w <= |h|
  {
    forall c :: b.x <= c < b.x + b.w ==> b.y + b.h <= h[c]
  }

  // Everything placed lies inside the target and below the skyline, and no two
  // boxes overlap.
  ghost predicate Stacked(boxes: seq<Box>, h: seq<int>, height: int) {
    && (forall c :: 0 <= c < |h| ==> 0 <= h[c] <= height)
    && (forall i :: 0 <= i < |boxes| ==> Inside(boxes[i], |h|, height) && Under(boxes[i], h))
    && (forall i, j :: 0 <= i < j < |boxes| ==> Apart(boxes[i], boxes[j]))
  }

  ghost predicate Sized(p: Packer) {
    && 1 <= p.Width() <= MAX_COORD && 0 <= p.height <= MAX_COORD
    && 1 <= p.align && 1 <= p.numNodes
    && Outlines(p.knots, p.heights)
  }

  // The global invariant: no node is lost, and the boxes are properly stacked.
  ghost predicate Inv(p: Packer) {
    && Sized(p)
    && 0 <= p.free && |p.knots| + p.free == p.numNodes + 2
    && Stacked(p.placed, p.heights, p.height)
  }

  // ---------- the chosen position

  // The width the search looks at: the next multiple of the alignment.
  function RoundUp(w: int, align: int): int
    requires 1 <= align
  {
    w + align - 1 - (w + align - 1) % align
  }

  lemma RoundUpIsLeastMultiple(w: int, align: int)
    requires 1 <= align && 0 < w
    ensures w <= RoundUp(w, align) < w + align
    ensures exists k :: RoundUp(w, align) == k * align
  {
    var n := w + align - 1;
    assert RoundUp(w, align) == n / align * align;
  }

  // Where a block of w columns comes to rest when it is dropped at column x.
  ghost function RestAt(h: seq<int>, x: int, w: int): int
    requires 0 <= x && 0 <= w && x + w <= |h|
  {
    Peak(h, x, x + w)
  }

  // The lowest resting place over all columns, leftmost among equals.
  ghost predicate BottomLeft(h: seq<int>, w: int, q: Pos)
    requires 0 <= w
  {
    && 0 <= q.x && q.x + w <= |h| && q.y == RestAt(h, q.x, w)
    && forall x :: 0 <= x && x + w <= |h| ==>
         q.y < RestAt(h, x, w) || (q.y == RestAt(h, x, w) && q.x <= x)
  }

  // Best-fit only looks at blocks that start or end on a knot.
  ghost predicate Candidate(s: seq<Knot>, W: int, w: int, x: int) {
    0 <= x && x + w <= W && exists i :: 0 <= i < |s| && (s[i].x == x || s[i].x == x + w)
  }

  // How good a candidate is: by level, then by measured waste, then by column.
  datatype Key = Key(y: int, waste: int, x: int)

  ghost predicate NoWorse(a: Key, b: Key) {
    a.y < b.y || (a.y == b.y && (a.waste < b.waste || (a.waste == b.waste && a.x <= b.x)))
  }

  ghost function KeyOf(s: seq<Knot>, h: seq<int>, x: int, w: int): Key
    requires Outlines(s, h) && 0 <= x && 0 < w && x + w <= |h|
  {
    Key(RestAt(h, x, w), Survey(s, Locate(s, x), x, w).waste, x)
  }

  ghost predicate FittingCandidate(s: seq<Knot>, h: seq<int>, w: int, rh: int, height: int, x: int)
    requires Outlines(s, h) && 0 < w
  {
    Candidate(s, |h|, w, x) && KeyOf(s, h, x, w).y + rh <= height
  }

  // The least candidate among those that fit below the top.
  ghost predicate BestFit(s: seq<Knot>, h: seq<int>, w: int, rh: int, height: int, q: Pos)
    requires Outlines(s, h) && 0 < w
  {
    && FittingCandidate(s, h, w, rh, height, q.x) && q.y == RestAt(h, q.x, w)
    && forall x :: FittingCandidate(s, h, w, rh, height, x) ==> NoWorse(KeyOf(s, h, q.x, w), KeyOf(s, h, x, w))
  }

  // The position the packer takes for a w by h rectangle.
  ghost predicate Chosen(p: Packer, w: int, h: int, q: Pos)
    requires Sized(p) && 0 < w
  {
    RoundUpIsLeastMultiple(w, p.align);
    var rw := RoundUp(w, p.align);
    && rw <= p.Width() && q.y + h <= p.height
    && if p.bestFit then BestFit(p.knots, p.heights, rw, h, p.height, q) else BottomLeft(p.heights, rw, q)
  }

  // ---------- one step

  // The packer after a w by h rectangle is put at q: one node is taken from the
  // supply, and the nodes the block covers go back.
  ghost function Place(p: Packer, w: int, h: int, q: Pos): Packer
    requires Sized(p) && 0 <= q.x < p.Width()
  {
    var k := KeepTo(p.knots, q.x);
    p.(knots := Splice(p.knots, q.x, q.x + w, q.y + h),
       heights := Raised(p.heights, q.x, Reach(p.knots, q.x, q.x + w), q.y + h),
       free := p.free - 1 + (DropTo(p.knots, k, q.x + w) - k),
       placed := p.placed + [Box(q.x, q.y, w, h)])
  }

  ghost predicate Step(p: Packer, w: int, h: int, r: Option<Pos>, p': Packer)
    requires Sized(p) && 0 < w
  {
    match r
    case None =>
      p' == p && (p.free == 0 || !exists q :: Chosen(p, w, h, q))
    case Some(q) =>
      p.free > 0 && Chosen(p, w, h, q) && 0 <= q.x < p.Width() && p' == Place(p, w, h, q)
  }

  // ---------- runs

  datatype Request = Request(w: int, h: int)

  // states[i] asks for reqs[i], is answered rs[i] and goes on as states[i + 1].
  ghost predicate IsRun(states: seq<Packer>, reqs: seq<Request>, rs: seq<Option<Pos>>) {
    && |states| == |reqs| + 1 == |rs| + 1
    && forall i :: 0 <= i < |reqs| ==> StepsTo(states[i], reqs[i], rs[i], states[i + 1])
  }

  ghost predicate StepsTo(p: Packer, req: Request, r: Option<Pos>, p': Packer) {
    0 < req.w && 0 < req.h && Sized(p) && Step(p, req.w, req.h, r, p')
  }

  // The alignment that quantises the widths: the width over the number of nodes,
  // rounded up, unless running out of nodes is allowed.
  function Quantum(width: int, numNodes: int, allowOutOfMem: bool): int
    requires numNodes != 0
  {
    if allowOutOfMem then 1 else (width + numNodes - 1) / numNodes
  }

  // A fresh packer: the whole width is floor, every user node is free.
  function Start(width: nat, height: int, numNodes: int, allowOutOfMem: bool): Packer
    requires numNodes != 0
  {
    Packer(height, Quantum(width, numNodes, allowOutOfMem), false, numNodes,
           [Knot(0, 0), Knot(width, SENTINEL_Y)], seq(width, _ => 0), numNodes, [])
  }
}
