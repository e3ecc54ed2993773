/**
 The rectangle packer itself: an active list of nodes that is the skyline, a free
 list of spare nodes, the search loops over the active list, and the step that
 cuts, frees and re-stitches nodes in place.
 */
module RectPack {
  import opened Options
  import opened Skyline
  import opened Packing
  import opened PackingLaws
  import opened PackSearch

  class Node {
    var x: int
    var y: int
    var next: Node?

    constructor () {
    }
  }

  // A link of the active list: the place that holds the pointer to a node.
  datatype Link = NoLink | HeadLink | NextLink(node: Node)

  // The nodes hang together, in this order, from `head` on.
  ghost predicate Chain(nodes: seq<Node>, head: Node?)
    reads nodes`next
  {
    && (head == if |nodes| == 0 then null else nodes[0])
    && (forall i {:trigger nodes[i].next} :: 0 <= i < |nodes| ==> nodes[i].next == if i + 1 < |nodes| then nodes[i + 1] else null)
  }

  ghost predicate AllDistinct(nodes: seq<Node>) {
    forall i, j :: 0 <= i < j < |nodes| ==> nodes[i] != nodes[j]
  }

  ghost predicate NoneShared(a: seq<Node>, b: seq<Node>) {
    forall i, j :: 0 <= i < |a| && 0 <= j < |b| ==> a[i] != b[j]
  }

  ghost function Knots(nodes: seq<Node>): (s: seq<Knot>)
    reads nodes`x, nodes`y
    ensures |s| == |nodes|
    ensures forall i :: 0 <= i < |s| ==> s[i] == Knot(nodes[i].x, nodes[i].y)
  {
    if |nodes| == 0 then [] else Knots(nodes[..|nodes| - 1]) + [Knot(nodes[|nodes| - 1].x, nodes[|nodes| - 1].y)]
  }

  lemma ChainCons(n: Node, nodes: seq<Node>, head: Node?)
    requires Chain(nodes, head) && n.next == head
    ensures Chain([n] + nodes, n)
  {
    var all := [n] + nodes;
    forall i | 0 <= i < |all| ensures all[i].next == if i + 1 < |all| then all[i + 1] else null {
      if i > 0 {
        assert all[i] == nodes[i - 1] && nodes[i - 1].next == if i < |nodes| then nodes[i] else null;
      }
    }
  }

  // The chain behind the d-th node.
  lemma ChainTail(nodes: seq<Node>, d: nat, cur: Node)
    requires d < |nodes| && Chain(nodes[d..], cur) && AllDistinct(nodes)
    ensures cur == nodes[d] && cur !in nodes[d + 1..] && Chain(nodes[d + 1..], cur.next)
    ensures cur.next != null ==> d + 1 < |nodes| && cur.next == nodes[d + 1]
  {
    assert nodes[d..][0] == nodes[d];
    assert d + 1 < |nodes| ==> nodes[d..][1] == nodes[d + 1];
    var tail := nodes[d + 1..];
    forall i | 0 <= i < |tail| ensures tail[i].next == if i + 1 < |tail| then tail[i + 1] else null {
      assert tail[i] == nodes[d..][i + 1];
      assert nodes[d..][i + 1].next == if i + 2 < |nodes[d..]| then nodes[d..][i + 2] else null;
    }
  }

  // The first part of a chain, up to the link that holds the pointer to `node`.
  ghost predicate Front(nodes: seq<Node>, node: Node, head: Node?)
    reads nodes`next
  {
    && (head == if |nodes| == 0 then node else nodes[0])
    && (forall i {:trigger nodes[i].next} ::
          0 <= i < |nodes| ==> nodes[i].next == if i + 1 < |nodes| then nodes[i + 1] else node)
  }

  lemma ChainFront(nodes: seq<Node>, k: nat, head: Node?)
    requires k < |nodes| && Chain(nodes, head)
    ensures Front(nodes[..k], nodes[k], head) && Chain(nodes[k..], nodes[k])
  {
    var front, tail := nodes[..k], nodes[k..];
    forall i | 0 <= i < |front| ensures front[i].next == if i + 1 < |front| then front[i + 1] else nodes[k] {
      assert front[i] == nodes[i] && nodes[i].next == nodes[i + 1];
    }
    forall i | 0 <= i < |tail| ensures tail[i].next == if i + 1 < |tail| then tail[i + 1] else null {
      assert tail[i] == nodes[k + i] && nodes[k + i].next == if k + i + 1 < |nodes| then nodes[k + i + 1] else null;
    }
  }

  lemma ChainJoin(front: seq<Node>, node: Node, tail: seq<Node>, head: Node?)
    requires Front(front, node, head) && |tail| > 0 && node.next == tail[0] && Chain(tail, tail[0])
    ensures Chain(front + [node] + tail, head)
  {
    var all := front + [node] + tail;
    forall i | 0 <= i < |all| ensures all[i].next == if i + 1 < |all| then all[i + 1] else null {
      if i < |front| {
        assert all[i] == front[i] && front[i].next == if i + 1 < |front| then front[i + 1] else node;
      } else if i > |front| {
        var m := i - |front| - 1;
        assert all[i] == tail[m] && tail[m].next == if m + 1 < |tail| then tail[m + 1] else null;
      }
    }
  }

  lemma DistinctParts(nodes: seq<Node>, k: nat)
    requires AllDistinct(nodes) && k <= |nodes|
    ensures AllDistinct(nodes[k..])
    ensures forall n :: n in nodes[..k] ==> n !in nodes[k..]
  {
  }

  // Where the nodes of both lists go: `front`, the new node and `tail` are active,
  // the freed nodes and the remaining spares are free.
  lemma Redistributed(a: seq<Node>, f: seq<Node>, k: nat, d: nat, spares: seq<Node>)
    requires |f| > 0 && AllDistinct(a) && AllDistinct(f) && NoneShared(a, f) && k + d < |a|
    requires Freed(spares, a[k..], d, f[1..])
    ensures AllDistinct(a[..k] + [f[0]] + a[k + d..]) && AllDistinct(spares)
    ensures NoneShared(a[..k] + [f[0]] + a[k + d..], spares)
    ensures forall n :: n in a[..k] + [f[0]] + a[k + d..] || n in spares ==> n in a || n in f
  {
    var b := a[..k] + [f[0]] + a[k + d..];
    assert forall m :: 0 <= m < |b| ==> b[m] == if m < k then a[m] else if m == k then f[0] else a[m - 1 + d];
    assert forall m :: 0 <= m < |spares| ==> spares[m] == if m < d then a[k + d - 1 - m] else f[m - d + 1];
  }

  // Hang the caller's nodes together in the order they come in.
  method LinkUp(nodes: seq<Node>)
    requires 1 <= |nodes| && AllDistinct(nodes)
    modifies nodes
    ensures Chain(nodes, nodes[0])
  {
    var i := 0;
    while i < |nodes| - 1
      invariant 0 <= i <= |nodes| - 1
      invariant forall k :: 0 <= k < i ==> nodes[k].next == nodes[k + 1]
    {
      nodes[i].next := nodes[i + 1];
      i := i + 1;
    }
    nodes[i].next := null;
  }

  // The context's own two nodes: node 0 is the full width, node 1 the sentinel.
  method FloorNodes(width: int) returns (floor: Node, sentinel: Node)
    ensures fresh(floor) && fresh(sentinel) && floor != sentinel
    ensures Chain([floor, sentinel], floor)
    ensures Knots([floor, sentinel]) == [Knot(0, 0), Knot(width, SENTINEL_Y)]
  {
    floor := new Node();
    sentinel := new Node();
    floor.x, floor.y, floor.next := 0, 0, sentinel;
    sentinel.x, sentinel.y, sentinel.next := width, SENTINEL_Y, null;
  }

  // The nodes freed so far, last one first, in front of those that were free before.
  ghost predicate Freed(spares: seq<Node>, rest: seq<Node>, d: nat, spare: seq<Node>) {
    && d <= |rest| && |spares| == d + |spare|
    && forall m :: 0 <= m < |spares| ==> spares[m] == if m < d then rest[d - 1 - m] else spare[m - d]
  }

  lemma FreeOneMore(spares: seq<Node>, rest: seq<Node>, d: nat, spare: seq<Node>)
    requires Freed(spares, rest, d, spare) && d < |rest| && AllDistinct(rest) && NoneShared(rest, spare)
    ensures rest[d] !in spares && Freed([rest[d]] + spares, rest, d + 1, spare)
  {
  }

  lemma NothingFreed(rest: seq<Node>, spare: seq<Node>)
    ensures Freed(spare, rest, 0, spare)
  {
  }

  ghost function SplicedAt(s: seq<Knot>, k: nat, j: nat, x: int, x1: int, top: int): seq<Knot>
    requires k <= j < |s|
  {
    s[..k] + [Knot(x, top), Knot(Max(s[j].x, x1), s[j].y)] + s[j + 1..]
  }

  lemma KnotsSpliced(s: seq<Knot>, k: nat, j: nat, x: int, x1: int, top: int)
    requires k <= j < |s|
    ensures SplicedAt(s, k, j, x, x1, top) == s[..k] + [Knot(x, top), Knot(Max(s[j].x, x1), s[j].y)] + s[j..][1..]
  {
  }

  // The nodes that are stitched back in are not among the freed ones.
  lemma NotFreed(a: seq<Node>, f: seq<Node>, k: nat, d: nat, spares: seq<Node>)
    requires |f| > 0 && AllDistinct(a) && AllDistinct(f) && NoneShared(a, f) && k + d < |a|
    requires Freed(spares, a[k..], d, f[1..])
    ensures f[0] !in spares && a[k + d] !in spares
    ensures f[0] !in a && a[k + d] !in a[..k]
  {
  }

  lemma ChainStart(nodes: seq<Node>, head: Node)
    requires |nodes| > 0 && Chain(nodes, head)
    ensures head == nodes[0]
  {
  }

  lemma KnotsJoin(front: seq<Node>, node: Node, tail: seq<Node>)
    ensures Knots(front + [node] + tail) == Knots(front) + [Knot(node.x, node.y)] + Knots(tail)
  {
  }

  lemma KnotsParts(nodes: seq<Node>, k: nat)
    requires k <= |nodes|
    ensures Knots(nodes[..k]) == Knots(nodes)[..k] && Knots(nodes[k..]) == Knots(nodes)[k..]
  {
    hide Knots;
  }

  // The cut points found on the list are those of the splice.
  lemma SplicedAtIsSplice(s: seq<Knot>, W: int, i: nat, k: nat, j: nat, x: int, x1: int, top: int)
    requires WellFormed(s, W) && Covers(s, i, x) && 0 <= x < W && x < x1
    requires k == (if s[i].x < x then i + 1 else i) && k <= j < |s|
    requires (j + 1 < |s| ==> x1 < s[j + 1].x) && (k < j ==> s[j].x <= x1)
    ensures KeepTo(s, x) == k && DropTo(s, k, x1) == j
    ensures SplicedAt(s, k, j, x, x1, top) == Splice(s, x, x1, top)
  {
    LocateUnique(s, i, x);
    DropToIs(s, k, j, x1);
  }

  lemma PlaceIs(p: Packer, w: int, h: int, q: Pos, i: nat, k: nat, j: nat)
    requires Sized(p) && 0 < w && 0 <= q.x < p.Width() && Covers(p.knots, i, q.x)
    requires k == (if p.knots[i].x < q.x then i + 1 else i) && k <= j < |p.knots|
    requires (j + 1 < |p.knots| ==> q.x + w < p.knots[j + 1].x) && (k < j ==> p.knots[j].x <= q.x + w)
    ensures Place(p, w, h, q)
         == p.(knots := SplicedAt(p.knots, k, j, q.x, q.x + w, q.y + h),
               heights := Raised(p.heights, q.x, Reach(p.knots, q.x, q.x + w), q.y + h),
               free := p.free - 1 + (j - k),
               placed := p.placed + [Box(q.x, q.y, w, h)])
  {
    hide Splice, SplicedAt, Raised, WellFormed, DropTo, KeepTo, Reach;
    SplicedAtIsSplice(p.knots, p.Width(), i, k, j, q.x, q.x + w, q.y + h);
  }

  lemma RefusingIsStep(p: Packer, w: int, h: int)
    requires Sized(p) && 0 < w && (p.free == 0 || forall q :: !Chosen(p, w, h, q))
    ensures Step(p, w, h, None, p)
  {
  }

  lemma PlacingIsStep(p: Packer, w: int, h: int, q: Pos, i: nat, k: nat, j: nat, p': Packer)
    requires Inv(p) && p.free > 0 && 0 < w && 0 < h && Chosen(p, w, h, q) && Covers(p.knots, i, q.x)
    requires k == (if p.knots[i].x < q.x then i + 1 else i) && k <= j < |p.knots|
    requires (j + 1 < |p.knots| ==> q.x + w < p.knots[j + 1].x) && (k < j ==> p.knots[j].x <= q.x + w)
    requires 0 <= q.x < p.Width()
    requires p' == p.(knots := SplicedAt(p.knots, k, j, q.x, q.x + w, q.y + h),
                      heights := Raised(p.heights, q.x, Reach(p.knots, q.x, q.x + w), q.y + h),
                      free := p.free - 1 + (j - k),
                      placed := p.placed + [Box(q.x, q.y, w, h)])
    ensures Inv(p') && Step(p, w, h, Some(q), p')
  {
    hide SplicedAt, Raised, Outlines, Stacked, Chosen, Place, Reach;
    PlaceIs(p, w, h, q, i, k, j);
    StepKeepsInv(p, w, h, Some(q), p');
  }

  lemma {:induction false} DropToIs(s: seq<Knot>, k: nat, j: nat, x1: int)
    requires Ascending(s) && k <= j < |s|
    requires (j + 1 < |s| ==> x1 < s[j + 1].x) && (k < j ==> s[j].x <= x1)
    ensures DropTo(s, k, x1) == j
    decreases j - k
  {
    if k < j {
      assert k + 1 < j ==> s[k + 1].x < s[j].x;
      DropToIs(s, k + 1, j, x1);
    }
  }

  class Context {
    var width: int
    var height: int
    var align: int
    var bestFit: bool
    var numNodes: int
    var activeHead: Node?
    var freeHead: Node?

    // The two lists as sequences, all their nodes, the column heights the active
    // list outlines, and everything placed so far.
    ghost var active: seq<Node>
    ghost var free: seq<Node>
    ghost var pool: set<Node>
    ghost var heights: seq<int>
    ghost var placed: seq<Box>

    ghost predicate Linked()
      reads this`active, this`free, this`activeHead, this`freeHead, this`pool, pool
    {
      && (forall i :: 0 <= i < |active| ==> active[i] in pool)
      && (forall i :: 0 <= i < |free| ==> free[i] in pool)
      && Chain(active, activeHead) && Chain(free, freeHead)
      && AllDistinct(active) && AllDistinct(free) && NoneShared(active, free)
    }

    ghost function State(): Packer
      reads this, pool
      requires Linked()
    {
      Packer(height, align, bestFit, numNodes, Knots(active), heights, |free|, placed)
    }

    ghost predicate Valid()
      reads this, pool
    {
      Linked() && Inv(State()) && |heights| == width
    }

    // ---------- set-up

    // The caller lends one node for each of `numNodes`; two more are the context's own.
    constructor InitTarget(width: int, height: int, nodes: seq<Node>)
      requires 1 <= width <= MAX_COORD && 0 <= height <= MAX_COORD
      requires 1 <= |nodes| && AllDistinct(nodes)
      modifies nodes
      ensures Valid() && State() == Start(width, height, |nodes|, false)
      ensures this.width == width
      ensures fresh(pool - (set n | n in nodes))
    {
      hide Inv, Start, Valid, State, Quantum, WellFormed;
      this.width, this.height := width, height;
      numNodes, bestFit := |nodes|, false;
      align := Quantum(width, |nodes|, false);
      freeHead := nodes[0];
      var floor, sentinel := FloorNodes(width);
      activeHead := floor;
      active, free := [floor, sentinel], nodes;
      pool := (set n | n in nodes) + {floor, sentinel};
      heights, placed := seq(width, _ => 0), [];
      new;
      LinkUp(nodes);
      assert Linked();
      FreshIsValid(width, height, |nodes|);
    }

    lemma FreshIsValid(width: int, height: int, n: int)
      requires Linked() && Knots(active) == [Knot(0, 0), Knot(width, SENTINEL_Y)] && |free| == n == numNodes
      requires 1 <= width <= MAX_COORD && 0 <= height <= MAX_COORD && 1 <= n
      requires this.width == width && this.height == height && !bestFit && align == Quantum(width, n, false)
      requires heights == seq(width, _ => 0) && placed == []
      ensures Valid() && State() == Start(width, height, n, false)
    {
      hide Inv;
      StartKeepsInv(width, height, n, false);
    }

    method SetupHeuristic(bestFit: bool)
      requires Valid()
      modifies this`bestFit
      ensures Valid() && State() == old(State()).(bestFit := bestFit)
    {
      this.bestFit := bestFit;
    }

    method SetupAllowOutOfMem(allowOutOfMem: bool)
      requires Valid()
      modifies this`align
      ensures numNodes != 0 && Valid()
      ensures State() == old(State()).(align := Quantum(width, numNodes, allowOutOfMem))
    {
      hide Inv, Quantum;
      Basics();
      QuantumSpansWidth(width, numNodes, allowOutOfMem);
      AligningKeepsInv(State(), Quantum(width, numNodes, allowOutOfMem));
      align := Quantum(width, numNodes, allowOutOfMem);
    }

    // What the methods need to know of a valid context without opening it up.
    lemma Basics()
      requires Valid()
      ensures Linked() && Inv(State()) && Sized(State()) && State().Width() == width && |heights| == width
      ensures |active| >= 2 && activeHead == active[0] && active[0].x == 0
      ensures 1 <= numNodes && 1 <= width && 1 <= align
    {
      assert Chain(active, activeHead);
    }

    // ---------- the search

    // Node number i stands where it stands in the skyline, and the next one is
    // right of it.
    lemma NodeAt(i: nat)
      requires Valid() && i < |active|
      ensures active[i].x == Knots(active)[i].x && active[i].y == Knots(active)[i].y
      ensures 0 <= active[i].x <= width && 0 <= active[i].y
      ensures if i + 1 < |active| then active[i].next == active[i + 1] && active[i].x < active[i + 1].x
              else active[i].next == null && active[i].x == width
    {
      assert active[i].next == if i + 1 < |active| then active[i + 1] else null;
      LastIsSentinel(Knots(active), width, i);
    }

    lemma SurveyHere(i: nat, x0: int, width: int)
      requires Valid() && i < |active| && Covers(Knots(active), i, x0)
      requires 0 < width && 0 <= x0 && x0 + width <= this.width
      ensures |heights| == this.width
      ensures Survey(Knots(active), i, x0, width) == Sweep(Knots(active), i, x0, width, Tally(0, 0, 0))
      ensures Survey(Knots(active), i, x0, width).level == RestAt(heights, x0, width)
      ensures active[i].x == x0 || active[i].y > 0 ==>
        Survey(Knots(active), i, x0, width).waste == Area(heights, x0, x0 + width, RestAt(heights, x0, width))
    {
      SurveyFindsRest(Knots(active), heights, i, x0, width);
    }

    // The level at which a block of `width` columns from x0 on comes to rest, and
    // the waste the search measures for it.
    method FindMinY(first: Node, x0: int, width: int, ghost i: nat) returns (y: int, waste: int)
      requires Valid() && i < |active| && first == active[i] && Covers(Knots(active), i, x0)
      requires 0 < width && 0 <= x0 && x0 + width <= this.width
      ensures y == RestAt(heights, x0, width)
      ensures waste == Survey(Knots(active), i, x0, width).waste
      ensures first.x == x0 || first.y > 0 ==> waste == Area(heights, x0, x0 + width, y)
    {
      hide Inv, Linked, Covers, Survey, RestAt, Area;
      ghost var s := Knots(active);
      ghost var n := i;
      SurveyHere(i, x0, width);
      var node, x1 := first, x0 + width;
      var minY, visited := 0, 0;
      waste := 0;
      NodeAt(n);
      while node.x < x1
        invariant i <= n < |active| && node == active[n] && s == Knots(active)
        invariant Sweep(s, n, x0, width, Tally(minY, visited, waste)) == Survey(s, i, x0, width)
        decreases |active| - n
      {
        NodeAt(n);
        NodeAt(n + 1);
        assert Sweep(s, n, x0, width, Tally(minY, visited, waste))
            == Sweep(s, n + 1, x0, width, Pass(Tally(minY, visited, waste), s[n], s[n + 1].x, x0, width));
        if node.y > minY {
          waste := waste + visited * (node.y - minY);
          minY := node.y;
          if node.x < x0 {
            visited := visited + node.next.x - x0;
          } else {
            visited := visited + node.next.x - node.x;
          }
        } else {
          var underWidth := node.next.x - node.x;
          if underWidth + visited > width {
            underWidth := width - visited;
          }
          waste := waste + underWidth * (minY - node.y);
          visited := visited + underWidth;
        }
        node := node.next;
        n := n + 1;
      }
      y := minY;
    }

    // The link that holds the pointer to node number i.
    ghost function LinkOf(i: nat): Link
      reads this
      requires i < |active|
    {
      if i == 0 then HeadLink else NextLink(active[i - 1])
    }

    // The link of the node under the best column.
    ghost predicate BestLink(link: Link, best: Best, k: nat)
      reads this, pool
    {
      if best.taken then k < |active| && Linked() && Covers(Knots(active), k, best.x) && link == LinkOf(k)
      else link == NoLink
    }

    // Once the loop has passed all nodes before number i, and that one stands too
    // far right, every admissible start has been seen.
    lemma StartsSeen(i: nat, w: int, seen: set<int>)
      requires Valid() && i < |active| && active[i].x + w > width
      requires forall m :: 0 <= m < i ==> Knots(active)[m].x in seen
      ensures AllStartsSeen(Knots(active), width, w, seen)
    {
      assert forall m :: i < m < |active| ==> Knots(active)[i].x < Knots(active)[m].x;
    }

    lemma StartsOnNode(i: nat)
      requires Valid() && i + 1 < |active|
      ensures Covers(Knots(active), i, active[i].x)
    {
    }

    lemma KeyHere(i: nat, x0: int, w: int)
      requires Valid() && i < |active| && Covers(Knots(active), i, x0) && 0 < w && 0 <= x0 && x0 + w <= width
      ensures KeyOf(Knots(active), heights, x0, w) == Key(RestAt(heights, x0, w), Survey(Knots(active), i, x0, w).waste, x0)
    {
      LocateUnique(Knots(active), i, x0);
    }

    lemma LookHere(i: nat, w: int, h: int, seen: set<int>, best: Best, y: int, waste: int)
      requires Valid() && 0 < w && Tracks(State(), w, h, seen, best)
      requires i < |active| && Covers(Knots(active), i, active[i].x) && active[i].x + w <= width
      requires forall o :: o in seen ==> o < active[i].x
      requires 0 <= active[i].x
      requires y == RestAt(heights, active[i].x, w) && waste == Survey(Knots(active), i, active[i].x, w).waste
      ensures Tracks(State(), w, h, seen + {active[i].x}, TakeStart(best, bestFit, y + h <= height, active[i].x, y, waste))
      ensures !bestFit ==> TakeStart(best, bestFit, y + h <= height, active[i].x, y, waste).taken
    {
      hide Inv, Sized, Tracks, Linked, Survey, RestAt;
      Basics();
      KeyHere(i, active[i].x, w);
      LookAtStart(State(), w, h, seen, best, i, active[i].x, y, waste);
    }

    // Try the block with its left edge on every node, as far as it stays inside.
    method ScanStarts(rw: int, h: int) returns (link: Link, best: Best, ghost seen: set<int>, ghost k: nat)
      requires Valid() && 0 < rw <= width
      ensures Tracks(State(), rw, h, seen, best) && AllStartsSeen(Knots(active), width, rw, seen)
      ensures BestLink(link, best, k)
      ensures !bestFit ==> best.taken
    {
      hide Tracks, Inv, Sized, KeyOf, RestAt, Survey, Linked, Covers, AllStartsSeen, State, Knots;
      link, best, seen, k := NoLink, NOTHING_YET, {}, 0;
      var node, prev := activeHead, HeadLink;
      ghost var i := 0;
      Basics();
      NodeAt(0);
      NothingSearched(State(), rw, h);
      while node.x + rw <= width
        invariant i < |active| && node == active[i] && prev == LinkOf(i)
        invariant forall m :: 0 <= m < i ==> Knots(active)[m].x in seen
        invariant forall o :: o in seen ==> o < node.x
        invariant Tracks(State(), rw, h, seen, best) && BestLink(link, best, k)
        invariant !bestFit && i > 0 ==> best.taken
        decreases |active| - i
      {
        NodeAt(i);
        StartsOnNode(i);
        var y, waste := FindMinY(node, node.x, rw, i);
        LookHere(i, rw, h, seen, best, y, waste);
        if !bestFit {
          if y < best.y {
            link, best, k := prev, Best(true, node.x, y, best.waste), i;
          }
        } else if y + h <= height {
          if y < best.y || (y == best.y && waste < best.waste) {
            link, best, k := prev, Best(true, node.x, y, waste), i;
          }
        }
        seen := seen + {node.x};
        NodeAt(i + 1);
        prev := NextLink(node);
        node := node.next;
        i := i + 1;
      }
      StartsSeen(i, rw, seen);
    }

    // Move on to the node under column xpos.
    method Advance(node0: Node, prev0: Link, xpos: int, ghost n0: nat) returns (node: Node, prev: Link, ghost n: nat)
      requires Valid() && n0 + 1 < |active| && node0 == active[n0] && prev0 == LinkOf(n0)
      requires node0.x <= xpos < width
      ensures n0 <= n && n + 1 < |active| && node == active[n] && prev == LinkOf(n)
      ensures Covers(Knots(active), n, xpos) && node.x <= xpos
    {
      hide Inv, Linked;
      node, prev, n := node0, prev0, n0;
      NodeAt(n);
      NodeAt(n + 1);
      while node.next.x <= xpos
        invariant n0 <= n && n + 1 < |active| && node == active[n] && prev == LinkOf(n)
        invariant node.next == active[n + 1] && node.x <= xpos
        decreases |active| - n
      {
        NodeAt(n + 1);
        prev := NextLink(node);
        node := node.next;
        n := n + 1;
        NodeAt(n + 1);
      }
    }

    lemma LookBack(t: nat, n: nat, x: int, w: int, h: int, seen: set<int>, best: Best, y: int, waste: int)
      requires Valid() && bestFit && 0 < w && Tracks(State(), w, h, seen, best)
      requires t < |active| && x == active[t].x - w && n < |active| && Covers(Knots(active), n, x)
      requires 0 <= x && x + w <= width
      requires y == RestAt(heights, x, w) && waste == Survey(Knots(active), n, x, w).waste
      ensures Tracks(State(), w, h, seen + {x}, TakeEnd(best, y + h <= height, x, y, waste))
    {
      hide Inv, Sized, Tracks, Linked, Survey, RestAt;
      Basics();
      KeyHere(n, x, w);
      LookAtEnd(State(), w, h, seen, best, t, x, y, waste);
    }

    // The first node where a block of w columns can end.
    method FirstEnd(w: int) returns (tail: Node, ghost t: nat)
      requires Valid() && w <= width
      ensures t < |active| && tail == active[t] && w <= tail.x
      ensures forall m :: 0 <= m < t ==> Knots(active)[m].x < w
    {
      hide Inv, Linked;
      Basics();
      tail, t := activeHead, 0;
      NodeAt(0);
      while tail.x < w
        invariant t < |active| && tail == active[t]
        invariant forall m :: 0 <= m < t ==> Knots(active)[m].x < w
        decreases |active| - t
      {
        NodeAt(t);
        tail := tail.next;
        t := t + 1;
      }
      NodeAt(t);
    }

    // Try the block with its right edge on one node.
    method TryEnd(tail: Node, rw: int, h: int, prev: Link, node: Node, link0: Link, best0: Best,
                  ghost t: nat, ghost n: nat, ghost seen: set<int>, ghost k0: nat)
      returns (link: Link, best: Best, ghost k: nat)
      requires Valid() && bestFit && 0 < rw <= width && t < |active| && tail == active[t] && rw <= tail.x
      requires n + 1 < |active| && node == active[n] && prev == LinkOf(n) && Covers(Knots(active), n, tail.x - rw)
      requires Tracks(State(), rw, h, seen, best0) && BestLink(link0, best0, k0)
      ensures Tracks(State(), rw, h, seen + {tail.x - rw}, best) && BestLink(link, best, k)
    {
      hide Tracks, Inv, Sized, KeyOf, RestAt, Survey, Linked;
      Basics();
      NodeAt(t);
      link, best, k := link0, best0, k0;
      var xpos := tail.x - rw;
      var y, waste := FindMinY(node, xpos, rw, n);
      LookBack(t, n, xpos, rw, h, seen, best, y, waste);
      if y + h <= height {
        if y <= best.y {
          if y < best.y || waste < best.waste || (waste == best.waste && xpos < best.x) {
            link, best, k := prev, Best(true, xpos, y, waste), n;
          }
        }
      }
    }

    lemma EndsSeen(w: int, seen: set<int>)
      requires Linked()
      requires forall m :: 0 <= m < |active| ==> Knots(active)[m].x < w || Knots(active)[m].x - w in seen
      ensures AllEndsSeen(Knots(active), w, seen)
    {
    }

    // Try the block with its right edge on every node, after the left edges.
    method ScanEnds(rw: int, h: int, link0: Link, best0: Best, ghost seen0: set<int>, ghost k0: nat)
      returns (link: Link, best: Best, ghost seen: set<int>, ghost k: nat)
      requires Valid() && bestFit && 0 < rw <= width
      requires Tracks(State(), rw, h, seen0, best0) && BestLink(link0, best0, k0)
      ensures Tracks(State(), rw, h, seen, best) && BestLink(link, best, k)
      ensures seen0 <= seen && AllEndsSeen(Knots(active), rw, seen)
    {
      hide Tracks, Inv, Sized, Linked, Covers, BestLink, AllEndsSeen, State, Knots;
      Basics();
      link, best, seen, k := link0, best0, seen0, k0;
      ghost var n, t := 0, 0;
      var node, prev := activeHead, HeadLink;
      var tail: Node?;
      NodeAt(0);
      tail, t := FirstEnd(rw);
      while tail != null
        invariant t <= |active| && (if t < |active| then tail == active[t] && rw <= active[t].x else tail == null)
        invariant n + 1 < |active| && node == active[n] && prev == LinkOf(n)
        invariant t < |active| ==> node.x <= active[t].x - rw
        invariant forall m :: 0 <= m < t ==> Knots(active)[m].x < rw || Knots(active)[m].x - rw in seen
        invariant seen0 <= seen && Tracks(State(), rw, h, seen, best) && BestLink(link, best, k)
        decreases |active| - t
      {
        NodeAt(t);
        node, prev, n := Advance(node, prev, tail.x - rw, n);
        link, best, k := TryEnd(tail, rw, h, prev, node, link, best, t, n, seen, k);
        seen := seen + {tail.x - rw};
        tail := tail.next;
        t := t + 1;
      }
      EndsSeen(rw, seen);
    }

    // The position for a w by h rectangle, and the link of the node it starts on.
    method FindBestPos(w: int, h: int) returns (link: Link, x: int, y: int, ghost k: nat)
      requires Valid() && 0 < w && 0 < h
      ensures link == NoLink || y + h > height ==> forall q :: !Chosen(State(), w, h, q)
      ensures link != NoLink && y + h <= height ==>
        && Chosen(State(), w, h, Pos(x, y))
        && k < |active| && Covers(Knots(active), k, x) && link == LinkOf(k)
    {
      hide Inv, Sized, Chosen, Tracks, AllStartsSeen, AllEndsSeen, Linked, Knots, State, Covers, RoundUp;
      Basics();
      RoundUpIsLeastMultiple(w, align);
      // the search looks at whole quanta
      var rw := RoundUp(w, align);
      link, x, y, k := NoLink, 0, 0, 0;
      // wider than the target, or taller
      if rw > width || h > height {
        CannotFit(w, h);
        return;
      }
      var best;
      ghost var seen;
      link, best, seen, k := ScanStarts(rw, h);
      if bestFit {
        ghost var starts := seen;
        link, best, seen, k := ScanEnds(rw, h, link, best, seen, k);
        StillSeen(rw, starts, seen);
      }
      Answered(w, h, seen, best);
      if link != NoLink {
        x := best.x;
      }
      y := best.y;
    }

    lemma StillSeen(w: int, starts: set<int>, seen: set<int>)
      requires Linked() && AllStartsSeen(Knots(active), width, w, starts) && starts <= seen
      ensures AllStartsSeen(Knots(active), width, w, seen)
    {
    }

    lemma CannotFit(w: int, h: int)
      requires Valid() && 0 < w && 0 < h && 1 <= align && (RoundUp(w, align) > width || h > height)
      ensures forall q :: !Chosen(State(), w, h, q)
    {
      hide RoundUp;
      Basics();
      forall q ensures !Chosen(State(), w, h, q) {
        if Chosen(State(), w, h, q) {
          ChosenRests(State(), w, h, q);
        }
      }
    }

    lemma Answered(w: int, h: int, seen: set<int>, best: Best)
      requires Valid() && 0 < w && 0 < h && 1 <= align && 0 < RoundUp(w, align) <= width
      requires Tracks(State(), RoundUp(w, align), h, seen, best)
      requires AllStartsSeen(Knots(active), width, RoundUp(w, align), seen)
      requires if bestFit then AllEndsSeen(Knots(active), RoundUp(w, align), seen) else best.taken
      ensures !best.taken || best.y + h > height ==> forall q :: !Chosen(State(), w, h, q)
      ensures best.taken && best.y + h <= height ==> Chosen(State(), w, h, Pos(best.x, best.y))
    {
      hide RoundUp, Tracks, AllStartsSeen, AllEndsSeen, Inv, Linked, Knots;
      Basics();
      SearchAnswers(State(), w, RoundUp(w, align), h, seen, best);
    }

    // ---------- cutting, freeing and stitching

    // Move one node to the free list.
    method Release(cur: Node, ghost spare: seq<Node>)
      requires Chain(spare, freeHead) && cur !in spare
      modifies this`freeHead, cur`next
      ensures Chain([cur] + spare, freeHead)
    {
      ghost var head := freeHead;
      cur.next := freeHead;
      freeHead := cur;
      ChainCons(cur, spare, head);
    }

    // Walk down the list from cur0 and move its nodes to the free list, until one
    // is reached whose stretch goes past column x1.
    method ReleaseCovered(cur0: Node, x1: int, ghost rest: seq<Node>, ghost spare: seq<Node>)
      returns (cur: Node, ghost d: nat, ghost spares: seq<Node>)
      requires |rest| > 0 && Chain(rest, cur0) && Chain(spare, freeHead)
      requires AllDistinct(rest) && NoneShared(rest, spare)
      modifies this`freeHead, rest`next
      ensures d < |rest| && cur == rest[d] && Chain(rest[d..], cur) && Chain(spares, freeHead)
      ensures Freed(spares, rest, d, spare)
      ensures d + 1 < |rest| ==> x1 < rest[d + 1].x
      ensures d > 0 ==> rest[d].x <= x1
    {
      hide Freed, AllDistinct, NoneShared;
      cur, d, spares := cur0, 0, spare;
      NothingFreed(rest, spare);
      while cur.next != null && cur.next.x <= x1
        invariant d < |rest| && Chain(rest[d..], cur)
        invariant Chain(spares, freeHead) && Freed(spares, rest, d, spare)
        invariant d > 0 ==> rest[d].x <= x1
        decreases |rest| - d
      {
        var next := cur.next;
        ChainTail(rest, d, cur);
        FreeOneMore(spares, rest, d, spare);
        Release(cur, spares);
        spares := [cur] + spares;
        cur := next;
        d := d + 1;
      }
    }

    // Take the first spare node for the top edge of the block.
    method TakeSpare(x: int, top: int) returns (node: Node)
      requires Linked() && |free| > 0
      modifies this`freeHead, free`x, free`y
      ensures node == free[0] && node.x == x && node.y == top
      ensures Chain(active, activeHead) && Chain(free[1..], freeHead)
      ensures Knots(active) == old(Knots(active))
      ensures forall m :: 0 <= m < |active| ==> active[m].x == old(active[m].x)
    {
      node := freeHead;
      node.x, node.y := x, top;
      freeHead := node.next;
      assert free[0..] == free;
      ChainTail(free, 0, node);
    }

    // Hang `node` in at column x: behind node number i if that one starts left of
    // x, else in its place.
    method CutIn(link: Link, node: Node, x: int, ghost i: nat) returns (cur: Node, ghost k: nat)
      requires i + 1 < |active| && Chain(active, activeHead) && AllDistinct(active) && link == LinkOf(i)
      requires active[i].x <= x
      modifies this`activeHead, active`next
      ensures k == (if active[i].x < x then i + 1 else i) && cur == active[k]
      ensures Front(active[..k], node, activeHead) && Chain(active[k..], cur)
    {
      ChainFront(active, i, activeHead);
      ChainFront(active, i + 1, activeHead);
      DistinctParts(active, i);
      DistinctParts(active, i + 1);
      assert active[i].next == active[i + 1];
      cur := if link.HeadLink? then activeHead else link.node.next;
      k := i;
      if cur.x < x {
        // the found node stays in front of the new one
        var next := cur.next;
        cur.next := node;
        cur := next;
        k := i + 1;
      } else if link.HeadLink? {
        activeHead := node;
      } else {
        link.node.next := node;
      }
    }

    // Stitch the list back in behind `node`, and let it start at column x1 at least.
    method Stitch(node: Node, cur: Node, x1: int, ghost front: seq<Node>, ghost tail: seq<Node>)
      requires Front(front, node, activeHead) && |tail| > 0 && Chain(tail, cur)
      requires node !in front && node !in tail && AllDistinct(tail) && cur !in front
      modifies node`next, cur`x
      ensures Chain(front + [node] + tail, activeHead)
      ensures Knots(front + [node] + tail)
           == old(Knots(front)) + [Knot(node.x, node.y), Knot(Max(old(cur.x), x1), cur.y)] + old(Knots(tail))[1..]
    {
      hide Front, Chain, Knots;
      ChainStart(tail, cur);
      KnotsParts(tail, 1);
      assert cur !in tail[1..] by {
        assert forall m :: 1 <= m < |tail| ==> tail[m] != tail[0];
      }
      node.next := cur;
      if cur.x < x1 {
        cur.x := x1;
      }
      ChainJoin(front, node, tail, activeHead);
      KnotsJoin(front, node, tail);
      KnotsParts(tail, 1);
    }

    // Take a spare node and hang it in at column x.
    method HangIn(link: Link, x: int, top: int, ghost i: nat) returns (node: Node, cur: Node, ghost k: nat)
      requires Linked() && |free| > 0 && i + 1 < |active| && link == LinkOf(i) && active[i].x <= x
      modifies this`activeHead, this`freeHead, active`next, free`x, free`y
      ensures k == (if old(active[i].x) < x then i + 1 else i) && cur == active[k]
      ensures node == free[0] && node.x == x && node.y == top
      ensures Front(active[..k], node, activeHead) && Chain(active[k..], cur) && Chain(free[1..], freeHead)
      ensures Knots(active) == old(Knots(active))
    {
      hide Front, Chain, Knots;
      node := TakeSpare(x, top);
      cur, k := CutIn(link, node, x, i);
    }

    // Then free the nodes up to x1.
    method CutOut(link: Link, x: int, x1: int, top: int, ghost i: nat)
      returns (node: Node, cur: Node, ghost k: nat, ghost j: nat, ghost spares: seq<Node>)
      requires Linked() && |free| > 0 && i + 1 < |active| && link == LinkOf(i) && active[i].x <= x < x1
      modifies this`activeHead, this`freeHead, active`next, free
      ensures k == (if old(active[i].x) < x then i + 1 else i) && k <= j < |active|
      ensures j + 1 < |active| ==> x1 < old(Knots(active))[j + 1].x
      ensures k < j ==> old(Knots(active))[j].x <= x1
      ensures node == free[0] && node.x == x && node.y == top && cur == active[j]
      ensures Front(active[..k], node, activeHead) && Chain(active[j..], cur) && Chain(spares, freeHead)
      ensures Freed(spares, active[k..], j - k, free[1..])
      ensures Knots(active) == old(Knots(active))
    {
      hide Freed, Front, Chain, Knots, LinkOf;
      node, cur, k := HangIn(link, x, top, i);
      ghost var d;
      DistinctParts(active, k);
      ghost var front, rest := active[..k], active[k..];
      cur, d, spares := ReleaseCovered(cur, x1, rest, free[1..]);
      j := k + d;
      assert rest[d..] == active[j..];
    }

    // Build the columns from x up to x1 up to `top`, on the node behind `link`:
    // nodes k to j go, the new node comes in, and node j moves to x1 if it has to.
    method Rehang(link: Link, x: int, x1: int, top: int, ghost i: nat)
      returns (ghost k: nat, ghost j: nat, ghost spares: seq<Node>)
      requires Linked() && |free| > 0 && i + 1 < |active| && link == LinkOf(i) && active[i].x <= x < x1
      modifies this`activeHead, this`freeHead, active, free
      ensures k == (if old(active[i].x) < x then i + 1 else i) && k <= j < |active|
      ensures j + 1 < |active| ==> x1 < old(Knots(active))[j + 1].x
      ensures k < j ==> old(Knots(active))[j].x <= x1
      ensures Chain(active[..k] + [free[0]] + active[j..], activeHead) && Chain(spares, freeHead)
      ensures Knots(active[..k] + [free[0]] + active[j..]) == SplicedAt(old(Knots(active)), k, j, x, x1, top)
      ensures Freed(spares, active[k..], j - k, free[1..])
    {
      hide Freed, SplicedAt, Front, Chain, AllDistinct, NoneShared, Knots, LinkOf;
      ghost var s := Knots(active);
      var node, cur;
      node, cur, k, j, spares := CutOut(link, x, x1, top, i);
      DistinctParts(active, j);
      KnotsParts(active, k);
      KnotsParts(active, j);
      NotFreed(active, free, k, j - k, spares);
      Stitch(node, cur, x1, active[..k], active[j..]);
      KnotsSpliced(s, k, j, x, x1, top);
    }

    method SpliceIn(link: Link, x: int, x1: int, top: int, ghost i: nat) returns (ghost k: nat, ghost j: nat)
      requires Linked() && |free| > 0 && i + 1 < |active| && link == LinkOf(i) && active[i].x <= x < x1
      modifies this`activeHead, this`freeHead, this`active, this`free, pool
      ensures Linked()
      ensures k == (if old(active[i].x) < x then i + 1 else i) && k <= j < old(|active|)
      ensures j + 1 < old(|active|) ==> x1 < old(Knots(active))[j + 1].x
      ensures k < j ==> old(Knots(active))[j].x <= x1
      ensures Knots(active) == SplicedAt(old(Knots(active)), k, j, x, x1, top)
      ensures |free| == old(|free|) - 1 + (j - k)
    {
      hide Chain, AllDistinct, NoneShared, SplicedAt, Knots;
      ghost var a, f := active, free;
      ghost var spares;
      k, j, spares := Rehang(link, x, x1, top, i);
      Redistributed(a, f, k, j - k, spares);
      active, free := a[..k] + [f[0]] + a[j..], spares;
    }

    // Take the place found: hang the new node in and record the rectangle.
    method TakePlace(link: Link, w: int, h: int, x: int, y: int, ghost i: nat)
      requires Valid() && 0 < w && 0 < h && |free| > 0 && i < |active| && link == LinkOf(i)
      requires Chosen(State(), w, h, Pos(x, y)) && Covers(Knots(active), i, x)
      modifies this`activeHead, this`freeHead, this`active, this`free, this`heights, this`placed, pool
      ensures Valid() && Step(old(State()), w, h, Some(Pos(x, y)), State())
    {
      hide Inv, Sized, Chosen, Linked, Place, Knots, Covers, Raised, Reach, SplicedAt, Step, LinkOf;
      Basics();
      ghost var p := State();
      ghost var k, j;
      Ready(w, h, i, x, y);
      k, j := SpliceIn(link, x, x + w, y + h, i);
      heights := Raised(heights, x, Reach(p.knots, x, x + w), y + h);
      placed := placed + [Box(x, y, w, h)];
      PlacingIsStep(p, w, h, Pos(x, y), i, k, j, State());
    }

    // Find a place for a w by h rectangle and take it, or answer None.
    method PackRectangle(w: int, h: int) returns (r: Option<Pos>)
      requires Valid() && 0 < w && 0 < h
      modifies this`activeHead, this`freeHead, this`active, this`free, this`heights, this`placed, pool
      ensures Valid() && old(Sized(State())) && Step(old(State()), w, h, r, State())
    {
      hide Inv, Sized, Chosen, Linked, Knots, Covers, Step, LinkOf;
      Basics();
      var link, x, y;
      ghost var i;
      link, x, y, i := FindBestPos(w, h);
      NoSpare();
      // no place, a place too high, or no node to spare
      if link == NoLink || y + h > height || freeHead == null {
        RefusingIsStep(State(), w, h);
        return None;
      }
      TakePlace(link, w, h, x, y, i);
      r := Some(Pos(x, y));
    }

    lemma NoSpare()
      requires Linked()
      ensures freeHead == null <==> |free| == 0
    {
    }

    lemma Ready(w: int, h: int, i: nat, x: int, y: int)
      requires Valid() && 0 < w && 0 < h && Chosen(State(), w, h, Pos(x, y))
      requires i < |active| && Covers(Knots(active), i, x)
      ensures i + 1 < |active| && active[i].x <= x && 0 <= x < width && x + w <= width
      ensures WellFormed(Knots(active), width)
    {
      ChosenRests(State(), w, h, Pos(x, y));
    }
  }
}
