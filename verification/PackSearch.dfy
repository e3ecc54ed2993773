/**
 What the two search loops have established about the columns they have looked
 at, and why that settles the search over all columns.
 */
module PackSearch {
  import opened Options
  import opened Skyline
  import opened Packing
  import opened PackingLaws

  // ---------- bottom-left

  // b is the lowest, leftmost resting place among the columns seen.
  ghost predicate LowestSeen(h: seq<int>, w: int, seen: set<int>, b: Option<int>)
    requires 0 < w
  {
    && (forall x :: x in seen ==> 0 <= x && x + w <= |h|)
    && (b.None? ==> seen == {})
    && (b.Some? ==>
        && b.value in seen
        && forall x :: x in seen ==>
             RestAt(h, b.value, w) < RestAt(h, x, w) || (RestAt(h, b.value, w) == RestAt(h, x, w) && b.value <= x))
  }

  lemma SeeLower(h: seq<int>, w: int, seen: set<int>, b: Option<int>, x: int)
    requires 0 < w && LowestSeen(h, w, seen, b) && 0 <= x && x + w <= |h|
    requires forall o :: o in seen ==> o < x
    ensures var b' := if b.None? || RestAt(h, x, w) < RestAt(h, b.value, w) then Some(x) else b;
            LowestSeen(h, w, seen + {x}, b')
  {
  }

  // The columns where a block can stand on a knot as its first column.
  ghost predicate AllStartsSeen(s: seq<Knot>, W: int, w: int, seen: set<int>) {
    forall k :: 0 <= k < |s| && s[k].x + w <= W ==> s[k].x in seen
  }

  lemma LowestStartIsLowest(s: seq<Knot>, h: seq<int>, w: int, seen: set<int>, b: int)
    requires Outlines(s, h) && 0 < w && LowestSeen(h, w, seen, Some(b)) && AllStartsSeen(s, |h|, w, seen)
    ensures BottomLeft(h, w, Pos(b, RestAt(h, b, w)))
  {
    forall x | 0 <= x && x + w <= |h|
      ensures RestAt(h, b, w) < RestAt(h, x, w) || (RestAt(h, b, w) == RestAt(h, x, w) && b <= x)
    {
      var i := Locate(s, x);
      SlideLeft(s, h, i, x, w);
      assert s[i].x in seen;
    }
  }

  // ---------- best-fit

  // b is the best of the candidate columns seen, or none of them fits.
  ghost predicate BestSeen(s: seq<Knot>, h: seq<int>, w: int, rh: int, height: int, seen: set<int>, b: Option<int>)
    requires Outlines(s, h) && 0 < w
  {
    && (forall x :: x in seen ==> Candidate(s, |h|, w, x))
    && (b.None? ==> forall x :: x in seen ==> !FittingCandidate(s, h, w, rh, height, x))
    && (b.Some? ==>
        && b.value in seen && FittingCandidate(s, h, w, rh, height, b.value)
        && forall x :: x in seen && FittingCandidate(s, h, w, rh, height, x) ==>
             NoWorse(KeyOf(s, h, b.value, w), KeyOf(s, h, x, w)))
  }

  lemma SeeBetter(s: seq<Knot>, h: seq<int>, w: int, rh: int, height: int, seen: set<int>, b: Option<int>, x: int)
    requires Outlines(s, h) && 0 < w && BestSeen(s, h, w, rh, height, seen, b) && Candidate(s, |h|, w, x)
    ensures var b' := if KeyOf(s, h, x, w).y + rh <= height
                         && (b.None? || !NoWorse(KeyOf(s, h, b.value, w), KeyOf(s, h, x, w))) then Some(x) else b;
            BestSeen(s, h, w, rh, height, seen + {x}, b')
  {
  }

  ghost predicate AllEndsSeen(s: seq<Knot>, w: int, seen: set<int>) {
    forall k :: 0 <= k < |s| && w <= s[k].x ==> s[k].x - w in seen
  }

  lemma BestSeenIsBest(s: seq<Knot>, h: seq<int>, w: int, rh: int, height: int, seen: set<int>, b: Option<int>)
    requires Outlines(s, h) && 0 < w && BestSeen(s, h, w, rh, height, seen, b)
    requires AllStartsSeen(s, |h|, w, seen) && AllEndsSeen(s, w, seen)
    ensures b.Some? ==> Candidate(s, |h|, w, b.value)
                        && BestFit(s, h, w, rh, height, Pos(b.value, RestAt(h, b.value, w)))
    ensures b.None? ==> forall q :: !BestFit(s, h, w, rh, height, q)
  {
    hide KeyOf, Outlines, NoWorse;
    forall x | Candidate(s, |h|, w, x) ensures x in seen {
      var k :| 0 <= k < |s| && (s[k].x == x || s[k].x == x + w);
    }
  }

  // ---------- one look, in either heuristic

  // What the search knows after it has looked at the columns in `seen`.
  ghost predicate Searched(p: Packer, w: int, rh: int, seen: set<int>, b: Option<int>)
    requires Sized(p) && 0 < w
  {
    if p.bestFit then BestSeen(p.knots, p.heights, w, rh, p.height, seen, b) else LowestSeen(p.heights, w, seen, b)
  }

  const FAR: int := 0x4000_0000

  // The running values of the search: whether any column was taken yet, the best
  // column so far, its level and its measured waste.
  datatype Best = Best(taken: bool, x: int, y: int, waste: int)

  const NOTHING_YET: Best := Best(false, 0, FAR, FAR)

  // The comparison of the first loop: a block that starts on a node.
  function TakeStart(best: Best, bestFit: bool, fits: bool, x: int, y: int, waste: int): Best {
    if !bestFit then
      if y < best.y then Best(true, x, y, best.waste) else best
    else
      if fits && (y < best.y || (y == best.y && waste < best.waste)) then Best(true, x, y, waste) else best
  }

  // The comparison of the second loop: a block that ends on a node.
  function TakeEnd(best: Best, fits: bool, x: int, y: int, waste: int): Best {
    if fits && y <= best.y && (y < best.y || waste < best.waste || (waste == best.waste && x < best.x)) then
      Best(true, x, y, waste)
    else
      best
  }

  // `best` is what the search must have found after looking at the columns seen.
  // Bottom-left leaves the waste alone.
  ghost predicate Tracks(p: Packer, w: int, rh: int, seen: set<int>, best: Best)
    requires Sized(p) && 0 < w
  {
    && Searched(p, w, rh, seen, if best.taken then Some(best.x) else None)
    && (!best.taken ==> best == NOTHING_YET)
    && (best.taken ==>
        && 0 <= best.x && best.x + w <= p.Width() && best.y == KeyOf(p.knots, p.heights, best.x, w).y
        && (p.bestFit ==> best.waste == KeyOf(p.knots, p.heights, best.x, w).waste))
  }

  lemma NothingSearched(p: Packer, w: int, rh: int)
    requires Sized(p) && 0 < w
    ensures Tracks(p, w, rh, {}, NOTHING_YET)
  {
  }

  lemma RestIsNear(p: Packer, x: int, w: int)
    requires Inv(p) && 0 < w && 0 <= x && x + w <= p.Width()
    ensures 0 <= KeyOf(p.knots, p.heights, x, w).y < FAR
  {
    PeakIsMaximum(p.heights, x, x + w);
    PeakAtMost(p.heights, x, x + w, p.height);
  }

  // Looking at a block that starts at knot column x, right of all columns seen.
  lemma LookAtStart(p: Packer, w: int, rh: int, seen: set<int>, best: Best, i: nat, x: int, y: int, waste: int)
    requires Inv(p) && 0 < w && Tracks(p, w, rh, seen, best)
    requires i < |p.knots| && p.knots[i].x == x && 0 <= x && x + w <= p.Width()
    requires forall o :: o in seen ==> o < x
    requires KeyOf(p.knots, p.heights, x, w) == Key(y, waste, x)
    ensures Tracks(p, w, rh, seen + {x}, TakeStart(best, p.bestFit, y + rh <= p.height, x, y, waste))
    ensures !p.bestFit ==> TakeStart(best, p.bestFit, y + rh <= p.height, x, y, waste).taken
  {
    RestIsNear(p, x, w);
    var b := if best.taken then Some(best.x) else None;
    if p.bestFit {
      assert Candidate(p.knots, p.Width(), w, x);
      SeeBetter(p.knots, p.heights, w, rh, p.height, seen, b, x);
    } else {
      SeeLower(p.heights, w, seen, b, x);
    }
  }

  // Looking at a block that ends at knot column x + w, in best-fit only.
  lemma LookAtEnd(p: Packer, w: int, rh: int, seen: set<int>, best: Best, i: nat, x: int, y: int, waste: int)
    requires Inv(p) && p.bestFit && 0 < w && Tracks(p, w, rh, seen, best)
    requires i < |p.knots| && p.knots[i].x == x + w && 0 <= x && x + w <= p.Width()
    requires KeyOf(p.knots, p.heights, x, w) == Key(y, waste, x)
    ensures Tracks(p, w, rh, seen + {x}, TakeEnd(best, y + rh <= p.height, x, y, waste))
  {
    RestIsNear(p, x, w);
    assert Candidate(p.knots, p.Width(), w, x);
    SeeBetter(p.knots, p.heights, w, rh, p.height, seen, if best.taken then Some(best.x) else None, x);
  }

  // When every admissible column has been seen, the search has what it promises.
  lemma SearchIsComplete(p: Packer, w: int, rh: int, seen: set<int>, best: Best)
    requires Inv(p) && 0 < w && Tracks(p, w, rh, seen, best) && AllStartsSeen(p.knots, p.Width(), w, seen)
    requires p.bestFit ==> AllEndsSeen(p.knots, w, seen)
    requires !p.bestFit ==> best.taken
    ensures best.taken && p.bestFit ==> BestFit(p.knots, p.heights, w, rh, p.height, Pos(best.x, best.y))
    ensures best.taken && !p.bestFit ==> BottomLeft(p.heights, w, Pos(best.x, best.y))
    ensures !best.taken ==> forall q :: !BestFit(p.knots, p.heights, w, rh, p.height, q)
  {
    if p.bestFit {
      BestSeenIsBest(p.knots, p.heights, w, rh, p.height, seen, if best.taken then Some(best.x) else None);
    } else {
      LowestStartIsLowest(p.knots, p.heights, w, seen, best.x);
    }
  }

  lemma SearchAnswers(p: Packer, w: int, rw: int, rh: int, seen: set<int>, best: Best)
    requires Inv(p) && 0 < w && 0 < rh && rw == RoundUp(w, p.align) && 0 < rw <= p.Width()
    requires Tracks(p, rw, rh, seen, best) && AllStartsSeen(p.knots, p.Width(), rw, seen)
    requires p.bestFit ==> AllEndsSeen(p.knots, rw, seen)
    requires !p.bestFit ==> best.taken
    ensures !best.taken || best.y + rh > p.height ==> forall q :: !Chosen(p, w, rh, q)
    ensures best.taken && best.y + rh <= p.height ==> Chosen(p, w, rh, Pos(best.x, best.y))
  {
    hide RoundUp, Tracks, AllStartsSeen, AllEndsSeen, Outlines, Stacked;
    SearchIsComplete(p, rw, rh, seen, best);
    if !p.bestFit {
      forall q | BottomLeft(p.heights, rw, q) ensures q.y == best.y {
        LowestIsUnique(p.heights, rw, q, Pos(best.x, best.y));
      }
    } else if best.taken {
      BestFits(p.knots, p.heights, rw, rh, p.height, Pos(best.x, best.y));
    }
  }

  lemma LowestIsUnique(h: seq<int>, w: int, q: Pos, r: Pos)
    requires 0 < w && BottomLeft(h, w, q) && BottomLeft(h, w, r)
    ensures q == r
  {
  }

  lemma BestFits(s: seq<Knot>, h: seq<int>, w: int, rh: int, height: int, q: Pos)
    requires Outlines(s, h) && 0 < w && BestFit(s, h, w, rh, height, q)
    ensures q.y + rh <= height
  {
  }
}
