/**
 The laws of the packer: where the chosen position stands among all positions,
 what every step keeps, and what every run of steps promises.
 */
module PackingLaws {
  import opened Options
  import opened Skyline
  import opened Packing

  // ---------- positions that are not knots never win

  // Sliding a block left to the knot below its left edge never raises it.
  lemma SlideLeft(s: seq<Knot>, h: seq<int>, i: nat, x: int, w: int)
    requires Outlines(s, h) && 0 < w && 0 <= x && x + w <= |h| && Covers(s, i, x)
    ensures 0 <= s[i].x && RestAt(h, s[i].x, w) <= RestAt(h, x, w)
  {
    PeakIsMaximum(h, x, x + w);
    LastIsSentinel(s, |h|, i);
    forall c | s[i].x <= c < s[i].x + w ensures h[c] <= Peak(h, x, x + w) {
      if c < x {
        assert Covers(s, i, c);
      }
    }
    PeakAtMost(h, s[i].x, s[i].x + w, Peak(h, x, x + w));
  }

  lemma BestFitIsLowest(s: seq<Knot>, h: seq<int>, w: int, rh: int, height: int, q: Pos, x: int)
    requires Outlines(s, h) && 0 < w && BestFit(s, h, w, rh, height, q) && 0 <= x && x + w <= |h|
    ensures q.y <= RestAt(h, x, w)
  {
    var i := Locate(s, x);
    SlideLeft(s, h, i, x, w);
    if RestAt(h, x, w) < q.y {
      assert Candidate(s, |h|, w, s[i].x);
      assert FittingCandidate(s, h, w, rh, height, s[i].x);
    }
  }

  // Whatever the heuristic, no column at all gives a lower place.
  lemma ChosenIsLowest(p: Packer, w: int, h: int, q: Pos, x: int)
    requires Inv(p) && 0 < w && Chosen(p, w, h, q)
    requires 0 <= x && x + RoundUp(w, p.align) <= p.Width()
    ensures w <= RoundUp(w, p.align) && q.y <= RestAt(p.heights, x, RoundUp(w, p.align))
  {
    RoundUpIsLeastMultiple(w, p.align);
    if p.bestFit {
      BestFitIsLowest(p.knots, p.heights, RoundUp(w, p.align), h, p.height, q, x);
    }
  }

  // Bottom-left always settles on a knot.
  lemma BottomLeftIsOnKnot(s: seq<Knot>, h: seq<int>, w: int, q: Pos)
    requires Outlines(s, h) && 0 < w && BottomLeft(h, w, q)
    ensures s[Locate(s, q.x)].x == q.x
  {
    var i := Locate(s, q.x);
    SlideLeft(s, h, i, q.x, w);
  }

  // There is no choice: no two positions are both the one to take.
  lemma ChosenIsUnique(p: Packer, w: int, h: int, q: Pos, r: Pos)
    requires Inv(p) && 0 < w && Chosen(p, w, h, q) && Chosen(p, w, h, r)
    ensures q == r
  {
    hide RestAt, Survey;
    var rw := RoundUp(w, p.align);
    RoundUpIsLeastMultiple(w, p.align);
    if p.bestFit {
      assert NoWorse(KeyOf(p.knots, p.heights, q.x, rw), KeyOf(p.knots, p.heights, r.x, rw));
      assert NoWorse(KeyOf(p.knots, p.heights, r.x, rw), KeyOf(p.knots, p.heights, q.x, rw));
    }
  }

  // ---------- a least position exists as soon as any position fits

  lemma {:induction false} LeastExists(h: seq<int>, w: int, n: int) returns (q: Pos)
    requires 0 < w && 0 < n && n - 1 + w <= |h|
    ensures 0 <= q.x < n && q.y == RestAt(h, q.x, w)
    ensures forall x :: 0 <= x < n ==> q.y < RestAt(h, x, w) || (q.y == RestAt(h, x, w) && q.x <= x)
    decreases n
  {
    q := Pos(n - 1, RestAt(h, n - 1, w));
    if n > 1 {
      var b := LeastExists(h, w, n - 1);
      if b.y <= q.y {
        q := b;
      }
    }
  }

  lemma {:induction false} LeastKeyExists(keys: set<Key>) returns (k: Key)
    requires keys != {}
    ensures k in keys && forall o :: o in keys ==> NoWorse(k, o)
    decreases keys
  {
    k :| k in keys;
    var others := keys - {k};
    assert forall o :: o in keys ==> o == k || o in others;
    if others != {} {
      var m := LeastKeyExists(others);
      if !NoWorse(k, m) {
        k := m;
      }
    }
  }

  lemma LeastCandidateExists(s: seq<Knot>, h: seq<int>, w: int, rh: int, height: int) returns (q: Pos)
    requires Outlines(s, h) && 0 < w
    requires exists x :: FittingCandidate(s, h, w, rh, height, x)
    ensures BestFit(s, h, w, rh, height, q)
  {
    var keys := set x | 0 <= x <= |h| && FittingCandidate(s, h, w, rh, height, x) :: KeyOf(s, h, x, w);
    var x :| FittingCandidate(s, h, w, rh, height, x);
    assert KeyOf(s, h, x, w) in keys;
    var k := LeastKeyExists(keys);
    q := Pos(k.x, k.y);
    assert KeyOf(s, h, q.x, w) == k;
    forall x | FittingCandidate(s, h, w, rh, height, x) ensures NoWorse(k, KeyOf(s, h, x, w)) {
      assert KeyOf(s, h, x, w) in keys;
    }
  }

  ghost predicate FitsSomewhere(h: seq<int>, w: int, rh: int, height: int)
    requires 0 < w
  {
    exists x :: 0 <= x && x + w <= |h| && RestAt(h, x, w) + rh <= height
  }

  lemma BestFitExists(s: seq<Knot>, h: seq<int>, w: int, rh: int, height: int) returns (q: Pos)
    requires Outlines(s, h) && 0 < w && FitsSomewhere(h, w, rh, height)
    ensures BestFit(s, h, w, rh, height, q) && q.y + rh <= height
  {
    var x :| 0 <= x && x + w <= |h| && RestAt(h, x, w) + rh <= height;
    var i := Locate(s, x);
    SlideLeft(s, h, i, x, w);
    assert Candidate(s, |h|, w, s[i].x);
    assert FittingCandidate(s, h, w, rh, height, s[i].x);
    q := LeastCandidateExists(s, h, w, rh, height);
  }

  lemma BottomLeftExists(h: seq<int>, w: int, rh: int, height: int) returns (q: Pos)
    requires 0 < w && FitsSomewhere(h, w, rh, height)
    ensures BottomLeft(h, w, q) && q.y + rh <= height
  {
    var x :| 0 <= x && x + w <= |h| && RestAt(h, x, w) + rh <= height;
    q := LeastExists(h, w, |h| - w + 1);
  }

  // A position is chosen exactly when the rounded width fits somewhere under the top.
  lemma ChosenIffFits(p: Packer, w: int, h: int)
    requires Inv(p) && 0 < w
    ensures w <= RoundUp(w, p.align)
    ensures (exists q :: Chosen(p, w, h, q)) <==> FitsSomewhere(p.heights, RoundUp(w, p.align), h, p.height)
  {
    RoundUpIsLeastMultiple(w, p.align);
    var rw := RoundUp(w, p.align);
    if FitsSomewhere(p.heights, rw, h, p.height) {
      var q;
      if p.bestFit {
        q := BestFitExists(p.knots, p.heights, rw, h, p.height);
      } else {
        q := BottomLeftExists(p.heights, rw, h, p.height);
      }
      assert Chosen(p, w, h, q);
    }
    if q :| Chosen(p, w, h, q) {
      assert RestAt(p.heights, q.x, rw) + h <= p.height;
    }
  }

  // ---------- what one step keeps

  // The columns a block reaches, even past its own right edge, are no higher
  // than the window the search looked at.
  lemma ReachedColumnsAreLow(s: seq<Knot>, h: seq<int>, x: int, x1: int, w: int, c: int)
    requires Outlines(s, h) && 0 <= x < x1 <= x + w <= |h| && x <= c < Reach(s, x, x1)
    ensures 0 <= c < |h| && h[c] <= RestAt(h, x, w)
  {
    PeakIsMaximum(h, x, x + w);
    LastIsSentinel(s, |h|, KeepTo(s, x));
    if x + w <= c {
      var i := Locate(s, x);
      assert Covers(s, i, c) && Covers(s, i, x);
    }
  }

  // A block that rests on the highest column of its rounded window, under the top.
  ghost predicate Resting(p: Packer, w: int, rw: int, h: int, q: Pos) {
    && 0 <= q.x && 0 < w <= rw && q.x + rw <= p.Width()
    && 0 <= q.y == RestAt(p.heights, q.x, rw) && 0 < h && q.y + h <= p.height
  }

  lemma ChosenRests(p: Packer, w: int, h: int, q: Pos)
    requires Inv(p) && 0 < w && 0 < h && Chosen(p, w, h, q)
    ensures Resting(p, w, RoundUp(w, p.align), h, q)
  {
    RoundUpIsLeastMultiple(w, p.align);
    PeakIsMaximum(p.heights, q.x, q.x + RoundUp(w, p.align));
  }

  // A block dropped on the skyline h overlaps nothing that lies below it, and
  // leaves a proper stack under the raised skyline g.
  lemma DroppingKeepsStack(boxes: seq<Box>, h: seq<int>, b: Box, e: int, height: int)
    requires Stacked(boxes, h, height) && Inside(b, |h|, height) && b.x + b.w <= e <= |h|
    requires forall c :: b.x <= c < e ==> h[c] <= b.y
    ensures Stacked(boxes + [b], Raised(h, b.x, e, b.y + b.h), height)
  {
    var g := Raised(h, b.x, e, b.y + b.h);
    assert forall c :: 0 <= c < |h| ==> h[c] <= g[c];
    forall i | 0 <= i < |boxes| ensures Apart(boxes[i], b) && Under(boxes[i], g) {
      var c := Max(boxes[i].x, b.x);
      assert Under(boxes[i], h);
      assert boxes[i].x <= c < boxes[i].x + boxes[i].w && b.x <= c < b.x + b.w ==> boxes[i].y + boxes[i].h <= h[c];
    }
  }

  // No node is lost: as many go back to the free list as leave the active list.
  lemma PlaceConservesNodes(p: Packer, w: int, h: int, q: Pos)
    requires Sized(p) && 0 < w && 0 <= q.x && q.x + w <= p.Width()
    ensures |Place(p, w, h, q).knots| + Place(p, w, h, q).free == |p.knots| + p.free
    ensures p.free > 0 ==> 0 <= Place(p, w, h, q).free
  {
  }

  lemma PlaceKeepsStack(p: Packer, w: int, rw: int, h: int, q: Pos)
    requires Inv(p) && Resting(p, w, rw, h, q)
    ensures Stacked(p.placed + [Box(q.x, q.y, w, h)],
                    Raised(p.heights, q.x, Reach(p.knots, q.x, q.x + w), q.y + h), p.height)
  {
    var b, e := Box(q.x, q.y, w, h), Reach(p.knots, q.x, q.x + w);
    LastIsSentinel(p.knots, p.Width(), KeepTo(p.knots, q.x));
    forall c | b.x <= c < e ensures p.heights[c] <= b.y {
      ReachedColumnsAreLow(p.knots, p.heights, q.x, q.x + w, rw, c);
    }
    DroppingKeepsStack(p.placed, p.heights, b, e, p.height);
  }

  lemma PlaceKeepsInv(p: Packer, w: int, rw: int, h: int, q: Pos)
    requires Inv(p) && p.free > 0 && Resting(p, w, rw, h, q)
    ensures Inv(Place(p, w, h, q))
  {
    hide Splice, Outlines, Stacked;
    PlaceKeepsStack(p, w, rw, h, q);
    SpliceRaisesColumns(p.knots, p.heights, q.x, q.x + w, q.y + h);
    PlaceConservesNodes(p, w, h, q);
  }

  lemma StepKeepsInv(p: Packer, w: int, h: int, r: Option<Pos>, p': Packer)
    requires Inv(p) && 0 < w && 0 < h && Step(p, w, h, r, p')
    ensures Inv(p')
    ensures p'.placed == if r.Some? then p.placed + [Box(r.value.x, r.value.y, w, h)] else p.placed
  {
    if r.Some? {
      ChosenRests(p, w, h, r.value);
      PlaceKeepsInv(p, w, RoundUp(w, p.align), h, r.value);
    }
  }

  // ---------- settings

  // The quantum is the least alignment at which the nodes span the width.
  lemma QuantumSpansWidth(width: int, numNodes: int, allowOutOfMem: bool)
    requires 1 <= width && 1 <= numNodes
    ensures 1 <= Quantum(width, numNodes, allowOutOfMem)
    ensures !allowOutOfMem ==> width <= numNodes * Quantum(width, numNodes, allowOutOfMem) < width + numNodes
  {
    var m := width + numNodes - 1;
    assert m == numNodes * (m / numNodes) + m % numNodes;
    assert m >= numNodes;
  }

  // Where running out of nodes is allowed, nothing is rounded.
  lemma NothingIsRounded(width: int, numNodes: int, w: int)
    requires 1 <= width && 1 <= numNodes
    ensures RoundUp(w, Quantum(width, numNodes, true)) == w
  {
  }

  lemma StartKeepsInv(width: nat, height: int, numNodes: int, allowOutOfMem: bool)
    requires 1 <= width <= MAX_COORD && 0 <= height <= MAX_COORD && 1 <= numNodes
    ensures Inv(Start(width, height, numNodes, allowOutOfMem))
  {
    assert width + numNodes - 1 >= numNodes;
  }

  lemma AligningKeepsInv(p: Packer, align: int)
    requires Inv(p) && 1 <= align
    ensures Inv(p.(align := align))
  {
  }
}
