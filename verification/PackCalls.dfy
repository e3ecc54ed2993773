/**
 Packing a whole array of rectangles: number them, sort them by height, place
 them one by one, put them back in their original order, set the flags.
 */
module PackCalls {
  import opened Options
  import opened Packing
  import opened RectSort
  import opened RectPack

  const MAXVAL: int := 0xffff

  // What the x and y of a rectangle say: both at the maximum mean "not packed".
  function Answer(r: Rect): Option<Pos> {
    if r.x == MAXVAL && r.y == MAXVAL then None else Some(Pos(r.x, r.y))
  }

  // Rectangle r was handled by the step from p to p'.
  ghost predicate Served(p: Packer, r: Rect, p': Packer) {
    && Inv(p)
    && if r.w == 0 || r.h == 0 then p' == p && r.x == 0 && r.y == 0
       else 0 < r.w && 0 < r.h && Step(p, r.w, r.h, Answer(r), p')
  }

  function Flag(r: Rect): int {
    if Answer(r).Some? then 1 else 0
  }

  // What a call does to its rectangles: each stays at its index, keeping its id
  // and its size; perm is the order in which they were served, by height; and
  // states are the packer states in between.
  ghost predicate PackCall(before: seq<Rect>, after: seq<Rect>, perm: seq<int>, states: seq<Packer>) {
    && |after| == |before| && IsPermutation(perm, |before|) && |states| == |before| + 1
    && (forall i :: 0 <= i < |before| ==> SameRect(before[i], after[i]) && after[i].wasPacked == Flag(after[i]))
    && (forall k, l :: 0 <= k < l < |perm| ==> RectHeightCompare(before[perm[k]], before[perm[l]]) <= 0)
    && (forall k :: 0 <= k < |perm| ==> Served(states[k], after[perm[k]], states[k + 1]))
  }

  ghost predicate SameRect(r: Rect, q: Rect) {
    r.id == q.id && r.w == q.w && r.h == q.h
  }

  ghost predicate Coordinates(rects: seq<Rect>) {
    forall i :: 0 <= i < |rects| ==> 0 <= rects[i].w <= MAX_COORD && 0 <= rects[i].h <= MAX_COORD
  }

  // ---------- putting the rectangles back in order

  // Distinct numbers below n in ascending order are 0, 1, 2, ...
  lemma {:induction false} AscendingNumbers(s: seq<Rect>, i: nat)
    requires i < |s| && Sorted(s, RectOriginalOrder)
    requires forall a :: 0 <= a < |s| ==> 0 <= s[a].wasPacked < |s|
    requires forall a, b :: 0 <= a < b < |s| ==> s[a].wasPacked != s[b].wasPacked
    ensures s[i].wasPacked == i
  {
    NumbersAtLeast(s, i);
    NumbersAtMost(s, i);
  }

  lemma {:induction false} NumbersAtLeast(s: seq<Rect>, i: nat)
    requires i < |s| && Sorted(s, RectOriginalOrder)
    requires forall a :: 0 <= a < |s| ==> 0 <= s[a].wasPacked < |s|
    requires forall a, b :: 0 <= a < b < |s| ==> s[a].wasPacked != s[b].wasPacked
    ensures i <= s[i].wasPacked
  {
    if i > 0 {
      NumbersAtLeast(s, i - 1);
      assert RectOriginalOrder(s[i - 1], s[i]) <= 0;
    }
  }

  lemma {:induction false} NumbersAtMost(s: seq<Rect>, i: nat)
    requires i < |s| && Sorted(s, RectOriginalOrder)
    requires forall a :: 0 <= a < |s| ==> 0 <= s[a].wasPacked < |s|
    requires forall a, b :: 0 <= a < b < |s| ==> s[a].wasPacked != s[b].wasPacked
    ensures s[i].wasPacked <= i
    decreases |s| - i
  {
    if i + 1 < |s| {
      NumbersAtMost(s, i + 1);
      assert RectOriginalOrder(s[i], s[i + 1]) <= 0;
    }
  }

  // Sorting by the numbers undoes the first rearrangement.
  lemma Unsorted(served: seq<Rect>, after: seq<Rect>, perm: seq<int>, back: seq<int>, k: nat)
    requires IsPermutation(perm, |served|) && Rearranged(after, served, back) && Sorted(after, RectOriginalOrder)
    requires forall m :: 0 <= m < |served| ==> served[m].wasPacked == perm[m]
    requires k < |served|
    ensures after[perm[k]] == served[k]
  {
    forall a, b | 0 <= a < b < |after| ensures after[a].wasPacked != after[b].wasPacked {
      assert back[a] != back[b];
      assert perm[back[a]] != perm[back[b]];
    }
    AscendingNumbers(after, perm[k]);
    assert perm[back[perm[k]]] == perm[k];
  }

  // ---------- the call

  // Number the rectangles by their place.
  method NumberRects(rects: array<Rect>)
    modifies rects
    ensures forall i :: 0 <= i < rects.Length ==> rects[i] == old(rects[i]).(wasPacked := i)
  {
    var i := 0;
    while i < rects.Length
      invariant 0 <= i <= rects.Length
      invariant forall m :: 0 <= m < rects.Length ==>
                  rects[m] == if m < i then old(rects[m]).(wasPacked := m) else old(rects[m])
    {
      rects[i] := rects[i].(wasPacked := i);
      i := i + 1;
    }
  }

  // Serve the rectangles in the order they stand in.
  method ServeRects(c: Context, rects: array<Rect>) returns (ghost states: seq<Packer>)
    requires c.Valid() && Coordinates(rects[..])
    modifies c, c.pool, rects
    ensures c.Valid() && c.pool == old(c.pool) && |states| == rects.Length + 1
    ensures states[0] == old(c.State()) && states[rects.Length] == c.State()
    ensures forall m :: 0 <= m < rects.Length ==> rects[m] == old(rects[m]).(x := rects[m].x, y := rects[m].y)
    ensures forall m :: 0 <= m < rects.Length ==> Served(states[m], rects[m], states[m + 1])
  {
    hide Served, Inv, Context.Linked, Context.State;
    states := [c.State()];
    var i := 0;
    while i < rects.Length
      invariant 0 <= i <= rects.Length && c.Valid() && c.pool == old(c.pool)
      invariant |states| == i + 1 && states[0] == old(c.State()) && states[i] == c.State()
      invariant forall m :: 0 <= m < rects.Length ==> rects[m] == old(rects[m]).(x := rects[m].x, y := rects[m].y)
      invariant forall m :: 0 <= m < i ==> Served(states[m], rects[m], states[m + 1])
    {
      var r := ServeOne(c, rects[i]);
      rects[i] := r;
      states := states + [c.State()];
      i := i + 1;
    }
  }

  method ServeOne(c: Context, r0: Rect) returns (r: Rect)
    requires c.Valid() && 0 <= r0.w && 0 <= r0.h
    modifies c, c.pool
    ensures c.Valid() && c.pool == old(c.pool)
    ensures r == r0.(x := r.x, y := r.y) && Served(old(c.State()), r, c.State())
  {
    hide Inv, Chosen;
    if r0.w == 0 || r0.h == 0 {
      r := r0.(x := 0, y := 0);  // nothing to place
      c.Basics();
    } else {
      var fr := c.PackRectangle(r0.w, r0.h);
      if fr.Some? {
        r := r0.(x := fr.value.x, y := fr.value.y);
      } else {
        r := r0.(x := MAXVAL, y := MAXVAL);
      }
    }
  }

  // Set the flags, and say whether all rectangles were packed.
  method SetFlags(rects: array<Rect>) returns (all: bool)
    modifies rects
    ensures forall i :: 0 <= i < rects.Length ==> rects[i] == old(rects[i]).(wasPacked := Flag(old(rects[i])))
    ensures all <==> forall i :: 0 <= i < rects.Length ==> rects[i].wasPacked != 0
  {
    all := true;
    var i := 0;
    while i < rects.Length
      invariant 0 <= i <= rects.Length
      invariant forall m :: 0 <= m < rects.Length ==>
                  rects[m] == if m < i then old(rects[m]).(wasPacked := Flag(old(rects[m]))) else old(rects[m])
      invariant all <==> forall m :: 0 <= m < i ==> rects[m].wasPacked != 0
    {
      rects[i] := rects[i].(wasPacked := if rects[i].x == MAXVAL && rects[i].y == MAXVAL then 0 else 1);
      if rects[i].wasPacked == 0 {
        all := false;
      }
      i := i + 1;
    }
  }

  // Assign places to the rectangles of one array.
  method PackRects(c: Context, rects: array<Rect>)
    returns (all: bool, ghost perm: seq<int>, ghost states: seq<Packer>)
    requires c.Valid() && Coordinates(rects[..])
    modifies c, c.pool, rects
    ensures c.Valid() && c.pool == old(c.pool)
    ensures PackCall(old(rects[..]), rects[..], perm, states)
    ensures states[0] == old(c.State()) && states[|states| - 1] == c.State()
    ensures all <==> forall i :: 0 <= i < rects.Length ==> rects[i].wasPacked != 0
  {
    hide Served, IsOrder, Rearranged, Sorted, IsPermutation, PackCall, Context.Valid, Context.State;
    ghost var before := rects[..];
    BothAreOrders();
    NumberRects(rects);
    ghost var numbered := rects[..];
    perm := Sort(rects, RectHeightCompare);
    ghost var order := rects[..];
    InOrder(before, numbered, order, perm);
    states := ServeRects(c, rects);
    ghost var served := rects[..];
    ghost var back := Sort(rects, RectOriginalOrder);
    ghost var after := rects[..];
    all := SetFlags(rects);
    CallIsComplete(before, order, served, after, rects[..], perm, back, states);
  }

  // After numbering and sorting: who is served when.
  lemma InOrder(before: seq<Rect>, numbered: seq<Rect>, order: seq<Rect>, perm: seq<int>)
    requires |numbered| == |before| && Rearranged(order, numbered, perm) && Sorted(order, RectHeightCompare)
    requires Coordinates(before)
    requires forall i :: 0 <= i < |before| ==> numbered[i] == before[i].(wasPacked := i)
    ensures IsPermutation(perm, |before|) && |order| == |before| && Coordinates(order)
    ensures forall k :: 0 <= k < |order| ==> 0 <= perm[k] < |before| && order[k] == before[perm[k]].(wasPacked := perm[k])
    ensures forall k, l :: 0 <= k < l < |perm| ==> RectHeightCompare(before[perm[k]], before[perm[l]]) <= 0
  {
    forall k | 0 <= k < |order| ensures order[k] == before[perm[k]].(wasPacked := perm[k]) {
      assert order[k] == numbered[perm[k]];
    }
    forall k, l | 0 <= k < l < |perm| ensures RectHeightCompare(before[perm[k]], before[perm[l]]) <= 0 {
      assert RectHeightCompare(order[k], order[l]) <= 0;
    }
  }

  // Every index is served at some point: n distinct numbers below n are all of them.
  lemma PermutationCovers(perm: seq<int>, n: nat, i: int)
    requires IsPermutation(perm, n) && 0 <= i < n
    ensures i in perm
  {
    var values, numbers := Values(perm, n), Below(n);
    assert perm[..n] == perm;
    assert numbers * values == values;
    assert |numbers - values| == 0;
    assert i in numbers;
  }

  ghost function Below(n: nat): (s: set<int>)
    ensures |s| == n && forall x :: x in s <==> 0 <= x < n
  {
    if n == 0 then {} else Below(n - 1) + {n - 1}
  }

  ghost function Values(perm: seq<int>, n: nat): (s: set<int>)
    requires n <= |perm| && forall i, j :: 0 <= i < j < n ==> perm[i] != perm[j]
    ensures |s| == n && forall x :: x in s <==> x in perm[..n]
  {
    if n == 0 then {} else
      assert perm[..n] == perm[..n - 1] + [perm[n - 1]];
      Values(perm, n - 1) + {perm[n - 1]}
  }

  lemma CallIsComplete(before: seq<Rect>, order: seq<Rect>, served: seq<Rect>, after: seq<Rect>, final: seq<Rect>,
                       perm: seq<int>, back: seq<int>, states: seq<Packer>)
    requires |before| == |order| == |served| == |after| == |final| && |states| == |before| + 1
    requires IsPermutation(perm, |before|) && Rearranged(after, served, back) && Sorted(after, RectOriginalOrder)
    requires forall k :: 0 <= k < |order| ==> 0 <= perm[k] < |before| && order[k] == before[perm[k]].(wasPacked := perm[k])
    requires forall k, l :: 0 <= k < l < |perm| ==> RectHeightCompare(before[perm[k]], before[perm[l]]) <= 0
    requires forall m :: 0 <= m < |served| ==> served[m] == order[m].(x := served[m].x, y := served[m].y)
    requires forall m :: 0 <= m < |served| ==> Served(states[m], served[m], states[m + 1])
    requires forall i :: 0 <= i < |after| ==> final[i] == after[i].(wasPacked := Flag(after[i]))
    ensures PackCall(before, final, perm, states)
  {
    forall k | 0 <= k < |perm|
      ensures Served(states[k], final[perm[k]], states[k + 1]) && SameRect(before[perm[k]], final[perm[k]])
    {
      Unsorted(served, after, perm, back, k);
      assert Served(states[k], served[k], states[k + 1]);
    }
    forall i | 0 <= i < |before| ensures SameRect(before[i], final[i]) && final[i].wasPacked == Flag(final[i]) {
      PermutationCovers(perm, |before|, i);
      var k :| 0 <= k < |perm| && perm[k] == i;
    }
  }
}
