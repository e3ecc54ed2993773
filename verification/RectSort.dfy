/**
 The rectangles handed to the packer, the two orders it sorts them by, and an
 in-place sort that says which permutation it applied.
 */
module RectSort {

  datatype Rect = Rect(id: int, w: int, h: int, x: int, y: int, wasPacked: int)

  // Highest first, widest first among equally high ones.
  function RectHeightCompare(p: Rect, q: Rect): int {
    if p.h > q.h then -1
    else if p.h < q.h then 1
    else if p.w > q.w then -1
    else if p.w < q.w then 1 else 0
  }

  // The order the rectangles came in, kept in the wasPacked field meanwhile.
  function RectOriginalOrder(p: Rect, q: Rect): int {
    if p.wasPacked < q.wasPacked then -1 else if p.wasPacked > q.wasPacked then 1 else 0
  }

  ghost predicate IsOrder(cmp: (Rect, Rect) -> int) {
    && (forall p, q :: cmp(p, q) <= 0 || cmp(q, p) <= 0)
    && (forall p, q, r :: cmp(p, q) <= 0 && cmp(q, r) <= 0 ==> cmp(p, r) <= 0)
  }

  lemma BothAreOrders()
    ensures IsOrder(RectHeightCompare) && IsOrder(RectOriginalOrder)
  {
  }

  // What the comparators put in front: the higher rectangle, the wider of equally high
  // ones; the one that came first.
  lemma OrdersAre(p: Rect, q: Rect)
    ensures RectHeightCompare(p, q) <= 0 <==> p.h > q.h || (p.h == q.h && p.w >= q.w)
    ensures RectOriginalOrder(p, q) <= 0 <==> p.wasPacked <= q.wasPacked
  {
  }

  ghost predicate Sorted(s: seq<Rect>, cmp: (Rect, Rect) -> int) {
    forall i, j :: 0 <= i < j < |s| ==> cmp(s[i], s[j]) <= 0
  }

  // perm lists the numbers below n, each once.
  ghost predicate IsPermutation(perm: seq<int>, n: nat) {
    && |perm| == n
    && (forall i :: 0 <= i < n ==> 0 <= perm[i] < n)
    && (forall i, j :: 0 <= i < j < n ==> perm[i] != perm[j])
  }

  // s is t rearranged: position i of s holds what position perm[i] of t held.
  ghost predicate Rearranged(s: seq<Rect>, t: seq<Rect>, perm: seq<int>) {
    && IsPermutation(perm, |t|) && |s| == |t|
    && forall i :: 0 <= i < |s| ==> s[i] == t[perm[i]]
  }

  lemma SwapRearranged(s: seq<Rect>, t: seq<Rect>, perm: seq<int>, j: nat)
    requires Rearranged(s, t, perm) && j + 1 < |s|
    ensures |perm| == |s|
    ensures Rearranged(s[j := s[j + 1]][j + 1 := s[j]], t, perm[j := perm[j + 1]][j + 1 := perm[j]])
  {
  }

  // Everything before position i is sorted, except that position j may still have
  // to move further down.
  ghost predicate SortedBut(s: seq<Rect>, cmp: (Rect, Rect) -> int, j: int) {
    && (forall a, b :: 0 <= a < b < |s| && a != j && b != j ==> cmp(s[a], s[b]) <= 0)
    && (forall b :: 0 <= j < b < |s| ==> cmp(s[j], s[b]) <= 0)
  }

  lemma SinkKeepsSorted(s: seq<Rect>, cmp: (Rect, Rect) -> int, j: nat)
    requires IsOrder(cmp) && j + 1 < |s| && SortedBut(s, cmp, j + 1) && cmp(s[j], s[j + 1]) > 0
    ensures SortedBut(s[j := s[j + 1]][j + 1 := s[j]], cmp, j)
  {
    assert cmp(s[j + 1], s[j]) <= 0;
  }

  lemma SunkIsSorted(s: seq<Rect>, cmp: (Rect, Rect) -> int, j: nat)
    requires IsOrder(cmp) && j < |s| && SortedBut(s, cmp, j) && (j > 0 ==> cmp(s[j - 1], s[j]) <= 0)
    ensures Sorted(s, cmp)
  {
    forall a, b | 0 <= a < b < |s| ensures cmp(s[a], s[b]) <= 0 {
      if b == j && a < j - 1 {
        assert cmp(s[a], s[j - 1]) <= 0;
      }
    }
  }

  // Sort in place.  The contract says everything a caller may rely on: the result
  // is sorted, and it is a rearrangement of what was there.
  method Sort(rects: array<Rect>, cmp: (Rect, Rect) -> int) returns (ghost perm: seq<int>)
    requires IsOrder(cmp)
    modifies rects
    ensures Sorted(rects[..], cmp) && Rearranged(rects[..], old(rects[..]), perm)
  {
    ghost var start := rects[..];
    perm := seq(rects.Length, i => i);
    var i := 0;
    while i < rects.Length
      invariant 0 <= i <= rects.Length
      invariant Sorted(rects[..i], cmp) && Rearranged(rects[..], start, perm)
    {
      perm := Sink(rects, cmp, i, start, perm);
      i := i + 1;
    }
    assert rects[..rects.Length] == rects[..];
  }

  // Let element i sink to its place among the sorted ones before it.
  method Sink(rects: array<Rect>, cmp: (Rect, Rect) -> int, i: nat, ghost start: seq<Rect>, ghost perm0: seq<int>)
    returns (ghost perm: seq<int>)
    requires IsOrder(cmp) && i < rects.Length && Sorted(rects[..i], cmp) && Rearranged(rects[..], start, perm0)
    modifies rects
    ensures Sorted(rects[..i + 1], cmp) && Rearranged(rects[..], start, perm)
  {
    hide IsOrder, Rearranged, SortedBut, Sorted;
    perm := perm0;
    var j := i;
    assert rects[..i + 1][..i] == rects[..i];
    NewestMaySink(rects[..i + 1], cmp);
    while j > 0 && cmp(rects[j - 1], rects[j]) > 0
      invariant 0 <= j <= i
      invariant SortedBut(rects[..i + 1], cmp, j) && Rearranged(rects[..], start, perm)
    {
      ghost var s, front := rects[..], rects[..i + 1];
      SinkKeepsSorted(front, cmp, j - 1);
      SwapRearranged(s, start, perm, j - 1);
      rects[j - 1], rects[j] := rects[j], rects[j - 1];
      assert rects[..] == s[j - 1 := s[j]][j := s[j - 1]];
      assert rects[..i + 1] == front[j - 1 := front[j]][j := front[j - 1]];
      perm := perm[j - 1 := perm[j]][j := perm[j - 1]];
      j := j - 1;
    }
    SunkIsSorted(rects[..i + 1], cmp, j);
  }

  lemma NewestMaySink(s: seq<Rect>, cmp: (Rect, Rect) -> int)
    requires |s| > 0 && Sorted(s[..|s| - 1], cmp)
    ensures SortedBut(s, cmp, |s| - 1)
  {
    assert forall a :: 0 <= a < |s| - 1 ==> s[a] == s[..|s| - 1][a];
  }
}
