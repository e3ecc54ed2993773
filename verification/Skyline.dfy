/**
 The skyline of the rectangle packer as a value: a list of knots, each saying
 how high the packed area reaches from its column on, up to the next knot.  The
 meaning of such a list is its column profile, one height for every column, and
 the lemmas here say what reading and splicing the list does to that profile.
 */
module Skyline {

  // From column `x` on, up to the next knot, the skyline is `y` high.
  datatype Knot = Knot(x: int, y: int)

  function Max(a: int, b: int): int {
    if a > b then a else b
  }

  ghost predicate Ascending(s: seq<Knot>) {
    forall i, j :: 0 <= i < j < |s| ==> s[i].x < s[j].x
  }

  // A skyline over columns 0..width: the last knot is the sentinel at `width`.
  ghost predicate WellFormed(s: seq<Knot>, width: int) {
    && |s| >= 2
    && s[0].x == 0
    && s[|s| - 1].x == width
    && Ascending(s)
    && forall i :: 0 <= i < |s| ==> 0 <= s[i].y
  }

  // ---------- reading a skyline as one height per column

  ghost predicate Covers(s: seq<Knot>, i: int, c: int) {
    0 <= i < |s| - 1 && s[i].x <= c < s[i + 1].x
  }

  function LocateFrom(s: seq<Knot>, i: nat, c: int): (k: nat)
    requires i + 1 < |s| && s[i].x <= c < s[|s| - 1].x
    ensures Covers(s, k, c)
    decreases |s| - i
  {
    if c < s[i + 1].x then i else LocateFrom(s, i + 1, c)
  }

  // The knot that covers a column.
  function Locate(s: seq<Knot>, c: int): (i: nat)
    requires |s| >= 2 && s[0].x <= c < s[|s| - 1].x
    ensures Covers(s, i, c)
  {
    LocateFrom(s, 0, c)
  }

  lemma LocateUnique(s: seq<Knot>, i: int, c: int)
    requires Ascending(s) && Covers(s, i, c)
    ensures s[0].x <= c < s[|s| - 1].x && Locate(s, c) == i
  {
    assert s[0].x <= s[i].x && s[i + 1].x <= s[|s| - 1].x;
    var k := Locate(s, c);
    assert Covers(s, k, c);
  }

  // The knots s outline the column heights h.
  ghost predicate Outlines(s: seq<Knot>, h: seq<int>) {
    && WellFormed(s, |h|)
    && (forall c :: 0 <= c < |h| ==> 0 <= h[c])
    && forall i, c :: Covers(s, i, c) ==> InRange(h, c) && h[c] == s[i].y
  }

  ghost predicate InRange(h: seq<int>, c: int) {
    0 <= c < |h|
  }

  // The profile of a list of knots: there is exactly one.
  ghost function ColumnsOf(s: seq<Knot>, W: int): (h: seq<int>)
    requires WellFormed(s, W)
    ensures |h| == W && Outlines(s, h)
  {
    var h := seq(W, c requires 0 <= c < W => s[Locate(s, c)].y);
    assert forall i, c :: Covers(s, i, c) ==> InRange(h, c) && h[c] == s[i].y by {
      forall i, c | Covers(s, i, c) ensures InRange(h, c) && h[c] == s[i].y {
        LocateUnique(s, i, c);
      }
    }
    h
  }

  lemma ProfileIsUnique(s: seq<Knot>, h: seq<int>, g: seq<int>)
    requires Outlines(s, h) && Outlines(s, g)
    ensures h == g
  {
    forall c | 0 <= c < |h| ensures h[c] == g[c] {
      assert Covers(s, Locate(s, c), c);
    }
  }

  // ---------- peaks and areas of a column profile

  // The highest column of a window, 0 for an empty window.
  ghost function Peak(h: seq<int>, a: int, b: int): int
    requires 0 <= a <= b <= |h|
    decreases b - a
  {
    if a == b then 0 else Max(Peak(h, a, b - 1), h[b - 1])
  }

  // The area between level `y` and the columns of a window.
  ghost function Area(h: seq<int>, a: int, b: int, y: int): int
    requires 0 <= a <= b <= |h|
    decreases b - a
  {
    if a == b then 0 else Area(h, a, b - 1, y) + (y - h[b - 1])
  }

  // The sum of the heights of a window.
  ghost function Sum(h: seq<int>, a: int, b: int): int
    requires 0 <= a <= b <= |h|
    decreases b - a
  {
    if a == b then 0 else Sum(h, a, b - 1) + h[b - 1]
  }

  // Peak is the maximum: an upper bound that some column of the window attains.
  lemma {:induction false} PeakIsMaximum(h: seq<int>, a: int, b: int)
    requires 0 <= a <= b <= |h|
    requires forall c :: a <= c < b ==> 0 <= h[c]
    ensures forall c :: a <= c < b ==> h[c] <= Peak(h, a, b)
    ensures a < b ==> exists c :: a <= c < b && h[c] == Peak(h, a, b)
    ensures 0 <= Peak(h, a, b)
    decreases b - a
  {
    if a < b {
      PeakIsMaximum(h, a, b - 1);
      if Peak(h, a, b) == h[b - 1] {
      } else {
        assert a < b - 1;
        var c :| a <= c < b - 1 && h[c] == Peak(h, a, b - 1);
        assert h[c] == Peak(h, a, b);
      }
    }
  }

  // A bound that some column attains, or 0 when nothing is higher, is the peak.
  lemma {:induction false} PeakAtMost(h: seq<int>, a: int, b: int, y: int)
    requires 0 <= a <= b <= |h| && 0 <= y
    ensures Peak(h, a, b) <= y <==> forall c :: a <= c < b ==> h[c] <= y
    decreases b - a
  {
    if a < b {
      PeakAtMost(h, a, b - 1, y);
      assert (forall c :: a <= c < b ==> h[c] <= y) ==> h[b - 1] <= y;
    }
  }

  lemma {:induction false} PeakSplit(h: seq<int>, a: int, m: int, b: int)
    requires 0 <= a <= m <= b <= |h|
    requires forall c :: 0 <= c < |h| ==> 0 <= h[c]
    ensures Peak(h, a, b) == Max(Peak(h, a, m), Peak(h, m, b))
    decreases b - m
  {
    if m == b {
      PeakIsMaximum(h, a, m);
    } else {
      PeakSplit(h, a, m, b - 1);
    }
  }

  lemma {:induction false} AreaSplit(h: seq<int>, a: int, m: int, b: int, y: int)
    requires 0 <= a <= m <= b <= |h|
    ensures Area(h, a, b, y) == Area(h, a, m, y) + Area(h, m, b, y)
    decreases b - m
  {
    if m < b {
      AreaSplit(h, a, m, b - 1, y);
    }
  }

  lemma {:induction false} SumSplit(h: seq<int>, a: int, m: int, b: int)
    requires 0 <= a <= m <= b <= |h|
    ensures Sum(h, a, b) == Sum(h, a, m) + Sum(h, m, b)
    decreases b - m
  {
    if m < b {
      SumSplit(h, a, m, b - 1);
    }
  }

  lemma {:induction false} SumOfEqualColumns(h: seq<int>, g: seq<int>, a: int, b: int)
    requires 0 <= a <= b <= |h| == |g|
    requires forall c :: a <= c < b ==> h[c] == g[c]
    ensures Sum(h, a, b) == Sum(g, a, b)
    decreases b - a
  {
    if a < b {
      SumOfEqualColumns(h, g, a, b - 1);
    }
  }

  // Raising the level by d adds d for every column of the window.
  lemma {:induction false} AreaRaise(h: seq<int>, a: int, b: int, y: int, d: int)
    requires 0 <= a <= b <= |h|
    ensures Area(h, a, b, y + d) == Area(h, a, b, y) + (b - a) * d
    decreases b - a
  {
    if a < b {
      AreaRaise(h, a, b - 1, y, d);
    }
  }

  lemma {:induction false} FlatWindow(h: seq<int>, a: int, b: int, level: int, y: int)
    requires 0 <= a <= b <= |h| && 0 <= level
    requires forall c :: a <= c < b ==> h[c] == level
    ensures a < b ==> Peak(h, a, b) == level
    ensures Area(h, a, b, y) == (b - a) * (y - level)
    ensures Sum(h, a, b) == (b - a) * level
    decreases b - a
  {
    if a < b {
      FlatWindow(h, a, b - 1, level, y);
      assert (b - 1 - a) * (y - level) + (y - level) == (b - a) * (y - level);
      assert (b - 1 - a) * level + level == (b - a) * level;
    }
  }

  // The wasted area, put the other way round: a full block minus what is below.
  lemma {:induction false} AreaAndSum(h: seq<int>, a: int, b: int, y: int)
    requires 0 <= a <= b <= |h|
    ensures Area(h, a, b, y) + Sum(h, a, b) == (b - a) * y
    decreases b - a
  {
    if a < b {
      AreaAndSum(h, a, b - 1, y);
      assert (b - 1 - a) * y + y == (b - a) * y;
    }
  }

  // ---------- what the search loop over the knots computes

  // The running values of the loop: the level a block would have to rest on so
  // far, the width looked at so far, and the wasted area accounted for so far.
  datatype Tally = Tally(level: int, visited: int, waste: int)

  // The loop body at one knot, which reaches up to column `next`.
  function Pass(t: Tally, k: Knot, next: int, x0: int, width: int): Tally {
    if k.y > t.level then
      Tally(k.y,
            t.visited + (if k.x < x0 then next - x0 else next - k.x),
            t.waste + t.visited * (k.y - t.level))
    else
      var all := next - k.x;
      var under := if all + t.visited > width then width - t.visited else all;
      Tally(t.level, t.visited + under, t.waste + under * (t.level - k.y))
  }

  // The loop that looks for the lowest resting level of a block of `width`
  // columns from `x0` on, from knot `i` on.
  ghost function Sweep(s: seq<Knot>, i: nat, x0: int, width: int, t: Tally): Tally
    requires i < |s|
    decreases |s| - i
  {
    if i + 1 < |s| && s[i].x < x0 + width then
      Sweep(s, i + 1, x0, width, Pass(t, s[i], s[i + 1].x, x0, width))
    else
      t
  }

  // The first column the loop has not looked at when it stands at column kx.
  function Frontier(kx: int, x0: int, x1: int): int {
    if kx < x0 then x0 else if kx < x1 then kx else x1
  }

  // The knot the loop stands at is flat up to where the loop stands next.
  lemma FlatFrontier(s: seq<Knot>, h: seq<int>, i: nat, x0: int, x1: int, y: int)
    requires Outlines(s, h) && 0 <= x0 < x1 <= |h|
    requires i + 1 < |s| && x0 < s[i + 1].x && s[i].x < x1
    ensures var a, b := Frontier(s[i].x, x0, x1), Frontier(s[i + 1].x, x0, x1);
            && x0 <= a < b <= x1
            && Peak(h, a, b) == s[i].y
            && Area(h, a, b, y) == (b - a) * (y - s[i].y)
            && Peak(h, a, x1) == Max(s[i].y, Peak(h, b, x1))
    ensures s[i].x < s[i + 1].x
  {
    var a, b := Frontier(s[i].x, x0, x1), Frontier(s[i + 1].x, x0, x1);
    forall c | a <= c < b ensures h[c] == s[i].y {
      assert Covers(s, i, c);
    }
    FlatWindow(h, a, b, s[i].y, y);
    PeakSplit(h, a, b, x1);
  }

  lemma NextIsFurther(s: seq<Knot>, i: nat, x0: int)
    requires Ascending(s) && i + 1 < |s| && x0 < s[i + 1].x
    ensures i + 2 < |s| ==> x0 < s[i + 2].x
  {
  }

  lemma LastIsSentinel(s: seq<Knot>, W: int, i: nat)
    requires WellFormed(s, W) && i < |s|
    ensures s[i].x < W ==> i + 1 < |s|
    ensures 0 <= s[i].x <= W && 0 <= s[i].y
  {
  }

  // The level the loop ends with is the highest column still ahead, or the
  // level it came with.
  lemma {:induction false} SweepReachesPeak(s: seq<Knot>, h: seq<int>, i: nat, x0: int, width: int, t: Tally)
    requires Outlines(s, h) && 0 < width && 0 <= x0 && x0 + width <= |h| && 0 <= t.level
    requires i < |s| && (i + 1 < |s| ==> x0 < s[i + 1].x)
    ensures Sweep(s, i, x0, width, t).level == Max(t.level, Peak(h, Frontier(s[i].x, x0, x0 + width), x0 + width))
    decreases |s| - i
  {
    LastIsSentinel(s, |h|, i);
    if s[i].x < x0 + width {
      FlatFrontier(s, h, i, x0, x0 + width, 0);
      NextIsFurther(s, i, x0);
      var t' := Pass(t, s[i], s[i + 1].x, x0, width);
      assert t'.level == Max(t.level, s[i].y);
      SweepReachesPeak(s, h, i + 1, x0, width, t');
    }
  }

  // The tally of the loop at column kx is exact: nothing counted beyond the
  // columns passed, and no untrimmed first knot waiting.
  ghost predicate Exact(h: seq<int>, t: Tally, k: Knot, x0: int, width: int)
    requires 0 < width && 0 <= x0 && x0 + width <= |h|
  {
    && (k.x < x0 ==> k.y > t.level)
    && (k.x < x0 + width ==> t.visited == Frontier(k.x, x0, x0 + width) - x0)
    && t.waste == Area(h, x0, Frontier(k.x, x0, x0 + width), t.level)
  }

  // Areas over one more flat stretch from a to b: at the level of the stretch
  // itself, and at a level it does not reach.
  lemma AreaOverStretch(h: seq<int>, x0: int, a: int, b: int, level: int, y: int)
    requires 0 <= x0 <= a <= b <= |h|
    requires Area(h, a, b, Max(level, y)) == (b - a) * (Max(level, y) - y)
    ensures level < y ==> Area(h, x0, b, y) == Area(h, x0, a, level) + (a - x0) * (y - level)
    ensures y <= level ==> Area(h, x0, b, level) == Area(h, x0, a, level) + (b - a) * (level - y)
  {
    AreaSplit(h, x0, a, b, Max(level, y));
    if level < y {
      AreaRaise(h, x0, a, level, y - level);
      assert (b - a) * (y - y) == 0;
    }
  }

  // The loop body in terms of the columns from a to b that it passes.
  lemma PassCounts(t: Tally, k: Knot, next: int, x0: int, width: int)
    requires 0 < width && k.x < next && x0 < next && k.x < x0 + width
    requires (k.x < x0 ==> k.y > t.level) && t.visited == Frontier(k.x, x0, x0 + width) - x0
    ensures var a, b, r := Frontier(k.x, x0, x0 + width), Frontier(next, x0, x0 + width), Pass(t, k, next, x0, width);
      && r.level == Max(t.level, k.y)
      && (next < x0 + width ==> r.visited == b - x0)
      && (t.level < k.y ==> r.waste == t.waste + (a - x0) * (k.y - t.level))
      && (k.y <= t.level ==> r.waste == t.waste + (b - a) * (t.level - k.y))
  {
  }

  lemma PassStaysExact(s: seq<Knot>, h: seq<int>, i: nat, x0: int, width: int, t: Tally)
    requires Outlines(s, h) && 0 < width && 0 <= x0 && x0 + width <= |h|
    requires i + 1 < |s| && x0 < s[i + 1].x && s[i].x < x0 + width
    requires Exact(h, t, s[i], x0, width)
    ensures Exact(h, Pass(t, s[i], s[i + 1].x, x0, width), s[i + 1], x0, width)
  {
    hide Outlines, Area, Pass, Peak;
    var k, a, b := s[i], Frontier(s[i].x, x0, x0 + width), Frontier(s[i + 1].x, x0, x0 + width);
    FlatFrontier(s, h, i, x0, x0 + width, Max(t.level, k.y));
    PassCounts(t, k, s[i + 1].x, x0, width);
    AreaOverStretch(h, x0, a, b, t.level, k.y);
  }

  // The waste is exact as long as the part of the first knot left of x0 is
  // trimmed, which the loop only does when that knot raises the level.
  lemma {:induction false} SweepMeasuresArea(s: seq<Knot>, h: seq<int>, i: nat, x0: int, width: int, t: Tally)
    requires Outlines(s, h) && 0 < width && 0 <= x0 && x0 + width <= |h|
    requires i < |s| && (i + 1 < |s| ==> x0 < s[i + 1].x)
    requires Exact(h, t, s[i], x0, width)
    ensures var r := Sweep(s, i, x0, width, t);
            r.waste == Area(h, x0, x0 + width, r.level)
    decreases |s| - i
  {
    LastIsSentinel(s, |h|, i);
    if s[i].x < x0 + width {
      PassStaysExact(s, h, i, x0, width, t);
      NextIsFurther(s, i, x0);
      SweepMeasuresArea(s, h, i + 1, x0, width, Pass(t, s[i], s[i + 1].x, x0, width));
    }
  }

  // The search for a block of `width` columns from x0 on starts with a blank
  // tally at the knot that covers x0.
  ghost function Survey(s: seq<Knot>, i: nat, x0: int, width: int): Tally
    requires i < |s|
  {
    Sweep(s, i, x0, width, Tally(0, 0, 0))
  }

  // The block comes to rest on the highest column below it, and the waste is
  // the area left free below the block, when the first knot is trimmed.
  lemma SurveyFindsRest(s: seq<Knot>, h: seq<int>, i: nat, x0: int, width: int)
    requires Outlines(s, h) && 0 < width && 0 <= x0 && x0 + width <= |h| && Covers(s, i, x0)
    ensures Survey(s, i, x0, width).level == Peak(h, x0, x0 + width)
    ensures s[i].x == x0 || s[i].y > 0 ==>
      Survey(s, i, x0, width).waste == Area(h, x0, x0 + width, Peak(h, x0, x0 + width))
  {
    PeakIsMaximum(h, x0, x0 + width);
    SweepReachesPeak(s, h, i, x0, width, Tally(0, 0, 0));
    if s[i].x == x0 || s[i].y > 0 {
      SweepMeasuresArea(s, h, i, x0, width, Tally(0, 0, 0));
    }
  }

  // After `passed` columns, from the start of the first knot on, the count is off by no
  // more than what lies below the level.
  ghost predicate Small(t: Tally, passed: int) {
    && 0 <= t.level && 0 <= t.visited <= passed
    && -((passed - t.visited) * t.level) <= t.waste <= passed * t.level
  }

  lemma Scales(a: int, b: int, y: int)
    requires a <= b && 0 <= y
    ensures a * y <= b * y
  {
  }

  lemma HigherPass(passed: int, more: int, visited: int, left: int, level: int, waste: int, y: int)
    requires 0 <= visited <= passed <= more && passed - visited <= left && 0 <= level <= y
    requires -((passed - visited) * level) <= waste <= passed * level
    ensures -(left * y) <= waste + visited * (y - level) <= more * y
  {
    Scales(visited, passed, y - level);
    assert passed * level + passed * (y - level) == passed * y;
    Scales(passed, more, y);
    Scales(level, y, passed - visited);
    Scales(passed - visited, left, y);
    Scales(0, visited, y - level);
  }

  lemma LowerPass(under: int, d: int, level: int, y: int)
    requires under <= d && 0 < d && 0 <= y <= level
    ensures -((d - under) * level) <= under * (level - y) <= d * level
  {
    Scales(under, d, level - y);
    Scales(level - y, level, d);
    Scales(-under, d - under, level - y);
    Scales(level - y, level, d - under);
    assert -under * (level - y) == -(under * (level - y));
  }

  lemma PassStaysSmall(t: Tally, k: Knot, next: int, x0: int, width: int, passed: int)
    requires Small(t, passed) && k.x < next && x0 < next && 0 < width && 0 <= k.y
    ensures Small(Pass(t, k, next, x0, width), passed + (next - k.x))
  {
    var r, d := Pass(t, k, next, x0, width), next - k.x;
    if k.y > t.level {
      HigherPass(passed, passed + d, t.visited, passed + d - r.visited, t.level, t.waste, k.y);
    } else {
      var under := r.visited - t.visited;
      LowerPass(under, d, t.level, k.y);
      assert (passed + d) * t.level == passed * t.level + d * t.level;
      assert (passed + d - r.visited) * t.level == (passed - t.visited) * t.level + (d - under) * t.level;
    }
  }

  lemma {:induction false} SweepStaysSmall(s: seq<Knot>, W: int, i: nat, x0: int, width: int, t: Tally)
    requires WellFormed(s, W) && 0 < width && i < |s| && (i + 1 < |s| ==> x0 < s[i + 1].x)
    requires Small(t, s[i].x)
    ensures var r := Sweep(s, i, x0, width, t); -(W * r.level) <= r.waste <= W * r.level
    decreases |s| - i
  {
    hide Pass, Small;
    LastIsSentinel(s, W, i);
    if i + 1 < |s| && s[i].x < x0 + width {
      PassStaysSmall(t, s[i], s[i + 1].x, x0, width, s[i].x);
      NextIsFurther(s, i, x0);
      SweepStaysSmall(s, W, i + 1, x0, width, Pass(t, s[i], s[i + 1].x, x0, width));
    } else {
      SmallWithin(t, s[i].x, W);
    }
  }

  lemma SmallWithin(t: Tally, passed: int, W: int)
    requires Small(t, passed) && passed <= W
    ensures -(W * t.level) <= t.waste <= W * t.level
  {
    Scales(passed, W, t.level);
    Scales(passed - t.visited, W, t.level);
  }

  lemma NothingIsSmall(passed: int)
    requires 0 <= passed
    ensures Small(Tally(0, 0, 0), passed)
  {
  }

  lemma SurveyRange(s: seq<Knot>, h: seq<int>, i: nat, x0: int, width: int, height: int)
    requires Outlines(s, h) && 0 < width && 0 <= x0 && x0 + width <= |h| && Covers(s, i, x0)
    requires forall c :: 0 <= c < |h| ==> h[c] <= height
    ensures WellFormed(s, |h|) && 0 <= s[i].x
    ensures 0 <= Survey(s, i, x0, width).level <= height
  {
    hide Sweep;
    LastIsSentinel(s, |h|, i);
    PeakIsMaximum(h, x0, x0 + width);
    SweepReachesPeak(s, h, i, x0, width, Tally(0, 0, 0));
  }

  // So the waste is never larger than the target: it fits a 32-bit integer on every
  // target of less than 2^31 columns times rows.
  lemma WasteIsBounded(s: seq<Knot>, h: seq<int>, i: nat, x0: int, width: int, height: int)
    requires Outlines(s, h) && 0 < width && 0 <= x0 && x0 + width <= |h| && Covers(s, i, x0)
    requires forall c :: 0 <= c < |h| ==> h[c] <= height
    ensures -(|h| * height) <= Survey(s, i, x0, width).waste <= |h| * height
  {
    hide Sweep, Outlines, Small, WellFormed;
    SurveyRange(s, h, i, x0, width, height);
    NothingIsSmall(s[i].x);
    SweepStaysSmall(s, |h|, i, x0, width, Tally(0, 0, 0));
    Scales(Survey(s, i, x0, width).level, height, |h|);
  }

  ghost predicate ExactWaste(s: seq<Knot>, h: seq<int>, i: nat, x0: int, width: int)
    requires i < |s| && 0 <= x0 && 0 < width && x0 + width <= |h|
  {
    Survey(s, i, x0, width).waste == Area(h, x0, x0 + width, Peak(h, x0, x0 + width))
  }

  // The measured waste is exact for every block that starts at column x0, on a
  // knot that stands at column kx with height ky, in any skyline.
  ghost predicate AlwaysExact(kx: int, ky: int, x0: int) {
    forall s: seq<Knot>, h: seq<int>, i: nat, width: int ::
      Outlines(s, h) && Covers(s, i, x0) && s[i] == Knot(kx, ky) && 0 < width && x0 + width <= |h|
      ==> ExactWaste(s, h, i, x0, width)
  }

  // The waste is the true wasted area, whatever the rest of the skyline, exactly
  // when the block starts on its first knot or that knot is above the floor.
  lemma WasteIsExactIff(kx: int, ky: int, x0: int)
    requires 0 <= kx <= x0 && 0 <= ky
    ensures AlwaysExact(kx, ky, x0) <==> kx == x0 || ky > 0
  {
    if kx == x0 || ky > 0 {
      forall s: seq<Knot>, h: seq<int>, i: nat, width: int |
        Outlines(s, h) && Covers(s, i, x0) && s[i] == Knot(kx, ky) && 0 < width && x0 + width <= |h|
        ensures ExactWaste(s, h, i, x0, width)
      {
        SurveyFindsRest(s, h, i, x0, width);
      }
    } else {
      UntrimmedKnot(kx, x0);
    }
  }

  // One column of floor, then one column of height 1: the floor is counted twice.
  lemma UntrimmedKnot(kx: int, x0: int)
    requires 0 <= kx < x0
    ensures !AlwaysExact(kx, 0, x0)
  {
    var i: nat := if kx == 0 then 0 else 1;
    var s := UntrimmedExample(kx, x0);
    var h := ColumnsOf(s, x0 + 2);
    assert s[i] == Knot(kx, 0) && s[i + 1] == Knot(x0 + 1, 1) && s[i + 2] == Knot(x0 + 2, 0);
    assert Covers(s, i, x0) && Covers(s, i + 1, x0 + 1);
    UntrimmedArea(h, x0);
    UntrimmedSurvey(s, i, kx, x0);
    assert !ExactWaste(s, h, i, x0, 2);
  }

  lemma UntrimmedSurvey(s: seq<Knot>, i: nat, kx: int, x0: int)
    requires kx < x0 && i + 2 < |s|
    requires s[i] == Knot(kx, 0) && s[i + 1] == Knot(x0 + 1, 1) && s[i + 2] == Knot(x0 + 2, 0)
    ensures Survey(s, i, x0, 2).waste == 2
  {
    assert Pass(Tally(0, 0, 0), s[i], s[i + 1].x, x0, 2) == Tally(0, 2, 0);
    var t := Pass(Tally(0, 2, 0), s[i + 1], s[i + 2].x, x0, 2);
    assert t.waste == 2;
    assert Sweep(s, i + 2, x0, 2, t) == t;
    assert Sweep(s, i + 1, x0, 2, Tally(0, 2, 0)) == t;
  }

  ghost function UntrimmedExample(kx: int, x0: int): (s: seq<Knot>)
    requires 0 <= kx < x0
    ensures WellFormed(s, x0 + 2)
  {
    var tail := [Knot(kx, 0), Knot(x0 + 1, 1), Knot(x0 + 2, 0)];
    if kx == 0 then tail else [Knot(0, 0)] + tail
  }

  lemma UntrimmedArea(h: seq<int>, x0: int)
    requires 0 <= x0 && x0 + 2 <= |h| && h[x0] == 0 && h[x0 + 1] == 1
    ensures Area(h, x0, x0 + 2, Peak(h, x0, x0 + 2)) == 1
  {
    assert Peak(h, x0, x0 + 1) == 0;
    assert Peak(h, x0, x0 + 2) == 1;
    assert Area(h, x0, x0 + 1, 1) == 1;
  }

  // ---------- splicing a block into the skyline

  // The first knot that is not kept in front of a block starting at column x.
  ghost function KeepTo(s: seq<Knot>, x: int): (k: nat)
    requires |s| >= 2 && s[0].x <= x < s[|s| - 1].x
    ensures k < |s|
  {
    var i := Locate(s, x);
    if s[i].x < x then i + 1 else i
  }

  // The knot, from k on, whose stretch reaches past column x1.
  ghost function DropTo(s: seq<Knot>, k: nat, x1: int): (j: nat)
    requires k < |s|
    ensures k <= j < |s|
    ensures j + 1 < |s| ==> x1 < s[j + 1].x
    ensures k < j ==> s[j].x <= x1
    decreases |s| - k
  {
    if k + 1 < |s| && s[k + 1].x <= x1 then DropTo(s, k + 1, x1) else k
  }

  // The skyline after the columns from x up to x1 are built up to `top`.
  ghost function Splice(s: seq<Knot>, x: int, x1: int, top: int): seq<Knot>
    requires |s| >= 2 && s[0].x <= x < s[|s| - 1].x
  {
    var k := KeepTo(s, x);
    var j := DropTo(s, k, x1);
    s[..k] + [Knot(x, top), Knot(Max(s[j].x, x1), s[j].y)] + s[j + 1..]
  }

  // How far the new knot reaches.  This is x1 unless the block is narrower than
  // the rounded block the search looked at and ends inside its first knot.
  ghost function Reach(s: seq<Knot>, x: int, x1: int): int
    requires |s| >= 2 && s[0].x <= x < s[|s| - 1].x
  {
    Max(x1, s[KeepTo(s, x)].x)
  }

  ghost function Raised(h: seq<int>, a: int, b: int, top: int): (g: seq<int>)
    ensures |g| == |h|
    ensures forall c :: 0 <= c < |h| ==> g[c] == if a <= c < b then top else h[c]
  {
    seq(|h|, c requires 0 <= c < |h| => if a <= c < b then top else h[c])
  }

  // t is s with knots k..j replaced by a block from x up to e: the knots of the
  // new list, by position, and how the cut points lie.
  ghost predicate Spliced(s: seq<Knot>, t: seq<Knot>, k: nat, j: nat, x: int, e: int, top: int) {
    && k <= j < |s| && |t| == |s| + k + 1 - j
    && (forall m :: 0 <= m < k ==> t[m] == s[m])
    && t[k] == Knot(x, top)
    && t[k + 1] == Knot(e, s[j].y)
    && (forall m :: k + 2 <= m < |t| ==> t[m] == s[m + j - k - 1])
    && (k > 0 ==> s[k - 1].x < x) && x <= s[k].x && x < e
    && s[j].x <= e
    && (j + 1 < |s| ==> e < s[j + 1].x)
  }

  lemma SpliceCuts(s: seq<Knot>, W: int, x: int, x1: int)
    requires WellFormed(s, W) && 0 <= x < x1 <= W
    ensures var k := KeepTo(s, x); var j := DropTo(s, k, x1); var e := Reach(s, x, x1);
            && (k > 0 ==> s[k - 1].x < x) && x <= s[k].x
            && e == Max(s[j].x, x1)
            && (if j + 1 < |s| then e < s[j + 1].x else e == W)
            && x1 <= e <= W
  {
    var k := KeepTo(s, x);
    var j := DropTo(s, k, x1);
    assert k > 0 ==> s[k - 1].x < s[k].x;
    assert k < j ==> s[k].x < s[j].x;
    assert j + 1 < |s| ==> s[j].x < s[j + 1].x <= W;
    assert s[k].x <= W;
  }

  lemma SpliceKnots(s: seq<Knot>, W: int, x: int, x1: int, top: int)
    requires WellFormed(s, W) && 0 <= x < x1 <= W
    ensures var k := KeepTo(s, x);
            Spliced(s, Splice(s, x, x1, top), k, DropTo(s, k, x1), x, Reach(s, x, x1), top)
    ensures var k := KeepTo(s, x);
            DropTo(s, k, x1) + 1 == |s| ==> Reach(s, x, x1) == W
    ensures x1 <= Reach(s, x, x1) <= W
  {
    SpliceCuts(s, W, x, x1);
  }

  lemma SplicedAscends(s: seq<Knot>, t: seq<Knot>, k: nat, j: nat, x: int, e: int, top: int)
    requires Ascending(s) && Spliced(s, t, k, j, x, e, top)
    ensures Ascending(t)
  {
    forall m, n | 0 <= m < n < |t| ensures t[m].x < t[n].x {
      assert m < k - 1 ==> s[m].x < s[k - 1].x;
      assert k + 2 < n ==> s[j + 1].x < s[n + j - k - 1].x;
      if m < k && n < k {
      } else if k + 2 <= m {
      } else {
        assert m < k ==> t[m].x < x;
        assert k + 2 <= n ==> e < t[n].x;
      }
    }
  }

  lemma SpliceIsWellFormed(s: seq<Knot>, W: int, x: int, x1: int, top: int)
    requires WellFormed(s, W) && 0 <= x < x1 <= W && 0 <= top
    ensures WellFormed(Splice(s, x, x1, top), W)
    ensures x1 <= Reach(s, x, x1) <= W
  {
    var k := KeepTo(s, x);
    SpliceKnots(s, W, x, x1, top);
    SplicedAscends(s, Splice(s, x, x1, top), k, DropTo(s, k, x1), x, Reach(s, x, x1), top);
  }

  // The columns of the new list, before, inside and behind the block.
  lemma SplicedColumn(s: seq<Knot>, t: seq<Knot>, k: nat, j: nat, x: int, e: int, top: int, i: nat, c: int)
    requires Ascending(s) && Ascending(t) && Spliced(s, t, k, j, x, e, top) && Covers(t, i, c)
    ensures x <= c < e ==> t[i].y == top
    ensures c < x ==> Covers(s, i, c) && t[i].y == s[i].y
    ensures e <= c ==> k + 1 <= i && Covers(s, i + j - k - 1, c) && t[i].y == s[i + j - k - 1].y
  {
    assert t[k].x == x && t[k + 1].x == e;
    assert forall m :: k < m < |t| ==> x < t[m].x;
    assert forall m :: 0 <= m < k ==> t[m].x < x;
    assert forall m :: k + 1 < m < |t| ==> e < t[m].x;
  }

  // Splicing raises exactly the columns the block reaches, and nothing else.
  lemma SpliceRaisesColumns(s: seq<Knot>, h: seq<int>, x: int, x1: int, top: int)
    requires Outlines(s, h) && 0 <= x < x1 <= |h| && 0 <= top
    ensures Outlines(Splice(s, x, x1, top), Raised(h, x, Reach(s, x, x1), top))
  {
    SpliceIsWellFormed(s, |h|, x, x1, top);
    SpliceKnots(s, |h|, x, x1, top);
    var t, k := Splice(s, x, x1, top), KeepTo(s, x);
    SplicedOutlines(s, t, h, k, DropTo(s, k, x1), x, Reach(s, x, x1), top);
  }

  lemma SplicedOutlines(s: seq<Knot>, t: seq<Knot>, h: seq<int>, k: nat, j: nat, x: int, e: int, top: int)
    requires Outlines(s, h) && WellFormed(t, |h|) && Spliced(s, t, k, j, x, e, top) && 0 <= top
    ensures Outlines(t, Raised(h, x, e, top))
  {
    var g := Raised(h, x, e, top);
    forall i, c | Covers(t, i, c) ensures InRange(g, c) && g[c] == t[i].y {
      SplicedColumn(s, t, k, j, x, e, top, i, c);
    }
  }

  // A block that starts on a knot, or ends past the next one, ends where it should.
  lemma ReachIsExact(s: seq<Knot>, W: int, x: int, x1: int)
    requires WellFormed(s, W) && 0 <= x < x1 <= W
    ensures Reach(s, x, x1) == x1 <==> (s[Locate(s, x)].x == x || s[Locate(s, x) + 1].x <= x1)
  {
  }
}
