/**
 Arcs from the precomputed table of points on the circle: which table entries go into
 the path.
 */
module PathArc {
  // A point of the path: the centre of a degenerate arc, or an entry of the table.
  datatype Point = Unset | Centre | Entry(index: nat)

  function Abs(x: int): nat {
    if x < 0 then -x else x
  }

  // Remainder rounding toward zero.
  function Rem(a: int, n: nat): int
    requires n > 0
  {
    if a >= 0 then a % n else -(-a % n)
  }

  // ---------- which angles an arc is drawn through

  function Clamped(step: int, segments: nat, n: nat): (r: nat)
    requires n >= 4 && segments > 0
    ensures 1 <= r <= n / 4
  {
    var s := if step <= 0 then n / segments else step;
    if s < 1 then 1 else if s > n / 4 then n / 4 else s
  }

  // The step is the asked one, as far as it lies between one table entry and a quarter
  // of the circle, and otherwise the nearer of these two.
  lemma ClampedIsNearest(step: int, segments: nat, n: nat, m: nat)
    requires n >= 4 && segments > 0 && 1 <= m <= n / 4
    ensures var r := Clamped(step, segments, n);
            && (0 < step ==> Abs(r - step) <= Abs(m - step))
            && (step <= 0 ==> Abs(r - n / segments) <= Abs(m - n / segments))
  {
  }

  // Without an asked step, it is the longest one, up to a quarter, that gives the circle
  // no fewer segments than are wanted.
  lemma ClampedGivesSegments(step: int, segments: nat, n: nat)
    requires n >= 4 && segments > 0 && step <= 0
    ensures var r := Clamped(step, segments, n);
            && (segments <= n ==> r * segments <= n)
            && (n < (r + 1) * segments || r == n / 4)
  {
    var q := n / segments;
    assert n == q * segments + n % segments;
    Multiple(segments, Clamped(step, segments, n), q);
    Multiple(segments, q, Clamped(step, segments, n));
    assert (q + 1) * segments == q * segments + segments;
    Multiple(segments, q + 1, Clamped(step, segments, n) + 1);
    if segments <= n && q == 0 {
      assert n % segments < segments;
    }
  }

  // The range does not divide into full steps.
  predicate Uneven(range: nat, step: nat)
    requires step > 0
  {
    range % step > 0
  }

  // The first step is shortened so that it and the last one share what is missing.
  function FirstStep(range: nat, step: nat): nat
    requires step > 0
  {
    if Uneven(range, step) then step - (step - range % step) / 2 else step
  }

  function Samples(range: nat, step: nat): nat
    requires step > 0
  {
    range / step + 1 + if Uneven(range, step) then 1 else 0
  }

  // How far from the start the k-th angle is.
  function Offset(range: nat, step: nat, k: nat): nat
    requires step > 0
  {
    if k == 0 then 0
    else if Uneven(range, step) && k == Samples(range, step) - 1 then range
    else FirstStep(range, step) + (k - 1) * step
  }

  function Angle(aMin: int, aMax: int, step: nat, k: nat): int
    requires step > 0
  {
    var offset := Offset(Abs(aMax - aMin), step, k);
    if aMax >= aMin then aMin + offset else aMin - offset
  }

  lemma Distribute(step: nat, a: nat, d: nat)
    ensures (a + d) * step == a * step + d * step && 0 <= d * step
  {
  }

  lemma Multiple(step: nat, a: nat, b: nat)
    ensures a <= b ==> a * step <= b * step
    ensures a < b ==> a * step + step <= b * step
  {
    if a <= b {
      Distribute(step, a, b - a);
      if a < b {
        Distribute(step, 1, b - a - 1);
      }
    }
  }

  lemma FullSteps(range: nat, step: nat)
    requires step > 0
    ensures range == (range / step) * step + range % step && range % step < step
  {
  }

  // The shortened first step and full steps after it stay within the range as often as
  // full steps would.
  lemma StepsWithin(range: nat, step: nat, k: nat)
    requires step > 0 && k > 0
    ensures FirstStep(range, step) + (k - 1) * step <= range <==> k <= range / step
    ensures k == range / step && Uneven(range, step) ==>
            0 < range - (FirstStep(range, step) + (k - 1) * step) < step
    ensures !Uneven(range, step) && k == range / step ==> FirstStep(range, step) + (k - 1) * step == range
  {
    FullSteps(range, step);
    var q := range / step;
    Multiple(step, k, q);
    Multiple(step, q, k);
    assert k * step == (k - 1) * step + step;
  }

  lemma OffsetsCover(range: nat, step: nat)
    requires step > 0
    ensures Offset(range, step, 0) == 0 && Offset(range, step, Samples(range, step) - 1) == range
    ensures forall k :: 0 <= k < Samples(range, step) - 1 ==>
              0 < Offset(range, step, k + 1) - Offset(range, step, k) <= step
  {
    hide FirstStep;
    var q := range / step;
    if q > 0 {
      StepsWithin(range, step, q);
    }
    FirstIsShort(range, step);
    forall k | 0 <= k < Samples(range, step) - 1
      ensures 0 < Offset(range, step, k + 1) - Offset(range, step, k) <= step
    {
      NextOffset(range, step, k);
    }
  }

  lemma FirstIsShort(range: nat, step: nat)
    requires step > 0
    ensures 0 < FirstStep(range, step) <= step
    ensures range / step == 0 ==> range % step == range
  {
  }

  lemma NextOffset(range: nat, step: nat, k: nat)
    requires step > 0 && k < Samples(range, step) - 1
    ensures 0 < Offset(range, step, k + 1) - Offset(range, step, k) <= step
  {
    hide FirstStep;
    FirstIsShort(range, step);
    FullSteps(range, step);
    if k > 0 {
      StepsWithin(range, step, k);
      assert k * step == (k - 1) * step + step;
    }
  }

  function Turned(angle: int, n: nat): (i: nat)
    requires n > 0
    ensures i < n
  {
    angle % n
  }

  // The table entries of a whole arc.
  function ArcPoints(aMin: int, aMax: int, step: nat, n: nat): (r: seq<Point>)
    requires step > 0 && n > 0
  {
    seq(Samples(Abs(aMax - aMin), step), k requires k >= 0 => Entry(Turned(Angle(aMin, aMax, step, k), n)))
  }

  // ---------- the function

  lemma Between(n: int, turns: int)
    requires n > 0
    ensures turns >= 1 ==> n * turns >= n
    ensures turns <= -1 ==> n * turns <= -n
  {
    if turns >= 1 {
      assert n * turns == n * (turns - 1) + n;
    } else if turns <= -1 {
      assert n * turns == n * (turns + 1) - n;
    }
  }

  lemma OnlyRemainder(a: int, n: int, turns: int, r: int)
    requires n > 0 && a == n * turns + r && 0 <= r < n
    ensures a % n == r
  {
    var more := a / n - turns;
    assert a == n * (a / n) + a % n;
    assert n * more == n * (a / n) - n * turns;
    Between(n, more);
  }

  lemma TruncatedTurn(a: int, n: nat)
    requires n > 0
    ensures Turned(a, n) == if Rem(a, n) < 0 then Rem(a, n) + n else Rem(a, n)
  {
    if a < 0 {
      var q, m := -a / n, -a % n;
      Negated(-a, n);
      if m == 0 {
        OnlyRemainder(a, n, -q, 0);
      } else {
        OnlyRemainder(a, n, -q - 1, n - m);
      }
    }
  }

  lemma Negated(b: int, n: int)
    requires n > 0
    ensures -b == n * -(b / n) - b % n == n * (-(b / n) - 1) + (n - b % n)
  {
    assert b == n * (b / n) + b % n;
    assert n * (-(b / n) - 1) == n * -(b / n) - n;
  }

  lemma InRange(a: int, n: nat)
    requires 0 <= a < n
    ensures Turned(a, n) == a
  {
    OnlyRemainder(a, n, 0, a);
  }

  lemma TurnOn(a: int, step: nat, n: nat)
    requires step < n
    ensures Turned(a + step, n) == if Turned(a, n) + step >= n then Turned(a, n) + step - n else Turned(a, n) + step
    ensures Turned(a - step, n) == if Turned(a, n) - step < 0 then Turned(a, n) - step + n else Turned(a, n) - step
  {
    var q, r := a / n, a % n;
    assert a == n * q + r;
    assert n * (q + 1) == n * q + n && n * (q - 1) == n * q - n;
    if r + step >= n {
      OnlyRemainder(a + step, n, q + 1, r + step - n);
    } else {
      OnlyRemainder(a + step, n, q, r + step);
    }
    if r - step < 0 {
      OnlyRemainder(a - step, n, q - 1, r - step + n);
    } else {
      OnlyRemainder(a - step, n, q, r - step);
    }
  }

  // Where the k-th round of the loop stands, also the one that is past the end.
  function Round(range: nat, step: nat, k: nat): nat
    requires step > 0
  {
    if k == 0 then 0 else FirstStep(range, step) + (k - 1) * step
  }

  lemma RoundsAreAngles(range: nat, step: nat, k: nat)
    requires step > 0
    ensures Round(range, step, k) <= range <==> k <= range / step
    ensures k <= range / step ==> Offset(range, step, k) == Round(range, step, k)
    ensures Round(range, step, k + 1) == Round(range, step, k) + if k == 0 then FirstStep(range, step) else step
  {
    hide FirstStep;
    if k > 0 {
      StepsWithin(range, step, k);
      assert k * step == (k - 1) * step + step;
    }
  }

  lemma StepOfOne(range: nat)
    ensures range / 1 == range && range % 1 == 0
  {
  }

  class DrawPath {
    var path: seq<Point>

    // The points drawn so far are the first k of the arc.
    ghost predicate Drawn(before: seq<Point>, aMin: int, aMax: int, step: nat, n: nat, k: nat)
      requires step > 0 && n > 0
      reads this
    {
      var points := ArcPoints(aMin, aMax, step, n);
      && k <= |points| && |path| == |before| + |points|
      && path[..|before| + k] == before + points[..k]
    }

    method Put(outPtr: nat, sampleIndex: nat, ghost before: seq<Point>, ghost aMin: int, ghost aMax: int, ghost step: nat,
               ghost n: nat, ghost k: nat)
      requires step > 0 && n > 0 && Drawn(before, aMin, aMax, step, n, k) && k < Samples(Abs(aMax - aMin), step)
      requires outPtr == |before| + k && sampleIndex == Turned(Angle(aMin, aMax, step, k), n)
      modifies this
      ensures Drawn(before, aMin, aMax, step, n, k + 1)
    {
      hide Turned, Angle, Samples;
      ghost var points := ArcPoints(aMin, aMax, step, n);
      ghost var was := path[..outPtr];
      path := path[outPtr := Entry(sampleIndex)];
      assert path[..outPtr + 1] == was + [Entry(sampleIndex)];
      assert points[..k + 1] == points[..k] + [points[k]];
    }

    // The loop for arcs that go up.
    method DrawUp(start: nat, firstIndex: nat, aMin: int, aMax: int, firstStep: nat, nextStep: nat, n: nat,
                  ghost before: seq<Point>) returns (outPtr: nat)
      requires 1 <= nextStep <= n / 4 && aMax >= aMin && firstStep == FirstStep(aMax - aMin, nextStep)
      requires firstIndex == Turned(aMin, n) && start == |before| && Drawn(before, aMin, aMax, nextStep, n, 0)
      modifies this
      ensures outPtr == |before| + (aMax - aMin) / nextStep + 1
      ensures Drawn(before, aMin, aMax, nextStep, n, (aMax - aMin) / nextStep + 1)
    {
      hide FirstStep, Offset, Turned, Drawn;
      var a, sampleIndex, step: nat := aMin, firstIndex, firstStep;
      outPtr := start;
      ghost var k: nat, range: nat, at := 0, aMax - aMin, aMin;
      FirstIsShort(range, nextStep);
      RoundsAreAngles(range, nextStep, 0);
      while a <= aMax
        invariant a == aMin + Round(range, nextStep, k) && outPtr == |before| + k && k <= range / nextStep + 1
        invariant Drawn(before, aMin, aMax, nextStep, n, k)
        invariant step == if k == 0 then firstStep else nextStep
        invariant 0 <= a - at < n && sampleIndex == Turned(at, n) + (a - at)
        decreases range / nextStep + 1 - k
      {
        RoundsAreAngles(range, nextStep, k);
        RoundsAreAngles(range, nextStep, k + 1);
        TurnOn(at, a - at, n);
        if sampleIndex >= n {
          sampleIndex := sampleIndex - n;
        }
        Put(outPtr, sampleIndex, before, aMin, aMax, nextStep, n, k);
        outPtr := outPtr + 1;
        at := a;
        k := k + 1;
        a, sampleIndex, step := a + step, sampleIndex + step, nextStep;
      }
      RoundsAreAngles(range, nextStep, k);
    }

    // The loop for arcs that go down.
    method DrawDown(start: nat, firstIndex: nat, aMin: int, aMax: int, firstStep: nat, nextStep: nat, n: nat,
                    ghost before: seq<Point>) returns (outPtr: nat)
      requires 1 <= nextStep <= n / 4 && aMax < aMin && firstStep == FirstStep(aMin - aMax, nextStep)
      requires firstIndex == Turned(aMin, n) && start == |before| && Drawn(before, aMin, aMax, nextStep, n, 0)
      modifies this
      ensures outPtr == |before| + (aMin - aMax) / nextStep + 1
      ensures Drawn(before, aMin, aMax, nextStep, n, (aMin - aMax) / nextStep + 1)
    {
      hide FirstStep, Offset, Turned, Drawn;
      var a, sampleIndex: int, step: nat := aMin, firstIndex, firstStep;
      outPtr := start;
      ghost var k: nat, range: nat, at := 0, aMin - aMax, aMin;
      FirstIsShort(range, nextStep);
      RoundsAreAngles(range, nextStep, 0);
      while a >= aMax
        invariant a == aMin - Round(range, nextStep, k) && outPtr == |before| + k && k <= range / nextStep + 1
        invariant Drawn(before, aMin, aMax, nextStep, n, k)
        invariant step == if k == 0 then firstStep else nextStep
        invariant 0 <= at - a < n && sampleIndex == Turned(at, n) - (at - a)
        decreases range / nextStep + 1 - k
      {
        RoundsAreAngles(range, nextStep, k);
        RoundsAreAngles(range, nextStep, k + 1);
        TurnOn(at, at - a, n);
        if sampleIndex < 0 {
          sampleIndex := sampleIndex + n;
        }
        Put(outPtr, sampleIndex, before, aMin, aMax, nextStep, n, k);
        outPtr := outPtr + 1;
        at := a;
        k := k + 1;
        a, sampleIndex, step := a - step, sampleIndex - step, nextStep;
      }
      RoundsAreAngles(range, nextStep, k);
    }

    // Add an arc around a centre: `segments` is how many segments a full circle of this
    // radius takes, n the size of the table.
    method PathArcToFastEx(positiveRadius: bool, aMin: int, aMax: int, aStep: int, segments: nat, n: nat)
      requires n >= 4 && segments > 0
      modifies this
      ensures path == old(path)
                    + if positiveRadius then ArcPoints(aMin, aMax, Clamped(aStep, segments, n), n) else [Centre]
    {
      hide Turned, Offset, Angle, FirstStep, Samples, Uneven, ArcPoints, Drawn;
      if !positiveRadius {
        path := path + [Centre];
        return;
      }
      var nextStep := Clamped(aStep, segments, n);
      var samples, step, extraMaxSample := PlanSteps(Abs(aMax - aMin), nextStep);
      ghost var before := path;
      path := path + seq(samples, _ => Unset);
      var outPtr := |path| - samples;
      var sampleIndex := aMin;
      if sampleIndex < 0 || sampleIndex >= n {
        sampleIndex := Normalized(aMin, n);
      } else {
        InRange(aMin, n);
      }
      NothingDrawn(before, path, aMin, aMax, nextStep, n);
      if aMax >= aMin {
        outPtr := DrawUp(outPtr, sampleIndex, aMin, aMax, step, nextStep, n, before);
      } else {
        outPtr := DrawDown(outPtr, sampleIndex, aMin, aMax, step, nextStep, n, before);
      }
      SamplesAre(Abs(aMax - aMin), nextStep);
      if extraMaxSample {
        var normalizedMaxSample := Normalized(aMax, n);
        EndsAtMax(aMin, aMax, nextStep);
        Put(outPtr, normalizedMaxSample, before, aMin, aMax, nextStep, n, samples - 1);
      }
      AllDrawn(before, aMin, aMax, nextStep, n);
    }

    lemma NothingDrawn(before: seq<Point>, now: seq<Point>, aMin: int, aMax: int, step: nat, n: nat)
      requires step > 0 && n > 0 && now == before + seq(Samples(Abs(aMax - aMin), step), _ => Unset) && path == now
      ensures Drawn(before, aMin, aMax, step, n, 0)
    {
      hide Turned, Angle, Samples;
      assert path[..|before|] == before;
      assert ArcPoints(aMin, aMax, step, n)[..0] == [];
    }

    lemma AllDrawn(before: seq<Point>, aMin: int, aMax: int, step: nat, n: nat)
      requires step > 0 && n > 0 && Drawn(before, aMin, aMax, step, n, Samples(Abs(aMax - aMin), step))
      ensures path == before + ArcPoints(aMin, aMax, step, n)
    {
      hide Turned, Angle, Samples;
      var points := ArcPoints(aMin, aMax, step, n);
      assert path[..|before| + |points|] == path && points[..|points|] == points;
    }
  }

  lemma SamplesAre(range: nat, step: nat)
    requires step > 0
    ensures Samples(range, step) == range / step + 1 + if Uneven(range, step) then 1 else 0
  {
  }

  // How many points there will be, and how long the first step is.
  method PlanSteps(range: nat, aStep: nat) returns (samples: nat, step: nat, extraMaxSample: bool)
    requires aStep > 0
    ensures samples == Samples(range, aStep) && step == FirstStep(range, aStep) && extraMaxSample == Uneven(range, aStep)
  {
    step, samples, extraMaxSample := aStep, range + 1, false;
    StepOfOne(range);
    if aStep > 1 {
      samples := range / aStep + 1;
      var overstep := range % aStep;
      if overstep > 0 {
        extraMaxSample := true;
        samples := samples + 1;
        // Do not draw one long line and one tiny one at the end.
        if range > 0 {
          step := step - (step - overstep) / 2;
        }
      }
    }
  }

  // Angles below zero leave a remainder below zero.
  method Normalized(a: int, n: nat) returns (i: nat)
    requires n > 0
    ensures i == Turned(a, n)
  {
    hide Turned;
    TruncatedTurn(a, n);
    var r := Rem(a, n);
    if r < 0 {
      r := r + n;
    }
    i := r;
  }

  lemma EndsAtMax(aMin: int, aMax: int, step: nat)
    requires step > 0
    ensures Angle(aMin, aMax, step, 0) == aMin
    ensures Angle(aMin, aMax, step, Samples(Abs(aMax - aMin), step) - 1) == aMax
  {
    hide Offset;
    OffsetsCover(Abs(aMax - aMin), step);
  }

  // The first angle is the start, the last one the end, and every angle goes on from the
  // one before, in the direction of the end, by at most the step.
  lemma ArcIsCovered(aMin: int, aMax: int, step: nat, n: nat)
    requires step > 0 && n > 0
    ensures var points := ArcPoints(aMin, aMax, step, n);
            && |points| >= 1 && Angle(aMin, aMax, step, 0) == aMin && Angle(aMin, aMax, step, |points| - 1) == aMax
            && (forall k :: 0 <= k < |points| ==> points[k] == Entry(Turned(Angle(aMin, aMax, step, k), n)))
            && (forall k :: 0 <= k < |points| - 1 ==>
                  var gap := Angle(aMin, aMax, step, k + 1) - Angle(aMin, aMax, step, k);
                  if aMax >= aMin then 0 < gap <= step else 0 < -gap <= step)
  {
    hide Offset, Turned, Uneven;
    OffsetsCover(Abs(aMax - aMin), step);
    EndsAtMax(aMin, aMax, step);
  }

  // How long the arc goes on from the k-th point to the next.
  function Gap(aMin: int, aMax: int, step: nat, k: nat): nat
    requires step > 0
  {
    Abs(Angle(aMin, aMax, step, k + 1) - Angle(aMin, aMax, step, k))
  }

  // The gaps are even: all of them full steps, or all but the first and the last, which
  // share the rest between them as evenly as whole numbers can.
  lemma GapsAreEven(aMin: int, aMax: int, step: nat, n: nat, k: nat)
    requires step > 0 && n > 0
    requires k + 1 < |ArcPoints(aMin, aMax, step, n)|
    ensures var last := |ArcPoints(aMin, aMax, step, n)| - 2; var range := Abs(aMax - aMin);
            && (range % step == 0 ==> Gap(aMin, aMax, step, k) == step)
            && (0 < k < last ==> Gap(aMin, aMax, step, k) == step)
            && (range % step > 0 && range >= step ==>
                  0 < last && 0 <= Gap(aMin, aMax, step, 0) - Gap(aMin, aMax, step, last) <= 1)
  {
    hide Angle, Turned;
    var range := Abs(aMax - aMin);
    var last := |ArcPoints(aMin, aMax, step, n)| - 2;
    FullSteps(range, step);
    GapIs(aMin, aMax, step, k);
    GapIs(aMin, aMax, step, 0);
    GapIs(aMin, aMax, step, last);
    OffsetsAt(range, step, k);
    OffsetsAt(range, step, last);
  }

  lemma GapIs(aMin: int, aMax: int, step: nat, k: nat)
    requires step > 0
    ensures Gap(aMin, aMax, step, k)
         == Abs(Offset(Abs(aMax - aMin), step, k + 1) - Offset(Abs(aMax - aMin), step, k))
  {
  }

  lemma OffsetsAt(range: nat, step: nat, k: nat)
    requires step > 0 && k < Samples(range, step) - 1
    ensures 0 < k ==> Offset(range, step, k) == FirstStep(range, step) + k * step - step
    ensures Offset(range, step, k + 1)
         == if Uneven(range, step) && k == Samples(range, step) - 2 then range else FirstStep(range, step) + k * step
    ensures range == range / step * step + range % step
    ensures Uneven(range, step) && range >= step ==> Samples(range, step) - 2 == range / step >= 1
  {
    FullSteps(range, step);
    assert (k - 1) * step == k * step - step;
  }
}
