/**
 The unbatched renderer: what a sequence of drawing calls means when every vertex
 is fetched under the clip rectangle and texture in force when it was emitted, each
 channel keeping its own sequence until the channels are merged in order.
 */
module DrawSpec {
  import opened DrawTrace
  import opened Options
  import opened ShapeIndices

  datatype Vec2 = Vec2(x: real, y: real)

  datatype DrawVert = DrawVert(pos: Vec2, uv: Vec2, col: int)

  // The drawing calls.  Prim draws new vertices, by their numbers in `vtx`; it reserves
  // room for more of them, as text does, and gives back what it does not use.  The
  // vertices of a polygon or line are the caller's, as positions and colours are not
  // computed here.
  datatype Op =
    | PushClip(min: Vec2, max: Vec2, intersect: bool)
    | PopClip
    | PushTexture(tex: int)
    | PopTexture
    | RunCallback(callback: Callback)
    | Prim(vtx: seq<DrawVert>, tri: seq<nat>, spareIdx: nat, spareVtx: nat)
    | ConvexPoly(n: int, vtx: seq<DrawVert>, antiAliased: bool)
    | Polyline(n: int, closed: bool, stroke: Stroke, vtx: seq<DrawVert>)
    | Split(count: nat)
    | SetChannel(channel: nat)
    | Merge

  // How the list was made: whether vertex offsets may be used, and the clip
  // rectangle of the whole screen.
  datatype Config = Config(allowVtxOffset: bool, fullscreen: Clip)

  // `base` is where index 0 points to, `cur` the next free index.
  datatype Pen = Pen(
    clips: seq<Clip>, texs: seq<int>, clip: Clip, tex: int,
    base: nat, cur: nat, vtx: seq<DrawVert>,
    channels: seq<seq<Event>>, current: nat)

  const NO_CLIP := Clip(0.0, 0.0, 0.0, 0.0)
  const INDEX_LIMIT: int := 0x10000

  function RMax(a: real, b: real): real {
    if a >= b then a else b
  }

  ghost predicate Ordered(c: Clip) {
    c.x <= c.z && c.y <= c.w
  }

  // The clip rectangle that a push puts in force.
  function Clipped(current: Clip, min: Vec2, max: Vec2, intersect: bool): (c: Clip)
    ensures Ordered(c)
    ensures intersect ==> current.x <= c.x && current.y <= c.y
    ensures intersect && Ordered(current) ==>
      && (c.z <= current.z || c.x == c.z) && (c.w <= current.w || c.y == c.w)
  {
    var x := if intersect && min.x < current.x then current.x else min.x;
    var y := if intersect && min.y < current.y then current.y else min.y;
    var z := if intersect && max.x > current.z then current.z else max.x;
    var w := if intersect && max.y > current.w then current.w else max.y;
    Clip(x, y, RMax(x, z), RMax(y, w))
  }

  // A point shows through the new rectangle exactly when it lies in the given one and, if
  // asked to intersect, in the current one too.
  lemma ClippedIsWindow(current: Clip, min: Vec2, max: Vec2, intersect: bool, x: real, y: real)
    ensures var c := Clipped(current, min, max, intersect);
            c.x <= x < c.z && c.y <= y < c.w <==>
              && min.x <= x < max.x && min.y <= y < max.y
              && (intersect ==> current.x <= x < current.z && current.y <= y < current.w)
  {
  }

  function Last<T>(s: seq<T>, default: T): T {
    if |s| == 0 then default else s[|s| - 1]
  }

  function Joined(channels: seq<seq<Event>>): seq<Event> {
    if |channels| == 0 then [] else Joined(channels[..|channels| - 1]) + channels[|channels| - 1]
  }

  // What a drawing call adds: vertices, triangles over them, for how many vertices it
  // makes room first, and by how much the next free index moves on.
  datatype Figure = Figure(vtx: seq<DrawVert>, tri: seq<nat>, room: nat, counted: nat)

  // The shapes count their vertices in 16 bits, except for the segments of a plain line.
  function FigureOf(op: Op): Option<Figure> {
    match op
    case Prim(vtx, tri, spareIdx, spareVtx) => Some(Figure(vtx, tri, |vtx| + spareVtx, |vtx|))
    case ConvexPoly(n, vtx, antiAliased) =>
      if n < 3 then None else Some(Figure(vtx, PolyTriangles(n, antiAliased), |vtx|, |vtx| % INDEX_LIMIT))
    case Polyline(n, closed, stroke, vtx) =>
      var style := StyleOf(stroke);
      if n < 2 then None else
        Some(Figure(vtx, Segments(style, n, SegmentCount(n, closed)), |vtx|,
                    if style.Plain? then |vtx| else |vtx| % INDEX_LIMIT))
    case _ => None
  }

  // Where the indices of a new figure count from: a figure that would not fit below the
  // index limit starts a new base, if it may.
  function StartsNewBase(pen: Pen, room: nat, config: Config): bool {
    pen.cur + room >= INDEX_LIMIT && config.allowVtxOffset
  }

  function BaseFor(pen: Pen, room: nat, config: Config): nat {
    if StartsNewBase(pen, room, config) then |pen.vtx| else pen.base
  }

  function CurFor(pen: Pen, room: nat, config: Config): nat {
    if StartsNewBase(pen, room, config) then 0 else pen.cur
  }

  // Where vertex number n of a figure is looked up: by a 16-bit index from the base, or
  // with `exact` where it was written.
  function Place(pen: Pen, room: nat, config: Config, n: nat, exact: bool): nat {
    if exact then |pen.vtx| + n
    else BaseFor(pen, room, config) + (CurFor(pen, room, config) + n) % INDEX_LIMIT
  }

  function FigureEvents(pen: Pen, f: Figure, config: Config, exact: bool): seq<Event> {
    seq(|f.tri|, k requires 0 <= k < |f.tri| => Vertex(pen.clip, pen.tex, Place(pen, f.room, config, f.tri[k], exact)))
  }

  function Emit(pen: Pen, e: seq<Event>): Pen
    requires pen.current < |pen.channels|
  {
    pen.(channels := pen.channels[pen.current := pen.channels[pen.current] + e])
  }

  // What the calls demand of their callers.
  ghost predicate Allowed(pen: Pen, op: Op) {
    && pen.current < |pen.channels|
    && match op
       case PopClip => |pen.clips| > 0
       case PopTexture => |pen.texs| > 0
       case Prim(vtx, tri, spareIdx, spareVtx) => Below(tri, |vtx|)
       case ConvexPoly(n, vtx, antiAliased) => n >= 3 ==> |vtx| == if antiAliased then 2 * n else n
       case Polyline(n, closed, stroke, vtx) => n >= 2 ==> |vtx| == LineVertices(StyleOf(stroke), n, closed)
       case Split(count) => pen.current == 0 && |pen.channels| == 1 && count >= 1
       case SetChannel(channel) => channel < |pen.channels|
       case _ => true
  }

  // Every figure draws its own vertices only.
  lemma FigureIsBelow(pen: Pen, op: Op)
    requires Allowed(pen, op) && FigureOf(op).Some?
    ensures Below(FigureOf(op).value.tri, |FigureOf(op).value.vtx|)
    ensures FigureOf(op).value.counted <= |FigureOf(op).value.vtx| <= FigureOf(op).value.room
  {
    hide PolyTriangles, Segments, LineVertices, StyleOf;
    match op
    case ConvexPoly(n, vtx, antiAliased) => PolyFits(n, antiAliased);
    case Polyline(n, closed, stroke, vtx) => LineFits(StyleOf(stroke), n, closed);
    case _ =>
  }

  function Draw(pen: Pen, f: Figure, config: Config, exact: bool): Pen
    requires pen.current < |pen.channels|
  {
    Emit(pen, FigureEvents(pen, f, config, exact)).(
      base := BaseFor(pen, f.room, config), cur := CurFor(pen, f.room, config) + f.counted, vtx := pen.vtx + f.vtx)
  }

  // One call; a call its caller may not make changes nothing.
  ghost function Play(pen: Pen, op: Op, config: Config, exact: bool): Pen {
    if !Allowed(pen, op) then pen else
    match op
    case PushClip(min, max, intersect) =>
      var c := Clipped(pen.clip, min, max, intersect);
      pen.(clips := pen.clips + [c], clip := c)
    case PopClip =>
      var rest := pen.clips[..|pen.clips| - 1];
      pen.(clips := rest, clip := Last(rest, config.fullscreen))
    case PushTexture(tex) => pen.(texs := pen.texs + [tex], tex := tex)
    case PopTexture =>
      var rest := pen.texs[..|pen.texs| - 1];
      pen.(texs := rest, tex := Last(rest, 0))
    case RunCallback(callback) => Emit(pen, [Called(callback)])
    case Split(count) => pen.(channels := pen.channels + seq(count - 1, _ => []))
    case SetChannel(channel) => pen.(current := channel)
    case Merge => if |pen.channels| <= 1 then pen else pen.(channels := [Joined(pen.channels)], current := 0)
    case _ => if FigureOf(op).Some? then Draw(pen, FigureOf(op).value, config, exact) else pen
  }

  const START := Pen([], [], NO_CLIP, 0, 0, 0, [], [[]], 0)

  // What a whole sequence of calls means.
  ghost function PlayAll(ops: seq<Op>, config: Config, exact: bool): Pen {
    if |ops| == 0 then START else Play(PlayAll(ops[..|ops| - 1], config, exact), ops[|ops| - 1], config, exact)
  }

  ghost predicate AllAllowed(ops: seq<Op>, config: Config) {
    forall n :: 0 <= n < |ops| ==> Allowed(PlayAll(ops[..n], config, true), ops[n])
  }

  // ---------- stacks

  // What is in force is on top of its stack.
  predicate OnTop(pen: Pen) {
    (|pen.clips| > 0 ==> pen.clip == pen.clips[|pen.clips| - 1]) && pen.tex == Last(pen.texs, 0)
  }

  lemma {:induction false} AlwaysOnTop(ops: seq<Op>, config: Config, exact: bool)
    ensures OnTop(PlayAll(ops, config, exact))
    decreases |ops|
  {
    hide Play, OnTop;
    if |ops| > 0 {
      AlwaysOnTop(ops[..|ops| - 1], config, exact);
      StaysOnTop(PlayAll(ops[..|ops| - 1], config, exact), ops[|ops| - 1], config, exact);
    } else {
      StartsOnTop();
    }
  }

  lemma StartsOnTop()
    ensures OnTop(START)
  {
  }

  lemma StaysOnTop(pen: Pen, op: Op, config: Config, exact: bool)
    requires OnTop(pen)
    ensures OnTop(Play(pen, op, config, exact))
  {
    hide FigureOf, FigureEvents, BaseFor, CurFor, Joined, Clipped, LineVertices, StyleOf, Below;
  }

  // After any run, a push and a pop bring back what was in force, but for the very first
  // clip rectangle, which gives way to that of the whole screen.
  lemma PopUndoesPush(ops: seq<Op>, config: Config, exact: bool, min: Vec2, max: Vec2, intersect: bool, tex: int)
    ensures var pen := PlayAll(ops, config, exact);
            && (|pen.channels| > pen.current ==>
                  Play(Play(pen, PushTexture(tex), config, exact), PopTexture, config, exact) == pen)
            && (|pen.channels| > pen.current ==>
                  Play(Play(pen, PushClip(min, max, intersect), config, exact), PopClip, config, exact)
                  == if |pen.clips| == 0 then pen.(clip := config.fullscreen) else pen)
  {
    hide PlayAll, Clipped;
    AlwaysOnTop(ops, config, exact);
    var pen := PlayAll(ops, config, exact);
    var c := Clipped(pen.clip, min, max, intersect);
    assert (pen.texs + [tex])[..|pen.texs|] == pen.texs && (pen.clips + [c])[..|pen.clips|] == pen.clips;
  }

  // ---------- when the indices in the buffer are right

  // The base and the next free index add up to the vertices written.
  predicate Level(pen: Pen) {
    pen.base + pen.cur == |pen.vtx|
  }

  // What the caller can see before the call: the figure starts a new base, or base and
  // next free index are level; and every index of it lies below the index limit.
  predicate Fits(pen: Pen, op: Op, config: Config) {
    FigureOf(op).Some? ==>
      var f := FigureOf(op).value;
      |f.tri| > 0 ==>
        && (StartsNewBase(pen, f.room, config) || Level(pen))
        && forall k :: 0 <= k < |f.tri| ==> CurFor(pen, f.room, config) + f.tri[k] < INDEX_LIMIT
  }

  // Two pens that differ at most in what has been emitted, not in how much.
  ghost predicate SameShape(p: Pen, q: Pen) {
    && q == p.(channels := q.channels)
    && |p.channels| == |q.channels|
    && forall i :: 0 <= i < |p.channels| ==> |p.channels[i]| == |q.channels[i]|
  }

  lemma {:induction false} JoinedShape(a: seq<seq<Event>>, b: seq<seq<Event>>)
    requires |a| == |b| && forall i :: 0 <= i < |a| ==> |a[i]| == |b[i]|
    ensures |Joined(a)| == |Joined(b)|
    ensures Joined(a) == Joined(b) <==> a == b
    decreases |a|
  {
    if |a| > 0 {
      var n := |a| - 1;
      JoinedShape(a[..n], b[..n]);
      PairsEqual(Joined(a[..n]), a[n], Joined(b[..n]), b[n]);
      assert a == a[..n] + [a[n]] && b == b[..n] + [b[n]];
    }
  }

  lemma PairsEqual<T>(a: seq<T>, a': seq<T>, b: seq<T>, b': seq<T>)
    requires |a| == |b|
    ensures a + a' == b + b' <==> a == b && a' == b'
  {
    if a + a' == b + b' {
      assert a == (a + a')[..|a|] && b == (b + b')[..|a|];
      assert a' == (a + a')[|a|..] && b' == (b + b')[|a|..];
    }
  }

  lemma PlaceIsRight(pen: Pen, f: Figure, config: Config, n: nat)
    requires pen.base + pen.cur <= |pen.vtx|
    ensures Place(pen, f.room, config, n, false) <= Place(pen, f.room, config, n, true)
    ensures Place(pen, f.room, config, n, false) == Place(pen, f.room, config, n, true)
       <==> (StartsNewBase(pen, f.room, config) || Level(pen)) && CurFor(pen, f.room, config) + n < 0x10000
  {
  }

  lemma FigureEventsAgree(pen: Pen, op: Op, config: Config)
    requires FigureOf(op).Some? && pen.base + pen.cur <= |pen.vtx|
    ensures var f := FigureOf(op).value;
            FigureEvents(pen, f, config, false) == FigureEvents(pen, f, config, true) <==> Fits(pen, op, config)
  {
    hide FigureOf, Level, Place;
    var f := FigureOf(op).value;
    var e, x := FigureEvents(pen, f, config, false), FigureEvents(pen, f, config, true);
    forall k | 0 <= k < |f.tri|
      ensures e[k] == x[k] <==>
              (StartsNewBase(pen, f.room, config) || Level(pen)) && CurFor(pen, f.room, config) + f.tri[k] < INDEX_LIMIT
    {
      PlaceIsRight(pen, f, config, f.tri[k]);
    }
    if e == x {
      assert |f.tri| > 0 ==> e[0] == x[0];
      forall k | 0 <= k < |f.tri| ensures CurFor(pen, f.room, config) + f.tri[k] < INDEX_LIMIT {
        assert e[k] == x[k];
      }
    }
  }

  // One call keeps the shape, and draws right exactly when it fits.
  lemma PlayAgrees(p: Pen, q: Pen, op: Op, config: Config)
    requires SameShape(p, q) && Allowed(p, op) && p.base + p.cur <= |p.vtx|
    ensures SameShape(Play(p, op, config, false), Play(q, op, config, true))
    ensures Play(p, op, config, false) == Play(q, op, config, true) <==> p == q && Fits(p, op, config)
  {
    hide FigureOf, FigureEvents, Fits, Clipped, LineVertices, StyleOf, Below;
    SameShapeSameRules(p, q, op, config);
    NoFigure(p, op, config);
    match op
    case RunCallback(callback) => EmitAgrees(p, q, [Called(callback)], [Called(callback)]);
    case Merge => JoinedShape(p.channels, q.channels);
    case Split(count) =>
      var more := seq(count - 1, _ => []);
      assert (p.channels + more)[..|p.channels|] == p.channels && (q.channels + more)[..|q.channels|] == q.channels;
    case _ =>
      if FigureOf(op).Some? {
        FigureAgrees(p, q, op, config);
      }
  }

  lemma NoFigure(pen: Pen, op: Op, config: Config)
    ensures !op.Prim? && !op.ConvexPoly? && !op.Polyline? ==> FigureOf(op).None?
    ensures FigureOf(op).None? ==> Fits(pen, op, config)
  {
  }

  lemma FigureAgrees(p: Pen, q: Pen, op: Op, config: Config)
    requires SameShape(p, q) && p.current < |p.channels| && p.base + p.cur <= |p.vtx| && FigureOf(op).Some?
    ensures var f := FigureOf(op).value;
            && SameShape(Draw(p, f, config, false), Draw(q, f, config, true))
            && (Draw(p, f, config, false) == Draw(q, f, config, true) <==> p == q && Fits(p, op, config))
  {
    hide FigureOf, Fits, Level, Place;
    var f := FigureOf(op).value;
    SameEvents(p, q, f, config);
    FigureEventsAgree(p, op, config);
    EmitAgrees(p, q, FigureEvents(p, f, config, false), FigureEvents(q, f, config, true));
  }

  lemma SameEvents(p: Pen, q: Pen, f: Figure, config: Config)
    requires SameShape(p, q)
    ensures FigureEvents(p, f, config, true) == FigureEvents(q, f, config, true)
  {
  }

  lemma EmitAgrees(p: Pen, q: Pen, e: seq<Event>, f: seq<Event>)
    requires SameShape(p, q) && p.current < |p.channels| && |e| == |f|
    ensures SameShape(Emit(p, e), Emit(q, f))
    ensures Emit(p, e).channels == Emit(q, f).channels <==> p.channels == q.channels && e == f
  {
    var c, d := p.channels[p.current], q.channels[p.current];
    PairsEqual(c, e, d, f);
    if Emit(p, e).channels == Emit(q, f).channels {
      assert Emit(p, e).channels[p.current] == Emit(q, f).channels[p.current];
      forall i | 0 <= i < |p.channels| ensures p.channels[i] == q.channels[i] {
        assert i != p.current ==> Emit(p, e).channels[i] == Emit(q, f).channels[i];
      }
    }
  }

  ghost predicate AllFit(ops: seq<Op>, config: Config) {
    forall n :: 0 <= n < |ops| ==> Fits(PlayAll(ops[..n], config, true), ops[n], config)
  }

  lemma SameShapeSameRules(p: Pen, q: Pen, op: Op, config: Config)
    requires SameShape(p, q)
    ensures Allowed(p, op) <==> Allowed(q, op)
    ensures Fits(p, op, config) <==> Fits(q, op, config)
  {
    hide FigureOf, LineVertices, StyleOf, Below;
  }

  lemma RulesOfPrefix(ops: seq<Op>, config: Config)
    requires |ops| > 0
    ensures var n := |ops| - 1; var q := PlayAll(ops[..n], config, true);
            && (AllAllowed(ops, config) <==> AllAllowed(ops[..n], config) && Allowed(q, ops[n]))
            && (AllFit(ops, config) <==> AllFit(ops[..n], config) && Fits(q, ops[n], config))
  {
    hide PlayAll, Allowed, Fits;
    assert forall m :: 0 <= m < |ops| ==> ops[..|ops| - 1][..m] == ops[..m];
  }

  // A whole run is drawn right exactly when each of its calls fits.
  lemma {:induction false} RunsAgree(ops: seq<Op>, config: Config)
    requires AllAllowed(ops, config)
    ensures SameShape(PlayAll(ops, config, false), PlayAll(ops, config, true))
    ensures PlayAll(ops, config, false) == PlayAll(ops, config, true) <==> AllFit(ops, config)
    decreases |ops|
  {
    hide Play, Allowed, AllAllowed, Fits, SameShape;
    if |ops| > 0 {
      var n := |ops| - 1;
      RulesOfPrefix(ops, config);
      RunsAgree(ops[..n], config);
      var p, q := PlayAll(ops[..n], config, false), PlayAll(ops[..n], config, true);
      SameShapeSameRules(p, q, ops[n], config);
      NeverAhead(ops[..n], config, false);
      PlayAgrees(p, q, ops[n], config);
    } else {
      SameAtStart();
    }
  }

  lemma SameAtStart()
    ensures SameShape(START, START)
  {
  }

  // ---------- base and next free index

  // A call leaves base and next free index level exactly when they were, or a new base
  // is started, and all new vertices are counted.
  lemma LevelIff(pen: Pen, op: Op, config: Config, exact: bool)
    requires Allowed(pen, op) && pen.base + pen.cur <= |pen.vtx|
    ensures var next := Play(pen, op, config, exact);
            && next.base + next.cur <= |next.vtx|
            && (FigureOf(op).None? ==> (next.base, next.cur, next.vtx) == (pen.base, pen.cur, pen.vtx))
            && (FigureOf(op).Some? ==>
                  var f := FigureOf(op).value;
                  && (Level(next) <==> (Level(pen) || StartsNewBase(pen, f.room, config)) && f.counted == |f.vtx|)
                  && next.base == BaseFor(pen, f.room, config) && next.cur == CurFor(pen, f.room, config) + f.counted
                  && next.vtx == pen.vtx + f.vtx)
  {
    hide FigureOf, FigureEvents, Joined, Clipped, LineVertices, StyleOf, Below;
    NoFigure(pen, op, config);
    if FigureOf(op).Some? {
      FigureIsBelow(pen, op);
    }
  }

  // A shape loses count of its vertices exactly from 65536 on; a primitive and a plain
  // line never do.
  lemma CountedIff(op: Op)
    requires FigureOf(op).Some?
    ensures var f := FigureOf(op).value;
            f.counted == |f.vtx| <==>
              op.Prim? || (op.Polyline? && !op.stroke.antiAliased) || |f.vtx| < 0x10000
  {
    hide PolyTriangles, Segments;
  }

  lemma {:induction false} NeverAhead(ops: seq<Op>, config: Config, exact: bool)
    ensures var pen := PlayAll(ops, config, exact); pen.base + pen.cur <= |pen.vtx|
    decreases |ops|
  {
    hide Play, Allowed;
    if |ops| > 0 {
      var pen := PlayAll(ops[..|ops| - 1], config, exact);
      NeverAhead(ops[..|ops| - 1], config, exact);
      if Allowed(pen, ops[|ops| - 1]) {
        LevelIff(pen, ops[|ops| - 1], config, exact);
      } else {
        NotAllowed(pen, ops[|ops| - 1], config, exact);
      }
    }
  }

  lemma NotAllowed(pen: Pen, op: Op, config: Config, exact: bool)
    requires !Allowed(pen, op)
    ensures Play(pen, op, config, exact) == pen
  {
  }

  // No shape loses count of its vertices.
  predicate AllCounted(ops: seq<Op>) {
    forall n :: 0 <= n < |ops| && FigureOf(ops[n]).Some? ==> FigureOf(ops[n]).value.counted == |FigureOf(ops[n]).value.vtx|
  }

  // Then base and next free index are level at every call boundary.
  lemma {:induction false} AlwaysLevel(ops: seq<Op>, config: Config, n: nat)
    requires AllAllowed(ops, config) && AllCounted(ops) && n <= |ops|
    ensures Level(PlayAll(ops[..n], config, true))
    decreases n
  {
    hide Play, Allowed, FigureOf;
    if n > 0 {
      AlwaysLevel(ops, config, n - 1);
      OneMore(ops, config, n - 1);
    }
  }

  lemma OneMore(ops: seq<Op>, config: Config, n: nat)
    requires AllAllowed(ops, config) && n < |ops|
    ensures PlayAll(ops[..n + 1], config, true) == Play(PlayAll(ops[..n], config, true), ops[n], config, true)
    ensures var pen, next := PlayAll(ops[..n], config, true), PlayAll(ops[..n + 1], config, true);
            && Allowed(pen, ops[n]) && pen.base + pen.cur <= |pen.vtx|
            && (FigureOf(ops[n]).None? ==> (next.base, next.cur, next.vtx) == (pen.base, pen.cur, pen.vtx))
            && (FigureOf(ops[n]).Some? ==>
                  var f := FigureOf(ops[n]).value;
                  && (Level(next) <==> (Level(pen) || StartsNewBase(pen, f.room, config)) && f.counted == |f.vtx|)
                  && next.base == BaseFor(pen, f.room, config) && next.vtx == pen.vtx + f.vtx)
  {
    hide Play, Allowed, FigureOf;
    assert ops[..n + 1][..n] == ops[..n];
    NeverAhead(ops[..n], config, true);
    LevelIff(PlayAll(ops[..n], config, true), ops[n], config, true);
  }

  // ---------- what the arguments of the calls say about it

  // With vertex offsets a run is drawn right exactly when every figure numbers its
  // vertices below 65536 and none is drawn where base and next free index have lost step.
  lemma OffsetsFitIff(ops: seq<Op>, config: Config)
    requires AllAllowed(ops, config) && config.allowVtxOffset
    ensures AllFit(ops, config) <==>
              forall n :: 0 <= n < |ops| && FigureOf(ops[n]).Some? ==>
                var f, pen := FigureOf(ops[n]).value, PlayAll(ops[..n], config, true);
                Below(f.tri, INDEX_LIMIT) && (|f.tri| > 0 ==> StartsNewBase(pen, f.room, config) || Level(pen))
  {
    hide Allowed, FigureOf, PlayAll, Below;
    forall n | 0 <= n < |ops| && FigureOf(ops[n]).Some?
      ensures var f, pen := FigureOf(ops[n]).value, PlayAll(ops[..n], config, true);
              Fits(pen, ops[n], config) <==>
                Below(f.tri, INDEX_LIMIT) && (|f.tri| > 0 ==> StartsNewBase(pen, f.room, config) || Level(pen))
    {
      FitsWithOffsets(PlayAll(ops[..n], config, true), ops[n], config);
    }
    forall n | 0 <= n < |ops| && FigureOf(ops[n]).None? ensures Fits(PlayAll(ops[..n], config, true), ops[n], config) {
      NoFigure(PlayAll(ops[..n], config, true), ops[n], config);
    }
  }

  lemma FitsWithOffsets(pen: Pen, op: Op, config: Config)
    requires Allowed(pen, op) && config.allowVtxOffset && FigureOf(op).Some?
    ensures var f := FigureOf(op).value;
            Fits(pen, op, config) <==>
              Below(f.tri, INDEX_LIMIT) && (|f.tri| > 0 ==> StartsNewBase(pen, f.room, config) || Level(pen))
  {
    hide FigureOf, Allowed;
    FigureIsBelow(pen, op);
  }

  // While no shape loses count the first condition is all there is.
  lemma CountedOffsetsFitIff(ops: seq<Op>, config: Config)
    requires AllAllowed(ops, config) && config.allowVtxOffset && AllCounted(ops)
    ensures AllFit(ops, config) <==>
              forall n :: 0 <= n < |ops| && FigureOf(ops[n]).Some? ==> Below(FigureOf(ops[n]).value.tri, INDEX_LIMIT)
  {
    hide Allowed, FigureOf, PlayAll, Below, AllFit, AllAllowed;
    OffsetsFitIff(ops, config);
    forall n | 0 <= n < |ops| ensures Level(PlayAll(ops[..n], config, true)) {
      AlwaysLevel(ops, config, n);
    }
  }

  // With vertex offsets, figures of less than 65536 vertices are always drawn right,
  // however many there are.
  lemma SmallFiguresFit(ops: seq<Op>, config: Config)
    requires AllAllowed(ops, config) && config.allowVtxOffset
    requires forall n :: 0 <= n < |ops| && FigureOf(ops[n]).Some? ==> |FigureOf(ops[n]).value.vtx| < INDEX_LIMIT
    ensures AllFit(ops, config) && PlayAll(ops, config, false) == PlayAll(ops, config, true)
  {
    hide Allowed, FigureOf, PlayAll, AllFit;
    forall n | 0 <= n < |ops| && FigureOf(ops[n]).Some?
      ensures FigureOf(ops[n]).value.counted == |FigureOf(ops[n]).value.vtx|
      ensures Below(FigureOf(ops[n]).value.tri, INDEX_LIMIT)
    {
      CountedIff(ops[n]);
      FigureIsBelow(PlayAll(ops[..n], config, true), ops[n]);
    }
    CountedOffsetsFitIff(ops, config);
    RunsAgree(ops, config);
  }

  // Nor does the next free index itself ever need more than 16 bits.
  lemma {:induction false} NextIndexFits(ops: seq<Op>, config: Config, n: nat)
    requires AllAllowed(ops, config) && config.allowVtxOffset && n <= |ops|
    requires forall m :: 0 <= m < |ops| && FigureOf(ops[m]).Some? ==> |FigureOf(ops[m]).value.vtx| < INDEX_LIMIT
    ensures PlayAll(ops[..n], config, true).cur < 0x10000
    decreases n
  {
    hide Play, Allowed, FigureOf;
    if n > 0 {
      NextIndexFits(ops, config, n - 1);
      assert ops[..n][..n - 1] == ops[..n - 1];
      var pen := PlayAll(ops[..n - 1], config, true);
      NeverAhead(ops[..n - 1], config, true);
      LevelIff(pen, ops[n - 1], config, true);
      if FigureOf(ops[n - 1]).Some? {
        FigureIsBelow(pen, ops[n - 1]);
      }
    }
  }

  // The vertices that a run writes.
  function Written(ops: seq<Op>): nat {
    if |ops| == 0 then 0 else
      Written(ops[..|ops| - 1])
      + if FigureOf(ops[|ops| - 1]).Some? then |FigureOf(ops[|ops| - 1]).value.vtx| else 0
  }

  // Without vertex offsets the base never moves, and up to 65535 vertices are in step.
  lemma {:induction false} StepsWithoutOffsets(ops: seq<Op>, config: Config, n: nat)
    requires AllAllowed(ops, config) && !config.allowVtxOffset && n <= |ops|
    ensures var pen := PlayAll(ops[..n], config, true);
            pen.base == 0 && |pen.vtx| == Written(ops[..n]) && (Written(ops[..n]) < INDEX_LIMIT ==> Level(pen))
    decreases n
  {
    hide Play, Allowed, FigureOf, AllAllowed;
    if n > 0 {
      StepsWithoutOffsets(ops, config, n - 1);
      OneMore(ops, config, n - 1);
      assert ops[..n][..n - 1] == ops[..n - 1];
      if FigureOf(ops[n - 1]).Some? {
        CountedIff(ops[n - 1]);
      }
    }
  }

  predicate CountsBelow(op: Op, written: nat) {
    FigureOf(op).Some? ==>
      forall k :: 0 <= k < |FigureOf(op).value.tri| ==> written + FigureOf(op).value.tri[k] < INDEX_LIMIT
  }

  lemma FitsWithoutOffsets(pen: Pen, op: Op, config: Config)
    requires !config.allowVtxOffset && pen.base == 0 && (|pen.vtx| < INDEX_LIMIT ==> Level(pen))
    ensures Fits(pen, op, config) <==> CountsBelow(op, |pen.vtx|)
  {
    hide FigureOf;
    if FigureOf(op).Some? && |FigureOf(op).value.tri| > 0 && CountsBelow(op, |pen.vtx|) {
      assert |pen.vtx| + FigureOf(op).value.tri[0] < INDEX_LIMIT;
    }
  }

  // Without vertex offsets a run is drawn right exactly when no vertex number, counted
  // from the start of the list, reaches 65536 in a triangle.
  lemma NoOffsetsFitIff(ops: seq<Op>, config: Config)
    requires AllAllowed(ops, config) && !config.allowVtxOffset
    ensures AllFit(ops, config) <==> forall n :: 0 <= n < |ops| ==> CountsBelow(ops[n], Written(ops[..n]))
  {
    hide Allowed, FigureOf, PlayAll, Written, AllAllowed, Fits, CountsBelow, Level;
    forall n | 0 <= n < |ops|
      ensures Fits(PlayAll(ops[..n], config, true), ops[n], config) <==> CountsBelow(ops[n], Written(ops[..n]))
    {
      StepsWithoutOffsets(ops, config, n);
      FitsWithoutOffsets(PlayAll(ops[..n], config, true), ops[n], config);
    }
  }

  // ---------- runs that are drawn wrong

  const BLANK := DrawVert(Vec2(0.0, 0.0), Vec2(0.0, 0.0), 0)

  // Without vertex offsets, a primitive that names its vertex 65536.
  lemma IndexIsCut(config: Config)
    requires !config.allowVtxOffset
    ensures var ops := [Prim(seq(INDEX_LIMIT + 1, _ => BLANK), [INDEX_LIMIT], 0, 0)];
            AllAllowed(ops, config) && PlayAll(ops, config, false) != PlayAll(ops, config, true)
  {
    hide Play;
    var ops := [Prim(seq(INDEX_LIMIT + 1, _ => BLANK), [INDEX_LIMIT], 0, 0)];
    assert ops[..0] == [];
    assert AllAllowed(ops, config);
    NoOffsetsFitIff(ops, config);
    assert Written(ops[..0]) + FigureOf(ops[0]).value.tri[0] == INDEX_LIMIT;
    RunsAgree(ops, config);
  }

  // Even with vertex offsets, a triangle after a polygon of 65536 corners, though every
  // vertex number is below 65536.
  lemma StepIsLost(config: Config)
    requires config.allowVtxOffset
    ensures var ops := [ConvexPoly(INDEX_LIMIT, seq(INDEX_LIMIT, _ => BLANK), false), Prim([BLANK, BLANK, BLANK], [0, 1, 2], 0, 0)];
            && AllAllowed(ops, config)
            && (forall n :: 0 <= n < |ops| ==> FigureOf(ops[n]).Some? && Below(FigureOf(ops[n]).value.tri, INDEX_LIMIT))
            && PlayAll(ops, config, false) != PlayAll(ops, config, true)
  {
    hide Play, PolyTriangles, FigureEvents;
    var poly, tri := ConvexPoly(INDEX_LIMIT, seq(INDEX_LIMIT, _ => BLANK), false), Prim([BLANK, BLANK, BLANK], [0, 1, 2], 0, 0);
    var ops := [poly, tri];
    assert ops[..0] == [] && ops[..1] == [poly];
    var pen := Play(START, poly, config, true);
    LevelIff(START, poly, config, true);
    assert PlayAll(ops[..1], config, true) == pen by {
      assert [poly][..0] == [];
      assert PlayAll([poly], config, true) == Play(PlayAll([poly][..0], config, true), poly, config, true);
    }
    PolyKeepsChannels(START, poly, config);
    FigureIsBelow(START, poly);
    assert !Fits(PlayAll(ops[..1], config, true), tri, config);
    assert AllAllowed(ops, config);
    RunsAgree(ops, config);
  }

  lemma PolyKeepsChannels(pen: Pen, op: Op, config: Config)
    requires pen.current < |pen.channels| && op.ConvexPoly?
    ensures var next := Play(pen, op, config, true); next.current < |next.channels|
  {
    hide FigureEvents;
  }
}
