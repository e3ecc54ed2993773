/**
 Printer and decoder undo each other, and damage to one frame costs that frame only.
 */
module ProtocolLaws {
  import opened CrcLaws
  import opened Crc
  import opened Protocol

  // ---------- one frame

  ghost predicate Registered(q: Request, registry: Registry) {
    |q.body| < 256 && q.command in registry && registry[q.command] == |q.body|
  }

  lemma FrameParts(q: Request)
    requires |q.body| < 256
    ensures Encode(q) == [SOF] + HeaderOf(q) + (q.body + Tail(Crc16([SOF] + HeaderOf(q) + q.body)))
    ensures CommandIn(HeaderOf(q)) == q.command && HeaderOf(q)[0] as nat == |q.body|
    ensures Intact(Encode(q))
  {
    hide Crc16, Intact, Tail, WordOf, LowByte, HighByte;
    WordsAreBytes(LowByte(q.command), HighByte(q.command), q.command);
    IntactIffTail([SOF] + HeaderOf(q) + q.body, Tail(Crc16([SOF] + HeaderOf(q) + q.body)));
  }

  // What the decoder makes of an announced frame: delivered if intact, dropped if not.
  lemma DecodeFrame(header: seq<bv8>, rest: seq<bv8>, registry: Registry)
    requires |header| == 3 && CommandIn(header) in registry && registry[CommandIn(header)] == header[0] as nat
    requires |rest| == header[0] as nat + 2
    ensures Decode(AwaitSof, [SOF] + header + rest, registry) == AfterBody(header, rest)
  {
    hide Decode, Take, AfterBody, CommandIn;
    DecodeJoin(AwaitSof, [SOF], header + rest, registry);
    DecodeStart(registry);
    DecodeJoin(AwaitHeader([]), header, rest, registry);
    CollectHeader([], header, registry);
    assert [] + header == header && [] + rest == rest;
    CollectBody(header, [], rest, registry);
    assert [SOF] + header + rest == [SOF] + (header + rest);
  }

  lemma DecodeStart(registry: Registry)
    ensures Decode(AwaitSof, [SOF], registry) == Outcome(AwaitHeader([]), [])
  {
    DecodeOne(AwaitSof, SOF, registry);
  }

  lemma DecodeEncoded(q: Request, registry: Registry)
    requires Registered(q, registry)
    ensures Decode(AwaitSof, Encode(q), registry) == Outcome(AwaitSof, [q])
  {
    hide Decode, Intact, Crc16, Tail, HeaderOf, CommandIn, Encode;
    FrameParts(q);
    var rest := q.body + Tail(Crc16([SOF] + HeaderOf(q) + q.body));
    DecodeFrame(HeaderOf(q), rest, registry);
    assert rest[..|q.body|] == q.body;
  }

  // ---------- whole streams

  // Noise without a start byte, an undamaged frame, or a frame damaged behind its
  // header so that its checksum shows it.
  datatype Part = Noise(bytes: seq<bv8>) | Frame(q: Request) | Damaged(q: Request, instead: seq<bv8>)

  ghost predicate Quiet(bytes: seq<bv8>) {
    forall k :: 0 <= k < |bytes| ==> bytes[k] != SOF
  }

  ghost predicate Sendable(p: Part, registry: Registry) {
    match p
    case Noise(bytes) => Quiet(bytes)
    case Frame(q) => Registered(q, registry)
    case Damaged(q, instead) =>
      && Registered(q, registry)
      && |instead| == |Encode(q)| && instead[..4] == Encode(q)[..4] && !Intact(instead)
  }

  function OnWire(p: Part): seq<bv8>
    requires !p.Noise? ==> |p.q.body| < 256
  {
    match p
    case Noise(bytes) => bytes
    case Frame(q) => Encode(q)
    case Damaged(q, instead) => instead
  }

  ghost predicate AllSendable(parts: seq<Part>, registry: Registry) {
    forall i :: 0 <= i < |parts| ==> Sendable(parts[i], registry)
  }

  ghost function Wire(parts: seq<Part>, registry: Registry): seq<bv8>
    requires AllSendable(parts, registry)
  {
    if |parts| == 0 then [] else OnWire(parts[0]) + Wire(parts[1..], registry)
  }

  // The requests in the undamaged frames.
  function Requests(parts: seq<Part>): seq<Request> {
    if |parts| == 0 then [] else (if parts[0].Frame? then [parts[0].q] else []) + Requests(parts[1..])
  }

  lemma {:induction false} DecodeQuiet(bytes: seq<bv8>, registry: Registry)
    requires Quiet(bytes)
    ensures Decode(AwaitSof, bytes, registry) == Outcome(AwaitSof, [])
    decreases |bytes|
  {
    if |bytes| > 0 {
      assert Quiet(bytes[1..]);
      DecodeQuiet(bytes[1..], registry);
    }
  }

  lemma DecodeDamaged(q: Request, instead: seq<bv8>, registry: Registry)
    requires Sendable(Damaged(q, instead), registry)
    ensures Decode(AwaitSof, instead, registry) == Outcome(AwaitSof, [])
  {
    hide Decode, Intact, Crc16, Tail, HeaderOf, CommandIn, Encode;
    FrameParts(q);
    assert Encode(q)[..4] == [SOF] + HeaderOf(q);
    assert instead == [SOF] + HeaderOf(q) + instead[4..];
    DecodeFrame(HeaderOf(q), instead[4..], registry);
  }

  // A stream of frames with noise between them delivers exactly the requests of the
  // undamaged frames, in order, and leaves the decoder waiting for the next frame.
  lemma {:induction false} StreamDelivers(parts: seq<Part>, registry: Registry)
    requires AllSendable(parts, registry)
    ensures Decode(AwaitSof, Wire(parts, registry), registry) == Outcome(AwaitSof, Requests(parts))
    decreases |parts|
  {
    hide Decode, Intact, Encode;
    if |parts| == 0 {
      DecodeNothing(AwaitSof, registry);
    } else {
      StreamDelivers(parts[1..], registry);
      DecodeJoin(AwaitSof, OnWire(parts[0]), Wire(parts[1..], registry), registry);
      match parts[0]
      case Noise(bytes) => DecodeQuiet(bytes, registry);
      case Frame(q) => DecodeEncoded(q, registry);
      case Damaged(q, instead) => DecodeDamaged(q, instead, registry);
    }
  }

  // Damage that no frame of this protocol survives: within sixteen consecutive bits, or
  // one, two, three or any odd number of flipped bits.
  ghost predicate Detected(f: seq<bv8>, g: seq<bv8>, at: int)
    requires |f| == |g|
  {
    || (f != g && SameOutside(BitsOf(f), BitsOf(g), at, 16))
    || Flips(BitsOf(f), BitsOf(g)) == 2
    || Flips(BitsOf(f), BitsOf(g)) % 2 == 1
  }

  // Such damage to body or tail costs exactly the frame it hits.
  lemma DamageCostsOneFrame(before: seq<Part>, q: Request, instead: seq<bv8>, after: seq<Part>, at: int, registry: Registry)
    requires AllSendable(before, registry) && AllSendable(after, registry) && Registered(q, registry)
    requires |instead| == |Encode(q)| && instead[..4] == Encode(q)[..4] && Detected(Encode(q), instead, at)
    ensures AllSendable(before + [Damaged(q, instead)] + after, registry)
    ensures Decode(AwaitSof, Wire(before, registry) + instead + Wire(after, registry), registry)
         == Outcome(AwaitSof, Requests(before) + Requests(after))
  {
    hide Decode, Intact, Encode, Detected, Wire, AllSendable, Requests;
    DamageShows(q, instead, at);
    PutTogether(before, Damaged(q, instead), after, registry);
    StreamDelivers(before + [Damaged(q, instead)] + after, registry);
    RequestsAround(before, Damaged(q, instead), after);
  }

  lemma RequestsAround(before: seq<Part>, p: Part, after: seq<Part>)
    requires !p.Frame?
    ensures Requests(before + [p] + after) == Requests(before) + Requests(after)
  {
    hide Requests;
    RequestsJoin(before + [p], after);
    RequestsJoin(before, [p]);
    RequestsOfNone(p);
  }

  lemma RequestsOfNone(p: Part)
    requires !p.Frame?
    ensures Requests([p]) == []
  {
  }

  lemma DamageShows(q: Request, instead: seq<bv8>, at: int)
    requires |q.body| < 256 && |instead| == |Encode(q)| && Detected(Encode(q), instead, at)
    ensures !Intact(instead)
  {
    hide Intact, Encode, BitsOf, Flips, SameOutside;
    FrameParts(q);
    if Flips(BitsOf(Encode(q)), BitsOf(instead)) % 2 == 1 {
      OddFlipsAreCaught(Encode(q), instead);
    } else if Flips(BitsOf(Encode(q)), BitsOf(instead)) == 2 {
      TwoFlipsAreCaught(Encode(q), instead);
    } else {
      BurstIsCaught(Encode(q), instead, at);
    }
  }

  lemma PutTogether(before: seq<Part>, p: Part, after: seq<Part>, registry: Registry)
    requires AllSendable(before, registry) && AllSendable(after, registry) && Sendable(p, registry)
    ensures AllSendable(before + [p] + after, registry)
    ensures Wire(before + [p] + after, registry) == Wire(before, registry) + OnWire(p) + Wire(after, registry)
  {
    hide Encode, Wire, OnWire, Sendable;
    assert AllSendable([p], registry) && AllSendable(before + [p], registry);
    WireJoin(before + [p], after, registry);
    WireJoin(before, [p], registry);
    WireOfOne(p, registry);
  }

  lemma WireOfOne(p: Part, registry: Registry)
    requires AllSendable([p], registry) && Sendable(p, registry)
    ensures Wire([p], registry) == OnWire(p)
  {
    hide OnWire, Sendable;
    assert [p][1..] == [];
    assert Wire([p][1..], registry) == [];
  }

  lemma {:induction false} WireJoin(a: seq<Part>, b: seq<Part>, registry: Registry)
    requires AllSendable(a, registry) && AllSendable(b, registry)
    ensures AllSendable(a + b, registry) && Wire(a + b, registry) == Wire(a, registry) + Wire(b, registry)
    decreases |a|
  {
    hide OnWire, Sendable;
    if |a| == 0 {
      assert a + b == b;
    } else {
      assert (a + b)[0] == a[0] && (a + b)[1..] == a[1..] + b;
      WireJoin(a[1..], b, registry);
    }
  }

  lemma {:induction false} RequestsJoin(a: seq<Part>, b: seq<Part>)
    ensures Requests(a + b) == Requests(a) + Requests(b)
    decreases |a|
  {
    if |a| == 0 {
      assert a + b == b;
    } else {
      assert (a + b)[0] == a[0] && (a + b)[1..] == a[1..] + b;
      RequestsJoin(a[1..], b);
    }
  }

  // ---------- back in step

  // How many more bytes the decoder may want before it waits for a start byte again.
  function Wanted(m: Mode, maxBody: nat): nat {
    match m
    case AwaitHeader(got) => if |got| < 3 then 3 - |got| + maxBody + 2 else 0
    case AwaitBody(header, got) =>
      if |header| == 3 && |got| < header[0] as nat + 2 then header[0] as nat + 2 - |got| else 0
    case _ => 0
  }

  ghost predicate Largest(maxBody: nat, registry: Registry) {
    forall c :: c in registry && registry[c] < 256 ==> registry[c] <= maxBody
  }

  ghost predicate Reachable(m: Mode, maxBody: nat) {
    Possible(m) && !m.Stopped? && (m.AwaitBody? ==> m.header[0] as nat <= maxBody)
  }

  lemma WantedLess(m: Mode, b: bv8, maxBody: nat, registry: Registry)
    requires Reachable(m, maxBody) && Largest(maxBody, registry) && b != SOF
    ensures var m' := Take(m, b, registry).mode;
            Reachable(m', maxBody) && (m'.AwaitSof? || Wanted(m', maxBody) < Wanted(m, maxBody))
  {
    hide Intact;
    if m.AwaitHeader? && |m.got| == 2 {
      HeaderFits(m.got + [b], maxBody, registry);
    }
  }

  lemma HeaderFits(header: seq<bv8>, maxBody: nat, registry: Registry)
    requires |header| == 3 && Largest(maxBody, registry)
    ensures AfterHeader(header, registry).AwaitBody? ==> header[0] as nat <= maxBody
  {
    SmallByte(header[0]);
  }

  // Whatever the decoder was in the middle of, a header and a largest body with tail of
  // bytes that are no start byte bring it back to waiting for one.
  lemma {:induction false} BackInStep(m: Mode, bytes: seq<bv8>, maxBody: nat, registry: Registry)
    requires Reachable(m, maxBody) && Largest(maxBody, registry) && Quiet(bytes)
    requires |bytes| >= Wanted(m, maxBody)
    ensures Decode(m, bytes, registry).mode == AwaitSof
    decreases |bytes|
  {
    hide Take;
    if m.AwaitSof? {
      DecodeQuiet(bytes, registry);
    } else {
      SomethingWanted(m, maxBody);
      assert Quiet(bytes[1..]) && bytes[0] != SOF;
      WantedLess(m, bytes[0], maxBody, registry);
      var m' := Take(m, bytes[0], registry).mode;
      assert m'.AwaitSof? ==> Wanted(m', maxBody) == 0;
      BackInStep(m', bytes[1..], maxBody, registry);
    }
  }

  lemma SomethingWanted(m: Mode, maxBody: nat)
    requires Reachable(m, maxBody)
    ensures m.AwaitSof? || 0 < Wanted(m, maxBody) <= 3 + maxBody + 2
  {
  }

  lemma {:induction false} ReachableStays(m: Mode, bytes: seq<bv8>, maxBody: nat, registry: Registry)
    requires Reachable(m, maxBody) && Largest(maxBody, registry)
    ensures Reachable(Decode(m, bytes, registry).mode, maxBody)
    decreases |bytes|
  {
    hide Intact, AfterHeader;
    if |bytes| > 0 {
      if m.AwaitHeader? && |m.got| == 2 {
        HeaderFits(m.got + [bytes[0]], maxBody, registry);
        HeaderLeads(m.got + [bytes[0]], registry);
      }
      ReachableStays(Take(m, bytes[0], registry).mode, bytes[1..], maxBody, registry);
    }
  }

  lemma HeaderLeads(header: seq<bv8>, registry: Registry)
    requires |header| == 3
    ensures AfterHeader(header, registry) == AwaitSof || AfterHeader(header, registry) == AwaitBody(header, [])
  {
  }

  // After any bytes at all, a long enough pause and then frames: every frame sent after
  // the pause is delivered.
  lemma FramesAfterPause(before: seq<bv8>, pause: seq<bv8>, after: seq<Part>, maxBody: nat, registry: Registry)
    requires Largest(maxBody, registry) && Quiet(pause) && |pause| >= 3 + maxBody + 2 && AllSendable(after, registry)
    ensures var early := Decode(AwaitSof, before + pause, registry).delivered;
            Decode(AwaitSof, before + pause + Wire(after, registry), registry) == Outcome(AwaitSof, early + Requests(after))
  {
    hide Decode, Wire, Quiet, Largest, AllSendable;
    ReachableStays(AwaitSof, before, maxBody, registry);
    var m := Decode(AwaitSof, before, registry).mode;
    SomethingWanted(m, maxBody);
    BackInStep(m, pause, maxBody, registry);
    DecodeJoin(AwaitSof, before, pause, registry);
    DecodeJoin(AwaitSof, before + pause, Wire(after, registry), registry);
    StreamDelivers(after, registry);
  }

  // ---------- failing reads

  // A read that fails inside a frame costs that frame only: everything sent after it is
  // delivered.  A read that fails between frames is the end.
  lemma FailureCostsOneFrame(m: Mode, after: seq<Part>, bytes: seq<bv8>, registry: Registry)
    requires Possible(m) && AllSendable(after, registry)
    ensures m.AwaitHeader? || m.AwaitBody? ==>
              Decode(Fail(m), Wire(after, registry), registry) == Outcome(AwaitSof, Requests(after))
    ensures m.AwaitSof? || m.Stopped? ==> Decode(Fail(m), bytes, registry) == Outcome(Stopped, [])
  {
    hide Wire, Requests;
    StreamDelivers(after, registry);
    StoppedStays(bytes, registry);
  }

  lemma {:induction false} StoppedStays(bytes: seq<bv8>, registry: Registry)
    ensures Decode(Stopped, bytes, registry) == Outcome(Stopped, [])
    decreases |bytes|
  {
    if |bytes| > 0 {
      StoppedStays(bytes[1..], registry);
    }
  }

  // ---------- nothing is made up

  ghost predicate FrameAt(stream: seq<bv8>, start: nat, q: Request) {
    |q.body| < 256 && start + |Encode(q)| <= |stream| && stream[start..start + |Encode(q)|] == Encode(q)
  }

  // The requests stand in the stream, each at its start, in order and apart, all before
  // position `end`.
  ghost predicate FoundAt(stream: seq<bv8>, starts: seq<nat>, qs: seq<Request>, end: nat) {
    && |starts| == |qs|
    && (forall i :: 0 <= i < |qs| ==> FrameAt(stream, starts[i], qs[i]))
    && (forall i :: 0 <= i < |qs| - 1 ==> starts[i] + |qs[i].body| + 6 <= starts[i + 1])
    && (|qs| > 0 ==> starts[|qs| - 1] + |qs[|qs| - 1].body| + 6 <= end)
  }

  // The bytes of the frame being collected.
  function Pending(m: Mode): seq<bv8> {
    match m
    case AwaitHeader(got) => [SOF] + got
    case AwaitBody(header, got) => [SOF] + header + got
    case _ => []
  }

  lemma LengthOf(b: bv8)
    ensures b as nat < 256 && LengthByte(b as nat) == b
  {
    SmallByte(b);
    assert (b as nat) as bv8 == b;
  }

  lemma HeaderIs(header: seq<bv8>, body: seq<bv8>)
    requires |header| == 3 && |body| == header[0] as nat
    ensures |body| < 256 && HeaderOf(Request(CommandIn(header), body)) == header
  {
    hide WordOf, LowByte, HighByte, LengthByte;
    LengthOf(header[0]);
    WordsAreBytes(header[1], header[2], CommandIn(header));
  }

  // An intact frame is the encoding of what it delivers.
  lemma IntactIsEncoded(header: seq<bv8>, body: seq<bv8>)
    requires |header| == 3 && |body| == header[0] as nat + 2 && Intact([SOF] + header + body)
    ensures var q := Request(CommandIn(header), body[..header[0] as nat]);
            |q.body| < 256 && Encode(q) == [SOF] + header + body
  {
    hide Crc16, Intact, Tail, CommandIn, HeaderOf;
    var n := header[0] as nat;
    HeaderIs(header, body[..n]);
    assert [SOF] + header + body == ([SOF] + header + body[..n]) + body[n..];
    IntactIffTail([SOF] + header + body[..n], body[n..]);
  }

  // A byte adds to the frame being collected, gives it up, or completes it.
  lemma TakeExplained(m: Mode, b: bv8, registry: Registry)
    requires Possible(m)
    ensures var r := Take(m, b, registry);
            || (r.delivered == [] && (Pending(r.mode) == Pending(m) + [b] || Pending(r.mode) == []))
            || (|r.delivered| == 1 && |r.delivered[0].body| < 256 && Encode(r.delivered[0]) == Pending(m) + [b]
                && Pending(r.mode) == [])
  {
    hide Intact, Encode, CommandIn;
    match m
    case AwaitHeader(got) =>
      if |got| == 2 {
        HeaderLeads(got + [b], registry);
      }
      assert [SOF] + got + [b] == [SOF] + (got + [b]) + [];
    case AwaitBody(header, got) =>
      assert [SOF] + header + got + [b] == [SOF] + header + (got + [b]);
      if |got| + 1 == header[0] as nat + 2 && Intact([SOF] + header + (got + [b])) {
        IntactIsEncoded(header, got + [b]);
      }
    case _ =>
  }

  // A body is only collected behind the header of a registered request.
  ghost predicate Announced(m: Mode, registry: Registry) {
    m.AwaitBody? && |m.header| == 3 ==>
      CommandIn(m.header) in registry && registry[CommandIn(m.header)] == m.header[0] as nat
  }

  lemma TakeAnnounces(m: Mode, b: bv8, registry: Registry)
    requires Possible(m) && Announced(m, registry)
    ensures var r := Take(m, b, registry);
            Announced(r.mode, registry) && forall i :: 0 <= i < |r.delivered| ==> Registered(r.delivered[i], registry)
  {
    hide Intact, CommandIn;
    if m.AwaitBody? {
      SmallByte(m.header[0]);
    }
  }

  // Whatever arrives, only requests of registered commands, with the size registered for
  // them, are delivered.
  lemma {:induction false} OnlyRegistered(m: Mode, stream: seq<bv8>, registry: Registry)
    requires Possible(m) && Announced(m, registry)
    ensures var r := Decode(m, stream, registry);
            Announced(r.mode, registry) && forall i :: 0 <= i < |r.delivered| ==> Registered(r.delivered[i], registry)
    decreases |stream|
  {
    hide Take, Announced, Registered, Possible;
    if |stream| > 0 {
      TakeAnnounces(m, stream[0], registry);
      OnlyRegistered(Take(m, stream[0], registry).mode, stream[1..], registry);
    }
  }

  ghost predicate EndsWith(stream: seq<bv8>, tail: seq<bv8>) {
    |tail| <= |stream| && stream[|stream| - |tail|..] == tail
  }

  lemma FoundStays(stream: seq<bv8>, b: bv8, starts: seq<nat>, qs: seq<Request>, end: nat, end': nat)
    requires FoundAt(stream, starts, qs, end) && end <= end'
    ensures FoundAt(stream + [b], starts, qs, end')
  {
    hide Encode;
    forall i | 0 <= i < |qs| ensures FrameAt(stream + [b], starts[i], qs[i]) {
      var e := starts[i] + |Encode(qs[i])|;
      assert FrameAt(stream, starts[i], qs[i]);
      assert (stream + [b])[starts[i]..e] == stream[starts[i]..e];
    }
  }

  lemma FoundOneMore(stream: seq<bv8>, starts: seq<nat>, qs: seq<Request>, q: Request)
    requires |q.body| < 256 && EndsWith(stream, Encode(q)) && FoundAt(stream, starts, qs, |stream| - |Encode(q)|)
    ensures FoundAt(stream, starts + [|stream| - |Encode(q)|], qs + [q], |stream|)
  {
    hide Encode;
    var starts', qs' := starts + [|stream| - |Encode(q)|], qs + [q];
    forall i | 0 <= i < |qs'| ensures FrameAt(stream, starts'[i], qs'[i]) {
      if i < |qs| {
        assert FrameAt(stream, starts[i], qs[i]);
      }
    }
  }

  lemma Extended(stream: seq<bv8>, tail: seq<bv8>, b: bv8)
    requires EndsWith(stream, tail)
    ensures EndsWith(stream + [b], tail + [b])
  {
  }

  // Every request delivered from any stream is of a registered command and size, and is
  // the content of a contiguous slice of the stream that equals its encoding; the slices
  // come in order and do not overlap, and only the bytes of the frame being collected are
  // behind the last one.
  lemma NothingMadeUp(stream: seq<bv8>, registry: Registry) returns (starts: seq<nat>)
    ensures var r := Decode(AwaitSof, stream, registry);
            && EndsWith(stream, Pending(r.mode))
            && FoundAt(stream, starts, r.delivered, |stream| - |Pending(r.mode)|)
            && forall i :: 0 <= i < |r.delivered| ==> Registered(r.delivered[i], registry)
  {
    hide Decode, EndsWith, FoundAt, Pending, Registered;
    starts := AllFound(stream, registry);
    OnlyRegistered(AwaitSof, stream, registry);
  }

  lemma {:induction false} AllFound(stream: seq<bv8>, registry: Registry) returns (starts: seq<nat>)
    ensures var r := Decode(AwaitSof, stream, registry);
            EndsWith(stream, Pending(r.mode)) && FoundAt(stream, starts, r.delivered, |stream| - |Pending(r.mode)|)
    decreases |stream|
  {
    hide Decode, Take, Encode, FoundAt, EndsWith, Pending;
    if |stream| == 0 {
      starts := [];
      assert stream == [];
      DecodeNothing(AwaitSof, registry);
      NothingFound(registry);
    } else {
      var n := |stream| - 1;
      var all, b := stream[..n], stream[n];
      assert stream == all + [b];
      starts := AllFound(all, registry);
      var r := Decode(AwaitSof, all, registry);
      DecodeJoin(AwaitSof, all, [b], registry);
      DecodeOne(r.mode, b, registry);
      starts := OneMoreByte(all, b, starts, r, registry);
    }
  }

  lemma NothingFound(registry: Registry)
    ensures EndsWith([], Pending(AwaitSof)) && FoundAt([], [], [], 0) && Pending(AwaitSof) == []
  {
  }

  lemma OneMoreByte(all: seq<bv8>, b: bv8, starts: seq<nat>, r: Outcome, registry: Registry) returns (starts': seq<nat>)
    requires Possible(r.mode) && EndsWith(all, Pending(r.mode))
    requires FoundAt(all, starts, r.delivered, |all| - |Pending(r.mode)|)
    ensures var next := Take(r.mode, b, registry); var stream := all + [b];
            EndsWith(stream, Pending(next.mode))
            && FoundAt(stream, starts', r.delivered + next.delivered, |stream| - |Pending(next.mode)|)
  {
    hide Take, Possible, Encode, FoundAt, Pending;
    var next, stream := Take(r.mode, b, registry), all + [b];
    TakeExplained(r.mode, b, registry);
    Extended(all, Pending(r.mode), b);
    FoundStays(all, b, starts, r.delivered, |all| - |Pending(r.mode)|, |stream| - |Pending(r.mode) + [b]|);
    starts' := starts;
    if next.delivered == [] {
      assert r.delivered + next.delivered == r.delivered;
      FoundStays(all, b, starts, r.delivered, |all| - |Pending(r.mode)|, |stream| - |Pending(next.mode)|);
    } else {
      var q := next.delivered[0];
      assert next.delivered == [q];
      FoundOneMore(stream, starts, r.delivered, q);
      starts' := starts + [|stream| - |Encode(q)|];
    }
  }
}
