/**
 Frames of the serial protocol, and the stream decoder as a machine that takes one byte
 at a time.
 */
module Protocol {
  import opened CrcLaws
  import opened Crc

  const SOF: bv8 := 0xa5

  datatype Request = Request(command: bv16, body: seq<bv8>)

  // ---------- frames

  lemma NextByte(b: bv8)
    requires b != 255
    ensures (b + 1) as nat == b as nat + 1
  {
  }

  function ByteWith(n: nat): (b: bv8)
    requires n < 256
    ensures b as nat == n
  {
    if n == 0 then 0 else
      NextByte(ByteWith(n - 1));
      ByteWith(n - 1) + 1
  }

  lemma SmallByte(b: bv8)
    ensures b as nat < 256
  {
  }

  lemma ByteAndBack(b: bv8)
    ensures (b as nat) as bv8 == b
  {
  }

  // The low byte of a size that fits.
  function LengthByte(n: nat): (b: bv8)
    requires n < 256
    ensures b as nat == n
  {
    ByteAndBack(ByteWith(n));
    n as bv8
  }

  function WordOf(lo: bv8, hi: bv8): bv16 {
    (hi as bv16 << 8) | lo as bv16
  }

  lemma WordsAreBytes(lo: bv8, hi: bv8, c: bv16)
    ensures LowByte(WordOf(lo, hi)) == lo && HighByte(WordOf(lo, hi)) == hi
    ensures WordOf(LowByte(c), HighByte(c)) == c
  {
  }

  function HeaderOf(q: Request): (h: seq<bv8>)
    requires |q.body| < 256
    ensures |h| == 3
  {
    [LengthByte(|q.body|), LowByte(q.command), HighByte(q.command)]
  }

  // A request on the wire.
  function Encode(q: Request): (frame: seq<bv8>)
    requires |q.body| < 256
    ensures |frame| == |q.body| + 6
  {
    var data := [SOF] + HeaderOf(q) + q.body;
    data + Tail(Crc16(data))
  }

  // A request to remove variable 0x1234, byte by byte.
  lemma SampleFrame()
    ensures Encode(Request(0x0030, [0x34, 0x12])) == [0xa5, 0x02, 0x30, 0x00, 0x34, 0x12, 0x1e, 0x24]
  {
    hide Crc16;
    var message: seq<bv8> := [0xa5, 0x02, 0x30, 0x00, 0x34, 0x12];
    assert LengthByte(2) == 2;
    assert HeaderOf(Request(0x0030, [0x34, 0x12])) == [0x02, 0x30, 0x00];
    assert message == [SOF] + HeaderOf(Request(0x0030, [0x34, 0x12])) + [0x34, 0x12];
    assert message[..0] == [] && message[..6] == message;
    CrcOfNothing();
    NextCrc(0, message, 0xffff);
    NextCrc(1, message, 0xfd20);
    NextCrc(2, message, 0x02ed);
    NextCrc(3, message, 0x0d6a);
    NextCrc(4, message, 0xcc51);
    NextCrc(5, message, 0x3467);
  }

  // ---------- the decoder

  // Which read is pending, and what has arrived for it.
  datatype Mode =
    | AwaitSof
    | AwaitHeader(got: seq<bv8>)
    | AwaitBody(header: seq<bv8>, got: seq<bv8>)
    | Stopped

  // Size of the request type registered for a command.
  type Registry = map<bv16, nat>

  datatype Outcome = Outcome(mode: Mode, delivered: seq<Request>)

  function CommandIn(header: seq<bv8>): bv16
    requires |header| == 3
  {
    WordOf(header[1], header[2])
  }

  ghost predicate Possible(m: Mode) {
    match m
    case AwaitHeader(got) => |got| < 3
    case AwaitBody(header, got) => |header| == 3 && |got| < header[0] as nat + 2
    case _ => true
  }

  function AfterHeader(header: seq<bv8>, registry: Registry): Mode
    requires |header| == 3
  {
    var command := CommandIn(header);
    if command in registry && header[0] as nat == registry[command] then AwaitBody(header, []) else AwaitSof
  }

  function AfterBody(header: seq<bv8>, body: seq<bv8>): Outcome
    requires |header| == 3 && |body| == header[0] as nat + 2
  {
    Outcome(AwaitSof, if Intact([SOF] + header + body) then [Request(CommandIn(header), body[..header[0] as nat])] else [])
  }

  // One byte arrives.
  function Take(m: Mode, b: bv8, registry: Registry): (r: Outcome)
    requires Possible(m)
    ensures Possible(r.mode)
  {
    match m
    case AwaitSof => Outcome(if b == SOF then AwaitHeader([]) else AwaitSof, [])
    case AwaitHeader(got) =>
      Outcome(if |got| + 1 < 3 then AwaitHeader(got + [b]) else AfterHeader(got + [b], registry), [])
    case AwaitBody(header, got) =>
      if |got| + 1 < header[0] as nat + 2 then Outcome(AwaitBody(header, got + [b]), []) else AfterBody(header, got + [b])
    case Stopped => Outcome(Stopped, [])
  }

  // The pending read fails: a lost start of frame ends everything, a lost rest of a
  // frame only that frame.
  function Fail(m: Mode): Mode {
    if m.AwaitSof? || m.Stopped? then Stopped else AwaitSof
  }

  // A whole stream of bytes arrives.
  function Decode(m: Mode, stream: seq<bv8>, registry: Registry): (r: Outcome)
    requires Possible(m)
    ensures Possible(r.mode)
    decreases |stream|
  {
    if |stream| == 0 then Outcome(m, []) else
      var first := Take(m, stream[0], registry);
      var rest := Decode(first.mode, stream[1..], registry);
      Outcome(rest.mode, first.delivered + rest.delivered)
  }

  lemma {:induction false} DecodeJoin(m: Mode, a: seq<bv8>, b: seq<bv8>, registry: Registry)
    requires Possible(m)
    ensures var first := Decode(m, a, registry);
            var rest := Decode(first.mode, b, registry);
            Decode(m, a + b, registry) == Outcome(rest.mode, first.delivered + rest.delivered)
    decreases |a|
  {
    hide Take, Possible;
    if |a| == 0 {
      assert a + b == b;
    } else {
      assert (a + b)[0] == a[0] && (a + b)[1..] == a[1..] + b;
      DecodeJoin(Take(m, a[0], registry).mode, a[1..], b, registry);
    }
  }

  function Joined(chunks: seq<seq<bv8>>): seq<bv8> {
    if |chunks| == 0 then [] else chunks[0] + Joined(chunks[1..])
  }

  // The stream arrives in chunks.
  function DecodeChunks(m: Mode, chunks: seq<seq<bv8>>, registry: Registry): Outcome
    requires Possible(m)
    decreases |chunks|
  {
    if |chunks| == 0 then Outcome(m, []) else
      var first := Decode(m, chunks[0], registry);
      var rest := DecodeChunks(first.mode, chunks[1..], registry);
      Outcome(rest.mode, first.delivered + rest.delivered)
  }

  // How the stream is cut into chunks makes no difference.
  lemma {:induction false} ChunkingDoesNotMatter(m: Mode, chunks: seq<seq<bv8>>, registry: Registry)
    requires Possible(m)
    ensures DecodeChunks(m, chunks, registry) == Decode(m, Joined(chunks), registry)
    decreases |chunks|
  {
    hide Decode, Take;
    if |chunks| == 0 {
      DecodeNothing(m, registry);
    } else {
      ChunkingDoesNotMatter(Decode(m, chunks[0], registry).mode, chunks[1..], registry);
      DecodeJoin(m, chunks[0], Joined(chunks[1..]), registry);
    }
  }

  lemma DecodeNothing(m: Mode, registry: Registry)
    requires Possible(m)
    ensures Decode(m, [], registry) == Outcome(m, [])
  {
  }

  lemma DecodeOne(m: Mode, b: bv8, registry: Registry)
    requires Possible(m)
    ensures Decode(m, [b], registry) == Take(m, b, registry)
  {
    hide Take;
    assert [b][1..] == [];
  }

  // ---------- collecting a header and a body

  lemma {:induction false} CollectHeader(got: seq<bv8>, rest: seq<bv8>, registry: Registry)
    requires |got| < 3 && |got| + |rest| == 3
    ensures Decode(AwaitHeader(got), rest, registry) == Outcome(AfterHeader(got + rest, registry), [])
    decreases |rest|
  {
    hide AfterHeader;
    if |rest| == 1 {
      assert rest == [rest[0]];
      DecodeOne(AwaitHeader(got), rest[0], registry);
    } else {
      assert got + rest == got + [rest[0]] + rest[1..];
      CollectHeader(got + [rest[0]], rest[1..], registry);
    }
  }

  lemma {:induction false} CollectBody(header: seq<bv8>, got: seq<bv8>, rest: seq<bv8>, registry: Registry)
    requires |header| == 3 && |got| < header[0] as nat + 2 == |got| + |rest|
    ensures Decode(AwaitBody(header, got), rest, registry) == AfterBody(header, got + rest)
    decreases |rest|
  {
    hide AfterBody;
    if |rest| == 1 {
      assert rest == [rest[0]];
      DecodeOne(AwaitBody(header, got), rest[0], registry);
    } else {
      assert got + rest == got + [rest[0]] + rest[1..];
      CollectBody(header, got + [rest[0]], rest[1..], registry);
    }
  }
}
