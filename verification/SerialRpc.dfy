/**
 The serial port reader: handlers that look at shared buffers and arm the next read,
 and the frame printer.
 */
module SerialRpc {
  import opened CrcLaws
  import opened Crc
  import opened Protocol
  import opened ProtocolLaws

  const MAX_BODY_SIZE := 512

  // Which handler the pending read will call.
  datatype PendingRead = ReadNothing | ReadSof | ReadHeader | ReadBody(size: nat)

  // Fill in a frame and write its checksum behind it.
  method MakeRequest(command: bv16, body: seq<bv8>) returns (req: array<bv8>)
    requires |body| < 256
    ensures fresh(req) && req[..] == Encode(Request(command, body))
  {
    hide Crc16, Intact, Tail, LengthByte, LowByte, HighByte;
    ghost var q := Request(command, body);
    var n := |body| + 6;
    var words := [SOF, LengthByte(|body|), LowByte(command), HighByte(command)];
    req := new bv8[n](i requires 0 <= i < n => if i < 4 then words[i] else if i < n - 2 then body[i - 4] else 0);
    assert req[..n - 2] == [SOF] + HeaderOf(q) + body;
    AppendCRC16Checksum(req, n);
    assert req[..n] == req[..n - 2] + req[n - 2..] && req[..n] == req[..];
    IntactIffTail(req[..n - 2], req[n - 2..]);
  }

  class SerialRPC {
    var callbacks: map<bv16, nat>
    const sofBuffer: array<bv8>
    const headerBuffer: array<bv8>
    const bodyBuffer: array<bv8>
    var pending: PendingRead
    var transferred: nat
    // The calls made to the registered functions.
    var delivered: seq<Request>

    ghost predicate Valid()
      reads this, headerBuffer
    {
      && sofBuffer.Length == 1 && headerBuffer.Length == 3 && bodyBuffer.Length == MAX_BODY_SIZE
      && sofBuffer != headerBuffer && sofBuffer != bodyBuffer && headerBuffer != bodyBuffer
      && match pending
         case ReadNothing => true
         case ReadSof => transferred == 0
         case ReadHeader => transferred < 3
         case ReadBody(size) => size == headerBuffer[0] as nat && size < 256 && transferred < size + 2
    }

    ghost function State(): (m: Mode)
      requires Valid()
      reads this, headerBuffer, bodyBuffer
      ensures Possible(m)
    {
      match pending
      case ReadNothing => Stopped
      case ReadSof => AwaitSof
      case ReadHeader => AwaitHeader(headerBuffer[..transferred])
      case ReadBody(size) => AwaitBody(headerBuffer[..], bodyBuffer[..transferred])
    }

    constructor ()
      ensures Valid() && State() == Stopped && delivered == [] && callbacks == map[]
      ensures fresh(sofBuffer) && fresh(headerBuffer) && fresh(bodyBuffer)
    {
      callbacks, pending, transferred, delivered := map[], ReadNothing, 0, [];
      sofBuffer, headerBuffer, bodyBuffer := new bv8[1], new bv8[3], new bv8[MAX_BODY_SIZE];
    }

    // The first registration of a command stays.
    method RegisterMessage(command: bv16, size: nat) returns (suc: bool)
      requires Valid()
      modifies this`callbacks
      ensures Valid() && State() == old(State())
      ensures suc <==> command !in old(callbacks)
      ensures callbacks == if suc then old(callbacks)[command := size] else old(callbacks)
    {
      suc := command !in callbacks;
      if suc {
        callbacks := callbacks[command := size];
      }
    }

    method ReadAsync(next: PendingRead)
      modifies this`pending, this`transferred
      ensures pending == next && transferred == 0
    {
      pending, transferred := next, 0;
    }

    method StartGrabbing()
      requires Valid()
      modifies this`pending, this`transferred
      ensures Valid() && State() == AwaitSof
    {
      ReadAsync(ReadSof);
    }

    method ReadSOFHandler(err: bool)
      requires Valid() && pending.ReadSof?
      modifies this`pending, this`transferred
      ensures Valid()
      ensures State() == if err then Stopped else Take(AwaitSof, sofBuffer[0], callbacks).mode
    {
      if err {
        pending := ReadNothing;
        return;
      }
      if sofBuffer[0] == SOF {
        ReadAsync(ReadHeader);
      } else {
        ReadAsync(ReadSof);
      }
    }

    // What a registered message does once its header is in.
    method HandleRequest(size: nat, dataLength: nat)
      requires Valid() && dataLength == headerBuffer[0] as nat < 256
      modifies this`pending, this`transferred
      ensures Valid()
      ensures State() == if dataLength == size then AwaitBody(headerBuffer[..], []) else AwaitSof
    {
      if dataLength != size {
        ReadAsync(ReadSof);
        return;
      }
      ReadAsync(ReadBody(size));
    }

    method ReadHeaderHandler(err: bool)
      requires Valid() && pending.ReadHeader?
      modifies this`pending, this`transferred
      ensures Valid()
      ensures State() == if err then AwaitSof else AfterHeader(headerBuffer[..], callbacks)
    {
      hide WordOf;
      if err {
        ReadAsync(ReadSof);
        return;
      }
      var command := WordOf(headerBuffer[1], headerBuffer[2]);
      if command !in callbacks {
        ReadAsync(ReadSof);
        return;
      }
      SmallByte(headerBuffer[0]);
      HandleRequest(callbacks[command], headerBuffer[0] as nat);
    }

    method ReadBodyHandler(size: nat, err: bool)
      requires Valid() && pending == ReadBody(size)
      modifies this`pending, this`transferred, this`delivered
      ensures Valid() && State() == AwaitSof
      ensures delivered == old(delivered)
                         + if err then [] else AfterBody(headerBuffer[..], bodyBuffer[..size + 2]).delivered
    {
      hide Intact, WordOf;
      if err {
        ReadAsync(ReadSof);
        return;
      }
      var n := size + 6;
      var bytes := [SOF] + headerBuffer[..] + bodyBuffer[..size + 2];
      var buf := new bv8[n](i requires 0 <= i < n => bytes[i]);
      assert buf[..n] == [SOF] + headerBuffer[..] + bodyBuffer[..size + 2];
      var ok := VerifyCRC16Checksum(buf, n);
      if !ok {
        ReadAsync(ReadSof);
        return;
      }
      delivered := delivered + [Request(WordOf(headerBuffer[1], headerBuffer[2]), bodyBuffer[..size])];
      assert bodyBuffer[..size + 2][..size] == bodyBuffer[..size];
      ReadAsync(ReadSof);
    }

    // A byte arrives for the pending read, whose handler runs when the read is complete.
    method Arrive(b: bv8)
      requires Valid()
      modifies this, sofBuffer, headerBuffer, bodyBuffer
      ensures Valid() && callbacks == old(callbacks)
      ensures var r := Take(old(State()), b, callbacks); State() == r.mode && delivered == old(delivered) + r.delivered
    {
      hide Intact, CommandIn, AfterHeader;
      match pending
      case ReadNothing =>
      case ReadSof =>
        sofBuffer[0] := b;
        ReadSOFHandler(false);
      case ReadHeader =>
        headerBuffer[transferred] := b;
        assert headerBuffer[..transferred + 1] == old(headerBuffer[..transferred]) + [b];
        transferred := transferred + 1;
        if transferred == 3 {
          assert headerBuffer[..3] == headerBuffer[..];
          transferred := 0;
          ReadHeaderHandler(false);
        }
      case ReadBody(size) =>
        bodyBuffer[transferred] := b;
        assert bodyBuffer[..transferred + 1] == old(bodyBuffer[..transferred]) + [b];
        transferred := transferred + 1;
        if transferred == size + 2 {
          transferred := 0;
          ReadBodyHandler(size, false);
        }
    }

    // The pending read fails.
    method Break()
      requires Valid()
      modifies this
      ensures Valid() && callbacks == old(callbacks) && delivered == old(delivered) && State() == Fail(old(State()))
    {
      match pending
      case ReadNothing =>
      case ReadSof => ReadSOFHandler(true);
      case ReadHeader => ReadHeaderHandler(true);
      case ReadBody(size) => ReadBodyHandler(size, true);
    }

    // A chunk of the stream arrives.
    method ArriveChunk(chunk: seq<bv8>)
      requires Valid()
      modifies this, sofBuffer, headerBuffer, bodyBuffer
      ensures Valid() && callbacks == old(callbacks)
      ensures var r := Decode(old(State()), chunk, callbacks); State() == r.mode && delivered == old(delivered) + r.delivered
    {
      hide Take, Valid, State, Decode, Possible;
      var i := 0;
      ghost var m := State();
      assert chunk[..0] == [];
      DecodeNothing(m, callbacks);
      while i < |chunk|
        invariant 0 <= i <= |chunk| && Valid() && callbacks == old(callbacks)
        invariant var r := Decode(m, chunk[..i], callbacks);
                  State() == r.mode && delivered == old(delivered) + r.delivered
      {
        assert chunk[..i + 1] == chunk[..i] + [chunk[i]];
        DecodeJoin(m, chunk[..i], [chunk[i]], callbacks);
        DecodeOne(State(), chunk[i], callbacks);
        Arrive(chunk[i]);
        i := i + 1;
      }
      assert chunk[..i] == chunk;
    }
  }

  // ---------- a whole session

  datatype Message = Message(command: bv16, size: nat)

  function Registering(registry: Registry, m: Message): Registry {
    if m.command in registry then registry else registry[m.command := m.size]
  }

  // What registering the messages one after the other leaves registered.
  function RegistryOf(messages: seq<Message>): Registry {
    if |messages| == 0 then map[] else
      Registering(RegistryOf(messages[..|messages| - 1]), messages[|messages| - 1])
  }

  // Of several messages with one command, the first counts.
  lemma {:induction false} FirstCounts(messages: seq<Message>, i: nat)
    requires i < |messages| && forall j :: 0 <= j < i ==> messages[j].command != messages[i].command
    ensures (messages[i].command, messages[i].size) in RegistryOf(messages).Items
    decreases |messages|
  {
    hide Registering;
    var n := |messages| - 1;
    var front, last := messages[..n], messages[n];
    assert RegistryOf(messages) == Registering(RegistryOf(front), last);
    if i < n {
      FirstCounts(front, i);
      assert front[i] == messages[i];
      StaysRegistered(RegistryOf(front), last, front[i]);
    } else {
      NothingElse(front, last.command);
      IsRegistered(RegistryOf(front), last);
    }
  }

  lemma StaysRegistered(registry: Registry, last: Message, m: Message)
    requires (m.command, m.size) in registry.Items
    ensures (m.command, m.size) in Registering(registry, last).Items
  {
  }

  lemma IsRegistered(registry: Registry, m: Message)
    requires m.command !in registry
    ensures (m.command, m.size) in Registering(registry, m).Items
  {
  }

  lemma {:induction false} NothingElse(messages: seq<Message>, command: bv16)
    ensures command in RegistryOf(messages) ==> exists j :: 0 <= j < |messages| && messages[j].command == command
    decreases |messages|
  {
    if |messages| > 0 {
      NothingElse(messages[..|messages| - 1], command);
    }
  }

  lemma {:induction false} JoinedOneMore(chunks: seq<seq<bv8>>, chunk: seq<bv8>)
    ensures Joined(chunks + [chunk]) == Joined(chunks) + chunk
    decreases |chunks|
  {
    if |chunks| == 0 {
      assert (chunks + [chunk])[1..] == [];
    } else {
      assert (chunks + [chunk])[1..] == chunks[1..] + [chunk];
      JoinedOneMore(chunks[1..], chunk);
    }
  }

  // Register the messages, start reading, and let the stream come in, in chunks of any
  // sizes: every registered request sent in an undamaged frame is delivered, in order, and
  // nothing else.
  method Listen(messages: seq<Message>, chunks: seq<seq<bv8>>) returns (delivered: seq<Request>)
    ensures delivered == Decode(AwaitSof, Joined(chunks), RegistryOf(messages)).delivered
    ensures forall parts :: AllSendable(parts, RegistryOf(messages)) && Wire(parts, RegistryOf(messages)) == Joined(chunks)
              ==> delivered == Requests(parts)
    ensures forall i :: 0 <= i < |delivered| ==> Registered(delivered[i], RegistryOf(messages))
  {
    hide Decode, SerialRPC.Valid, SerialRPC.State, AllSendable, Wire, Requests, Registered, Joined;
    var rpc := RegisterAll(messages);
    rpc.StartGrabbing();
    ghost var registry := RegistryOf(messages);
    var i := 0;
    DecodeNothing(AwaitSof, registry);
    NoChunks();
    assert chunks[..0] == [];
    while i < |chunks|
      invariant 0 <= i <= |chunks| && rpc.Valid() && rpc.callbacks == registry
      invariant fresh(rpc) && fresh(rpc.sofBuffer) && fresh(rpc.headerBuffer) && fresh(rpc.bodyBuffer)
      invariant var r := Decode(AwaitSof, Joined(chunks[..i]), registry);
                rpc.State() == r.mode && rpc.delivered == r.delivered
    {
      assert chunks[..i + 1] == chunks[..i] + [chunks[i]];
      JoinedOneMore(chunks[..i], chunks[i]);
      DecodeJoin(AwaitSof, Joined(chunks[..i]), chunks[i], registry);
      rpc.ArriveChunk(chunks[i]);
      i := i + 1;
    }
    assert chunks[..i] == chunks;
    delivered := rpc.delivered;
    OnlyRegistered(AwaitSof, Joined(chunks), registry);
    forall parts | AllSendable(parts, registry) && Wire(parts, registry) == Joined(chunks)
      ensures delivered == Requests(parts)
    {
      StreamDelivers(parts, registry);
    }
  }

  lemma NoChunks()
    ensures Joined([]) == []
  {
  }

  method RegisterAll(messages: seq<Message>) returns (rpc: SerialRPC)
    ensures fresh(rpc) && fresh(rpc.sofBuffer) && fresh(rpc.headerBuffer) && fresh(rpc.bodyBuffer)
    ensures rpc.Valid() && rpc.delivered == [] && rpc.callbacks == RegistryOf(messages)
  {
    hide SerialRPC.Valid, SerialRPC.State;
    rpc := new SerialRPC();
    var i := 0;
    while i < |messages|
      invariant 0 <= i <= |messages| && fresh(rpc)
      invariant fresh(rpc.sofBuffer) && fresh(rpc.headerBuffer) && fresh(rpc.bodyBuffer)
      invariant rpc.Valid() && rpc.delivered == [] && rpc.callbacks == RegistryOf(messages[..i])
    {
      assert messages[..i + 1][..i] == messages[..i];
      var suc := rpc.RegisterMessage(messages[i].command, messages[i].size);
      i := i + 1;
    }
    assert messages[..i] == messages;
  }
}
