/**
 The compressed format: nine token forms, what they expand to, and a whole stream.
 */
module LzTokens {
  import opened Options
  import opened Adler

  // The bytes from the start of the input on; nothing tells the code where they end.
  type Memory = nat -> byte

  ghost predicate Holds(mem: Memory, at: nat, bytes: seq<byte>) {
    forall k :: 0 <= k < |bytes| ==> mem(at + k) == bytes[k]
  }

  // ---------- what a token means

  datatype Token = Literal(bytes: seq<byte>) | Copy(distance: nat, length: nat)

  // Bytes copied from `distance` back, where bytes just written may be copied again.
  function Copied(out: seq<byte>, distance: nat, length: nat): (r: seq<byte>)
    requires 1 <= distance <= |out|
    ensures |r| == length
  {
    seq(length, k requires 0 <= k < length => out[|out| - distance + k % distance])
  }

  function Expanded(out: seq<byte>, t: Token): seq<byte>
    requires t.Copy? ==> 1 <= t.distance <= |out|
  {
    match t
    case Literal(bytes) => out + bytes
    case Copy(distance, length) => out + Copied(out, distance, length)
  }

  // ---------- numbers, high byte first

  function In2(mem: Memory, x: nat): nat {
    mem(x) * 0x100 + mem(x + 1)
  }

  function In3(mem: Memory, x: nat): nat {
    mem(x) * 0x1_0000 + In2(mem, x + 1)
  }

  function In4(mem: Memory, x: nat): nat {
    mem(x) * 0x100_0000 + In3(mem, x + 1)
  }

  function Out2(v: nat): (r: seq<byte>)
    requires v < 0x1_0000
    ensures |r| == 2
  {
    [v / 0x100, v % 0x100]
  }

  function Out3(v: nat): (r: seq<byte>)
    requires v < 0x100_0000
    ensures |r| == 3
  {
    [v / 0x1_0000] + Out2(v % 0x1_0000)
  }

  function Out4(v: nat): (r: seq<byte>)
    requires v < 0x1_0000_0000
    ensures |r| == 4
  {
    [v / 0x100_0000] + Out3(v % 0x100_0000)
  }

  lemma Out2Holds(mem: Memory, x: nat, v: nat)
    requires v < 0x1_0000
    ensures Holds(mem, x, Out2(v)) <==> In2(mem, x) == v
  {
    if Holds(mem, x, Out2(v)) {
      assert mem(x + 0) == Out2(v)[0] && mem(x + 1) == Out2(v)[1];
    }
  }

  lemma HoldsJoin(mem: Memory, at: nat, a: seq<byte>, b: seq<byte>)
    ensures Holds(mem, at, a + b) <==> Holds(mem, at, a) && Holds(mem, at + |a|, b)
  {
    if Holds(mem, at, a + b) {
      forall k | 0 <= k < |a| ensures mem(at + k) == a[k] {
        assert (a + b)[k] == a[k];
      }
      forall k | 0 <= k < |b| ensures mem(at + |a| + k) == b[k] {
        assert mem(at + (|a| + k)) == (a + b)[|a| + k];
      }
    }
    if Holds(mem, at, a) && Holds(mem, at + |a|, b) {
      forall k | 0 <= k < |a + b| ensures mem(at + k) == (a + b)[k] {
        if k >= |a| {
          assert mem(at + |a| + (k - |a|)) == b[k - |a|];
        }
      }
    }
  }

  lemma HoldsOne(mem: Memory, at: nat, b: byte)
    ensures Holds(mem, at, [b]) <==> mem(at) == b
  {
    if Holds(mem, at, [b]) {
      assert mem(at + 0) == [b][0];
    }
  }

  lemma Out3Holds(mem: Memory, x: nat, v: nat)
    requires v < 0x100_0000
    ensures Holds(mem, x, Out3(v)) <==> In3(mem, x) == v
  {
    hide Holds, Out2;
    HoldsJoin(mem, x, [v / 0x1_0000], Out2(v % 0x1_0000));
    HoldsOne(mem, x, v / 0x1_0000);
    Out2Holds(mem, x + 1, v % 0x1_0000);
  }

  lemma Out4Holds(mem: Memory, x: nat, v: nat)
    requires v < 0x1_0000_0000
    ensures Holds(mem, x, Out4(v)) <==> In4(mem, x) == v
  {
    hide Holds, Out3;
    HoldsJoin(mem, x, [v / 0x100_0000], Out3(v % 0x100_0000));
    HoldsOne(mem, x, v / 0x100_0000);
    Out3Holds(mem, x + 1, v % 0x100_0000);
  }

  // ---------- the nine ways to write a token

  datatype Form =
    | Near        // 0x80..0xff: copy up to 128 from up to 256 back
    | Middle      // 0x40..0x7f: copy up to 256 from up to 2^14 back
    | Short       // 0x20..0x3f: up to 32 literal bytes
    | Far         // 0x18..0x1f: copy up to 256 from up to 2^19 back
    | FarLong     // 0x10..0x17: copy up to 2^16 from up to 2^19 back
    | Medium      // 0x08..0x0f: up to 2^11 literal bytes
    | Long        // 0x07: up to 2^16 literal bytes
    | Wide        // 0x06: copy up to 256 from up to 2^24 back
    | WideLong    // 0x04: copy up to 2^16 from up to 2^24 back

  function Reach(form: Form): nat {
    match form
    case Near => 0x100
    case Middle => 0x4000
    case Far => 0x8_0000
    case FarLong => 0x8_0000
    case Wide => 0x100_0000
    case WideLong => 0x100_0000
    case _ => 0
  }

  function Longest(form: Form): nat {
    match form
    case Near => 0x80
    case Middle => 0x100
    case Short => 0x20
    case Far => 0x100
    case FarLong => 0x1_0000
    case Medium => 0x800
    case Long => 0x1_0000
    case Wide => 0x100
    case WideLong => 0x1_0000
  }

  predicate Suits(form: Form, t: Token) {
    match t
    case Literal(bytes) => (form.Short? || form.Medium? || form.Long?) && 1 <= |bytes| <= Longest(form)
    case Copy(distance, length) => 1 <= distance <= Reach(form) && 1 <= length <= Longest(form)
  }

  // A token is written with its distance and length less one.
  function Write(form: Form, t: Token): seq<byte>
    requires Suits(form, t)
  {
    match form
    case Near => [0x80 + (t.length - 1), t.distance - 1]
    case Middle => Out2(0x4000 + (t.distance - 1)) + [t.length - 1]
    case Short => [0x20 + (|t.bytes| - 1)] + t.bytes
    case Far => Out3(0x18_0000 + (t.distance - 1)) + [t.length - 1]
    case FarLong => Out3(0x10_0000 + (t.distance - 1)) + Out2(t.length - 1)
    case Medium => Out2(0x800 + (|t.bytes| - 1)) + t.bytes
    case Long => [0x07] + Out2(|t.bytes| - 1) + t.bytes
    case Wide => [0x06] + Out3(t.distance - 1) + [t.length - 1]
    case WideLong => [0x04] + Out3(t.distance - 1) + Out2(t.length - 1)
  }

  // One token in each form.
  lemma FormsByExample()
    ensures Suits(Near, Copy(3, 2)) && Write(Near, Copy(3, 2)) == [0x81, 0x02]
    ensures Suits(Middle, Copy(0x102, 5)) && Write(Middle, Copy(0x102, 5)) == [0x41, 0x01, 0x04]
    ensures Suits(Short, Literal([7, 9])) && Write(Short, Literal([7, 9])) == [0x21, 7, 9]
    ensures Suits(Far, Copy(0x1_0203, 5)) && Write(Far, Copy(0x1_0203, 5)) == [0x19, 0x02, 0x02, 0x04]
    ensures Suits(FarLong, Copy(0x1_0203, 0x203)) && Write(FarLong, Copy(0x1_0203, 0x203)) == [0x11, 0x02, 0x02, 0x02, 0x02]
    ensures Suits(Medium, Literal([7, 9])) && Write(Medium, Literal([7, 9])) == [0x08, 0x01, 7, 9]
    ensures Suits(Long, Literal([7, 9])) && Write(Long, Literal([7, 9])) == [0x07, 0x00, 0x01, 7, 9]
    ensures Suits(Wide, Copy(0x1_0203, 5)) && Write(Wide, Copy(0x1_0203, 5)) == [0x06, 0x01, 0x02, 0x02, 0x04]
    ensures Suits(WideLong, Copy(0x1_0203, 0x203)) && Write(WideLong, Copy(0x1_0203, 0x203)) == [0x04, 0x01, 0x02, 0x02, 0x02, 0x02]
  {
  }

  // ---------- a whole stream

  datatype Piece = Piece(form: Form, token: Token)

  // What the pieces expand to; nothing, when a token does not suit its form or copies
  // what has not been written before it.
  function Unpacked(pieces: seq<Piece>): Option<seq<byte>>
    decreases |pieces|
  {
    if |pieces| == 0 then Some([]) else
      var front, last := Unpacked(pieces[..|pieces| - 1]), pieces[|pieces| - 1];
      if front.Some? && Suits(last.form, last.token) && (last.token.Copy? ==> last.token.distance <= |front.value|)
      then Some(Expanded(front.value, last.token)) else None
  }

  predicate Sound(pieces: seq<Piece>) {
    Unpacked(pieces).Some?
  }

  function Meaning(pieces: seq<Piece>): seq<byte>
    requires Sound(pieces)
  {
    Unpacked(pieces).value
  }

  function Written(pieces: seq<Piece>): seq<byte>
    requires Sound(pieces)
    decreases |pieces|
  {
    if |pieces| == 0 then [] else
      assert Unpacked(pieces[..|pieces| - 1]).Some?;
      Written(pieces[..|pieces| - 1]) + Write(pieces[|pieces| - 1].form, pieces[|pieces| - 1].token)
  }

  // Header, length of the data, four bytes that are not looked at, the tokens, the end
  // mark, and the checksum of the data.
  ghost predicate IsStream(mem: Memory, at: nat, pieces: seq<Piece>) {
    && Sound(pieces) && |Meaning(pieces)| < TWO_32
    && Holds(mem, at, Out4(0x57bc_0000) + Out4(0) + Out4(|Meaning(pieces)|))
    && Holds(mem, at + 16, Written(pieces) + [0x05, 0xfa])
    && In4(mem, at + 16 + |Written(pieces)| + 2) == Adler32(1, Meaning(pieces))
  }
}
