/**
 Reading tokens back, and what the whole decoder computes.
 */
module LzDecoder {
  import opened Options
  import opened Adler
  import opened LzTokens

  // ---------- one token

  // The first byte tells the form; five values start no token.
  function FormOf(b: byte): Option<Form> {
    if b >= 0x80 then Some(Near)
    else if b >= 0x40 then Some(Middle)
    else if b >= 0x20 then Some(Short)
    else if b >= 0x18 then Some(Far)
    else if b >= 0x10 then Some(FarLong)
    else if b >= 0x08 then Some(Medium)
    else if b == 0x07 then Some(Long)
    else if b == 0x06 then Some(Wide)
    else if b == 0x04 then Some(WideLong)
    else None
  }

  function BytesAt(mem: Memory, at: nat, n: nat): (r: seq<byte>)
    ensures |r| == n
  {
    seq(n, k requires 0 <= k < n => mem(at + k))
  }

  function TokenAt(mem: Memory, i: nat, form: Form): Token
    requires FormOf(mem(i)) == Some(form)
  {
    match form
    case Near => Copy(mem(i + 1) + 1, mem(i) - 0x80 + 1)
    case Middle => Copy(In2(mem, i) - 0x4000 + 1, mem(i + 2) + 1)
    case Short => Literal(BytesAt(mem, i + 1, mem(i) - 0x20 + 1))
    case Far => Copy(In3(mem, i) - 0x18_0000 + 1, mem(i + 3) + 1)
    case FarLong => Copy(In3(mem, i) - 0x10_0000 + 1, In2(mem, i + 3) + 1)
    case Medium => Literal(BytesAt(mem, i + 2, In2(mem, i) - 0x800 + 1))
    case Long => Literal(BytesAt(mem, i + 3, In2(mem, i + 1) + 1))
    case Wide => Copy(In3(mem, i + 1) + 1, mem(i + 4) + 1)
    case WideLong => Copy(In3(mem, i + 1) + 1, In2(mem, i + 4) + 1)
  }

  // How far the token reaches.
  function SizeOf(form: Form, t: Token): nat {
    match form
    case Near => 2
    case Middle => 3
    case Far => 4
    case FarLong => 5
    case Wide => 5
    case WideLong => 6
    case _ => (if form.Short? then 1 else if form.Medium? then 2 else 3) + if t.Literal? then |t.bytes| else 0
  }

  lemma BytesHold(mem: Memory, at: nat, bytes: seq<byte>)
    ensures Holds(mem, at, bytes) <==> BytesAt(mem, at, |bytes|) == bytes
  {
    if BytesAt(mem, at, |bytes|) == bytes {
      forall k | 0 <= k < |bytes| ensures mem(at + k) == bytes[k] {
        assert BytesAt(mem, at, |bytes|)[k] == mem(at + k);
      }
    }
  }

  // The parts a form is written in, read separately.
  lemma TwoParts(mem: Memory, i: nat, a: seq<byte>, b: seq<byte>)
    ensures Holds(mem, i, a + b) <==> Holds(mem, i, a) && Holds(mem, i + |a|, b)
  {
    hide Holds;
    HoldsJoin(mem, i, a, b);
  }

  lemma ThreeParts(mem: Memory, i: nat, a: seq<byte>, b: seq<byte>, c: seq<byte>)
    ensures Holds(mem, i, a + b + c) <==> Holds(mem, i, a) && Holds(mem, i + |a|, b) && Holds(mem, i + |a| + |b|, c)
  {
    hide Holds;
    HoldsJoin(mem, i, a + b, c);
    HoldsJoin(mem, i, a, b);
  }

  ghost predicate ReadsAs(mem: Memory, i: nat, form: Form, t: Token) {
    FormOf(mem(i)) == Some(form) && TokenAt(mem, i, form) == t
  }

  lemma WrittenNear(mem: Memory, i: nat, t: Token)
    requires Suits(Near, t)
    ensures Holds(mem, i, Write(Near, t)) <==> ReadsAs(mem, i, Near, t)
  {
    hide Holds;
    assert Write(Near, t) == [0x80 + (t.length - 1)] + [t.distance - 1];
    HoldsJoin(mem, i, [0x80 + (t.length - 1)], [t.distance - 1]);
    HoldsOne(mem, i, 0x80 + (t.length - 1));
    HoldsOne(mem, i + 1, t.distance - 1);
  }

  lemma WrittenMiddle(mem: Memory, i: nat, t: Token)
    requires Suits(Middle, t)
    ensures Holds(mem, i, Write(Middle, t)) <==> ReadsAs(mem, i, Middle, t)
  {
    hide Holds, Out2;
    var v := 0x4000 + (t.distance - 1);
    HoldsJoin(mem, i, Out2(v), [t.length - 1]);
    Out2Holds(mem, i, v);
    HoldsOne(mem, i + 2, t.length - 1);
  }

  lemma WrittenShort(mem: Memory, i: nat, t: Token)
    requires Suits(Short, t)
    ensures Holds(mem, i, Write(Short, t)) <==> ReadsAs(mem, i, Short, t)
  {
    hide Holds, BytesAt;
    HoldsJoin(mem, i, [0x20 + (|t.bytes| - 1)], t.bytes);
    HoldsOne(mem, i, 0x20 + (|t.bytes| - 1));
    BytesHold(mem, i + 1, t.bytes);
  }

  lemma WrittenFar(mem: Memory, i: nat, t: Token)
    requires Suits(Far, t)
    ensures Holds(mem, i, Write(Far, t)) <==> ReadsAs(mem, i, Far, t)
  {
    hide Holds, Out3;
    var v := 0x18_0000 + (t.distance - 1);
    HoldsJoin(mem, i, Out3(v), [t.length - 1]);
    Out3Holds(mem, i, v);
    HoldsOne(mem, i + 3, t.length - 1);
  }

  lemma WrittenFarLong(mem: Memory, i: nat, t: Token)
    requires Suits(FarLong, t)
    ensures Holds(mem, i, Write(FarLong, t)) <==> ReadsAs(mem, i, FarLong, t)
  {
    hide Holds, Out3, Out2;
    var v := 0x10_0000 + (t.distance - 1);
    HoldsJoin(mem, i, Out3(v), Out2(t.length - 1));
    Out3Holds(mem, i, v);
    Out2Holds(mem, i + 3, t.length - 1);
  }

  lemma WrittenMedium(mem: Memory, i: nat, t: Token)
    requires Suits(Medium, t)
    ensures Holds(mem, i, Write(Medium, t)) <==> ReadsAs(mem, i, Medium, t)
  {
    hide Holds, BytesAt, Out2;
    var v := 0x800 + (|t.bytes| - 1);
    HoldsJoin(mem, i, Out2(v), t.bytes);
    Out2Holds(mem, i, v);
    BytesHold(mem, i + 2, t.bytes);
  }

  lemma WrittenLong(mem: Memory, i: nat, t: Token)
    requires Suits(Long, t)
    ensures Holds(mem, i, Write(Long, t)) <==> ReadsAs(mem, i, Long, t)
  {
    hide Holds, BytesAt, Out2;
    ThreeParts(mem, i, [0x07], Out2(|t.bytes| - 1), t.bytes);
    HoldsOne(mem, i, 0x07);
    Out2Holds(mem, i + 1, |t.bytes| - 1);
    BytesHold(mem, i + 3, t.bytes);
  }

  lemma WrittenWide(mem: Memory, i: nat, t: Token)
    requires Suits(Wide, t)
    ensures Holds(mem, i, Write(Wide, t)) <==> ReadsAs(mem, i, Wide, t)
  {
    hide Holds, Out3;
    ThreeParts(mem, i, [0x06], Out3(t.distance - 1), [t.length - 1]);
    HoldsOne(mem, i, 0x06);
    Out3Holds(mem, i + 1, t.distance - 1);
    HoldsOne(mem, i + 4, t.length - 1);
  }

  lemma WrittenWideLong(mem: Memory, i: nat, t: Token)
    requires Suits(WideLong, t)
    ensures Holds(mem, i, Write(WideLong, t)) <==> ReadsAs(mem, i, WideLong, t)
  {
    hide Holds, Out3, Out2;
    ThreeParts(mem, i, [0x04], Out3(t.distance - 1), Out2(t.length - 1));
    HoldsOne(mem, i, 0x04);
    Out3Holds(mem, i + 1, t.distance - 1);
    Out2Holds(mem, i + 4, t.length - 1);
  }

  // A token that suits its form is read back exactly where it is written.
  lemma WrittenIffRead(mem: Memory, i: nat, form: Form, t: Token)
    requires Suits(form, t)
    ensures Holds(mem, i, Write(form, t)) <==> ReadsAs(mem, i, form, t)
    ensures |Write(form, t)| == SizeOf(form, t)
  {
    hide Holds, ReadsAs;
    match form
    case Near => WrittenNear(mem, i, t);
    case Middle => WrittenMiddle(mem, i, t);
    case Short => WrittenShort(mem, i, t);
    case Far => WrittenFar(mem, i, t);
    case FarLong => WrittenFarLong(mem, i, t);
    case Medium => WrittenMedium(mem, i, t);
    case Long => WrittenLong(mem, i, t);
    case Wide => WrittenWide(mem, i, t);
    case WideLong => WrittenWideLong(mem, i, t);
  }

  // Whatever is read suits its form.
  lemma ReadSuits(mem: Memory, i: nat, form: Form)
    requires FormOf(mem(i)) == Some(form)
    ensures Suits(form, TokenAt(mem, i, form))
  {
    hide BytesAt;
  }

  // ---------- the whole decoder

  // The output after a token, if it fits and copies only what is there.
  function Applied(out: seq<byte>, t: Token, olen: nat): Option<seq<byte>> {
    match t
    case Literal(bytes) => if |out| + |bytes| <= olen then Some(out + bytes) else None
    case Copy(distance, length) =>
      if |out| + length <= olen && 1 <= distance <= |out| then Some(out + Copied(out, distance, length)) else None
  }

  lemma AppliedGrows(mem: Memory, i: nat, form: Form, out: seq<byte>, olen: nat)
    requires FormOf(mem(i)) == Some(form) && |out| <= olen
    ensures var r := Applied(out, TokenAt(mem, i, form), olen); r.Some? ==> |out| < |r.value| <= olen
  {
    ReadSuits(mem, i, form);
  }

  // The output of a token stream, or nothing where the code returns 0.
  function Decoded(mem: Memory, i: nat, out: seq<byte>, olen: nat): Option<seq<byte>>
    requires |out| <= olen
    decreases olen - |out|
  {
    var form := FormOf(mem(i));
    if form.None? then
      if mem(i) == 0x05 && mem(i + 1) == 0xfa && |out| == olen && Adler32(1, out) == In4(mem, i + 2) then Some(out) else None
    else
      var t := TokenAt(mem, i, form.value);
      var next := Applied(out, t, olen);
      AppliedGrows(mem, i, form.value, out, olen);
      if next.None? then None else Decoded(mem, i + SizeOf(form.value, t), next.value, olen)
  }

  function Unpack(mem: Memory, at: nat): Option<seq<byte>> {
    if In4(mem, at) != 0x57bc_0000 || In4(mem, at + 4) != 0 then None
    else Decoded(mem, at + 16, [], In4(mem, at + 8))
  }

  // ---------- the decoder undoes the format, and accepts nothing else

  lemma SoundPrefix(pieces: seq<Piece>)
    requires |pieces| > 0 && Sound(pieces)
    ensures var front, last := pieces[..|pieces| - 1], pieces[|pieces| - 1];
            && Sound(front) && Suits(last.form, last.token)
            && (last.token.Copy? ==> 1 <= last.token.distance <= |Meaning(front)|)
            && Meaning(pieces) == Expanded(Meaning(front), last.token)
            && |Meaning(front)| < |Meaning(pieces)|
            && Written(pieces) == Written(front) + Write(last.form, last.token)
  {
  }

  // Going through pieces that are there takes the decoder to their end.
  lemma {:induction false} DecodedThrough(mem: Memory, i: nat, pieces: seq<Piece>, olen: nat)
    requires Sound(pieces) && |Meaning(pieces)| <= olen && Holds(mem, i, Written(pieces))
    ensures Decoded(mem, i, [], olen) == Decoded(mem, i + |Written(pieces)|, Meaning(pieces), olen)
    decreases |pieces|
  {
    hide Decoded, Holds, Sound, Meaning, Written, Expanded;
    if |pieces| == 0 {
      NoPieces();
    } else {
      SoundPrefix(pieces);
      var front, last := pieces[..|pieces| - 1], pieces[|pieces| - 1];
      HoldsJoin(mem, i, Written(front), Write(last.form, last.token));
      DecodedThrough(mem, i, front, olen);
      DecodedOne(mem, i + |Written(front)|, Meaning(front), last.form, last.token, olen);
    }
  }

  lemma NoPieces()
    ensures Sound([]) && Meaning([]) == [] && Written([]) == []
  {
  }

  lemma DecodedOne(mem: Memory, i: nat, out: seq<byte>, form: Form, t: Token, olen: nat)
    requires Suits(form, t) && Holds(mem, i, Write(form, t))
    requires (t.Copy? ==> 1 <= t.distance <= |out|) && |Expanded(out, t)| <= olen && |out| <= olen
    ensures Decoded(mem, i, out, olen) == Decoded(mem, i + |Write(form, t)|, Expanded(out, t), olen)
  {
    hide Holds, Suits, Write, SizeOf, FormOf, TokenAt, Copied;
    WrittenIffRead(mem, i, form, t);
  }

  lemma MoreLength(pieces: seq<Piece>, p: Piece)
    requires Sound(pieces) && Suits(p.form, p.token)
    requires p.token.Copy? ==> 1 <= p.token.distance <= |Meaning(pieces)|
    ensures Sound(pieces + [p]) && Meaning(pieces + [p]) == Expanded(Meaning(pieces), p.token)
    ensures Written(pieces + [p]) == Written(pieces) + Write(p.form, p.token)
  {
    hide Expanded, Write, Suits;
    assert (pieces + [p])[..|pieces|] == pieces;
  }

  // Where the decoder finds an output, there are pieces for it.
  lemma {:induction false} PiecesFound(mem: Memory, at: nat, before: seq<Piece>, olen: nat) returns (pieces: seq<Piece>)
    requires Sound(before) && |Meaning(before)| <= olen && Holds(mem, at, Written(before))
    requires Decoded(mem, at + |Written(before)|, Meaning(before), olen).Some?
    ensures Sound(pieces) && Decoded(mem, at + |Written(before)|, Meaning(before), olen) == Some(Meaning(pieces))
    ensures |Meaning(pieces)| == olen && Holds(mem, at, Written(pieces) + [0x05, 0xfa])
    ensures In4(mem, at + |Written(pieces)| + 2) == Adler32(1, Meaning(pieces))
    decreases olen - |Meaning(before)|
  {
    hide Holds, Sound, Meaning, Written, Suits, Write, SizeOf, FormOf, TokenAt, Adler32, In4, Expanded;
    var i, out := at + |Written(before)|, Meaning(before);
    if FormOf(mem(i)).None? {
      pieces := before;
      EndMarkHolds(mem, i);
      HoldsJoin(mem, at, Written(before), [0x05, 0xfa]);
    } else {
      var form := FormOf(mem(i)).value;
      var t := TokenAt(mem, i, form);
      ReadSuits(mem, i, form);
      AppliedGrows(mem, i, form, out, olen);
      WrittenIffRead(mem, i, form, t);
      AppliedExpands(out, t, olen);
      MoreLength(before, Piece(form, t));
      HoldsJoin(mem, at, Written(before), Write(form, t));
      pieces := PiecesFound(mem, at, before + [Piece(form, t)], olen);
    }
  }

  lemma EndMarkHolds(mem: Memory, i: nat)
    ensures Holds(mem, i, [0x05, 0xfa]) <==> mem(i) == 0x05 && mem(i + 1) == 0xfa
  {
    hide Holds;
    HoldsJoin(mem, i, [0x05], [0xfa]);
    assert [0x05 as byte] + [0xfa as byte] == [0x05, 0xfa];
    HoldsOne(mem, i, 0x05);
    HoldsOne(mem, i + 1, 0xfa);
  }

  lemma AppliedExpands(out: seq<byte>, t: Token, olen: nat)
    requires Applied(out, t, olen).Some? && (t.Copy? ==> t.distance >= 1)
    ensures t.Copy? ==> 1 <= t.distance <= |out|
    ensures Applied(out, t, olen).value == Expanded(out, t)
  {
  }

  // The decoder's result is the meaning of the stream at `at`; it has one exactly when
  // there is a stream there.
  lemma UnpackIffStream(mem: Memory, at: nat, data: seq<byte>)
    ensures Unpack(mem, at) == Some(data)
       <==> exists pieces: seq<Piece> :: IsStream(mem, at, pieces) && Meaning(pieces) == data
  {
    hide Decoded, Holds, Written, Unpacked, Adler32, In4;
    if Unpack(mem, at) == Some(data) {
      var pieces := StreamFound(mem, at, data);
      assert IsStream(mem, at, pieces);
    }
    if pieces: seq<Piece> :| IsStream(mem, at, pieces) && Meaning(pieces) == data {
      StreamUnpacks(mem, at, pieces);
    }
  }

  lemma HeaderHolds(mem: Memory, at: nat, n: nat)
    requires n < TWO_32
    ensures Holds(mem, at, Out4(0x57bc_0000) + Out4(0) + Out4(n))
       <==> In4(mem, at) == 0x57bc_0000 && In4(mem, at + 4) == 0 && In4(mem, at + 8) == n
  {
    hide Holds, Out4, In4;
    ThreeParts(mem, at, Out4(0x57bc_0000), Out4(0), Out4(n));
    Out4Holds(mem, at, 0x57bc_0000);
    Out4Holds(mem, at + 4, 0);
    Out4Holds(mem, at + 8, n);
  }

  lemma In4Fits(mem: Memory, at: nat)
    ensures In4(mem, at) < TWO_32
  {
  }

  lemma StreamFound(mem: Memory, at: nat, data: seq<byte>) returns (pieces: seq<Piece>)
    requires Unpack(mem, at) == Some(data)
    ensures IsStream(mem, at, pieces) && Meaning(pieces) == data
  {
    hide Decoded, Holds, Sound, Meaning, Written, Out4, In4, Adler32;
    NoPieces();
    In4Fits(mem, at + 8);
    HoldsNothing(mem, at + 16);
    pieces := PiecesFound(mem, at + 16, [], In4(mem, at + 8));
    HeaderHolds(mem, at, In4(mem, at + 8));
  }

  lemma HoldsNothing(mem: Memory, at: nat)
    ensures Holds(mem, at, [])
  {
  }

  lemma StreamUnpacks(mem: Memory, at: nat, pieces: seq<Piece>)
    requires IsStream(mem, at, pieces)
    ensures Unpack(mem, at) == Some(Meaning(pieces))
  {
    hide Decoded, Holds, Sound, Meaning, Written, Out4, In4, Adler32;
    var n := |Meaning(pieces)|;
    HeaderHolds(mem, at, n);
    HoldsJoin(mem, at + 16, Written(pieces), [0x05, 0xfa]);
    DecodedThrough(mem, at + 16, pieces, n);
    DecodedEnd(mem, at + 16 + |Written(pieces)|, Meaning(pieces));
  }

  lemma DecodedEnd(mem: Memory, i: nat, out: seq<byte>)
    requires Holds(mem, i, [0x05, 0xfa]) && In4(mem, i + 2) == Adler32(1, out)
    ensures Decoded(mem, i, out, |out|) == Some(out)
  {
    hide Holds, In4, Adler32;
    EndMarkHolds(mem, i);
  }

  // ---------- copies that run into themselves

  lemma OneTurnBack(j: nat, d: nat)
    requires 1 <= d <= j
    ensures (j - d) % d == j % d
  {
    var turns := j / d - 1 - (j - d) / d;
    assert j == d * (j / d) + j % d;
    assert j - d == d * ((j - d) / d) + (j - d) % d;
    assert d * turns == d * (j / d) - d - d * ((j - d) / d);
    SmallMultiple(d, turns);
  }

  lemma SmallMultiple(d: int, turns: int)
    requires d > 0
    ensures turns >= 1 ==> d * turns >= d
    ensures turns <= -1 ==> d * turns <= -d
  {
    if turns >= 1 {
      assert d * turns == d * (turns - 1) + d;
    } else if turns <= -1 {
      assert d * turns == d * (turns + 1) - d;
    }
  }

  lemma CopiedByte(out: seq<byte>, d: nat, length: nat, k: nat)
    requires 1 <= d <= |out| <= k < |out| + length
    ensures (out + Copied(out, d, length))[k] == (out + Copied(out, d, length))[k - d]
  {
    var j := k - |out|;
    assert j >= d ==> (j - d) % d == j % d by {
      if j >= d {
        OneTurnBack(j, d);
      }
    }
    assert j < d ==> j % d == j;
  }

  // A copy repeats itself at its distance, and is the only continuation that does.
  lemma CopyRepeats(out: seq<byte>, distance: nat, length: nat, r: seq<byte>)
    requires 1 <= distance <= |out| && |r| == |out| + length && r[..|out|] == out
    ensures r == Expanded(out, Copy(distance, length)) <==> forall k :: |out| <= k < |r| ==> r[k] == r[k - distance]
  {
    hide Copied;
    var e := out + Copied(out, distance, length);
    forall k | |out| <= k < |e| ensures e[k] == e[k - distance] {
      CopiedByte(out, distance, length, k);
    }
    if forall k :: |out| <= k < |r| ==> r[k] == r[k - distance] {
      OneContinuation(out, distance, r, e, |r|);
      assert r[..|r|] == r && e[..|r|] == e;
    }
  }

  lemma {:induction false} OneContinuation(out: seq<byte>, distance: nat, r: seq<byte>, e: seq<byte>, n: nat)
    requires 1 <= distance <= |out| <= n <= |r| == |e| && r[..|out|] == out == e[..|out|]
    requires forall k :: |out| <= k < |r| ==> r[k] == r[k - distance]
    requires forall k :: |out| <= k < |e| ==> e[k] == e[k - distance]
    ensures r[..n] == e[..n]
    decreases n
  {
    if n > |out| {
      OneContinuation(out, distance, r, e, n - 1);
      assert r[..n - 1][n - 1 - distance] == e[..n - 1][n - 1 - distance];
      assert r[..n] == r[..n - 1] + [r[n - 1]] && e[..n] == e[..n - 1] + [e[n - 1]];
    }
  }
}
