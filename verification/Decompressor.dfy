/**
 The decompressor: tokens written straight into the output buffer.
 */
module Decompressor {
  import opened Options
  import opened Adler
  import opened LzTokens
  import opened LzDecoder

  // The variables shared by the token functions.
  class Unpacker {
    const mem: Memory
    const barrierInB: nat
    const output: array<byte>
    // End of the output, as an index.
    const barrierOutE: nat
    // Where the next byte goes; beyond the end once something has gone wrong.
    var dout: nat

    ghost predicate Valid()
      reads this
    {
      barrierOutE <= output.Length
    }

    constructor (mem: Memory, inB: nat, output: array<byte>, olen: nat)
      requires olen <= output.Length
      ensures Valid() && this.mem == mem && barrierInB == inB && this.output == output && barrierOutE == olen && dout == 0
    {
      this.mem, barrierInB, this.output, barrierOutE, dout := mem, inB, output, olen, 0;
    }

    // The state after a token that may have failed.
    twostate predicate After(t: Token)
      reads this, output
    {
      barrierOutE <= output.Length && old(dout) <= output.Length &&
      match Applied(old(output[..dout]), t, barrierOutE)
      case Some(out) => dout == |out| <= output.Length && output[..dout] == out
      case None => dout > barrierOutE
    }

    // The source may reach into what is being written.
    method Match(data: int, length: nat)
      requires Valid() && dout <= barrierOutE && data < dout && length >= 1
      modifies this`dout, output
      ensures output[barrierOutE..] == old(output[barrierOutE..])
      ensures After(Copy(old(dout) - data, length))
    {
      if dout + length > barrierOutE {
        dout := dout + length;
        return;
      }
      if data < 0 {
        dout := barrierOutE + 1;
        return;
      }
      ghost var was := output[..dout];
      ghost var distance := dout - data;
      var from, rest := data, length;
      while rest > 0
        invariant 0 <= rest <= length && dout == |was| + (length - rest) && from == dout - distance
        invariant output[..dout] == was + Copied(was, distance, length - rest)
        invariant output[barrierOutE..] == old(output[barrierOutE..])
        decreases rest
      {
        CopyOneMore(was, distance, length - rest);
        assert output[from] == output[..dout][from];
        ghost var so := output[..dout];
        output[dout] := output[from];
        assert output[..dout] == so;
        dout, from, rest := dout + 1, from + 1, rest - 1;
        assert output[..dout] == so + [output[dout - 1]];
      }
    }

    method Lit(data: nat, length: nat)
      requires Valid() && dout <= barrierOutE && length >= 1
      modifies this`dout, output
      ensures output[barrierOutE..] == old(output[barrierOutE..])
      ensures data >= barrierInB ==> After(Literal(BytesAt(mem, data, length)))
      ensures data < barrierInB ==> dout > barrierOutE
    {
      if dout + length > barrierOutE {
        dout := dout + length;
        return;
      }
      if data < barrierInB {
        dout := barrierOutE + 1;
        return;
      }
      ghost var was := output[..dout];
      var k := 0;
      while k < length
        invariant 0 <= k <= length && dout == |was|
        invariant output[..dout + k] == was + BytesAt(mem, data, k)
        invariant output[barrierOutE..] == old(output[barrierOutE..])
        modifies output
      {
        ghost var so := output[..dout + k];
        output[dout + k] := mem(data + k);
        assert output[..dout + k] == so;
        assert output[..dout + k + 1] == so + [output[dout + k]];
        k := k + 1;
      }
      dout := dout + length;
    }

    method DecompressToken(i: nat) returns (next: nat)
      requires Valid() && dout <= barrierOutE && i >= barrierInB
      modifies this`dout, output
      ensures output[barrierOutE..] == old(output[barrierOutE..])
      ensures FormOf(mem(i)).None? ==> next == i && dout == old(dout) && output[..] == old(output[..])
      ensures var form := FormOf(mem(i));
              form.Some? ==> var t := TokenAt(mem, i, form.value);
                             next == i + SizeOf(form.value, t) && After(t)
    {
      hide After, BytesAt, In2, In3;
      next := i;
      var b := mem(i);
      Biases(mem, i);
      if b >= 0x20 {
        if b >= 0x80 {
          Match(dout - mem(i + 1) - 1, b - 0x80 + 1);
          next := i + 2;
        } else if b >= 0x40 {
          Match(dout - (In2(mem, i) - 0x4000 + 1), mem(i + 2) + 1);
          next := i + 3;
        } else {
          Lit(i + 1, b - 0x20 + 1);
          next := i + 1 + (b - 0x20 + 1);
        }
      } else {
        if b >= 0x18 {
          Match(dout - (In3(mem, i) - 0x18_0000 + 1), mem(i + 3) + 1);
          next := i + 4;
        } else if b >= 0x10 {
          Match(dout - (In3(mem, i) - 0x10_0000 + 1), In2(mem, i + 3) + 1);
          next := i + 5;
        } else if b >= 0x08 {
          Lit(i + 2, In2(mem, i) - 0x0800 + 1);
          next := i + 2 + (In2(mem, i) - 0x0800 + 1);
        } else if b == 0x07 {
          Lit(i + 3, In2(mem, i + 1) + 1);
          next := i + 3 + (In2(mem, i + 1) + 1);
        } else if b == 0x06 {
          Match(dout - (In3(mem, i + 1) + 1), mem(i + 4) + 1);
          next := i + 5;
        } else if b == 0x04 {
          Match(dout - (In3(mem, i + 1) + 1), In2(mem, i + 4) + 1);
          next := i + 6;
        }
      }
    }
  }

  // The bias of a form is never more than what is read.
  lemma Biases(mem: Memory, i: nat)
    ensures mem(i) >= 0x40 ==> In2(mem, i) >= 0x4000
    ensures mem(i) >= 0x08 ==> In2(mem, i) >= 0x800
    ensures mem(i) >= 0x10 ==> In3(mem, i) >= 0x10_0000
    ensures mem(i) >= 0x18 ==> In3(mem, i) >= 0x18_0000
  {
  }

  lemma CopyOneMore(was: seq<byte>, distance: nat, n: nat)
    requires 1 <= distance <= |was|
    ensures var so := was + Copied(was, distance, n);
            was + Copied(was, distance, n + 1) == so + [so[|so| - distance]]
  {
    var more := was + Copied(was, distance, n + 1);
    CopiedByte(was, distance, n + 1, |was| + n);
  }

  // Decompress into `output`, which has room for what the header announces.  The result
  // is the length of the data, or 0 if there is no well-formed stream.
  method StbDecompress(output: array<byte>, mem: Memory, start: nat) returns (n: nat)
    requires In4(mem, start + 8) <= output.Length
    modifies output
    ensures var r := Unpack(mem, start);
            if r.Some? then n == |r.value| <= output.Length && output[..n] == r.value else n == 0
    ensures output[In4(mem, start + 8)..] == old(output[In4(mem, start + 8)..])
  {
    hide Decoded, In4, Adler32;
    if In4(mem, start) != 0x57bc_0000 {
      return 0;
    }
    if In4(mem, start + 4) != 0 {
      return 0;
    }
    var olen := In4(mem, start + 8);
    var u := new Unpacker(mem, start, output, olen);
    var i := start + 16;
    assert output[..0] == [];
    while true
      invariant u.Valid() && u.mem == mem && u.output == output && u.barrierOutE == olen && u.barrierInB == start
      invariant u.dout <= olen && i >= start && fresh(u)
      invariant Unpack(mem, start) == Decoded(mem, i, output[..u.dout], olen)
      invariant output[olen..] == old(output[olen..])
      decreases olen - u.dout
    {
      var oldI := i;
      ghost var out := output[..u.dout];
      i := u.DecompressToken(i);
      if i == oldI {
        assert output[..u.dout] == out;
        n := Finish(u, i);
        return;
      }
      StepDecoded(mem, oldI, out, olen);
      if u.dout > olen {
        return 0;
      }
    }
  }

  // No token starts here: it is the end mark with the right checksum behind it, or
  // nothing is returned.
  method Finish(u: Unpacker, i: nat) returns (n: nat)
    requires u.Valid() && u.dout <= u.barrierOutE && FormOf(u.mem(i)).None?
    ensures var r := Decoded(u.mem, i, u.output[..u.dout], u.barrierOutE);
            if r.Some? then n == |r.value| <= u.output.Length && u.output[..n] == r.value else n == 0
  {
    hide In4, Adler32;
    if u.mem(i) == 0x05 && u.mem(i + 1) == 0xfa {
      if u.dout != u.barrierOutE {
        return 0;
      }
      var a := StbAdler32(1, u.output, u.barrierOutE);
      if a != In4(u.mem, i + 2) {
        return 0;
      }
      return u.barrierOutE;
    }
    return 0;
  }

  lemma StepDecoded(mem: Memory, i: nat, out: seq<byte>, olen: nat)
    requires |out| <= olen && FormOf(mem(i)).Some?
    ensures var form := FormOf(mem(i)).value; var t := TokenAt(mem, i, form); var next := Applied(out, t, olen);
            && (next.None? ==> Decoded(mem, i, out, olen) == None)
            && (next.Some? ==> (|out| < |next.value| <= olen
                && Decoded(mem, i, out, olen) == Decoded(mem, i + SizeOf(form, t), next.value, olen)))
  {
    hide Applied, FormOf, TokenAt, SizeOf;
    AppliedGrows(mem, i, FormOf(mem(i)).value, out, olen);
  }
}
