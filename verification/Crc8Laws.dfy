/**
 The 8-bit checksum as a shift register.
 */
module Crc8Laws {
  import opened CrcTables
  import opened CrcLaws

  const CRC8_INIT: bv8 := 0xff

  function Bit8(b: bool): bv8 {
    if b then 1 else 0
  }

  function Add8(a: bv8, b: bv8): bv8 {
    a ^ b
  }

  function Feed8(r: bv8, b: bool): bv8 {
    Shift8(Add8(r, Bit8(b)))
  }

  function Register8(r: bv8, bits: seq<bool>): bv8
    decreases |bits|
  {
    if |bits| == 0 then r else Register8(Feed8(r, bits[0]), bits[1..])
  }

  lemma {:induction false} RegisterJoin8(r: bv8, a: seq<bool>, b: seq<bool>)
    ensures Register8(r, a + b) == Register8(Register8(r, a), b)
    decreases |a|
  {
    hide Feed8;
    if |a| == 0 {
      assert a + b == b;
    } else {
      assert (a + b)[1..] == a[1..] + b;
      RegisterJoin8(Feed8(r, a[0]), a[1..], b);
    }
  }

  // ---------- linearity

  lemma ShiftIsLinear8(a: bv8, b: bv8)
    ensures Shift8(Add8(a, b)) == Add8(Shift8(a), Shift8(b))
  {
    if a & 1 == 1 {
      if b & 1 == 1 {
        assert (a ^ b) & 1 == 0;
      } else {
        assert (a ^ b) & 1 == 1;
      }
    } else {
      if b & 1 == 1 {
        assert (a ^ b) & 1 == 1;
      } else {
        assert (a ^ b) & 1 == 0;
      }
    }
  }

  lemma XorRegroups8(r: bv8, s: bv8, e: bv8)
    ensures r ^ s == (s ^ e) ^ (r ^ e)
    ensures (r ^ s) ^ e == (r ^ e) ^ s == r ^ (s ^ e)
    ensures r ^ s == s ^ r && r ^ 0 == r
  {
  }

  lemma AddRegroups8(r: bv8, s: bv8, e: bv8)
    ensures Add8(r, s) == Add8(Add8(s, e), Add8(r, e))
    ensures Add8(Add8(r, s), e) == Add8(Add8(r, e), s) == Add8(r, Add8(s, e))
    ensures Add8(r, s) == Add8(s, r) && Add8(r, 0) == r
  {
    XorRegroups8(r, s, e);
  }

  lemma FeedIsLinear8(r: bv8, s: bv8, x: bool, y: bool)
    ensures Feed8(Add8(r, s), x != y) == Add8(Feed8(r, x), Feed8(s, y))
  {
    hide Shift8, Add8;
    AddRegroups8(r, s, 1);
    AddRegroups8(r, s, 0);
    AddRegroups8(s, r, 0);
    AddRegroups8(Add8(r, s), 0, 0);
    AddRegroups8(Add8(r, 1), Add8(s, 1), 0);
    ShiftIsLinear8(Add8(r, Bit8(x)), Add8(s, Bit8(y)));
  }

  lemma {:induction false} RegisterIsLinear8(r: bv8, s: bv8, a: seq<bool>, b: seq<bool>)
    requires |a| == |b|
    ensures Register8(Add8(r, s), XorBits(a, b)) == Add8(Register8(r, a), Register8(s, b))
    decreases |a|
  {
    hide Feed8, Add8;
    if |a| > 0 {
      FeedIsLinear8(r, s, a[0], b[0]);
      assert XorBits(a, b)[1..] == XorBits(a[1..], b[1..]);
      RegisterIsLinear8(Feed8(r, a[0]), Feed8(s, b[0]), a[1..], b[1..]);
    }
  }

  // ---------- a byte at a time, by table

  function Shifts8(r: bv8, n: nat): bv8
    decreases n
  {
    if n == 0 then r else Shifts8(Shift8(r), n - 1)
  }

  lemma ShiftClear8(high: bv8)
    requires high & 1 == 0
    ensures Shift8(high) == high >> 1
  {
  }

  lemma SplitLowBit8(b: bv8)
    ensures var high := Add8(b, Bit8(b & 1 == 1)); high & 1 == 0 && high >> 1 == b >> 1
  {
    if b & 1 == 1 {
    } else {
    }
  }

  lemma ShiftOneBit8(r: bv8, b: bv8)
    ensures Shift8(Add8(r, b)) == Add8(Feed8(r, b & 1 == 1), b >> 1)
  {
    hide Shift8, Bit8, Add8;
    var low := Bit8(b & 1 == 1);
    SplitLowBit8(b);
    ShiftIsLinear8(Add8(b, low), Add8(r, low));
    ShiftClear8(Add8(b, low));
    AddRegroups8(r, b, low);
    AddRegroups8(b >> 1, Shift8(Add8(r, low)), 0);
  }

  lemma {:induction false} BitsAreShifts8(r: bv8, b: bv8, n: nat)
    requires b & Mask(n) == b
    ensures Register8(r, LowBits(b, n)) == Shifts8(Add8(r, b), n)
    decreases n
  {
    hide Shift8, Feed8, Add8, Mask;
    if n == 0 {
      NothingToAdd8(r, b);
    } else {
      MaskStep(b, n);
      ShiftOneBit8(r, b);
      assert LowBits(b, n)[1..] == LowBits(b >> 1, n - 1);
      BitsAreShifts8(Feed8(r, b & 1 == 1), b >> 1, n - 1);
    }
  }

  lemma NothingToAdd8(r: bv8, b: bv8)
    requires b & Mask(0) == b
    ensures Add8(r, b) == r
  {
    assert b == 0;
  }

  lemma FourShifts8(r: bv8, n: nat)
    requires n >= 4
    ensures Shifts8(r, n) == Shifts8(Shift8(Shift8(Shift8(Shift8(r)))), n - 4)
  {
    hide Shift8;
    var s := Shift8(Shift8(r));
    assert Shifts8(r, n) == Shifts8(Shift8(r), n - 1) == Shifts8(s, n - 2);
    assert Shifts8(s, n - 2) == Shifts8(Shift8(s), n - 3) == Shifts8(Shift8(Shift8(s)), n - 4);
  }

  // The table lookup takes the register through one byte.
  lemma TableStepIsRegister8(r: bv8, b: bv8)
    ensures NarrowTable(Add8(r, b)) == Register8(r, LowBits(b, 8)) == EightShifts8(Add8(r, b))
  {
    hide Shift8, Register8, Shifts8, Add8, NarrowTable;
    assert Mask(8) == 0xff;
    assert b & 0xff == b;
    BitsAreShifts8(r, b, 8);
    var x := Add8(r, b);
    FourShifts8(x, 8);
    FourShifts8(Shift8(Shift8(Shift8(Shift8(x)))), 4);
    NoShifts8(EightShifts8(x));
    NarrowTableIsRegister(x);
  }

  lemma NoShifts8(r: bv8)
    ensures Shifts8(r, 0) == r
  {
  }

  // ---------- the checksum as a tail

  lemma ShiftsToZero8(r: bv8)
    ensures Shift8(r) == 0 <==> r == 0
  {
    if r & 1 == 1 {
      assert ((r >> 1) ^ 0x8c) & 0x80 == 0x80;
    }
  }

  lemma AddIsZero8(a: bv8, b: bv8)
    ensures Add8(a, b) == 0 <==> a == b
  {
    if a ^ b == 0 {
      assert (a ^ b) ^ b == a;
    }
  }

  lemma EightShiftsToZero8(r: bv8)
    ensures EightShifts8(r) == 0 <==> r == 0
  {
    hide Shift8;
    var s := Shift8(Shift8(Shift8(Shift8(r))));
    ShiftsToZero8(r);
    ShiftsToZero8(Shift8(r));
    ShiftsToZero8(Shift8(Shift8(r)));
    ShiftsToZero8(Shift8(Shift8(Shift8(r))));
    ShiftsToZero8(s);
    ShiftsToZero8(Shift8(s));
    ShiftsToZero8(Shift8(Shift8(s)));
    ShiftsToZero8(Shift8(Shift8(Shift8(s))));
  }

  // One more byte clears the register exactly when it is what the register holds.
  lemma TailClears8(r: bv8, tail: bv8)
    ensures Register8(r, LowBits(tail, 8)) == 0 <==> tail == r
  {
    hide EightShifts8, Register8, Add8, NarrowTable;
    TableStepIsRegister8(r, tail);
    EightShiftsToZero8(Add8(r, tail));
    AddIsZero8(r, tail);
  }
}
