/**
 What the 16-bit checksum is for: the shift register as a linear map over GF(2), and
 the errors it never misses.
 */
module CrcLaws {
  import opened CrcTables

  const CRC16_INIT: bv16 := 0xffff

  // ---------- a message as the bits on the wire, low bit first

  function LowBits(b: bv8, n: nat): (bits: seq<bool>)
    ensures |bits| == n
  {
    if n == 0 then [] else [b & 1 == 1] + LowBits(b >> 1, n - 1)
  }

  function BitsOf(message: seq<bv8>): (bits: seq<bool>)
    ensures |bits| == 8 * |message|
  {
    if |message| == 0 then [] else LowBits(message[0], 8) + BitsOf(message[1..])
  }

  function Bit(b: bool): bv16 {
    if b then 1 else 0
  }

  // Addition over GF(2).
  function Add(a: bv16, b: bv16): bv16 {
    a ^ b
  }

  function Feed(r: bv16, b: bool): bv16 {
    Shift(Add(r, Bit(b)))
  }

  // The shift register fed bit by bit.
  function Register(r: bv16, bits: seq<bool>): bv16
    decreases |bits|
  {
    if |bits| == 0 then r else Register(Feed(r, bits[0]), bits[1..])
  }

  lemma {:induction false} RegisterJoin(r: bv16, a: seq<bool>, b: seq<bool>)
    ensures Register(r, a + b) == Register(Register(r, a), b)
    decreases |a|
  {
    hide Feed;
    if |a| == 0 {
      assert a + b == b;
    } else {
      assert (a + b)[1..] == a[1..] + b;
      RegisterJoin(Feed(r, a[0]), a[1..], b);
    }
  }

  lemma {:induction false} BitsJoin(a: seq<bv8>, b: seq<bv8>)
    ensures BitsOf(a + b) == BitsOf(a) + BitsOf(b)
    decreases |a|
  {
    hide LowBits;
    if |a| == 0 {
      assert a + b == b;
    } else {
      assert (a + b)[1..] == a[1..] + b;
      BitsJoin(a[1..], b);
    }
  }

  // ---------- linearity

  lemma ShiftIsLinear(a: bv16, b: bv16)
    ensures Shift(Add(a, b)) == Add(Shift(a), Shift(b))
  {
    if a & 1 == 1 {
      if b & 1 == 1 {
        assert (a ^ b) & 1 == 0;
      } else {
        assert (a ^ b) & 1 == 1;
      }
    } else {
      if b & 1 == 1 {
        assert (a ^ b) & 1 == 1;
      } else {
        assert (a ^ b) & 1 == 0;
      }
    }
  }

  lemma XorRegroups(r: bv16, s: bv16, e: bv16)
    ensures r ^ s == (s ^ e) ^ (r ^ e)
    ensures (r ^ s) ^ e == (r ^ e) ^ s == r ^ (s ^ e)
    ensures r ^ s == s ^ r && r ^ 0 == r
  {
  }

  lemma AddRegroups(r: bv16, s: bv16, e: bv16)
    ensures Add(r, s) == Add(Add(s, e), Add(r, e))
    ensures Add(Add(r, s), e) == Add(Add(r, e), s) == Add(r, Add(s, e))
    ensures Add(r, s) == Add(s, r) && Add(r, 0) == r
  {
    XorRegroups(r, s, e);
  }

  lemma BitIsLinear(r: bv16, s: bv16, x: bool, y: bool)
    ensures Add(Add(r, s), Bit(x != y)) == Add(Add(r, Bit(x)), Add(s, Bit(y)))
  {
    hide Add;
    AddRegroups(r, s, 1);
    AddRegroups(r, s, 0);
    AddRegroups(s, r, 0);
    AddRegroups(Add(r, s), 0, 0);
    AddRegroups(Add(r, 1), Add(s, 1), 0);
  }

  lemma FeedIsLinear(r: bv16, s: bv16, x: bool, y: bool)
    ensures Feed(Add(r, s), x != y) == Add(Feed(r, x), Feed(s, y))
  {
    hide Shift, Bit, Add;
    BitIsLinear(r, s, x, y);
    ShiftIsLinear(Add(r, Bit(x)), Add(s, Bit(y)));
  }

  function XorBits(a: seq<bool>, b: seq<bool>): seq<bool>
    requires |a| == |b|
  {
    seq(|a|, k requires 0 <= k < |a| => a[k] != b[k])
  }

  // The register is linear: start values and messages may be added before or after.
  lemma {:induction false} RegisterIsLinear(r: bv16, s: bv16, a: seq<bool>, b: seq<bool>)
    requires |a| == |b|
    ensures Register(Add(r, s), XorBits(a, b)) == Add(Register(r, a), Register(s, b))
    decreases |a|
  {
    hide Feed, Add;
    if |a| > 0 {
      FeedIsLinear(r, s, a[0], b[0]);
      assert XorBits(a, b)[1..] == XorBits(a[1..], b[1..]);
      RegisterIsLinear(Feed(r, a[0]), Feed(s, b[0]), a[1..], b[1..]);
    }
  }

  // ---------- a byte at a time, by table

  // The low n bits.
  function Mask(n: nat): bv8 {
    if n == 0 then 0 else (Mask(n - 1) << 1) | 1
  }

  lemma MaskStep(b: bv8, n: nat)
    requires n > 0
    ensures (b & Mask(n)) & 1 == b & 1
    ensures (b & Mask(n)) >> 1 == (b >> 1) & Mask(n - 1)
  {
    var m := Mask(n - 1);
    assert (b & ((m << 1) | 1)) & 1 == b & 1;
    assert (b & ((m << 1) | 1)) >> 1 == (b >> 1) & (m & 0x7f);
    assert (b >> 1) & (m & 0x7f) == (b >> 1) & m;
  }

  function Shifts(r: bv16, n: nat): bv16
    decreases n
  {
    if n == 0 then r else Shifts(Shift(r), n - 1)
  }

  function Wide(b: bv8): bv16 {
    b as bv16
  }

  function LowByte(r: bv16): bv8 {
    (r & 0x00ff) as bv8
  }

  function HighByte(r: bv16): bv8 {
    ((r >> 8) & 0x00ff) as bv8
  }

  function Down(r: bv16): bv16 {
    r >> 1
  }

  // Low bits that are clear just move down.
  lemma ShiftClear(high: bv16)
    requires high & 1 == 0
    ensures Shift(high) == Down(high)
  {
  }

  lemma PastZero(high: bv16, low: bv16)
    requires high & 1 == 0
    ensures Shift(Add(high, low)) == Add(Down(high), Shift(low))
  {
    hide Shift, Add, Down;
    ShiftIsLinear(high, low);
    ShiftClear(high);
  }

  lemma SplitLowBit(b: bv8)
    ensures var high := Add(Wide(b), Bit(b & 1 == 1)); high & 1 == 0 && Down(high) == Wide(b >> 1)
  {
    if b & 1 == 1 {
    } else {
    }
  }

  lemma ShiftOneBit(r: bv16, b: bv8)
    ensures Shift(Add(r, Wide(b))) == Add(Feed(r, b & 1 == 1), Wide(b >> 1))
  {
    hide Shift, Bit, Add, Wide, Down;
    var low := Bit(b & 1 == 1);
    SplitLowBit(b);
    PastZero(Add(Wide(b), low), Add(r, low));
    AddRegroups(r, Wide(b), low);
    AddRegroups(Wide(b >> 1), Shift(Add(r, low)), 0);
  }

  // Bits fed one by one, or added at once and shifted through.
  lemma {:induction false} BitsAreShifts(r: bv16, b: bv8, n: nat)
    requires b & Mask(n) == b
    ensures Register(r, LowBits(b, n)) == Shifts(Add(r, Wide(b)), n)
    decreases n
  {
    hide Shift, Feed, Add, Wide, Mask;
    if n == 0 {
      NothingToAdd(r, b);
    } else {
      MaskStep(b, n);
      ShiftOneBit(r, b);
      assert LowBits(b, n)[1..] == LowBits(b >> 1, n - 1);
      BitsAreShifts(Feed(r, b & 1 == 1), b >> 1, n - 1);
    }
  }

  lemma NothingToAdd(r: bv16, b: bv8)
    requires b & Mask(0) == b
    ensures Add(r, Wide(b)) == r
  {
    assert b == 0;
  }

  lemma ClearByte(high: bv16)
    requires high & 0xff == 0
    ensures high & 1 == 0 && Down(high) & 1 == 0 && Down(Down(high)) & 1 == 0 && Down(Down(Down(high))) & 1 == 0
    ensures var d := Down(Down(Down(Down(high))));
            && d & 1 == 0 && Down(d) & 1 == 0 && Down(Down(d)) & 1 == 0 && Down(Down(Down(d))) & 1 == 0
            && Down(Down(Down(Down(d)))) == high >> 8
  {
  }

  lemma EightPastZero(high: bv16, low: bv16)
    requires high & 0xff == 0
    ensures EightShifts(Add(high, low)) == Add(high >> 8, EightShifts(low))
  {
    hide Shift, Add, Down;
    ClearByte(high);
    var h1, l1 := Down(high), Shift(low);
    var h2, l2 := Down(h1), Shift(l1);
    var h3, l3 := Down(h2), Shift(l2);
    var h4, l4 := Down(h3), Shift(l3);
    var h5, l5 := Down(h4), Shift(l4);
    var h6, l6 := Down(h5), Shift(l5);
    var h7, l7 := Down(h6), Shift(l6);
    PastZero(high, low);
    PastZero(h1, l1);
    PastZero(h2, l2);
    PastZero(h3, l3);
    PastZero(h4, l4);
    PastZero(h5, l5);
    PastZero(h6, l6);
    PastZero(h7, l7);
  }

  lemma FourShifts(r: bv16, n: nat)
    requires n >= 4
    ensures Shifts(r, n) == Shifts(Shift(Shift(Shift(Shift(r)))), n - 4)
  {
    hide Shift;
    var s := Shift(Shift(r));
    assert Shifts(r, n) == Shifts(Shift(r), n - 1) == Shifts(s, n - 2);
    assert Shifts(s, n - 2) == Shifts(Shift(s), n - 3) == Shifts(Shift(Shift(s)), n - 4);
  }

  // One byte through the register.
  lemma ByteIsEightShifts(r: bv16, b: bv8)
    ensures Register(r, LowBits(b, 8)) == EightShifts(Add(r, Wide(b)))
  {
    hide Shift, Register, Shifts, Add, Wide;
    assert Mask(8) == 0xff;
    assert b & 0xff == b;
    BitsAreShifts(r, b, 8);
    var x := Add(r, Wide(b));
    FourShifts(x, 8);
    FourShifts(Shift(Shift(Shift(Shift(x)))), 4);
    NoShifts(EightShifts(x));
  }

  lemma NoShifts(r: bv16)
    ensures Shifts(r, 0) == r
  {
  }

  lemma SplitBytes(x: bv16)
    ensures Add(x & 0xff00, x & 0x00ff) == x && (x & 0xff00) & 0xff == 0 && (x & 0xff00) >> 8 == x >> 8
    ensures Wide(LowByte(x)) == x & 0x00ff
  {
  }

  lemma ByteKeepsHigh(r: bv16, b: bv8)
    ensures Add(r, Wide(b)) >> 8 == r >> 8
  {
  }

  // The table lookup takes the register through one byte.
  lemma TableStepIsRegister(r: bv16, b: bv8)
    ensures Add(r >> 8, WideTable(LowByte(Add(r, Wide(b))))) == Register(r, LowBits(b, 8))
  {
    hide WideTable, EightShifts, Register, Add, LowBits, LowByte;
    var x := Add(r, Wide(b));
    SplitBytes(x);
    ByteKeepsHigh(r, b);
    ByteIsEightShifts(r, b);
    EightPastZero(x & 0xff00, x & 0x00ff);
    WideTableIsRegister(LowByte(x));
  }

  // ---------- the register forgets nothing

  lemma ShiftsToZero(r: bv16)
    requires Shift(r) == 0
    ensures r == 0
  {
    if r & 1 == 1 {
      assert false;
    }
  }

  lemma AddIsZero(a: bv16, b: bv16)
    ensures Add(a, b) == 0 <==> a == b
  {
    if a ^ b == 0 {
      assert (a ^ b) ^ b == a;
    }
  }

  lemma ShiftIsOneToOne(a: bv16, b: bv16)
    requires Shift(a) == Shift(b)
    ensures a == b
  {
    hide Shift, Add;
    ShiftIsLinear(a, b);
    AddIsZero(Shift(a), Shift(b));
    ShiftsToZero(Add(a, b));
    AddIsZero(a, b);
  }

  lemma FeedIsOneToOne(r: bv16, s: bv16, x: bool)
    requires Feed(r, x) == Feed(s, x)
    ensures r == s
  {
    hide Shift, Bit, Add;
    ShiftIsOneToOne(Add(r, Bit(x)), Add(s, Bit(x)));
    AddRegroups(r, s, Bit(x));
    AddIsZero(Add(s, Bit(x)), Add(r, Bit(x)));
    AddIsZero(r, s);
  }

  // Equal states after equal bits were equal before.
  lemma {:induction false} RegisterIsOneToOne(r: bv16, s: bv16, bits: seq<bool>)
    requires Register(r, bits) == Register(s, bits)
    ensures r == s
    decreases |bits|
  {
    hide Feed;
    if |bits| > 0 {
      RegisterIsOneToOne(Feed(r, bits[0]), Feed(s, bits[0]), bits[1..]);
      FeedIsOneToOne(r, s, bits[0]);
    }
  }

  lemma EightShiftsIsOneToOne(a: bv16, b: bv16)
    requires EightShifts(a) == EightShifts(b)
    ensures a == b
  {
    hide Shift;
    var a2, b2 := Shift(Shift(a)), Shift(Shift(b));
    var a4, b4 := Shift(Shift(a2)), Shift(Shift(b2));
    var a6, b6 := Shift(Shift(a4)), Shift(Shift(b4));
    TwoShiftsOneToOne(a6, b6);
    TwoShiftsOneToOne(a4, b4);
    TwoShiftsOneToOne(a2, b2);
    TwoShiftsOneToOne(a, b);
  }

  lemma TwoShiftsOneToOne(a: bv16, b: bv16)
    requires Shift(Shift(a)) == Shift(Shift(b))
    ensures a == b
  {
    hide Shift;
    ShiftIsOneToOne(Shift(a), Shift(b));
    ShiftIsOneToOne(a, b);
  }

  // ---------- the checksum as a tail

  function Raised(b: bv8): bv16 {
    b as bv16 << 8
  }

  lemma TailBits(c: bv16, lo: bv8, hi: bv8)
    ensures Add(c, Wide(lo)) == Raised(hi) <==> lo == LowByte(c) && hi == HighByte(c)
    ensures Raised(hi) & 0xff == 0 && Raised(hi) >> 8 == Wide(hi)
  {
    if c ^ lo as bv16 == hi as bv16 << 8 {
      assert (c ^ lo as bv16) & 0xff == 0 && (c ^ lo as bv16) >> 8 == hi as bv16;
      assert (c >> 8) == hi as bv16;
      assert c & 0xff == lo as bv16;
    }
    if lo == LowByte(c) && hi == HighByte(c) {
      assert c ^ (c & 0xff) == (c >> 8) << 8;
    }
  }

  lemma EightShiftsOfZero()
    ensures EightShifts(0) == 0
  {
  }

  lemma EightShiftsOfRaised(hi: bv8)
    ensures EightShifts(Raised(hi)) == Wide(hi)
  {
    hide Add, Wide, Raised, EightShifts, LowByte, HighByte;
    TailBits(0, hi, hi);
    EightPastZero(Raised(hi), 0);
    EightShiftsOfZero();
    AddRegroups(Wide(hi), 0, 0);
    AddRegroups(Raised(hi), 0, 0);
  }

  lemma ShiftsDown(x: bv16, hi: bv8)
    ensures EightShifts(x) == Wide(hi) <==> x == Raised(hi)
    ensures EightShifts(x) == 0 <==> x == 0
  {
    hide Wide, Raised, EightShifts;
    EightShiftsOfRaised(hi);
    EightShiftsOfZero();
    if EightShifts(x) == Wide(hi) {
      EightShiftsIsOneToOne(x, Raised(hi));
    }
    if EightShifts(x) == 0 {
      EightShiftsIsOneToOne(x, 0);
    }
  }

  // Feeding a register two more bytes clears it exactly when they are what it holds,
  // low byte first.
  lemma TailClears(c: bv16, lo: bv8, hi: bv8)
    ensures Register(Register(c, LowBits(lo, 8)), LowBits(hi, 8)) == 0
       <==> lo == LowByte(c) && hi == HighByte(c)
  {
    hide Register, LowBits, Add, Wide, Raised, EightShifts, LowByte, HighByte;
    var s := Register(c, LowBits(lo, 8));
    ByteIsEightShifts(c, lo);
    ByteIsEightShifts(s, hi);
    AddIsZero(s, Wide(hi));
    ShiftsDown(Add(s, Wide(hi)), hi);
    ShiftsDown(Add(c, Wide(lo)), hi);
    TailBits(c, lo, hi);
  }

  // ---------- bursts

  function Downs(r: bv16, n: nat): bv16
    decreases n
  {
    if n == 0 then r else Downs(Down(r), n - 1)
  }

  // Only the low n bits of d may be set.
  ghost predicate Within(d: bv16, n: nat) {
    Downs(d, n) == 0
  }

  lemma {:induction false} DownsOfZero(n: nat)
    ensures Downs(0, n) == 0
  {
    if n > 0 {
      assert Down(0) == 0;
      DownsOfZero(n - 1);
    }
  }

  lemma {:induction false} DownsFurther(r: bv16, n: nat, m: nat)
    requires n <= m && Downs(r, n) == 0
    ensures Downs(r, m) == 0
    decreases n
  {
    hide Down;
    if n == 0 {
      DownsOfZero(m);
    } else {
      DownsFurther(Down(r), n - 1, m - 1);
    }
  }

  lemma ThreeDowns(r: bv16, n: nat)
    requires n >= 3
    ensures Downs(r, n) == Downs(r >> 3, n - 3)
  {
    var s := Down(Down(r));
    assert Downs(r, n) == Downs(Down(r), n - 1) == Downs(s, n - 2) == Downs(Down(s), n - 3);
    assert Down(s) == r >> 3;
  }

  // The top bit takes sixteen steps to leave.
  lemma TopStays(r: bv16, n: nat)
    requires n <= 15 && r & 0x8000 == 0x8000
    ensures Downs(r, n) != 0
  {
    hide Downs;
    if Downs(r, n) == 0 {
      DownsFurther(r, n, 15);
      ThreeDowns(r, 15);
      ThreeDowns(r >> 3, 12);
      ThreeDowns(r >> 6, 9);
      ThreeDowns(r >> 9, 6);
      ThreeDowns(r >> 12, 3);
      NoDowns(r >> 15);
    }
  }

  lemma NoDowns(r: bv16)
    ensures Downs(r, 0) == r
  {
  }

  // A bit goes in: either it moves nothing into the feedback, or the top bit is set.
  lemma FeedMovesDown(d: bv16, x: bool)
    ensures Feed(d, x) == Down(d) || Feed(d, x) & 0x8000 == 0x8000
  {
    if x {
      if d & 1 == 1 {
        assert (d ^ 1) & 1 == 0 && (d ^ 1) >> 1 == d >> 1;
      } else {
        assert (d ^ 1) & 1 == 1 && ((d ^ 1) >> 1) ^ 0x8408 == (d >> 1) ^ 0x8408;
        assert ((d >> 1) ^ 0x8408) & 0x8000 == 0x8000;
      }
    } else {
      assert d ^ 0 == d;
      if d & 1 == 1 {
        assert ((d >> 1) ^ 0x8408) & 0x8000 == 0x8000;
      }
    }
  }

  lemma FeedWithin(d: bv16, x: bool, n: nat)
    requires n <= 15 && Within(Feed(d, x), n)
    ensures Within(d, n + 1)
  {
    hide Feed, Down;
    FeedMovesDown(d, x);
    if Feed(d, x) & 0x8000 == 0x8000 {
      TopStays(Feed(d, x), n);
    }
  }

  // Two registers that n bits can bring together differ in their low n bits at most.
  lemma {:induction false} CatchUp(r: bv16, s: bv16, a: seq<bool>, b: seq<bool>)
    requires |a| == |b| <= 16 && Register(r, a) == Register(s, b)
    ensures Within(Add(r, s), |a|)
    decreases |a|
  {
    hide Feed, Within, Add;
    if |a| == 0 {
      AddIsZero(r, s);
      WithinZero();
    } else {
      CatchUp(Feed(r, a[0]), Feed(s, b[0]), a[1..], b[1..]);
      FeedIsLinear(r, s, a[0], b[0]);
      FeedWithin(Add(r, s), a[0] != b[0], |a| - 1);
    }
  }

  lemma WithinZero()
    ensures Within(0, 0)
  {
  }

  lemma OneBitApart(r: bv16, x: bool, n: nat)
    requires n <= 15
    ensures !Within(Add(Feed(r, x), Feed(r, !x)), n)
  {
    hide Feed, Add, Downs;
    FeedIsLinear(r, r, x, !x);
    AddIsZero(r, r);
    FeedOne();
    TopStays(0x8408, n);
  }

  lemma FeedOne()
    ensures Feed(0, true) == 0x8408
  {
  }

  // The bits agree except within n bits from position `at` on.
  ghost predicate SameOutside(a: seq<bool>, b: seq<bool>, at: int, n: nat) {
    |a| == |b| && forall k :: 0 <= k < |a| && !(at <= k < at + n) ==> a[k] == b[k]
  }

  // A change confined to sixteen consecutive bits always changes the checksum.
  lemma {:induction false} BurstChangesRegister(r: bv16, a: seq<bool>, b: seq<bool>, at: int)
    requires SameOutside(a, b, at, 16) && a != b
    ensures Register(r, a) != Register(r, b)
    decreases |a|
  {
    hide Feed;
    if a[0] == b[0] {
      assert a == [a[0]] + a[1..] && b == [b[0]] + b[1..];
      BurstChangesRegister(Feed(r, a[0]), a[1..], b[1..], at - 1);
    } else {
      assert at <= 0;
      BurstFromHere(r, a, b, if at + 16 < |a| then at + 16 else |a|);
    }
  }

  lemma BurstFromHere(r: bv16, a: seq<bool>, b: seq<bool>, e: nat)
    requires 1 <= e <= |a| == |b| && e <= 16 && a[0] != b[0] && a[e..] == b[e..]
    ensures Register(r, a) != Register(r, b)
  {
    hide Feed, Within, Add, Register;
    var s, t := Feed(r, a[0]), Feed(r, b[0]);
    FirstBit(r, a);
    FirstBit(r, b);
    assert a[1..] == a[1..e] + a[e..] && b[1..] == b[1..e] + b[e..];
    RegisterJoin(s, a[1..e], a[e..]);
    RegisterJoin(t, b[1..e], b[e..]);
    if Register(r, a) == Register(r, b) {
      RegisterIsOneToOne(Register(s, a[1..e]), Register(t, b[1..e]), a[e..]);
      CatchUp(s, t, a[1..e], b[1..e]);
      OneBitApart(r, a[0], e - 1);
    }
  }

  lemma FirstBit(r: bv16, bits: seq<bool>)
    requires |bits| > 0
    ensures Register(r, bits) == Register(Feed(r, bits[0]), bits[1..])
  {
  }

  // ---------- parity

  // The sum of all bits of r, over GF(2).
  function Parity(r: bv16): bv16
    decreases r
  {
    if r == 0 then 0 else Add(r & 1, Parity(r >> 1))
  }

  lemma ParityStep(r: bv16)
    ensures Parity(r) == Add(r & 1, Parity(r >> 1))
  {
  }

  lemma XorLowBit(r: bv16, s: bv16)
    ensures (r ^ s) & 1 == (r & 1) ^ (s & 1)
  {
  }

  lemma XorRest(r: bv16, s: bv16)
    ensures (r ^ s) >> 1 == (r >> 1) ^ (s >> 1)
  {
  }

  lemma AddLowBit(r: bv16, s: bv16)
    ensures Add(r, s) & 1 == Add(r & 1, s & 1)
  {
    XorLowBit(r, s);
  }

  lemma AddRest(r: bv16, s: bv16)
    ensures Add(r, s) >> 1 == Add(r >> 1, s >> 1)
  {
    hide Add;
    AddIsXor(r, s);
    AddIsXor(r >> 1, s >> 1);
    XorRest(r, s);
  }

  lemma AddIsXor(r: bv16, s: bv16)
    ensures Add(r, s) == r ^ s
  {
  }

  lemma {:induction false} ParityAdds(r: bv16, s: bv16)
    ensures Parity(Add(r, s)) == Add(Parity(r), Parity(s))
    decreases r, s
  {
    hide Parity, Add;
    if r == 0 {
      AddRegroups(s, 0, 0);
      AddRegroups(Parity(s), 0, 0);
      ParityOfZero();
    } else {
      AddLowBit(r, s);
      AddRest(r, s);
      ParityStep(r);
      ParityStep(s);
      ParityStep(Add(r, s));
      ParityAdds(r >> 1, s >> 1);
      AddFour(r & 1, s & 1, Parity(r >> 1), Parity(s >> 1));
    }
  }

  lemma ParityOfZero()
    ensures Parity(0) == 0 && Parity(1) == 1
  {
    ParityStep(1);
    assert (1 as bv16) >> 1 == 0;
  }

  lemma AddFour(a: bv16, b: bv16, c: bv16, d: bv16)
    ensures Add(Add(a, b), Add(c, d)) == Add(Add(a, c), Add(b, d))
  {
    hide Add;
    AddRegroups(a, b, Add(c, d));
    AddRegroups(b, c, d);
    AddRegroups(c, Add(b, d), 0);
    AddRegroups(a, c, Add(b, d));
  }

  lemma ShiftIsDown(r: bv16)
    ensures Shift(r) == if r & 1 == 1 then Add(r >> 1, 0x8408) else r >> 1
    ensures r & 1 == 1 || r & 1 == 0
  {
  }

  // The feedback has an odd number of bits, and one is shifted out.
  lemma ShiftKeepsParity(r: bv16)
    ensures Parity(Shift(r)) == Parity(r)
  {
    hide Parity, Add, Shift;
    ShiftIsDown(r);
    ParityStep(r);
    FeedbackIsOdd();
    AddRegroups(1, Parity(r >> 1), 0);
    AddRegroups(Parity(r >> 1), 0, 0);
    ParityAdds(r >> 1, 0x8408);
  }

  lemma FeedbackIsOdd()
    ensures Parity(0x8408) == 1
  {
    assert Parity(0x8408) == Parity(0x4204) == Parity(0x2102) == Parity(0x1081);
    assert Parity(0x1081) == Add(1, Parity(0x0840)) && Parity(0x0840) == Parity(0x0420) == Parity(0x0210);
    assert Parity(0x0210) == Parity(0x0108) == Parity(0x0084) == Parity(0x0042) == Parity(0x0021);
    assert Parity(0x0021) == Add(1, Parity(0x0010)) && Parity(0x0010) == Parity(0x0008) == Parity(0x0004);
    assert Parity(0x0004) == Parity(0x0002) == Parity(0x0001) == 1;
  }

  lemma ParityOfBit(b: bool)
    ensures Parity(Bit(b)) == Bit(b)
  {
    hide Parity;
    ParityOfZero();
  }

  lemma FeedParity(r: bv16, b: bool)
    ensures Parity(Feed(r, b)) == Add(Parity(r), Bit(b))
  {
    hide Parity, Shift, Add, Bit;
    ShiftKeepsParity(Add(r, Bit(b)));
    ParityAdds(r, Bit(b));
    ParityOfBit(b);
  }

  function Ones(bits: seq<bool>): nat {
    if |bits| == 0 then 0 else (if bits[0] then 1 else 0) + Ones(bits[1..])
  }

  // How many bits differ.
  function Flips(a: seq<bool>, b: seq<bool>): nat
    requires |a| == |b|
  {
    if |a| == 0 then 0 else (if a[0] != b[0] then 1 else 0) + Flips(a[1..], b[1..])
  }

  lemma {:induction false} FlipsAreOnes(a: seq<bool>, b: seq<bool>)
    requires |a| == |b|
    ensures (Ones(a) + Ones(b)) % 2 == Flips(a, b) % 2
    decreases |a|
  {
    if |a| > 0 {
      FlipsAreOnes(a[1..], b[1..]);
    }
  }

  lemma BitsCancel(r: bv16, x: bool, y: bool)
    ensures Add(Add(r, Bit(x)), Bit(y)) == Add(r, Bit(x != y))
  {
    hide Add;
    AddRegroups(r, 1, 1);
    AddRegroups(r, 0, 0);
    AddRegroups(r, 1, 0);
    AddRegroups(Add(r, 1), 0, 0);
    AddIsZero(1, 1);
  }

  // The parity of the state tracks the parity of all bits fed.
  lemma {:induction false} RegisterParity(r: bv16, bits: seq<bool>)
    ensures Parity(Register(r, bits)) == Add(Parity(r), Bit(Ones(bits) % 2 == 1))
    decreases |bits|
  {
    hide Parity, Add, Bit, Feed;
    if |bits| == 0 {
      AddRegroups(Parity(r), 0, 0);
      BitOfFalse();
    } else {
      RegisterParity(Feed(r, bits[0]), bits[1..]);
      FeedParity(r, bits[0]);
      BitsCancel(Parity(r), bits[0], Ones(bits[1..]) % 2 == 1);
    }
  }

  lemma BitOfFalse()
    ensures Bit(false) == 0 && Bit(true) == 1
  {
  }

  // An odd number of flipped bits always changes the checksum.
  lemma OddFlipsChangeRegister(r: bv16, a: seq<bool>, b: seq<bool>)
    requires |a| == |b| && Flips(a, b) % 2 == 1
    ensures Register(r, a) != Register(r, b)
  {
    hide Parity, Register, Add, Bit;
    FlipsAreOnes(a, b);
    RegisterParity(r, a);
    RegisterParity(r, b);
    BitOfFalse();
    AddRegroups(Parity(r), 0, 0);
    AddRegroups(Parity(r), 1, 0);
    AddIsZero(Add(Parity(r), 1), Parity(r));
    AddRegroups(Parity(r), 1, Parity(r));
    AddIsZero(1, 0);
    if Add(Parity(r), 1) == Add(Parity(r), 0) {
      AddOneChanges(Parity(r));
    }
  }

  lemma AddOneChanges(r: bv16)
    ensures Add(r, 1) != r
  {
    assert (r ^ 1) & 1 != r & 1;
  }
}
