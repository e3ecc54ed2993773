/**
 The order of the shift register: how many zero bits bring a lone bit back to where it
 was.  Two flipped bits are missed exactly when their distance is a multiple of it.
 */
module CrcOrder {
  import opened CrcTables
  import opened CrcLaws

  // The register as a polynomial modulo the generator: the top bit stands for 1, and a
  // shift multiplies by x.
  const UNIT: bv16 := 0x8000

  const ORDER: nat := 32767

  lemma {:induction false} ShiftsJoin(r: bv16, m: nat, n: nat)
    ensures Shifts(Shifts(r, m), n) == Shifts(r, m + n)
    decreases m
  {
    hide Shift;
    if m > 0 {
      ShiftsJoin(Shift(r), m - 1, n);
    }
  }

  lemma {:induction false} ShiftsAreLinear(a: bv16, b: bv16, n: nat)
    ensures Shifts(Add(a, b), n) == Add(Shifts(a, n), Shifts(b, n))
    decreases n
  {
    hide Shift, Add;
    if n > 0 {
      ShiftIsLinear(a, b);
      ShiftsAreLinear(Shift(a), Shift(b), n - 1);
    }
  }

  lemma {:induction false} ShiftsAreOneToOne(a: bv16, b: bv16, n: nat)
    requires Shifts(a, n) == Shifts(b, n)
    ensures a == b
    decreases n
  {
    hide Shift;
    if n > 0 {
      ShiftsAreOneToOne(Shift(a), Shift(b), n - 1);
      ShiftIsOneToOne(a, b);
    }
  }

  lemma {:induction false} ShiftsOfZero(n: nat)
    ensures Shifts(0, n) == 0
    decreases n
  {
    if n > 0 {
      assert Shift(0) == 0;
      ShiftsOfZero(n - 1);
    }
  }

  // ---------- multiplication

  predicate TopBit(v: bv16) {
    v & 0x8000 == 0x8000
  }

  function Up(v: bv16): bv16 {
    v << 1
  }

  // The product of v, which has no more than its top n bits, and w.
  function Times(v: bv16, w: bv16, n: nat): bv16
    decreases n
  {
    if n == 0 then 0 else Add(if TopBit(v) then w else 0, Times(Up(v), Shift(w), n - 1))
  }

  function Ups(v: bv16, n: nat): bv16
    decreases n
  {
    if n == 0 then v else Ups(Up(v), n - 1)
  }

  lemma UpAndDown(v: bv16)
    ensures Up(v) & 1 == 0 && Down(Up(v)) == v & 0x7fff
  {
  }

  lemma TopIsOneBit(v: bv16)
    ensures v & 0x8000 == 0x8000 || v & 0x8000 == 0
    ensures v == (v & 0x8000) ^ (v & 0x7fff)
  {
  }

  lemma TopAndRest(v: bv16)
    ensures v == Add(if TopBit(v) then UNIT else 0, v & 0x7fff)
  {
    hide TopBit;
    TopIsOneBit(v);
    TopBitIs(v);
    AddIs(v & 0x8000, v & 0x7fff);
  }

  lemma TopBitIs(v: bv16)
    ensures TopBit(v) <==> v & 0x8000 == 0x8000
  {
  }

  lemma AddIs(a: bv16, b: bv16)
    ensures Add(a, b) == a ^ b
  {
  }

  lemma SplitTop(v: bv16)
    ensures v == Add(if TopBit(v) then UNIT else 0, Shift(Up(v)))
  {
    hide Up, TopBit, Add, Shift, Down;
    UpAndDown(v);
    ShiftClear(Up(v));
    TopAndRest(v);
  }

  // Shifting v m times is multiplying it by what m shifts make of the unit.
  lemma {:induction false} ShiftsAreProduct(v: bv16, m: nat, n: nat)
    requires Ups(v, n) == 0
    ensures Shifts(v, m) == Times(v, Shifts(UNIT, m), n)
    decreases n
  {
    hide Shift, Add, Up, TopBit, Shifts;
    if n == 0 {
      ShiftsOfZero(m);
    } else {
      SplitTop(v);
      ShiftsAreLinear(if TopBit(v) then UNIT else 0, Shift(Up(v)), m);
      ShiftsOfZero(m);
      OneMoreShift(Up(v), m);
      OneMoreShift(UNIT, m);
      ShiftsAreProduct(Up(v), m + 1, n - 1);
    }
  }

  lemma OneMoreShift(r: bv16, m: nat)
    ensures Shifts(Shift(r), m) == Shifts(r, m + 1) == Shift(Shifts(r, m))
  {
    hide Shift;
    ShiftsJoin(r, m, 1);
    var s := Shifts(r, m);
    assert Shifts(s, 1) == Shifts(Shift(s), 0);
  }

  lemma FourUps(v: bv16, n: nat)
    requires n >= 4
    ensures Ups(v, n) == Ups(v << 4, n - 4)
  {
    var u := Up(Up(v));
    assert Ups(v, n) == Ups(Up(v), n - 1) == Ups(u, n - 2) == Ups(Up(u), n - 3) == Ups(Up(Up(u)), n - 4);
    assert Up(Up(u)) == v << 4;
  }

  lemma AllGoUp(v: bv16)
    ensures Ups(v, 16) == 0
  {
    hide Ups;
    FourUps(v, 16);
    FourUps(v << 4, 12);
    FourUps(v << 8, 8);
    FourUps(v << 12, 4);
    NoUps(v << 16);
  }

  lemma NoUps(v: bv16)
    ensures Ups(v, 0) == v
  {
  }

  function Product(v: bv16, w: bv16): bv16 {
    Times(v, w, 16)
  }

  lemma PowersMultiply(m: nat, n: nat)
    ensures Shifts(UNIT, m + n) == Product(Shifts(UNIT, m), Shifts(UNIT, n))
  {
    hide Shifts, Times, Ups;
    ShiftsJoin(UNIT, m, n);
    AllGoUp(Shifts(UNIT, m));
    ShiftsAreProduct(Shifts(UNIT, m), n, 16);
  }

  // Four terms of a product.
  function Quarter(v: bv16, w: bv16): bv16 {
    var w1 := Shift(w);
    var w2 := Shift(w1);
    var w3 := Shift(w2);
    Add(Add(if v & 0x8000 == 0x8000 then w else 0, if v & 0x4000 == 0x4000 then w1 else 0),
        Add(if v & 0x2000 == 0x2000 then w2 else 0, if v & 0x1000 == 0x1000 then w3 else 0))
  }

  lemma TopBits(v: bv16)
    ensures TopBit(v) == (v & 0x8000 == 0x8000) && TopBit(Up(v)) == (v & 0x4000 == 0x4000)
    ensures TopBit(Up(Up(v))) == (v & 0x2000 == 0x2000) && TopBit(Up(Up(Up(v)))) == (v & 0x1000 == 0x1000)
    ensures Up(Up(Up(Up(v)))) == v << 4
  {
  }

  lemma FourTerms(v: bv16, w: bv16, n: nat)
    requires n >= 4
    ensures Times(v, w, n) == Add(Quarter(v, w), Times(v << 4, Shift(Shift(Shift(Shift(w)))), n - 4))
  {
    hide Up, TopBit, Add, Shift;
    TopBits(v);
    var w1 := Shift(w);
    var w2 := Shift(w1);
    var w3 := Shift(w2);
    var v1 := Up(v);
    var v2 := Up(v1);
    var v3 := Up(v2);
    var a, b := if TopBit(v) then w else 0, if TopBit(v1) then w1 else 0;
    var c, d := if TopBit(v2) then w2 else 0, if TopBit(v3) then w3 else 0;
    var rest := Times(Up(v3), Shift(w3), n - 4);
    assert Times(v3, w3, n - 3) == Add(d, rest);
    assert Times(v2, w2, n - 2) == Add(c, Add(d, rest));
    assert Times(v1, w1, n - 1) == Add(b, Add(c, Add(d, rest)));
    assert Times(v, w, n) == Add(a, Add(b, Add(c, Add(d, rest))));
    AddRegroups(c, d, rest);
    AddRegroups(b, Add(c, d), rest);
    AddRegroups(a, b, Add(Add(c, d), rest));
    AddRegroups(Add(a, b), Add(c, d), rest);
  }

  function FourOf(w: bv16): bv16 {
    Shift(Shift(Shift(Shift(w))))
  }

  lemma Quarters(v: bv16, w: bv16)
    ensures Product(v, w)
         == Add(Quarter(v, w),
              Add(Quarter(v << 4, FourOf(w)),
                Add(Quarter(v << 8, FourOf(FourOf(w))), Quarter(v << 12, FourOf(FourOf(FourOf(w)))))))
  {
    hide Quarter, Shift, Add, Times;
    FourTerms(v, w, 16);
    FourTerms(v << 4, FourOf(w), 12);
    FourTerms(v << 8, FourOf(FourOf(w)), 8);
    FourTerms(v << 12, FourOf(FourOf(FourOf(w))), 4);
    NoTerms((v << 12) << 4, FourOf(FourOf(FourOf(FourOf(w)))));
    AddRegroups(Quarter(v << 12, FourOf(FourOf(FourOf(w)))), 0, 0);
    assert (v << 4) << 4 == v << 8 && (v << 8) << 4 == v << 12;
  }

  lemma NoTerms(v: bv16, w: bv16)
    ensures Times(v, w, 0) == 0
  {
  }

  // ---------- powers of x

  function Power(n: nat): bv16 {
    Shifts(UNIT, n)
  }

  lemma PowerOfSum(m: nat, n: nat, v: bv16, w: bv16)
    requires Power(m) == v && Power(n) == w
    ensures Power(m + n)
         == Add(Quarter(v, w),
              Add(Quarter(v << 4, FourOf(w)),
                Add(Quarter(v << 8, FourOf(FourOf(w))), Quarter(v << 12, FourOf(FourOf(FourOf(w)))))))
  {
    hide Product, Quarter, FourOf, Add;
    PowersMultiply(m, n);
    Quarters(v, w);
  }

  lemma FirstPower()
    ensures Power(1) == 0x4000
  {
    assert Shift(0x8000) == 0x4000;
    assert Shifts(UNIT, 1) == Shifts(0x4000, 0);
  }

  lemma PowersToSixteen()
    ensures Power(8) == 0x0080
    ensures Power(9) == 0x0040
    ensures Power(16) == 0x8408
  {
    hide Power;
    FirstPower();
    assert Power(2) == 0x2000 by {
      PowerOfSum(1, 1, 0x4000, 0x4000);
    }
    assert Power(4) == 0x0800 by {
      PowerOfSum(2, 2, 0x2000, 0x2000);
    }
    assert Power(8) == 0x0080 by {
      PowerOfSum(4, 4, 0x0800, 0x0800);
    }
    assert Power(16) == 0x8408 by {
      PowerOfSum(8, 8, 0x0080, 0x0080);
    }
    assert Power(9) == 0x0040 by {
      PowerOfSum(8, 1, 0x0080, 0x4000);
    }
  }

  lemma PowersToThousand()
    ensures Power(32) == 0x0cec
    ensures Power(64) == 0x861d
    ensures Power(128) == 0x3f75
    ensures Power(512) == 0x3fc8
    ensures Power(1024) == 0x236c
  {
    hide Power;
    PowersToSixteen();
    assert Power(32) == 0x0cec by {
      PowerOfSum(16, 16, 0x8408, 0x8408);
    }
    assert Power(64) == 0x861d by {
      PowerOfSum(32, 32, 0x0cec, 0x0cec);
    }
    assert Power(128) == 0x3f75 by {
      PowerOfSum(64, 64, 0x861d, 0x861d);
    }
    assert Power(256) == 0x9471 by {
      PowerOfSum(128, 128, 0x3f75, 0x3f75);
    }
    assert Power(512) == 0x3fc8 by {
      PowerOfSum(256, 256, 0x9471, 0x9471);
    }
    assert Power(1024) == 0x236c by {
      PowerOfSum(512, 512, 0x3fc8, 0x3fc8);
    }
  }

  lemma PowersToOrder()
    ensures Power(4096) == 0x7955
    ensures Power(32768) == 0x4000
  {
    hide Power;
    PowersToThousand();
    assert Power(2048) == 0x0abf by {
      PowerOfSum(1024, 1024, 0x236c, 0x236c);
    }
    assert Power(4096) == 0x7955 by {
      PowerOfSum(2048, 2048, 0x0abf, 0x0abf);
    }
    assert Power(8192) == 0x3811 by {
      PowerOfSum(4096, 4096, 0x7955, 0x7955);
    }
    assert Power(16384) == 0x1a22 by {
      PowerOfSum(8192, 8192, 0x3811, 0x3811);
    }
    assert Power(32768) == 0x4000 by {
      PowerOfSum(16384, 16384, 0x1a22, 0x1a22);
    }
  }

  // The three largest divisors of the order bring the unit elsewhere.
  lemma ShortOfSeven()
    ensures Power(4681) == 0x4234
  {
    hide Power;
    PowersToSixteen();
    PowersToThousand();
    PowersToOrder();
    assert Power(4608) == 0x052a by {
      PowerOfSum(4096, 512, 0x7955, 0x3fc8);
    }
    assert Power(4672) == 0x6080 by {
      PowerOfSum(4608, 64, 0x052a, 0x861d);
    }
    assert Power(4681) == 0x4234 by {
      PowerOfSum(4672, 9, 0x6080, 0x0040);
    }
  }

  lemma ShortOfThirtyOne()
    ensures Power(1057) == 0xf54f
  {
    hide Power;
    FirstPower();
    PowersToThousand();
    assert Power(33) == 0x0676 by {
      PowerOfSum(32, 1, 0x0cec, 0x4000);
    }
    assert Power(1057) == 0xf54f by {
      PowerOfSum(1024, 33, 0x236c, 0x0676);
    }
  }

  lemma ShortOfTheRest()
    ensures Power(217) == 0xc712
  {
    hide Power;
    PowersToSixteen();
    PowersToThousand();
    assert Power(192) == 0xd0a6 by {
      PowerOfSum(128, 64, 0x3f75, 0x861d);
    }
    assert Power(208) == 0x2da2 by {
      PowerOfSum(192, 16, 0xd0a6, 0x8408);
    }
    assert Power(217) == 0xc712 by {
      PowerOfSum(208, 9, 0x2da2, 0x0040);
    }
  }

  // ---------- periods

  ghost predicate Period(n: nat) {
    Power(n) == UNIT
  }

  lemma PeriodShifts(a: nat, b: nat)
    requires Period(a)
    ensures Power(a + b) == Power(b)
  {
    ShiftsJoin(UNIT, a, b);
  }

  lemma OrderIsPeriod()
    ensures Period(ORDER)
  {
    hide Shifts;
    PowersToOrder();
    FirstPower();
    ShiftsJoin(UNIT, ORDER, 1);
    ShiftsAreOneToOne(Power(ORDER), UNIT, 1);
  }

  lemma {:induction false} PeriodMultiple(d: nat, k: nat)
    requires Period(d)
    ensures Period(k * d)
    decreases k
  {
    hide Shifts;
    if k == 0 {
      NoShifts(UNIT);
    } else {
      PeriodMultiple(d, k - 1);
      PeriodShifts((k - 1) * d, d);
      assert (k - 1) * d + d == k * d;
    }
  }

  lemma PeriodOfRest(d: nat, n: nat)
    requires Period(d) && 0 < d
    ensures Period(n) <==> Period(n % d)
  {
    hide Period, Power;
    PeriodMultiple(d, n / d);
    assert n == n / d * d + n % d;
    ReducePeriod(n / d * d, n % d);
  }

  lemma ReducePeriod(a: nat, b: nat)
    requires Period(a)
    ensures Period(a + b) <==> Period(b)
  {
    hide Power;
    PeriodShifts(a, b);
  }

  // If t divides the order, it is one of these three.
  predicate Passes(t: nat)
    requires 0 < t
  {
    ORDER % t == 0 ==> t == 7 || t == 31 || t == 151
  }

  predicate AllPass(lo: nat, n: nat)
    requires 0 < lo
    decreases n
  {
    n == 0 || (Passes(lo) && AllPass(lo + 1, n - 1))
  }

  lemma {:induction false} OneOfThem(lo: nat, n: nat, t: nat)
    requires 0 < lo <= t < lo + n && AllPass(lo, n)
    ensures Passes(t)
    decreases n
  {
    if lo < t {
      OneOfThem(lo + 1, n - 1, t);
    }
  }

  lemma SmallDivisor(t: nat)
    requires 2 <= t <= 181
    ensures Passes(t)
  {
    hide Passes;
    if t < 32 {
      Below32(t);
    } else if t < 62 {
      Below62(t);
    } else if t < 92 {
      Below92(t);
    } else if t < 122 {
      Below122(t);
    } else if t < 152 {
      Below152(t);
    } else {
      Below182(t);
    }
  }

  lemma Below32(t: nat)
    requires 2 <= t < 32
    ensures Passes(t)
  {
    assert AllPass(2, 10) && AllPass(12, 10) && AllPass(22, 10);
    OneOfThem(t - (t - 2) % 10, 10, t);
  }

  lemma Below62(t: nat)
    requires 32 <= t < 62
    ensures Passes(t)
  {
    assert AllPass(32, 10) && AllPass(42, 10) && AllPass(52, 10);
    OneOfThem(t - (t - 32) % 10, 10, t);
  }

  lemma Below92(t: nat)
    requires 62 <= t < 92
    ensures Passes(t)
  {
    assert AllPass(62, 10) && AllPass(72, 10) && AllPass(82, 10);
    OneOfThem(t - (t - 62) % 10, 10, t);
  }

  lemma Below122(t: nat)
    requires 92 <= t < 122
    ensures Passes(t)
  {
    assert AllPass(92, 10) && AllPass(102, 10) && AllPass(112, 10);
    OneOfThem(t - (t - 92) % 10, 10, t);
  }

  lemma Below152(t: nat)
    requires 122 <= t < 152
    ensures Passes(t)
  {
    assert AllPass(122, 10) && AllPass(132, 10) && AllPass(142, 10);
    OneOfThem(t - (t - 122) % 10, 10, t);
  }

  lemma Below182(t: nat)
    requires 152 <= t < 182
    ensures Passes(t)
  {
    assert AllPass(152, 10) && AllPass(162, 10) && AllPass(172, 10);
    OneOfThem(t - (t - 152) % 10, 10, t);
  }

  lemma DivisorOf(d: nat, k: nat)
    requires d * k == ORDER
    ensures 0 < d && 0 < k && ORDER % d == 0 && ORDER % k == 0 && (d <= 181 || k <= 181)
  {
    if d >= 182 && k >= 182 {
      LargeProduct(d, k);
    }
    if d > 0 && k > 0 {
      Divides(d, k);
      Divides(k, d);
    }
  }

  lemma LargeProduct(d: nat, k: nat)
    requires 182 <= d && 182 <= k
    ensures 33124 <= d * k
  {
    assert 182 * 182 <= d * 182 <= d * k;
  }

  lemma Divides(d: nat, k: nat)
    requires 0 < d
    ensures (d * k) % d == 0
  {
    var n := d * k;
    NothingLeft(d, k, n / d, n % d);
  }

  lemma NothingLeft(d: int, k: int, q: int, r: int)
    requires d * k == d * q + r && 0 <= r < d
    ensures r == 0
  {
    var m := k - q;
    assert d * m == r;
    if m >= 1 {
      AtLeastOnce(d, m);
    } else if m <= -1 {
      AtLeastOnce(d, -m);
    }
  }

  lemma AtLeastOnce(d: int, m: int)
    requires 0 < d && 0 < m
    ensures d <= d * m
  {
    assert 0 <= d * (m - 1);
  }

  lemma NoDivisorIsPeriod(d: nat, k: nat)
    requires d * k == ORDER && d < ORDER
    ensures !Period(d)
  {
    hide Power;
    DivisorOf(d, k);
    ShortOfSeven();
    ShortOfThirtyOne();
    ShortOfTheRest();
    if Period(d) {
      if k <= 181 {
        SmallDivisor(k);
      } else {
        if d > 1 {
          SmallDivisor(d);
        }
        PeriodMultiple(d, 217 / d);
        PeriodMultiple(d, 1057 / d);
      }
    }
  }

  // A lone bit is back where it was after a multiple of the order, and never before.
  lemma {:induction false} NoShorterPeriod(d: nat)
    requires 0 < d < ORDER
    ensures !Period(d)
    decreases d
  {
    hide Period;
    if Period(d) {
      OrderIsPeriod();
      PeriodOfRest(d, ORDER);
      if ORDER % d == 0 {
        NoDivisorIsPeriod(d, ORDER / d);
      } else {
        NoShorterPeriod(ORDER % d);
      }
    }
  }

  lemma PeriodIff(n: nat)
    ensures Period(n) <==> n % ORDER == 0
  {
    hide Period;
    OrderIsPeriod();
    PeriodOfRest(ORDER, n);
    NothingIsPeriod();
    if n % ORDER > 0 {
      NoShorterPeriod(n % ORDER);
    }
  }

  lemma NothingIsPeriod()
    ensures Period(0)
  {
  }

  // ---------- two flipped bits

  function Zeros(n: nat): seq<bool> {
    seq(n, _ => false)
  }

  lemma {:induction false} ZerosShift(r: bv16, n: nat)
    ensures Register(r, Zeros(n)) == Shifts(r, n)
    decreases n
  {
    hide Shift;
    if n > 0 {
      assert Zeros(n)[1..] == Zeros(n - 1);
      FeedZero(r);
      ZerosShift(Shift(r), n - 1);
    }
  }

  lemma FeedZero(r: bv16)
    ensures Feed(r, false) == Shift(r)
  {
  }

  // The register, started clear, on the difference of two messages.
  lemma DifferenceTells(r: bv16, a: seq<bool>, b: seq<bool>)
    requires |a| == |b|
    ensures Register(r, a) == Register(r, b) <==> Register(0, XorBits(a, b)) == 0
  {
    hide Register, Add, XorBits;
    RegisterIsLinear(r, r, a, b);
    AddIsZero(r, r);
    AddIsZero(Register(r, a), Register(r, b));
  }

  lemma TwoBits(n: nat, m: nat, k: nat)
    ensures Register(0, Zeros(n) + [true] + Zeros(m) + [true] + Zeros(k)) == 0
       <==> Shifts(1, m + 1) == 1
  {
    hide Shift, Register, Shifts, Add, Feed;
    RegisterJoin(0, Zeros(n) + [true] + Zeros(m) + [true], Zeros(k));
    RegisterJoin(0, Zeros(n) + [true] + Zeros(m), [true]);
    RegisterJoin(0, Zeros(n) + [true], Zeros(m));
    RegisterJoin(0, Zeros(n), [true]);
    ZerosShift(0, n);
    ShiftsOfZero(n);
    FeedOneBit(0);
    AddRegroups(0, 1, 0);
    AddRegroups(1, 0, 0);
    ZerosShift(Shift(1), m);
    OneMoreShift(1, m);
    var t := Shifts(1, m + 1);
    FeedOneBit(t);
    ZerosShift(Shift(Add(t, 1)), k);
    OneMoreShift(Add(t, 1), k);
    ShiftsOfZero(k + 1);
    AddIsZero(t, 1);
    if Shifts(Add(t, 1), k + 1) == 0 {
      ShiftsAreOneToOne(Add(t, 1), 0, k + 1);
    }
  }

  lemma FeedOneBit(r: bv16)
    ensures Register(r, [true]) == Shift(Add(r, 1))
  {
    hide Shift, Add;
    assert [true][1..] == [];
    assert Register(r, [true]) == Register(Feed(r, true), [true][1..]);
  }

  lemma OneReturnsIff(n: nat)
    ensures Shifts(1, n) == 1 <==> Period(n)
  {
    hide Shifts, Shift;
    FifteenShifts();
    ShiftsJoin(UNIT, 15, n);
    ShiftsJoin(UNIT, n, 15);
    if Shifts(Power(n), 15) == Shifts(UNIT, 15) {
      ShiftsAreOneToOne(Power(n), UNIT, 15);
    }
  }

  lemma FifteenShifts()
    ensures Power(15) == 1
  {
    hide Shifts;
    PowersToSixteen();
    OneMoreShift(UNIT, 15);
    assert Shift(1) == 0x8408;
    ShiftIsOneToOne(Power(15), 1);
  }

  function Flip(a: seq<bool>, i: nat): (b: seq<bool>)
    requires i < |a|
    ensures |b| == |a|
  {
    a[i := !a[i]]
  }

  // Flipping two bits leaves the checksum as it was exactly when their distance is a
  // multiple of the order.
  lemma TwoFlipsMissedIff(r: bv16, a: seq<bool>, i: nat, j: nat)
    requires i < j < |a|
    ensures Register(r, Flip(Flip(a, i), j)) == Register(r, a) <==> (j - i) % ORDER == 0
  {
    hide Register, Shifts, Period;
    var b := Flip(Flip(a, i), j);
    DifferenceTells(r, b, a);
    assert XorBits(b, a) == Zeros(i) + [true] + Zeros(j - i - 1) + [true] + Zeros(|a| - j - 1);
    TwoBits(i, j - i - 1, |a| - j - 1);
    OneReturnsIff(j - i);
    PeriodIff(j - i);
  }

  // ---------- flips, one by one

  lemma {:induction false} NoFlips(a: seq<bool>, b: seq<bool>)
    requires |a| == |b|
    ensures Flips(a, b) == 0 <==> a == b
    decreases |a|
  {
    if |a| > 0 {
      NoFlips(a[1..], b[1..]);
      assert a == [a[0]] + a[1..] && b == [b[0]] + b[1..];
    }
  }

  // One more bit flipped, or one flipped back.
  lemma {:induction false} FlipCounts(a: seq<bool>, b: seq<bool>, i: nat)
    requires i < |a| == |b|
    ensures Flips(a, Flip(b, i)) == if a[i] == b[i] then Flips(a, b) + 1 else Flips(a, b) - 1
    decreases |a|
  {
    if i > 0 {
      assert Flip(b, i)[1..] == Flip(b[1..], i - 1);
      FlipCounts(a[1..], b[1..], i - 1);
    } else {
      assert Flip(b, i)[1..] == b[1..];
    }
  }

  lemma {:induction false} SomeFlip(a: seq<bool>, b: seq<bool>) returns (i: nat)
    requires |a| == |b| && Flips(a, b) > 0
    ensures i < |a| && a[i] != b[i]
    decreases |a|
  {
    if a[0] != b[0] {
      i := 0;
    } else {
      i := SomeFlip(a[1..], b[1..]);
      i := i + 1;
    }
  }

  // Two flips are two bits flipped.
  lemma TwoFlips(a: seq<bool>, b: seq<bool>) returns (i: nat, j: nat)
    requires |a| == |b| && Flips(a, b) == 2
    ensures i < j < |a| && b == Flip(Flip(a, i), j)
  {
    hide Flips;
    i := SomeFlip(a, b);
    FlipCounts(a, b, i);
    j := SomeFlip(a, Flip(b, i));
    FlipCounts(a, Flip(b, i), j);
    NoFlips(a, Flip(Flip(b, i), j));
    assert b == Flip(Flip(a, i), j) == Flip(Flip(a, j), i);
    if j < i {
      i, j := j, i;
    }
  }

  lemma BothFlipped(a: seq<bool>, i: nat, j: nat)
    requires i < j < |a|
    ensures Flips(a, Flip(Flip(a, i), j)) == 2
  {
    hide Flips;
    NoFlips(a, a);
    FlipCounts(a, a, i);
    FlipCounts(a, Flip(a, i), j);
  }
}
