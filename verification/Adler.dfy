/**
 The checksum of the decompressor: blocks of up to 5552 bytes, eight at a time, one
 reduction a block.
 */
module Adler {
  type byte = x: int | 0 <= x < 256

  const ADLER_MOD: nat := 65521
  const BLOCK: nat := 5552
  const TWO_32: nat := 0x1_0000_0000

  // ---------- the definition, byte by byte (RFC 1950, section 8.2)

  datatype Sums = Sums(a: nat, b: nat)

  function Step(s: Sums, x: byte): Sums {
    var a := (s.a + x) % ADLER_MOD;
    Sums(a, (s.b + a) % ADLER_MOD)
  }

  function Checked(s: Sums, bytes: seq<byte>): Sums {
    if |bytes| == 0 then s else Step(Checked(s, bytes[..|bytes| - 1]), bytes[|bytes| - 1])
  }

  // The second sum goes into the upper half of the checksum, the first into the lower.
  function Packed(s: Sums): nat {
    s.b * 0x1_0000 + s.a
  }

  function Split(adler32: nat): Sums {
    Sums(adler32 % 0x1_0000, adler32 / 0x1_0000)
  }

  // The checksum of a buffer, going on from an earlier one.
  function Adler32(adler32: nat, bytes: seq<byte>): nat {
    Packed(Checked(Split(adler32), bytes))
  }

  // ---------- the same sums without reduction

  function Plain(s: Sums, x: byte): Sums {
    Sums(s.a + x, s.b + s.a + x)
  }

  function Summed(s: Sums, bytes: seq<byte>): Sums {
    if |bytes| == 0 then s else Plain(Summed(s, bytes[..|bytes| - 1]), bytes[|bytes| - 1])
  }

  function Reduced(s: Sums): Sums {
    Sums(s.a % ADLER_MOD, s.b % ADLER_MOD)
  }

  lemma ModOfSum(x: nat, y: nat)
    ensures (x % ADLER_MOD + y) % ADLER_MOD == (x + y) % ADLER_MOD
  {
    assert x == ADLER_MOD * (x / ADLER_MOD) + x % ADLER_MOD;
    AddMultiple(x % ADLER_MOD + y, x / ADLER_MOD);
  }

  lemma {:induction false} AddMultiple(x: nat, k: nat)
    ensures (x + ADLER_MOD * k) % ADLER_MOD == x % ADLER_MOD
    decreases k
  {
    if k > 0 {
      AddMultiple(x, k - 1);
      assert x + ADLER_MOD * k == x + ADLER_MOD * (k - 1) + ADLER_MOD;
    }
  }

  // Reducing first or last makes no difference to one step.
  lemma StepReduces(s: Sums, x: byte)
    ensures Step(Reduced(s), x) == Step(s, x) == Reduced(Plain(s, x))
  {
    ModOfSum(s.a, x);
    ModOfSum(s.a + x, s.b);
    ModOfSum(s.b, (s.a + x) % ADLER_MOD);
  }

  // Nor does it to a whole block.
  lemma {:induction false} ReduceLater(s: Sums, bytes: seq<byte>)
    ensures Reduced(Summed(s, bytes)) == Reduced(Checked(s, bytes))
    ensures |bytes| > 0 ==> Reduced(Summed(s, bytes)) == Checked(s, bytes)
    decreases |bytes|
  {
    hide Step, Plain, Reduced;
    if |bytes| > 0 {
      var front, x := bytes[..|bytes| - 1], bytes[|bytes| - 1];
      ReduceLater(s, front);
      StepReduces(Summed(s, front), x);
      StepReduces(Checked(s, front), x);
      ReducedTwice(Plain(Summed(s, front), x));
    }
  }

  lemma ReducedTwice(s: Sums)
    ensures Reduced(Reduced(s)) == Reduced(s)
  {
  }

  lemma {:induction false} CheckedFromReduced(s: Sums, bytes: seq<byte>)
    ensures Reduced(Checked(Reduced(s), bytes)) == Reduced(Checked(s, bytes))
    ensures |bytes| > 0 ==> Checked(Reduced(s), bytes) == Checked(s, bytes)
    decreases |bytes|
  {
    hide Step, Reduced;
    if |bytes| == 0 {
      ReducedTwice(s);
    } else {
      var front, x := bytes[..|bytes| - 1], bytes[|bytes| - 1];
      CheckedFromReduced(s, front);
      StepReduces(Checked(s, front), x);
      StepReduces(Checked(Reduced(s), front), x);
    }
  }

  lemma {:induction false} CheckedJoin(s: Sums, a: seq<byte>, b: seq<byte>)
    ensures Checked(s, a + b) == Checked(Checked(s, a), b)
    decreases |b|
  {
    hide Step;
    if |b| == 0 {
      assert a + b == a;
    } else {
      assert (a + b)[..|a + b| - 1] == a + b[..|b| - 1];
      CheckedJoin(s, a, b[..|b| - 1]);
    }
  }

  // ---------- the sums in one formula

  function Total(bytes: seq<byte>): nat {
    if |bytes| == 0 then 0 else Total(bytes[..|bytes| - 1]) + bytes[|bytes| - 1]
  }

  // Every byte as often as there are bytes from it on.
  function Weighted(bytes: seq<byte>): nat {
    if |bytes| == 0 then 0 else Weighted(bytes[..|bytes| - 1]) + Total(bytes)
  }

  lemma {:induction false} WeightsCountDown(bytes: seq<byte>, x: byte)
    ensures Total([x] + bytes) == x + Total(bytes)
    ensures Weighted([x] + bytes) == (|bytes| + 1) * x + Weighted(bytes)
    decreases |bytes|
  {
    var all := [x] + bytes;
    if |bytes| == 0 {
      assert all[..0] == [];
    } else {
      assert all[..|all| - 1] == [x] + bytes[..|bytes| - 1];
      WeightsCountDown(bytes[..|bytes| - 1], x);
    }
  }

  lemma {:induction false} SummedIs(s: Sums, bytes: seq<byte>)
    ensures Summed(s, bytes) == Sums(s.a + Total(bytes), s.b + |bytes| * s.a + Weighted(bytes))
    decreases |bytes|
  {
    var n := |bytes|;
    if n > 0 {
      SummedIs(s, bytes[..n - 1]);
      OnceMore(n - 1, s.a);
    }
  }

  lemma OnceMore(n: nat, a: nat)
    ensures (n + 1) * a == n * a + a
  {
  }

  // The checksum, modulo 65521: one plus all bytes below, all these sums above.
  lemma ChecksumIs(bytes: seq<byte>)
    ensures Adler32(1, bytes) == (|bytes| + Weighted(bytes)) % 65521 * 0x1_0000 + (1 + Total(bytes)) % 65521
  {
    SummedIs(Sums(1, 0), bytes);
    ReduceLater(Sums(1, 0), bytes);
  }

  lemma {:induction false} CheckedIsSmall(s: Sums, bytes: seq<byte>)
    requires s.a < 0x1_0000
    ensures Checked(s, bytes).a < 0x1_0000
  {
  }

  lemma PackedAndSplit(s: Sums, n: nat)
    requires s.a < 0x1_0000
    ensures Split(Packed(s)) == s && Packed(Split(n)) == n && Split(n).a < 0x1_0000
  {
  }

  // A checksum can be taken up where it was left.
  lemma ChecksumGoesOn(adler32: nat, a: seq<byte>, b: seq<byte>)
    ensures Adler32(adler32, []) == adler32
    ensures Adler32(Adler32(adler32, a), b) == Adler32(adler32, a + b)
  {
    hide Packed, Split;
    PackedAndSplit(Sums(0, 0), adler32);
    CheckedIsSmall(Split(adler32), a);
    CheckedJoin(Split(adler32), a, b);
    PackedAndSplit(Checked(Split(adler32), a), 0);
  }

  // ---------- thirty-two bits suffice

  // An upper bound of the second sum after n bytes from sums of at most m.
  function Ceiling(m: nat, n: nat): nat {
    m * (n + 1) + 255 * (n * (n + 1) / 2)
  }

  lemma Triangle(n: nat)
    ensures (n + 1) * (n + 2) / 2 == n * (n + 1) / 2 + (n + 1)
  {
    assert (n + 1) * (n + 2) == n * (n + 1) + 2 * (n + 1);
  }

  lemma CeilingStep(m: nat, n: nat)
    ensures Ceiling(m, n + 1) == Ceiling(m, n) + m + 255 * (n + 1)
  {
    Triangle(n);
    assert m * (n + 2) == m * (n + 1) + m;
  }

  lemma {:induction false} SumsStayBelow(s: Sums, bytes: seq<byte>, m: nat)
    requires s.a <= m && s.b <= m
    ensures var t := Summed(s, bytes); t.a <= m + 255 * |bytes| && t.b <= Ceiling(m, |bytes|)
    decreases |bytes|
  {
    hide Ceiling;
    if |bytes| == 0 {
      CeilingStart(m);
    } else {
      SumsStayBelow(s, bytes[..|bytes| - 1], m);
      CeilingStep(m, |bytes| - 1);
    }
  }

  lemma CeilingStart(m: nat)
    ensures Ceiling(m, 0) == m
  {
    assert 0 * (0 + 1) / 2 == 0;
  }

  lemma CeilingGrows(m: nat, n: nat, k: nat)
    requires n <= k
    ensures Ceiling(m, n) <= Ceiling(m, k)
    decreases k - n
  {
    hide Ceiling;
    if n < k {
      CeilingGrows(m, n, k - 1);
      CeilingStep(m, k - 1);
    }
  }

  // Bytes of all ones, from the largest reduced sums, reach the ceiling.
  lemma {:induction false} CeilingIsReached(n: nat)
    ensures Summed(Sums(ADLER_MOD - 1, ADLER_MOD - 1), seq(n, _ => 255 as byte))
         == Sums(ADLER_MOD - 1 + 255 * n, Ceiling(ADLER_MOD - 1, n))
    decreases n
  {
    hide Ceiling;
    var bytes := seq(n, _ => 255 as byte);
    if n == 0 {
      CeilingStart(ADLER_MOD - 1);
    } else {
      assert bytes[..n - 1] == seq(n - 1, _ => 255 as byte);
      CeilingIsReached(n - 1);
      CeilingStep(ADLER_MOD - 1, n - 1);
    }
  }

  ghost predicate Fits(n: nat) {
    forall s: Sums, bytes: seq<byte> | s.a < ADLER_MOD && s.b < ADLER_MOD && |bytes| == n ::
      Summed(s, bytes).a < TWO_32 && Summed(s, bytes).b < TWO_32
  }

  // A block length never overflows 32 bits exactly up to the one the code uses.
  lemma BlockFitsIff(n: nat)
    ensures Fits(n) <==> n <= BLOCK
  {
    hide Ceiling, Summed;
    CeilingAtBlock();
    if n <= BLOCK {
      CeilingGrows(ADLER_MOD - 1, n, BLOCK);
      forall s: Sums, bytes: seq<byte> | s.a < ADLER_MOD && s.b < ADLER_MOD && |bytes| == n
        ensures Summed(s, bytes).a < TWO_32 && Summed(s, bytes).b < TWO_32
      {
        SumsStayBelow(s, bytes, ADLER_MOD - 1);
      }
    } else {
      CeilingGrows(ADLER_MOD - 1, BLOCK + 1, n);
      CeilingIsReached(n);
      assert |seq(n, _ => 255 as byte)| == n;
    }
  }

  lemma CeilingAtBlock()
    ensures Ceiling(ADLER_MOD - 1, BLOCK) < TWO_32 <= Ceiling(ADLER_MOD - 1, BLOCK + 1)
    ensures Ceiling(0xffff, BLOCK) < TWO_32
  {
  }

  // ---------- the function

  lemma OneMore(s: Sums, buffer: seq<byte>, p: nat, n: nat)
    requires p + n < |buffer|
    ensures Summed(s, buffer[p..p + n + 1]) == Plain(Summed(s, buffer[p..p + n]), buffer[p + n])
  {
    hide Plain;
    assert buffer[p..p + n + 1][..n] == buffer[p..p + n];
  }

  // Sum up a block without reducing, eight bytes at a time.
  method SumBlock(buffer: array<byte>, p: nat, blocklen: nat, a: nat, b: nat) returns (s1: nat, s2: nat)
    requires p + blocklen <= buffer.Length && blocklen <= BLOCK && a <= 0xffff && b <= 0xffff
    ensures Sums(s1, s2) == Summed(Sums(a, b), buffer[p..p + blocklen])
    ensures s1 < TWO_32 && s2 < TWO_32
  {
    hide Summed, Ceiling;
    s1, s2 := a, b;
    ghost var start, all := Sums(a, b), buffer[..];
    var i := 0;
    SummedNothing(start);
    assert all[p..p] == [];
    while i + 7 < blocklen
      invariant 0 <= i <= blocklen && Sums(s1, s2) == Summed(start, all[p..p + i])
    {
      s1, s2 := AddEight(buffer, p + i, s1, s2);
      EightMore(start, all, p, i);
      i := i + 8;
    }
    while i < blocklen
      invariant 0 <= i <= blocklen && Sums(s1, s2) == Summed(start, all[p..p + i])
    {
      OneMore(start, all, p, i);
      s1 := s1 + buffer[p + i];
      s2 := s2 + s1;
      i := i + 1;
    }
    SumsStayBelow(start, all[p..p + blocklen], 0xffff);
    CeilingGrows(0xffff, blocklen, BLOCK);
    CeilingAtBlock();
    assert all[p..p + blocklen] == buffer[p..p + blocklen];
  }

  lemma SummedNothing(s: Sums)
    ensures Summed(s, []) == s
  {
  }

  function Eight(s: Sums, x: seq<byte>): Sums
    requires |x| == 8
  {
    Plain(Plain(Plain(Plain(Plain(Plain(Plain(Plain(s, x[0]), x[1]), x[2]), x[3]), x[4]), x[5]), x[6]), x[7])
  }

  method AddEight(buffer: array<byte>, p: nat, a: nat, b: nat) returns (s1: nat, s2: nat)
    requires p + 8 <= buffer.Length
    ensures Sums(s1, s2) == Eight(Sums(a, b), buffer[p..p + 8])
  {
    s1, s2 := a, b;
    s1 := s1 + buffer[p];
    s2 := s2 + s1;
    s1 := s1 + buffer[p + 1];
    s2 := s2 + s1;
    s1 := s1 + buffer[p + 2];
    s2 := s2 + s1;
    s1 := s1 + buffer[p + 3];
    s2 := s2 + s1;
    s1 := s1 + buffer[p + 4];
    s2 := s2 + s1;
    s1 := s1 + buffer[p + 5];
    s2 := s2 + s1;
    s1 := s1 + buffer[p + 6];
    s2 := s2 + s1;
    s1 := s1 + buffer[p + 7];
    s2 := s2 + s1;
  }

  lemma EightMore(s: Sums, buffer: seq<byte>, p: nat, n: nat)
    requires p + n + 8 <= |buffer|
    ensures Summed(s, buffer[p..p + n + 8]) == Eight(Summed(s, buffer[p..p + n]), buffer[p + n..p + n + 8])
  {
    hide Plain, Summed;
    OneMore(s, buffer, p, n);
    OneMore(s, buffer, p, n + 1);
    OneMore(s, buffer, p, n + 2);
    OneMore(s, buffer, p, n + 3);
    OneMore(s, buffer, p, n + 4);
    OneMore(s, buffer, p, n + 5);
    OneMore(s, buffer, p, n + 6);
    OneMore(s, buffer, p, n + 7);
  }

  // The blocked sums are the byte-by-byte checksum, for every buffer and every earlier
  // checksum, and the sums fit in 32 bits all along.
  method StbAdler32(adler32: nat, buffer: array<byte>, buflen: nat) returns (r: nat)
    requires adler32 < TWO_32 && buflen <= buffer.Length
    ensures r == Adler32(adler32, buffer[..buflen]) && r < TWO_32
  {
    hide Checked, Summed;
    var s1: nat, s2: nat := adler32 % 0x1_0000, adler32 / 0x1_0000;
    ghost var start, all := Sums(s1, s2), buffer[..];
    var blocklen, rest, p := buflen % BLOCK, buflen, 0;
    CheckedNothing(start);
    assert all[..0] == [];
    while rest > 0
      invariant 0 <= p <= buflen && rest == buflen - p && s1 <= 0xffff && s2 <= 0xffff
      invariant 0 <= blocklen <= BLOCK && rest % BLOCK == blocklen % BLOCK
      invariant rest > 0 ==> blocklen <= rest && (blocklen > 0 || p == 0)
      invariant Sums(s1, s2) == Checked(start, all[..p])
             || (p == 0 && rest > 0 && Sums(s1, s2) == Reduced(start))
      decreases rest, BLOCK - blocklen
    {
      ghost var before := Sums(s1, s2);
      s1, s2 := SumBlock(buffer, p, blocklen, s1, s2);
      s1, s2 := s1 % ADLER_MOD, s2 % ADLER_MOD;
      assert all[p..p + blocklen] == buffer[p..p + blocklen];
      AfterBlock(start, before, all, p, blocklen, Sums(s1, s2));
      rest := rest - blocklen;
      p := p + blocklen;
      blocklen := BLOCK;
    }
    assert all[..p] == buffer[..buflen];
    r := s2 * 0x1_0000 + s1;
  }

  lemma CheckedNothing(s: Sums)
    ensures Checked(s, []) == s
  {
  }

  lemma AfterBlock(start: Sums, before: Sums, buffer: seq<byte>, p: nat, n: nat, after: Sums)
    requires p + n <= |buffer|
    requires before == Checked(start, buffer[..p]) || (p == 0 && before == Reduced(start))
    requires after == Reduced(Summed(before, buffer[p..p + n]))
    ensures n > 0 ==> after == Checked(start, buffer[..p + n])
    ensures n == 0 && p == 0 ==> after == Reduced(start)
  {
    hide Checked, Summed, Reduced;
    var block := buffer[p..p + n];
    ReduceLater(before, block);
    assert buffer[..p + n] == buffer[..p] + block;
    CheckedJoin(start, buffer[..p], block);
    if p == 0 {
      assert buffer[..0] == [];
      CheckedNothing(start);
      CheckedFromReduced(start, block);
    }
    if n == 0 {
      assert block == [];
      SummedNothing(before);
      ReducedTwice(start);
    }
  }
}
