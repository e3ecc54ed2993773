/**
 The checksum functions of the serial protocol, and which damaged messages they catch.
 */
module Crc {
  import opened CrcTables
  import opened CrcLaws
  import opened Crc8Laws
  import opened CrcOrder

  // ---------- specification: the shift register over all bits of the message

  function Crc16(message: seq<bv8>): bv16 {
    Register(CRC16_INIT, BitsOf(message))
  }

  function Crc8(message: seq<bv8>): bv8 {
    Register8(CRC8_INIT, BitsOf(message))
  }

  // A message with its checksum behind it clears the register.
  predicate Intact(frame: seq<bv8>) {
    |frame| > 2 && Crc16(frame) == 0
  }

  predicate Intact8(frame: seq<bv8>) {
    |frame| > 2 && Crc8(frame) == 0
  }

  // The bytes that go behind a message, low byte first.
  function Tail(c: bv16): (t: seq<bv8>)
    ensures |t| == 2
  {
    [LowByte(c), HighByte(c)]
  }

  lemma BytesOfWord(c: bv16, lo: bv8, hi: bv8)
    ensures c & 0x00ff == lo as bv16 <==> lo == LowByte(c)
    ensures (c >> 8) & 0x00ff == hi as bv16 <==> hi == HighByte(c)
  {
  }

  lemma BitsOfOne(b: bv8)
    ensures BitsOf([b]) == LowBits(b, 8)
  {
    hide LowBits;
    assert [b][1..] == [];
    assert BitsOf([b]) == LowBits(b, 8) + BitsOf([b][1..]);
  }

  lemma OneMoreByte(message: seq<bv8>, n: nat)
    requires n < |message|
    ensures BitsOf(message[..n + 1]) == BitsOf(message[..n]) + LowBits(message[n], 8)
  {
    hide LowBits, BitsOf;
    BitsJoin(message[..n], [message[n]]);
    BitsOfOne(message[n]);
    assert message[..n + 1] == message[..n] + [message[n]];
  }

  // A frame is intact exactly when its last two bytes are the checksum of the rest.
  lemma IntactIffTail(data: seq<bv8>, tail: seq<bv8>)
    requires |tail| == 2
    ensures Intact(data + tail) <==> |data| > 0 && tail == Tail(Crc16(data))
  {
    hide Register, LowBits, BitsOf, Crc16, LowByte, HighByte;
    CrcOfTwoMore(data, tail[0], tail[1]);
    assert tail == [tail[0], tail[1]];
    TailClears(Crc16(data), tail[0], tail[1]);
  }

  lemma CrcOfTwoMore(data: seq<bv8>, lo: bv8, hi: bv8)
    ensures Crc16(data + [lo, hi]) == Register(Register(Crc16(data), LowBits(lo, 8)), LowBits(hi, 8))
  {
    hide Register, LowBits, BitsOf;
    var all, n := data + [lo, hi], |data|;
    OneMoreByte(all, n);
    OneMoreByte(all, n + 1);
    assert all[..n] == data && all[..n + 2] == all && all[..n + 1][..n] == data;
    RegisterJoin(CRC16_INIT, BitsOf(data), LowBits(lo, 8));
    RegisterJoin(CRC16_INIT, BitsOf(data) + LowBits(lo, 8), LowBits(hi, 8));
  }

  lemma Intact8IffTail(data: seq<bv8>, tail: bv8)
    ensures Intact8(data + [tail]) <==> |data| > 1 && tail == Crc8(data)
  {
    hide Register8, LowBits, BitsOf;
    var all := data + [tail];
    OneMoreByte(all, |data|);
    assert all[..|data|] == data && all[..|data| + 1] == all;
    RegisterJoin8(CRC8_INIT, BitsOf(data), LowBits(tail, 8));
    TailClears8(Crc8(data), tail);
  }

  // ---------- the functions

  lemma LookUpInWords(r: bv16, b: bv8)
    ensures LowByte(Add(r, Wide(b))) == ((r ^ (b as bv16)) & 0x00ff) as bv8
  {
  }

  // One table lookup takes the register through one byte.
  lemma LookUpIsRegister(r: bv16, b: bv8)
    ensures (r >> 8) ^ WideTable(((r ^ (b as bv16)) & 0x00ff) as bv8) == Register(r, LowBits(b, 8))
  {
    hide Register, LowBits, WideTable, LowByte, Wide;
    TableStepIsRegister(r, b);
    LookUpInWords(r, b);
  }

  lemma NextIsRegister(n: nat, message: seq<bv8>)
    requires n < |message|
    ensures Crc16(message[..n + 1]) == Register(Crc16(message[..n]), LowBits(message[n], 8))
  {
    hide Register, BitsOf, LowBits;
    OneMoreByte(message, n);
    RegisterJoin(CRC16_INIT, BitsOf(message[..n]), LowBits(message[n], 8));
  }

  function LookUp(r: bv16, b: bv8): bv16 {
    (r >> 8) ^ WideTable(((r ^ (b as bv16)) & 0x00ff) as bv8)
  }

  lemma LookUpIs(r: bv16, b: bv8)
    ensures LookUp(r, b) == Register(r, LowBits(b, 8))
  {
    hide Register, LowBits, WideTable;
    LookUpIsRegister(r, b);
  }

  // What one more byte makes of the checksum.
  lemma NextCrc(n: nat, message: seq<bv8>, r: bv16)
    requires n < |message| && Crc16(message[..n]) == r
    ensures Crc16(message[..n + 1]) == LookUp(r, message[n])
  {
    hide Register, BitsOf, LowBits, WideTable, Crc16, LookUp;
    NextIsRegister(n, message);
    LookUpIs(r, message[n]);
  }

  lemma NextCrc8(n: nat, message: seq<bv8>, r: bv8)
    requires n < |message| && Crc8(message[..n]) == r
    ensures Crc8(message[..n + 1]) == NarrowTable(r ^ message[n])
  {
    hide Register8, BitsOf, LowBits, NarrowTable;
    OneMoreByte(message, n);
    RegisterJoin8(CRC8_INIT, BitsOf(message[..n]), LowBits(message[n], 8));
    TableStepIsRegister8(r, message[n]);
  }

  lemma CrcOfNothing()
    ensures Crc16([]) == 0xffff && Crc8([]) == 0xff
  {
  }

  const DIGITS: seq<bv8> := [0x31, 0x32, 0x33, 0x34, 0x35, 0x36, 0x37, 0x38, 0x39]

  // The check values of the two checksums, over the digits from 1 to 9.
  lemma CheckValues()
    ensures Crc16(DIGITS) == 0x6f91 && Crc8(DIGITS) == 0x0b
  {
    hide Crc16, Crc8;
    var message := DIGITS;
    assert message[..0] == [] && message[..9] == message;
    CrcOfNothing();
    NextCrc(0, message, 0xffff);
    NextCrc(1, message, 0x2f8d);
    NextCrc(2, message, 0x4d53);
    NextCrc(3, message, 0x634b);
    NextCrc(4, message, 0x8b13);
    NextCrc(5, message, 0x44bf);
    NextCrc(6, message, 0x198d);
    NextCrc(7, message, 0x1ac8);
    NextCrc(8, message, 0xf795);
    NextCrc8(0, message, 0xff);
    NextCrc8(1, message, 0xd5);
    NextCrc8(2, message, 0x6a);
    NextCrc8(3, message, 0x47);
    NextCrc8(4, message, 0x1a);
    NextCrc8(5, message, 0x62);
    NextCrc8(6, message, 0xba);
    NextCrc8(7, message, 0x71);
    NextCrc8(8, message, 0xda);
  }

  method GetCRC16Checksum(pchMessage: array?<bv8>, length: nat, init: bv16) returns (wCRC: bv16)
    requires pchMessage != null ==> length <= pchMessage.Length
    ensures wCRC == if pchMessage == null then 0xffff else Register(init, BitsOf(pchMessage[..length]))
  {
    hide Register, BitsOf, LowBits, WideTable;
    if pchMessage == null {
      return 0xffff;
    }
    wCRC := init;
    var i := 0;
    RegisterOfNothing(init);
    assert pchMessage[..0] == [];
    while i < length
      invariant 0 <= i <= length
      invariant wCRC == Register(init, BitsOf(pchMessage[..i]))
    {
      var chData := pchMessage[i];
      LookUpIsRegister(wCRC, chData);
      OneMoreByte(pchMessage[..], i);
      assert pchMessage[..][..i] == pchMessage[..i] && pchMessage[..][..i + 1] == pchMessage[..i + 1];
      RegisterJoin(init, BitsOf(pchMessage[..i]), LowBits(chData, 8));
      wCRC := (wCRC >> 8) ^ WideTable(((wCRC ^ (chData as bv16)) & 0x00ff) as bv8);
      i := i + 1;
    }
  }

  lemma RegisterOfNothing(r: bv16)
    ensures Register(r, BitsOf([])) == r
  {
  }

  lemma RegisterOfNothing8(r: bv8)
    ensures Register8(r, BitsOf([])) == r
  {
  }

  method VerifyCRC16Checksum(pchMessage: array?<bv8>, length: nat) returns (ok: bool)
    requires pchMessage != null ==> length <= pchMessage.Length
    ensures ok <==> pchMessage != null && Intact(pchMessage[..length])
  {
    hide Intact, LowByte, HighByte, Register, BitsOf;
    if pchMessage == null || length <= 2 {
      ShortIsNotIntact(if pchMessage == null then [] else pchMessage[..length]);
      return false;
    }
    var wExpected := GetCRC16Checksum(pchMessage, length - 2, CRC16_INIT);
    ghost var data, tail := pchMessage[..length - 2], [pchMessage[length - 2], pchMessage[length - 1]];
    assert pchMessage[..length] == data + tail;
    IntactIffTail(data, tail);
    BytesOfWord(wExpected, pchMessage[length - 2], pchMessage[length - 1]);
    ok := wExpected & 0x00ff == pchMessage[length - 2] as bv16
       && (wExpected >> 8) & 0x00ff == pchMessage[length - 1] as bv16;
  }

  lemma ShortIsNotIntact(frame: seq<bv8>)
    requires |frame| <= 2
    ensures !Intact(frame)
  {
  }

  lemma TailInWords(c: bv16)
    ensures Tail(c) == [(c & 0x00ff) as bv8, ((c >> 8) & 0x00ff) as bv8]
  {
  }

  // Write the checksum into the last two bytes.
  method AppendCRC16Checksum(pchMessage: array?<bv8>, length: nat)
    requires pchMessage != null ==> length <= pchMessage.Length
    modifies if pchMessage == null then {} else {pchMessage}
    ensures pchMessage != null && length <= 2 ==> pchMessage[..] == old(pchMessage[..])
    ensures pchMessage != null && length > 2 ==>
            && Intact(pchMessage[..length])
            && pchMessage[..length - 2] == old(pchMessage[..length - 2])
            && pchMessage[length..] == old(pchMessage[length..])
  {
    hide Intact, Register, BitsOf, Tail;
    if pchMessage == null || length <= 2 {
      return;
    }
    var wCRC := GetCRC16Checksum(pchMessage, length - 2, CRC16_INIT);
    TailInWords(wCRC);
    pchMessage[length - 2] := (wCRC & 0x00ff) as bv8;
    pchMessage[length - 1] := ((wCRC >> 8) & 0x00ff) as bv8;
    assert pchMessage[..length] == old(pchMessage[..length - 2]) + Tail(wCRC);
    IntactIffTail(old(pchMessage[..length - 2]), Tail(wCRC));
  }

  method GetCRC8Checksum(pchMessage: array<bv8>, length: nat, init: bv8) returns (ucCRC8: bv8)
    requires length <= pchMessage.Length
    ensures ucCRC8 == Register8(init, BitsOf(pchMessage[..length]))
  {
    hide Register8, BitsOf, LowBits, NarrowTable;
    ucCRC8 := init;
    var i := 0;
    RegisterOfNothing8(init);
    assert pchMessage[..0] == [];
    while i < length
      invariant 0 <= i <= length
      invariant ucCRC8 == Register8(init, BitsOf(pchMessage[..i]))
    {
      var tableIndex := ucCRC8 ^ pchMessage[i];
      TableStepIsRegister8(ucCRC8, pchMessage[i]);
      OneMoreByte(pchMessage[..], i);
      assert pchMessage[..][..i] == pchMessage[..i] && pchMessage[..][..i + 1] == pchMessage[..i + 1];
      RegisterJoin8(init, BitsOf(pchMessage[..i]), LowBits(pchMessage[i], 8));
      ucCRC8 := NarrowTable(tableIndex);
      i := i + 1;
    }
  }

  method VerifyCRC8Checksum(pchMessage: array?<bv8>, length: nat) returns (ok: bool)
    requires pchMessage != null ==> length <= pchMessage.Length
    ensures ok <==> pchMessage != null && Intact8(pchMessage[..length])
  {
    if pchMessage == null || length <= 2 {
      return false;
    }
    var ucExpected := GetCRC8Checksum(pchMessage, length - 1, CRC8_INIT);
    assert pchMessage[..length] == pchMessage[..length - 1] + [pchMessage[length - 1]];
    Intact8IffTail(pchMessage[..length - 1], pchMessage[length - 1]);
    ok := ucExpected == pchMessage[length - 1];
  }

  method AppendCRC8Checksum(pchMessage: array?<bv8>, length: nat)
    requires pchMessage != null ==> length <= pchMessage.Length
    modifies if pchMessage == null then {} else {pchMessage}
    ensures pchMessage != null && length <= 2 ==> pchMessage[..] == old(pchMessage[..])
    ensures pchMessage != null && length > 2 ==>
            && Intact8(pchMessage[..length])
            && pchMessage[..length - 1] == old(pchMessage[..length - 1])
            && pchMessage[length..] == old(pchMessage[length..])
  {
    hide Intact8, Register8, BitsOf;
    if pchMessage == null || length <= 2 {
      return;
    }
    var ucCRC := GetCRC8Checksum(pchMessage, length - 1, CRC8_INIT);
    pchMessage[length - 1] := ucCRC;
    assert pchMessage[..length] == old(pchMessage[..length - 1]) + [ucCRC];
    Intact8IffTail(old(pchMessage[..length - 1]), ucCRC);
  }

  // ---------- damage that is always caught

  lemma {:induction false} LowBitsOneToOne(b: bv8, c: bv8, n: nat)
    requires b & Mask(n) == b && c & Mask(n) == c && LowBits(b, n) == LowBits(c, n)
    ensures b == c
    decreases n
  {
    hide Mask;
    if n == 0 {
      NothingToAdd8(0, b);
      NothingToAdd8(0, c);
      ZeroAdds(b);
      ZeroAdds(c);
    } else {
      MaskStep(b, n);
      MaskStep(c, n);
      assert LowBits(b, n)[0] == LowBits(c, n)[0] && LowBits(b, n)[1..] == LowBits(c, n)[1..];
      assert LowBits(b, n)[1..] == LowBits(b >> 1, n - 1) && LowBits(c, n)[1..] == LowBits(c >> 1, n - 1);
      LowBitsOneToOne(b >> 1, c >> 1, n - 1);
      TwoParts(b, c);
    }
  }

  lemma ZeroAdds(b: bv8)
    ensures Add8(0, b) == b
  {
  }

  lemma TwoParts(b: bv8, c: bv8)
    requires (b & 1 == 1) == (c & 1 == 1) && b >> 1 == c >> 1
    ensures b == c
  {
    assert b == ((b >> 1) << 1) | (b & 1);
    assert c == ((c >> 1) << 1) | (c & 1);
  }

  lemma {:induction false} BitsOneToOne(f: seq<bv8>, g: seq<bv8>)
    requires BitsOf(f) == BitsOf(g)
    ensures f == g
    decreases |f|
  {
    hide LowBits;
    if |f| > 0 {
      assert |BitsOf(g)| == 8 * |g|;
      var a, b := BitsOf(f), BitsOf(g);
      assert a[..8] == LowBits(f[0], 8) && b[..8] == LowBits(g[0], 8);
      assert a[8..] == BitsOf(f[1..]) && b[8..] == BitsOf(g[1..]);
      assert Mask(8) == 0xff && f[0] & 0xff == f[0] && g[0] & 0xff == g[0];
      LowBitsOneToOne(f[0], g[0], 8);
      BitsOneToOne(f[1..], g[1..]);
    }
  }

  // A burst of up to sixteen bits, wherever it hits, leaves no intact frame intact.
  lemma BurstIsCaught(f: seq<bv8>, g: seq<bv8>, at: int)
    requires Intact(f) && f != g && SameOutside(BitsOf(f), BitsOf(g), at, 16)
    ensures !Intact(g)
  {
    hide Register, BitsOf;
    if BitsOf(f) == BitsOf(g) {
      BitsOneToOne(f, g);
    }
    BurstChangesRegister(CRC16_INIT, BitsOf(f), BitsOf(g), at);
  }

  // So does any change of two adjacent bytes.
  lemma AdjacentBytesAreCaught(f: seq<bv8>, g: seq<bv8>, i: nat)
    requires Intact(f) && f != g && |f| == |g| && i + 1 < |f|
    requires f[..i] == g[..i] && f[i + 2..] == g[i + 2..]
    ensures !Intact(g)
  {
    hide Register, BitsOf, Intact;
    assert f == f[..i] + (f[i..i + 2] + f[i + 2..]) && g == g[..i] + (g[i..i + 2] + g[i + 2..]);
    BitsJoin(f[..i], f[i..i + 2] + f[i + 2..]);
    BitsJoin(f[i..i + 2], f[i + 2..]);
    BitsJoin(g[..i], g[i..i + 2] + g[i + 2..]);
    BitsJoin(g[i..i + 2], g[i + 2..]);
    BurstIsCaught(f, g, 8 * i);
  }

  // So does an odd number of flipped bits, anywhere.
  lemma OddFlipsAreCaught(f: seq<bv8>, g: seq<bv8>)
    requires Intact(f) && |f| == |g| && Flips(BitsOf(f), BitsOf(g)) % 2 == 1
    ensures !Intact(g)
  {
    hide Register, BitsOf, Flips;
    OddFlipsChangeRegister(CRC16_INIT, BitsOf(f), BitsOf(g));
  }

  // ---------- two flipped bits

  // Two flipped bits go unnoticed exactly when their distance is a multiple of the order
  // of the register.
  lemma TwoFlipsPassIff(f: seq<bv8>, g: seq<bv8>, i: nat, j: nat)
    requires Intact(f) && |f| == |g| && i < j < 8 * |f| && BitsOf(g) == Flip(Flip(BitsOf(f), i), j)
    ensures Intact(g) <==> (j - i) % ORDER == 0
  {
    hide Register, BitsOf;
    TwoFlipsMissedIff(CRC16_INIT, BitsOf(f), i, j);
  }

  // So in frames of up to 4095 bytes they are always caught.
  lemma TwoFlipsAreCaught(f: seq<bv8>, g: seq<bv8>)
    requires Intact(f) && |f| == |g| <= 4095 && Flips(BitsOf(f), BitsOf(g)) == 2
    ensures !Intact(g)
  {
    hide Register, BitsOf, Flips, Intact;
    var i, j := TwoFlips(BitsOf(f), BitsOf(g));
    TwoFlipsPassIff(f, g, i, j);
  }

  lemma ShiftsAdd(b: bv8)
    ensures b >> 1 >> 1 == b >> 2 && b >> 2 >> 1 == b >> 3 && b >> 3 >> 1 == b >> 4
    ensures b >> 4 >> 1 == b >> 5 && b >> 4 >> 2 == b >> 6 && b >> 4 >> 3 == b >> 7
  {
  }

  lemma NextBit(b: bv8, n: nat)
    requires n > 0
    ensures LowBits(b, n) == [b & 1 == 1] + LowBits(b >> 1, n - 1)
  {
  }

  lemma FourBits(b: bv8, n: nat)
    requires n >= 4
    ensures LowBits(b, n)
         == [b & 1 == 1, (b >> 1) & 1 == 1, (b >> 2) & 1 == 1, (b >> 3) & 1 == 1] + LowBits(b >> 4, n - 4)
  {
    hide LowBits;
    ShiftsAdd(b);
    NextBit(b, n);
    NextBit(b >> 1, n - 1);
    NextBit(b >> 2, n - 2);
    NextBit(b >> 3, n - 3);
  }

  lemma EightBits(b: bv8)
    ensures LowBits(b, 8)
         == [b & 1 == 1, (b >> 1) & 1 == 1, (b >> 2) & 1 == 1, (b >> 3) & 1 == 1,
             (b >> 4) & 1 == 1, (b >> 5) & 1 == 1, (b >> 6) & 1 == 1, (b >> 7) & 1 == 1]
  {
    hide LowBits;
    FourBits(b, 8);
    FourBits(b >> 4, 4);
    assert LowBits(b >> 4 >> 4, 0) == [];
    ShiftsAdd(b);
  }

  lemma OtherBits(b: bv8)
    ensures var c := b ^ 0x01;
            && (c & 1 == 1) != (b & 1 == 1) && c >> 1 == b >> 1 && c >> 2 == b >> 2 && c >> 3 == b >> 3
            && c >> 4 == b >> 4 && c >> 5 == b >> 5 && c >> 6 == b >> 6 && c >> 7 == b >> 7
    ensures var c := b ^ 0x80;
            && c & 1 == b & 1 && (c >> 1) & 1 == (b >> 1) & 1 && (c >> 2) & 1 == (b >> 2) & 1
            && (c >> 3) & 1 == (b >> 3) & 1 && (c >> 4) & 1 == (b >> 4) & 1 && (c >> 5) & 1 == (b >> 5) & 1
            && (c >> 6) & 1 == (b >> 6) & 1 && ((c >> 7) & 1 == 1) != ((b >> 7) & 1 == 1)
  {
  }

  lemma FlipEnds(b: bv8)
    ensures LowBits(b ^ 0x01, 8) == Flip(LowBits(b, 8), 0)
    ensures LowBits(b ^ 0x80, 8) == Flip(LowBits(b, 8), 7)
  {
    hide LowBits;
    EightBits(b);
    EightBits(b ^ 0x01);
    EightBits(b ^ 0x80);
    OtherBits(b);
  }

  lemma FlipInside(f: seq<bv8>, k: nat, b: bv8, i: nat)
    requires k < |f| && i < 8 && LowBits(b, 8) == Flip(LowBits(f[k], 8), i)
    ensures BitsOf(f[k := b]) == Flip(BitsOf(f), 8 * k + i)
  {
    hide LowBits, BitsOf;
    assert f == f[..k] + ([f[k]] + f[k + 1..]) && f[k := b] == f[..k] + ([b] + f[k + 1..]);
    BitsJoin(f[..k], [f[k]] + f[k + 1..]);
    BitsJoin([f[k]], f[k + 1..]);
    BitsJoin(f[..k], [b] + f[k + 1..]);
    BitsJoin([b], f[k + 1..]);
    BitsOfOne(f[k]);
    BitsOfOne(b);
  }

  ghost predicate PairsCaught(n: nat) {
    forall f: seq<bv8>, g: seq<bv8> ::
      Intact(f) && |f| == |g| == n && Flips(BitsOf(f), BitsOf(g)) == 2 ==> !Intact(g)
  }

  // Two flipped bits are always caught exactly in frames of up to 4095 bytes.
  lemma PairsCaughtIff(n: nat)
    ensures PairsCaught(n) <==> n <= 4095
  {
    hide Intact, BitsOf, Flips;
    if n <= 4095 {
      forall f: seq<bv8>, g: seq<bv8> | Intact(f) && |f| == |g| == n && Flips(BitsOf(f), BitsOf(g)) == 2
        ensures !Intact(g)
      {
        TwoFlipsAreCaught(f, g);
      }
    } else {
      var f, g := MissedPair(n);
      assert Intact(f) && Flips(BitsOf(f), BitsOf(g)) == 2 && Intact(g);
    }
  }

  // The first bit, and the first bit it cannot be told from.
  lemma MissedPair(n: nat) returns (f: seq<bv8>, g: seq<bv8>)
    requires n >= 4096
    ensures Intact(f) && |f| == |g| == n && Flips(BitsOf(f), BitsOf(g)) == 2 && Intact(g)
  {
    hide Intact, BitsOf, Flips, LowBits, Tail, Crc16;
    var data := seq(n - 2, _ => 0 as bv8);
    f := data + Tail(Crc16(data));
    IntactIffTail(data, Tail(Crc16(data)));
    FlipEnds(f[0]);
    FlipEnds(f[4095]);
    var h := f[0 := f[0] ^ 0x01];
    g := h[4095 := f[4095] ^ 0x80];
    FlipInside(f, 0, f[0] ^ 0x01, 0);
    FlipInside(h, 4095, f[4095] ^ 0x80, 7);
    TwoFlipsPassIff(f, g, 0, ORDER);
    BothFlipped(BitsOf(f), 0, ORDER);
  }

  // ---------- the longest burst that is always caught

  ghost predicate AlwaysCaught(n: nat) {
    forall f: seq<bv8>, g: seq<bv8>, at: int ::
      Intact(f) && f != g && SameOutside(BitsOf(f), BitsOf(g), at, n) ==> !Intact(g)
  }

  // A frame, and the same frame with the feedback pattern added to its first bits.
  const PLAIN: seq<bv8> := [0x00, 0x00, 0x00] + Tail(Crc16([0x00, 0x00, 0x00]))
  const STRUCK: seq<bv8> := [0x11, 0x08, 0x01] + Tail(Crc16([0x00, 0x00, 0x00]))

  lemma ThreeBytes(a: bv8, b: bv8, c: bv8)
    ensures BitsOf([a, b, c]) == LowBits(a, 8) + LowBits(b, 8) + LowBits(c, 8)
    ensures Crc16([a, b, c])
         == Register(Register(Register(CRC16_INIT, LowBits(a, 8)), LowBits(b, 8)), LowBits(c, 8))
  {
    hide LowBits, BitsOf, Register;
    assert [a, b, c] == [a] + [b] + [c];
    BitsJoin([a] + [b], [c]);
    BitsJoin([a], [b]);
    BitsOfOne(a);
    BitsOfOne(b);
    BitsOfOne(c);
    RegisterJoin(CRC16_INIT, LowBits(a, 8) + LowBits(b, 8), LowBits(c, 8));
    RegisterJoin(CRC16_INIT, LowBits(a, 8), LowBits(b, 8));
  }

  lemma FeedbackCancels()
    ensures Crc16([0x11, 0x08, 0x01]) == Crc16([0x00, 0x00, 0x00])
  {
    hide LowBits, Register, EightShifts, Crc16;
    ThreeBytes(0x11, 0x08, 0x01);
    ThreeBytes(0x00, 0x00, 0x00);
    var x := Register(CRC16_INIT, LowBits(0x11, 8));
    var y := Register(CRC16_INIT, LowBits(0x00, 8));
    ByteIsEightShifts(CRC16_INIT, 0x11);
    ByteIsEightShifts(CRC16_INIT, 0x00);
    ByteIsEightShifts(x, 0x08);
    ByteIsEightShifts(y, 0x00);
    ByteIsEightShifts(Register(x, LowBits(0x08, 8)), 0x01);
    ByteIsEightShifts(Register(y, LowBits(0x00, 8)), 0x00);
    EightByLookUp(CRC16_INIT, 0x11);
    EightByLookUp(CRC16_INIT, 0x00);
    EightByLookUp(x, 0x08);
    EightByLookUp(y, 0x00);
    EightByLookUp(Register(x, LowBits(0x08, 8)), 0x01);
    EightByLookUp(Register(y, LowBits(0x00, 8)), 0x00);
  }

  lemma EightByLookUp(r: bv16, b: bv8)
    ensures EightShifts(Add(r, Wide(b))) == (r >> 8) ^ WideTable(((r ^ (b as bv16)) & 0x00ff) as bv8)
  {
    hide EightShifts, Register, LowBits, WideTable;
    LookUpIsRegister(r, b);
    ByteIsEightShifts(r, b);
  }

  // Bursts of up to n bits are always caught exactly for n up to sixteen.
  lemma AlwaysCaughtIff(n: nat)
    ensures AlwaysCaught(n) <==> n <= 16
  {
    hide Register, BitsOf, Intact;
    if n <= 16 {
      forall f: seq<bv8>, g: seq<bv8>, at: int |
        Intact(f) && f != g && SameOutside(BitsOf(f), BitsOf(g), at, n)
        ensures !Intact(g)
      {
        BurstIsCaught(f, g, at);
      }
    } else {
      StruckPasses();
      assert SameOutside(BitsOf(PLAIN), BitsOf(STRUCK), 0, n);
    }
  }

  lemma StruckPasses()
    ensures Intact(PLAIN) && Intact(STRUCK) && PLAIN != STRUCK
    ensures SameOutside(BitsOf(PLAIN), BitsOf(STRUCK), 0, 17)
  {
    hide Register, BitsOf, Intact, Tail, Crc16;
    var tail := Tail(Crc16([0x00, 0x00, 0x00]));
    FeedbackCancels();
    IntactIffTail([0x00, 0x00, 0x00], tail);
    IntactIffTail([0x11, 0x08, 0x01], tail);
    ThreeBytes(0x00, 0x00, 0x00);
    ThreeBytes(0x11, 0x08, 0x01);
    BitsJoin([0x00, 0x00, 0x00], tail);
    BitsJoin([0x11, 0x08, 0x01], tail);
    LastOfThree();
    assert PLAIN[0] != STRUCK[0];
  }

  lemma LastOfThree()
    ensures forall k :: 1 <= k < 8 ==> LowBits(0x00, 8)[k] == LowBits(0x01, 8)[k]
  {
  }
}
