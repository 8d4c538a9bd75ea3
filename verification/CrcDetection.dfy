/** What the CRC-32 of Crc.dfy detects, and the table form in which section 8 of RFC 1952 prints it. */
module CrcDetection {
  import opened Crc

  // ---------------------------------------------------------------------------------------------
  // Every stage of the computation can be undone
  // ---------------------------------------------------------------------------------------------

  function Unstep(poly: bv32, d: bv32): bv32 {
    if d & 1 == 1 then ((d ^ poly) >> 1) | 0x80000000 else d >> 1
  }

  lemma UnstepOnSetLowBit(poly: bv32, d: bv32)
    requires d & 1 == 1
    ensures Unstep(poly, d) == ((d ^ poly) >> 1) | 0x80000000
  {
  }

  lemma OddPolynomialSetsLowBit(poly: bv32, c: bv32)
    requires poly & 1 == 1
    ensures ((c << 1) ^ poly) & 1 == 1
  {
  }

  lemma ExclusiveOrTwice(a: bv32, b: bv32)
    ensures (a ^ b) ^ b == a
  {
  }

  lemma TopBitRestored(c: bv32)
    requires c & 0x80000000 != 0
    ensures ((c << 1) >> 1) | 0x80000000 == c
  {
  }

  lemma UnstepOnSetTopBit(poly: bv32, c: bv32)
    requires poly & 1 == 1 && c & 0x80000000 != 0
    ensures Unstep(poly, (c << 1) ^ poly) == c
  {
    hide *;
    OddPolynomialSetsLowBit(poly, c);
    UnstepOnSetLowBit(poly, (c << 1) ^ poly);
    ExclusiveOrTwice(c << 1, poly);
    TopBitRestored(c);
  }

  lemma UnstepOnClearTopBit(poly: bv32, c: bv32)
    requires poly & 1 == 1 && c & 0x80000000 == 0
    ensures Unstep(poly, c << 1) == c
  {
  }

  lemma StepIsInvertible(poly: bv32, c: bv32)
    requires poly & 1 == 1
    ensures Unstep(poly, Step(poly, c)) == c
  {
    hide *;
    if c & 0x80000000 != 0 {
      StepOnSetTopBit(poly, c);
      UnstepOnSetTopBit(poly, c);
    } else {
      StepOnClearTopBit(poly, c);
      UnstepOnClearTopBit(poly, c);
    }
  }

  lemma {:induction false} StepsAreInjective(poly: bv32, c: bv32, d: bv32, n: nat)
    requires poly & 1 == 1 && Steps(poly, c, n) == Steps(poly, d, n)
    ensures c == d
    decreases n
  {
    hide Step, Unstep;
    if n > 0 {
      StepsAreInjective(poly, Step(poly, c), Step(poly, d), n - 1);
      StepIsInvertible(poly, c);
      StepIsInvertible(poly, d);
    }
  }

  lemma XorCancels(a: bv32, b: bv32, c: bv32)
    requires Xor(a, c) == Xor(b, c)
    ensures a == b
  {
  }

  lemma XorCancelsLeft(a: bv32, b: bv32, c: bv32)
    requires Xor(c, a) == Xor(c, b)
    ensures a == b
  {
  }

  lemma UpdateByteIsInjective(c: bv32, d: bv32, b: bv8)
    requires UpdateByte(c, b) == UpdateByte(d, b)
    ensures c == d
  {
    assert POLYNOMIAL & 1 == 1;
    hide *;
    var x, y := Reversed(c), Reversed(d);
    ReversedTwice(c);
    ReversedTwice(d);
    ReversedUpdateTop(x, b);
    ReversedUpdateTop(y, b);
    ReversedTwice(UpdateTop(x, b));
    ReversedTwice(UpdateTop(y, b));
    UpdateTopIsSteps(x, b);
    UpdateTopIsSteps(y, b);
    StepsAreInjective(POLYNOMIAL, Xor(x, Top(b)), Xor(y, Top(b)), 8);
    XorCancels(x, y, Top(b));
  }

  lemma {:induction false} UpdateIsInjective(c: bv32, d: bv32, data: seq<bv8>)
    requires Update(c, data) == Update(d, data)
    ensures c == d
    decreases |data|
  {
    hide UpdateByte;
    if data != [] {
      UpdateIsInjective(UpdateByte(c, data[0]), UpdateByte(d, data[0]), data[1..]);
      UpdateByteIsInjective(c, d, data[0]);
    }
  }

  lemma ReversedBitsTwice(b: bv8)
    ensures ReversedBits(ReversedBits(b)) == b
  {
  }

  lemma WordKeepsItsBytes(r1: bv8, r2: bv8, r3: bv8, r4: bv8)
    ensures ByteAt(Word(r1, r2, r3, r4), 3) == r1
    ensures ByteAt(Word(r1, r2, r3, r4), 2) == r2
    ensures ByteAt(Word(r1, r2, r3, r4), 1) == r3
    ensures ByteAt(Word(r1, r2, r3, r4), 0) == r4
  {
  }

  lemma WordOfIsInjective(a1: bv8, a2: bv8, a3: bv8, a4: bv8, b1: bv8, b2: bv8, b3: bv8, b4: bv8)
    requires WordOf(a1, a2, a3, a4) == WordOf(b1, b2, b3, b4)
    ensures a1 == b1 && a2 == b2 && a3 == b3 && a4 == b4
  {
    hide *;
    WordOfIsWord(a1, a2, a3, a4);
    WordOfIsWord(b1, b2, b3, b4);
    WordKeepsItsBytes(ReversedBits(a1), ReversedBits(a2), ReversedBits(a3), ReversedBits(a4));
    WordKeepsItsBytes(ReversedBits(b1), ReversedBits(b2), ReversedBits(b3), ReversedBits(b4));
    ReversedBitsTwice(a1); ReversedBitsTwice(a2); ReversedBitsTwice(a3); ReversedBitsTwice(a4);
    ReversedBitsTwice(b1); ReversedBitsTwice(b2); ReversedBitsTwice(b3); ReversedBitsTwice(b4);
  }

  // ---------------------------------------------------------------------------------------------
  // Four damaged bytes in a row are always noticed
  // ---------------------------------------------------------------------------------------------

  lemma FourBytesReachRegister(c: bv32, w: seq<bv8>, v: seq<bv8>)
    requires |w| == 4 && |v| == 4 && Update(c, w) == Update(c, v)
    ensures w == v
  {
    assert POLYNOMIAL & 1 == 1;
    hide *;
    var x := Reversed(c);
    ReversedTwice(c);
    assert w == [w[0], w[1], w[2], w[3]];
    assert v == [v[0], v[1], v[2], v[3]];
    UpdateFour(c, w[0], w[1], w[2], w[3]);
    UpdateFour(c, v[0], v[1], v[2], v[3]);
    ReversedWordUpdate(x, w[0], w[1], w[2], w[3]);
    ReversedWordUpdate(x, v[0], v[1], v[2], v[3]);
    var ww, vv := WordOf(w[0], w[1], w[2], w[3]), WordOf(v[0], v[1], v[2], v[3]);
    ReversedTwice(Steps(POLYNOMIAL, Xor(x, ww), 32));
    ReversedTwice(Steps(POLYNOMIAL, Xor(x, vv), 32));
    StepsAreInjective(POLYNOMIAL, Xor(x, ww), Xor(x, vv), 32);
    XorCancelsLeft(ww, vv, x);
    WordOfIsInjective(w[0], w[1], w[2], w[3], v[0], v[1], v[2], v[3]);
  }

  lemma BurstReachesRegister(c: bv32, prefix: seq<bv8>, w: seq<bv8>, v: seq<bv8>, suffix: seq<bv8>)
    requires |w| == 4 && |v| == 4
    requires Update(c, prefix + w + suffix) == Update(c, prefix + v + suffix)
    ensures w == v
  {
    hide *;
    UpdateAppends(c, prefix + w, suffix);
    UpdateAppends(c, prefix + v, suffix);
    UpdateIsInjective(Update(c, prefix + w), Update(c, prefix + v), suffix);
    UpdateAppends(c, prefix, w);
    UpdateAppends(c, prefix, v);
    FourBytesReachRegister(Update(c, prefix), w, v);
  }

  lemma ChecksumDeterminesRegister(a: seq<bv8>, b: seq<bv8>)
    requires Crc32(a) == Crc32(b)
    ensures Update(0xFFFFFFFF, a) == Update(0xFFFFFFFF, b)
  {
    hide Update;
  }

  /** Two messages of equal length that differ, and only inside four consecutive bytes, have
      different checksums; the four bytes may stand at any offset. */
  lemma BurstIsDetected(prefix: seq<bv8>, w: seq<bv8>, v: seq<bv8>, suffix: seq<bv8>)
    requires |w| == 4 && |v| == 4 && w != v
    ensures Crc32(prefix + w + suffix) != Crc32(prefix + v + suffix)
  {
    hide *;
    if Crc32(prefix + w + suffix) == Crc32(prefix + v + suffix) {
      ChecksumDeterminesRegister(prefix + w + suffix, prefix + v + suffix);
      BurstReachesRegister(0xFFFFFFFF, prefix, w, v, suffix);
    }
  }

  // ---------------------------------------------------------------------------------------------
  // The table form of section 8 of RFC 1952
  // ---------------------------------------------------------------------------------------------

  function RfcTable(n: bv8): bv32 {
    ReflectedSteps(n as bv32, 8)
  }

  // One iteration of update_crc: c = crc_table[(c ^ buf[n]) & 0xff] ^ (c >> 8).
  function RfcUpdate(c: bv32, b: bv8): bv32 {
    RfcTable(((c ^ (b as bv32)) & 0xFF) as bv8) ^ (c >> 8)
  }

  lemma ReflectedStepsFromReversed(c: bv32, n: nat)
    ensures ReflectedSteps(c, n) == Reversed(Steps(POLYNOMIAL, Reversed(c), n))
  {
    hide *;
    ReversedSteps(Reversed(c), n);
    ReversedTwice(c);
  }

  lemma ReflectedStepsAreLinear(a: bv32, b: bv32, n: nat)
    ensures ReflectedSteps(Xor(a, b), n) == Xor(ReflectedSteps(a, n), ReflectedSteps(b, n))
  {
    hide *;
    ReflectedStepsFromReversed(a, n);
    ReflectedStepsFromReversed(b, n);
    ReflectedStepsFromReversed(Xor(a, b), n);
    ReversedIsLinear(a, b);
    StepsAreLinear(POLYNOMIAL, Reversed(a), Reversed(b), n);
    ReversedIsLinear(Steps(POLYNOMIAL, Reversed(a), n), Steps(POLYNOMIAL, Reversed(b), n));
  }

  lemma ReversedHighPart(c: bv32)
    ensures Reversed(c & 0xFFFFFF00) & 0xFF000000 == 0
    ensures Reversed(Reversed(c & 0xFFFFFF00) << 8) == c >> 8
  {
  }

  lemma HighPartIsShifted(c: bv32)
    ensures ReflectedSteps(c & 0xFFFFFF00, 8) == c >> 8
  {
    hide *;
    ReversedHighPart(c);
    EightStepsShift(POLYNOMIAL, Reversed(c & 0xFFFFFF00));
    ReflectedStepsFromReversed(c & 0xFFFFFF00, 8);
  }

  lemma LowAndHighParts(c: bv32, b: bv8)
    ensures Xor(c, b as bv32)
         == Xor((((c ^ (b as bv32)) & 0xFF) as bv8) as bv32, c & 0xFFFFFF00)
  {
  }

  lemma RfcUpdateIsTableXor(c: bv32, b: bv8)
    ensures RfcUpdate(c, b)
         == Xor(ReflectedSteps((((c ^ (b as bv32)) & 0xFF) as bv8) as bv32, 8), c >> 8)
  {
    hide ReflectedSteps, Xor;
    ExclusiveOrIsXor(RfcTable(((c ^ (b as bv32)) & 0xFF) as bv8), c >> 8, RfcUpdate(c, b));
  }

  /** The byte-at-a-time form printed in RFC 1952 and the bit-serial definition agree. */
  lemma RfcUpdateIsUpdateByte(c: bv32, b: bv8)
    ensures RfcUpdate(c, b) == UpdateByte(c, b)
  {
    hide *;
    var low := (((c ^ (b as bv32)) & 0xFF) as bv8) as bv32;
    var high := c & 0xFFFFFF00;
    UpdateByteIsSteps(c, b);
    LowAndHighParts(c, b);
    ReflectedStepsAreLinear(low, high, 8);
    HighPartIsShifted(c);
    RfcUpdateIsTableXor(c, b);
  }
}
