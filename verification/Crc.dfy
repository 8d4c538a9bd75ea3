/** The CRC-32 of include/crc.hh: a most-significant-bit-first, slicing-by-4 computation over
    bit-reversed bytes, proved equal to the reflected CRC-32 of section 8 of RFC 1952.

    Proofs that combine several words hide the bit-vector bodies and reason by equations about
    Xor, Step and Reversed; the facts about the bits themselves are small lemmas of their own. */
module Crc {

  const POLYNOMIAL: bv32 := 0x04C11DB7
  const REFLECTED_POLYNOMIAL: bv32 := 0xEDB88320

  // ---------------------------------------------------------------------------------------------
  // Reference: section 8 of RFC 1952, one bit at a time
  // ---------------------------------------------------------------------------------------------

  function ReflectedStep(c: bv32): bv32 {
    if c & 1 == 1 then REFLECTED_POLYNOMIAL ^ (c >> 1) else c >> 1
  }

  function ReflectedSteps(c: bv32, n: nat): bv32
    decreases n
  {
    if n == 0 then c else ReflectedSteps(ReflectedStep(c), n - 1)
  }

  function UpdateByte(c: bv32, b: bv8): bv32 {
    ReflectedSteps(c ^ (b as bv32), 8)
  }

  function Update(c: bv32, data: seq<bv8>): bv32
    decreases |data|
  {
    if data == [] then c else Update(UpdateByte(c, data[0]), data[1..])
  }

  function Crc32(data: seq<bv8>): bv32 {
    Update(0xFFFFFFFF, data) ^ 0xFFFFFFFF
  }

  // ---------------------------------------------------------------------------------------------
  // Addition over GF(2)
  // ---------------------------------------------------------------------------------------------

  function Xor(a: bv32, b: bv32): bv32 {
    a ^ b
  }

  lemma XorIsExclusiveOr(a: bv32, b: bv32)
    ensures Xor(a, b) == a ^ b
  {
  }

  lemma ExclusiveOrIsXor(a: bv32, b: bv32, sum: bv32)
    requires sum == a ^ b
    ensures sum == Xor(a, b)
  {
  }

  lemma XorCommutes(a: bv32, b: bv32)
    ensures Xor(a, b) == Xor(b, a)
  {
  }

  lemma XorAssociates(a: bv32, b: bv32, c: bv32)
    ensures Xor(Xor(a, b), c) == Xor(a, Xor(b, c))
  {
  }

  lemma XorExchanges(a: bv32, b: bv32, c: bv32, d: bv32)
    ensures Xor(Xor(a, b), Xor(c, d)) == Xor(Xor(a, c), Xor(b, d))
  {
    hide *;
    calc {
      Xor(Xor(a, b), Xor(c, d));
      { XorAssociates(a, b, Xor(c, d)); XorAssociates(b, c, d); }
      Xor(a, Xor(Xor(b, c), d));
      { XorCommutes(b, c); XorAssociates(c, b, d); }
      Xor(a, Xor(c, Xor(b, d)));
      { XorAssociates(a, c, Xor(b, d)); }
      Xor(Xor(a, c), Xor(b, d));
    }
  }

  // ---------------------------------------------------------------------------------------------
  // The bit step of the source is linear, and shifts while the leading bits are clear
  // ---------------------------------------------------------------------------------------------

  function Step(poly: bv32, c: bv32): bv32 {
    if c & 0x80000000 != 0 then (c << 1) ^ poly else c << 1
  }

  function Steps(poly: bv32, c: bv32, n: nat): bv32
    decreases n
  {
    if n == 0 then c else Steps(poly, Step(poly, c), n - 1)
  }

  // poly when the top bit of c is set, 0 otherwise.
  function TopMask(poly: bv32, c: bv32): bv32 {
    if c & 0x80000000 != 0 then poly else 0
  }

  lemma ExclusiveOrZero(a: bv32)
    ensures a ^ 0 == a
  {
  }

  lemma StepOnSetTopBit(poly: bv32, c: bv32)
    requires c & 0x80000000 != 0
    ensures Step(poly, c) == (c << 1) ^ poly && TopMask(poly, c) == poly
  {
  }

  lemma StepOnClearTopBit(poly: bv32, c: bv32)
    requires c & 0x80000000 == 0
    ensures Step(poly, c) == c << 1 && TopMask(poly, c) == 0
  {
  }

  lemma StepIsXor(poly: bv32, c: bv32)
    ensures Step(poly, c) == Xor(c << 1, TopMask(poly, c))
  {
    hide *;
    if c & 0x80000000 != 0 {
      StepOnSetTopBit(poly, c);
      ExclusiveOrIsXor(c << 1, poly, Step(poly, c));
    } else {
      StepOnClearTopBit(poly, c);
      ExclusiveOrZero(c << 1);
      ExclusiveOrIsXor(c << 1, 0, Step(poly, c));
    }
  }

  lemma ShiftedExclusiveOr(a: bv32, b: bv32)
    ensures (a ^ b) << 1 == (a << 1) ^ (b << 1)
  {
  }

  lemma ShiftIsLinear(a: bv32, b: bv32)
    ensures Xor(a, b) << 1 == Xor(a << 1, b << 1)
  {
    hide *;
    XorIsExclusiveOr(a, b);
    XorIsExclusiveOr(a << 1, b << 1);
    ShiftedExclusiveOr(a, b);
  }

  lemma TopMaskIsLinear(poly: bv32, a: bv32, b: bv32)
    ensures TopMask(poly, Xor(a, b)) == Xor(TopMask(poly, a), TopMask(poly, b))
  {
    hide *;
    XorIsExclusiveOr(a, b);
    TopBitOfExclusiveOr(a, b);
    XorOfMasks(poly);
    TopMaskCases(poly, a);
    TopMaskCases(poly, b);
    TopMaskCases(poly, a ^ b);
  }

  predicate TopBit(c: bv32) {
    c & 0x80000000 != 0
  }

  lemma TopMaskCases(poly: bv32, c: bv32)
    ensures TopMask(poly, c) == if TopBit(c) then poly else 0
  {
  }

  lemma TopBitOfExclusiveOr(a: bv32, b: bv32)
    ensures TopBit(a ^ b) <==> TopBit(a) != TopBit(b)
  {
  }

  lemma XorOfMasks(poly: bv32)
    ensures Xor(poly, poly) == 0 && Xor(poly, 0) == poly && Xor(0, poly) == poly && Xor(0, 0) == 0
  {
  }

  lemma StepIsLinear(poly: bv32, a: bv32, b: bv32)
    ensures Step(poly, Xor(a, b)) == Xor(Step(poly, a), Step(poly, b))
  {
    hide *;
    StepIsXor(poly, a);
    StepIsXor(poly, b);
    StepIsXor(poly, Xor(a, b));
    TopMaskIsLinear(poly, a, b);
    ShiftIsLinear(a, b);
    XorExchanges(a << 1, b << 1, TopMask(poly, a), TopMask(poly, b));
  }

  lemma {:induction false} StepsAreLinear(poly: bv32, a: bv32, b: bv32, n: nat)
    ensures Steps(poly, Xor(a, b), n) == Xor(Steps(poly, a, n), Steps(poly, b, n))
    decreases n
  {
    hide Step, Xor;
    if n > 0 {
      StepIsLinear(poly, a, b);
      StepsAreLinear(poly, Step(poly, a), Step(poly, b), n - 1);
    }
  }

  lemma {:induction false} StepsCompose(poly: bv32, c: bv32, m: nat, n: nat)
    ensures Steps(poly, c, m + n) == Steps(poly, Steps(poly, c, m), n)
    decreases m
  {
    hide Step;
    if m > 0 {
      StepsCompose(poly, Step(poly, c), m - 1, n);
    }
  }

  lemma TwoStepsShift(poly: bv32, c: bv32)
    requires c & 0xC0000000 == 0
    ensures Steps(poly, c, 2) == c << 2
  {
    assert Step(poly, c) == c << 1;
    assert Step(poly, c << 1) == c << 2;
    assert Steps(poly, c, 2) == Steps(poly, c << 1, 1);
  }

  lemma FourStepsShift(poly: bv32, c: bv32)
    requires c & 0xF0000000 == 0
    ensures Steps(poly, c, 4) == c << 4
  {
    hide Step, Steps;
    TwoStepsShift(poly, c);
    TwoStepsShift(poly, c << 2);
    StepsCompose(poly, c, 2, 2);
  }

  lemma EightStepsShift(poly: bv32, c: bv32)
    requires c & 0xFF000000 == 0
    ensures Steps(poly, c, 8) == c << 8
  {
    hide Step, Steps;
    FourStepsShift(poly, c);
    FourStepsShift(poly, c << 4);
    StepsCompose(poly, c, 4, 4);
  }

  // ---------------------------------------------------------------------------------------------
  // Bit reversal turns the step of the source into the reflected step
  // ---------------------------------------------------------------------------------------------

  // Swap halves, then bytes, nibbles, pairs and neighbours.
  function Reversed(v: bv32): bv32 {
    var v1 := (v >> 16) | (v << 16);
    var v2 := ((v1 >> 8) & 0x00FF00FF) | ((v1 & 0x00FF00FF) << 8);
    var v3 := ((v2 >> 4) & 0x0F0F0F0F) | ((v2 & 0x0F0F0F0F) << 4);
    var v4 := ((v3 >> 2) & 0x33333333) | ((v3 & 0x33333333) << 2);
    ((v4 >> 1) & 0x55555555) | ((v4 & 0x55555555) << 1)
  }

  lemma ReversedBit(v: bv32, i: bv32)
    requires i < 32
    ensures (Reversed(v) >> i) & 1 == (v >> (31 - i)) & 1
  {
  }

  lemma ReversedTwice(v: bv32)
    ensures Reversed(Reversed(v)) == v
  {
  }

  // The loop of rbit32 with n iterations to go.
  function RbitLoop(value: bv32, result: bv32, n: nat): bv32
    decreases n
  {
    if n == 0 then result else RbitLoop(value >> 1, (result << 1) | (value & 1), n - 1)
  }

  function ReversedNibble(v: bv32): bv32 {
    ((v & 1) << 3) | ((v & 2) << 1) | ((v & 4) >> 1) | ((v & 8) >> 3)
  }

  function ReversedByte(v: bv32): bv32 {
    (ReversedNibble(v) << 4) | ReversedNibble(v >> 4)
  }

  lemma RbitFourIterations(v: bv32, r: bv32, n: nat)
    ensures RbitLoop(v, r, n + 4) == RbitLoop(v >> 4, (r << 4) | ReversedNibble(v), n)
  {
    var r1, r2, r3 := (r << 1) | (v & 1), (r << 2) | ((v & 1) << 1) | ((v & 2) >> 1),
      (r << 3) | ((v & 1) << 2) | (v & 2) | ((v & 4) >> 2);
    assert RbitLoop(v, r, n + 4) == RbitLoop(v >> 1, r1, n + 3);
    assert RbitLoop(v >> 1, r1, n + 3) == RbitLoop(v >> 2, r2, n + 2);
    assert RbitLoop(v >> 2, r2, n + 2) == RbitLoop(v >> 3, r3, n + 1);
  }

  lemma NibblesMakeByte(v: bv32, r: bv32)
    ensures (((r << 4) | ReversedNibble(v)) << 4) | ReversedNibble(v >> 4) == (r << 8) | ReversedByte(v)
    ensures (v >> 4) >> 4 == v >> 8
  {
  }

  lemma RbitEightIterations(v: bv32, r: bv32, n: nat)
    ensures RbitLoop(v, r, n + 8) == RbitLoop(v >> 8, (r << 8) | ReversedByte(v), n)
  {
    hide *;
    RbitFourIterations(v, r, n + 4);
    RbitFourIterations(v >> 4, (r << 4) | ReversedNibble(v), n);
    NibblesMakeByte(v, r);
  }

  function ReversedHalf(v: bv32): bv32 {
    (ReversedByte(v) << 8) | ReversedByte(v >> 8)
  }

  lemma BytesMakeHalf(v: bv32, r: bv32)
    ensures (((r << 8) | ReversedByte(v)) << 8) | ReversedByte(v >> 8) == (r << 16) | ReversedHalf(v)
    ensures (v >> 8) >> 8 == v >> 16
  {
    hide ReversedByte;
  }

  lemma RbitSixteenIterations(v: bv32, r: bv32, n: nat)
    ensures RbitLoop(v, r, n + 16) == RbitLoop(v >> 16, (r << 16) | ReversedHalf(v), n)
  {
    hide *;
    RbitEightIterations(v, r, n + 8);
    RbitEightIterations(v >> 8, (r << 8) | ReversedByte(v), n);
    BytesMakeHalf(v, r);
  }

  // After 32 iterations nothing of the initial result is left.
  lemma HalvesReverse(v: bv32, r: bv32)
    ensures (((r << 16) | ReversedHalf(v)) << 16) | ReversedHalf(v >> 16) == Reversed(v)
  {
  }

  lemma RbitDone(v: bv32, r: bv32)
    ensures RbitLoop(v, r, 0) == r
  {
  }

  lemma RbitHalves(v: bv32, r: bv32)
    ensures RbitLoop(v, r, 32) == (((r << 16) | ReversedHalf(v)) << 16) | ReversedHalf(v >> 16)
  {
    hide *;
    var v', r' := v >> 16, (r << 16) | ReversedHalf(v);
    RbitSixteenIterations(v, r, 16);
    RbitSixteenIterations(v', r', 0);
    RbitDone(v' >> 16, (r' << 16) | ReversedHalf(v'));
  }

  lemma RbitReverses(v: bv32, r: bv32)
    ensures RbitLoop(v, r, 32) == Reversed(v)
  {
    hide *;
    RbitHalves(v, r);
    HalvesReverse(v, r);
  }

  method Rbit32(value: bv32) returns (result: bv32)
    ensures result == Reversed(value)
  {
    RbitReverses(value, 0);
    hide Reversed;
    result := 0;
    var v := value;
    for i := 0 to 32
      invariant RbitLoop(v, result, 32 - i) == RbitLoop(value, 0, 32)
    {
      result := result << 1;
      result := result | (v & 1);
      v := v >> 1;
    }
  }

  lemma ReversedDoubled(c: bv32)
    ensures Reversed(c << 1) == Reversed(c) >> 1
  {
  }

  lemma ReversedTopBit(c: bv32)
    ensures c & 0x80000000 != 0 <==> Reversed(c) & 1 == 1
  {
  }

  lemma ReversedReducedDouble(c: bv32)
    ensures Reversed((c << 1) ^ POLYNOMIAL) == REFLECTED_POLYNOMIAL ^ (Reversed(c) >> 1)
  {
  }

  lemma ReflectedStepOnSetLowBit(c: bv32)
    requires c & 1 == 1
    ensures ReflectedStep(c) == REFLECTED_POLYNOMIAL ^ (c >> 1)
  {
  }

  lemma ReflectedStepOnClearLowBit(c: bv32)
    requires c & 1 != 1
    ensures ReflectedStep(c) == c >> 1
  {
  }

  lemma ReversedStepOnSetTopBit(c: bv32)
    requires c & 0x80000000 != 0
    ensures Reversed(Step(POLYNOMIAL, c)) == ReflectedStep(Reversed(c))
  {
    hide *;
    ReversedTopBit(c);
    StepOnSetTopBit(POLYNOMIAL, c);
    ReversedReducedDouble(c);
    ReflectedStepOnSetLowBit(Reversed(c));
  }

  lemma ReversedStepOnClearTopBit(c: bv32)
    requires c & 0x80000000 == 0
    ensures Reversed(Step(POLYNOMIAL, c)) == ReflectedStep(Reversed(c))
  {
    hide *;
    ReversedTopBit(c);
    StepOnClearTopBit(POLYNOMIAL, c);
    ReversedDoubled(c);
    ReflectedStepOnClearLowBit(Reversed(c));
  }

  lemma ReversedStep(c: bv32)
    ensures Reversed(Step(POLYNOMIAL, c)) == ReflectedStep(Reversed(c))
  {
    hide *;
    if c & 0x80000000 != 0 {
      ReversedStepOnSetTopBit(c);
    } else {
      ReversedStepOnClearTopBit(c);
    }
  }

  lemma {:induction false} ReversedSteps(c: bv32, n: nat)
    ensures Reversed(Steps(POLYNOMIAL, c, n)) == ReflectedSteps(Reversed(c), n)
    decreases n
  {
    hide Step, ReflectedStep, Reversed;
    if n > 0 {
      ReversedStep(c);
      ReversedSteps(Step(POLYNOMIAL, c), n - 1);
    }
  }

  // ---------------------------------------------------------------------------------------------
  // One byte, most significant bit first, against one byte of the reference
  // ---------------------------------------------------------------------------------------------

  function ReversedBits(b: bv8): bv8 {
    (Reversed(b as bv32) >> 24) as bv8
  }

  // Bit i of a byte, least significant first.
  predicate HasBit(b: bv8, i: nat)
    requires i < 8
  {
    b & (1 << i) != 0
  }

  lemma ReversedBitsSwap(b: bv8, i: nat)
    requires i < 8
    ensures HasBit(ReversedBits(b), i) == HasBit(b, 7 - i)
  {
  }

  method Rbit8(value: bv8) returns (result: bv8)
    ensures forall i: nat | i < 8 :: HasBit(result, i) == HasBit(value, 7 - i)
    ensures result == ReversedBits(value)
  {
    hide ReversedBits, HasBit;
    forall i: nat | i < 8 ensures HasBit(ReversedBits(value), i) == HasBit(value, 7 - i) {
      ReversedBitsSwap(value, i);
    }
    ReversedBitsIsTop(value);
    var r := Rbit32(value as bv32);
    result := (r >> 24) as bv8;
  }

  lemma ReversedBitsIsTop(b: bv8)
    ensures ReversedBits(b) == (Reversed(b as bv32) >> 24) as bv8
  {
    hide Reversed;
  }

  // The bit-reversed byte in the top eight bits of a word.
  function Top(b: bv8): bv32 {
    (ReversedBits(b) as bv32) << 24
  }

  function UpdateTop(c: bv32, b: bv8): bv32 {
    Steps(POLYNOMIAL, Xor(c, Top(b)), 8)
  }

  lemma ReversedTop(b: bv8)
    ensures Reversed(Top(b)) == b as bv32
  {
  }

  lemma ReversedExclusiveOr(a: bv32, b: bv32)
    ensures Reversed(a ^ b) == Reversed(a) ^ Reversed(b)
  {
  }

  lemma ReversedIsLinear(a: bv32, b: bv32)
    ensures Reversed(Xor(a, b)) == Xor(Reversed(a), Reversed(b))
  {
    hide *;
    XorIsExclusiveOr(a, b);
    XorIsExclusiveOr(Reversed(a), Reversed(b));
    ReversedExclusiveOr(a, b);
  }

  lemma UpdateByteIsSteps(c: bv32, b: bv8)
    ensures UpdateByte(c, b) == ReflectedSteps(Xor(c, b as bv32), 8)
  {
    hide Xor, ReflectedSteps;
    XorIsExclusiveOr(c, b as bv32);
  }

  lemma ReversedUpdateTop(c: bv32, b: bv8)
    ensures Reversed(UpdateTop(c, b)) == UpdateByte(Reversed(c), b)
  {
    hide *;
    UpdateTopIsSteps(c, b);
    ReversedSteps(Xor(c, Top(b)), 8);
    ReversedIsLinear(c, Top(b));
    ReversedTop(b);
    UpdateByteIsSteps(Reversed(c), b);
  }

  lemma UpdateTopIsSteps(c: bv32, b: bv8)
    ensures UpdateTop(c, b) == Steps(POLYNOMIAL, Xor(c, Top(b)), 8)
  {
    hide Xor, Steps, Top;
  }

  // ---------------------------------------------------------------------------------------------
  // The tables
  // ---------------------------------------------------------------------------------------------

  function TableEntry(poly: bv32, i: nat, j: bv8): bv32 {
    Steps(poly, (j as bv32) << 24, 8 * i + 8)
  }

  ghost predicate IsTable(poly: bv32, table: array2<bv32>)
    reads table
  {
    && table.Length0 == 4 && table.Length1 == 256
    && forall i: nat, j: bv8 | i < 4 :: table[i, j as int] == TableEntry(poly, i, j)
  }

  method EightSteps(poly: bv32, c: bv32) returns (crc: bv32)
    ensures crc == Steps(poly, c, 8)
  {
    crc := c;
    for k := 0 to 8
      invariant Steps(poly, crc, 8 - k) == Steps(poly, c, 8)
    {
      assert Steps(poly, crc, 8 - k) == Steps(poly, Step(poly, crc), 7 - k);
      crc := if crc & 0x80000000 != 0 then (crc << 1) ^ poly else crc << 1;
    }
  }

  lemma FirstTable(poly: bv32, j: bv8)
    ensures TableEntry(poly, 0, j) == Steps(poly, (j as bv32) << 24, 8)
  {
    hide Steps;
  }

  lemma NextTable(poly: bv32, i: nat, j: bv8)
    ensures Steps(poly, TableEntry(poly, i, j), 8) == TableEntry(poly, i + 1, j)
  {
    hide Steps;
    StepsCompose(poly, (j as bv32) << 24, 8 * i + 8, 8);
  }

  method Crc32Tablex4(poly: bv32) returns (table: array2<bv32>)
    ensures IsTable(poly, table)
  {
    hide Step, Steps, TableEntry;
    table := new bv32[4, 256];
    for i := 0 to 4
      invariant forall i': nat, j: bv8 | i' < i :: table[i', j as int] == TableEntry(poly, i', j)
    {
      for j := 0 to 256
        invariant forall i': nat, j': bv8 | i' < i :: table[i', j' as int] == TableEntry(poly, i', j')
        invariant forall j': bv8 | j' as int < j :: table[i, j' as int] == TableEntry(poly, i, j')
      {
        var column := j as bv8;
        var crc := if i == 0 then (column as bv32) << 24 else table[i - 1, j];
        if i == 0 {
          FirstTable(poly, column);
        } else {
          NextTable(poly, i - 1, column);
        }
        crc := EightSteps(poly, crc);
        table[i, j] := crc;
      }
    }
  }

  // ---------------------------------------------------------------------------------------------
  // One four-table lookup is 32 bit steps
  // ---------------------------------------------------------------------------------------------

  function ByteAt(c: bv32, k: nat): bv8
    requires k < 4
  {
    if k == 0 then (c & 0xFF) as bv8
    else if k == 1 then ((c >> 8) & 0xFF) as bv8
    else if k == 2 then ((c >> 16) & 0xFF) as bv8
    else ((c >> 24) & 0xFF) as bv8
  }

  function Lookup(poly: bv32, c: bv32): bv32 {
    Xor(Xor(Xor(TableEntry(poly, 3, ByteAt(c, 3)), TableEntry(poly, 2, ByteAt(c, 2))),
            TableEntry(poly, 1, ByteAt(c, 1))), TableEntry(poly, 0, ByteAt(c, 0)))
  }

  // A byte placed k bytes below the top reaches the top after 8 * k steps.
  lemma SettleByte(poly: bv32, low: bv32, high: bv32, n: nat)
    requires low & 0xFF000000 == 0 && high == low << 8
    ensures Steps(poly, low, n + 8) == Steps(poly, high, n)
  {
    hide Steps, Step;
    EightStepsShift(poly, low);
    StepsCompose(poly, low, 8, n);
  }

  lemma EntryIsSteps(poly: bv32, j: bv8)
    ensures TableEntry(poly, 3, j) == Steps(poly, (j as bv32) << 24, 32)
    ensures TableEntry(poly, 2, j) == Steps(poly, (j as bv32) << 16, 32)
    ensures TableEntry(poly, 1, j) == Steps(poly, (j as bv32) << 8, 32)
    ensures TableEntry(poly, 0, j) == Steps(poly, j as bv32, 32)
  {
    hide Steps, Step;
    SettleByte(poly, (j as bv32) << 16, (j as bv32) << 24, 24);
    SettleByte(poly, (j as bv32) << 8, (j as bv32) << 16, 24);
    SettleByte(poly, (j as bv32) << 8, (j as bv32) << 16, 16);
    SettleByte(poly, (j as bv32) << 16, (j as bv32) << 24, 16);
    SettleByte(poly, j as bv32, (j as bv32) << 8, 24);
    SettleByte(poly, (j as bv32) << 16, (j as bv32) << 24, 8);
  }

  lemma BytesOfWord(c: bv32)
    ensures c == Xor(Xor(Xor((ByteAt(c, 3) as bv32) << 24, (ByteAt(c, 2) as bv32) << 16),
                         (ByteAt(c, 1) as bv32) << 8), ByteAt(c, 0) as bv32)
  {
  }

  lemma LookupIsSteps(poly: bv32, c: bv32)
    ensures Lookup(poly, c) == Steps(poly, c, 32)
  {
    hide Step, Steps, Xor, TableEntry, ByteAt;
    var b3, b2, b1, b0 := (ByteAt(c, 3) as bv32) << 24, (ByteAt(c, 2) as bv32) << 16,
      (ByteAt(c, 1) as bv32) << 8, ByteAt(c, 0) as bv32;
    EntryIsSteps(poly, ByteAt(c, 3));
    EntryIsSteps(poly, ByteAt(c, 2));
    EntryIsSteps(poly, ByteAt(c, 1));
    EntryIsSteps(poly, ByteAt(c, 0));
    BytesOfWord(c);
    StepsAreLinear(poly, Xor(Xor(b3, b2), b1), b0, 32);
    StepsAreLinear(poly, Xor(b3, b2), b1, 32);
    StepsAreLinear(poly, b3, b2, 32);
  }

  // The reversed bytes r1..r4 of an input word, the first on top, and what lies below each of them.
  function Word(r1: bv8, r2: bv8, r3: bv8, r4: bv8): bv32 {
    Xor((r1 as bv32) << 24, BelowFirst(r2, r3, r4))
  }

  function BelowFirst(r2: bv8, r3: bv8, r4: bv8): bv32 {
    Xor((r2 as bv32) << 16, Xor((r3 as bv32) << 8, r4 as bv32))
  }

  function BelowSecond(r3: bv8, r4: bv8): bv32 {
    Xor((r3 as bv32) << 16, (r4 as bv32) << 8)
  }

  function BelowThird(r4: bv8): bv32 {
    (r4 as bv32) << 16
  }

  lemma RemainderAfterFirst(r2: bv8, r3: bv8, r4: bv8)
    ensures BelowFirst(r2, r3, r4) & 0xFF000000 == 0
    ensures BelowFirst(r2, r3, r4) << 8 == Xor((r2 as bv32) << 24, BelowSecond(r3, r4))
  {
  }

  lemma RemainderAfterSecond(r3: bv8, r4: bv8)
    ensures BelowSecond(r3, r4) & 0xFF000000 == 0
    ensures BelowSecond(r3, r4) << 8 == Xor((r3 as bv32) << 24, BelowThird(r4))
  {
  }

  lemma RemainderAfterThird(r4: bv8)
    ensures BelowThird(r4) & 0xFF000000 == 0
    ensures BelowThird(r4) << 8 == (r4 as bv32) << 24
  {
  }

  function UpdateTops(c: bv32, b1: bv8, b2: bv8, b3: bv8, b4: bv8): bv32 {
    UpdateTop(UpdateTop(UpdateTop(UpdateTop(c, b1), b2), b3), b4)
  }

  // Feeding the top byte and keeping the rest one byte higher.
  lemma FeedByte(c: bv32, b: bv8, below: bv32, n: nat)
    requires below & 0xFF000000 == 0
    ensures Steps(POLYNOMIAL, Xor(c, Xor(Top(b), below)), n + 8)
         == Steps(POLYNOMIAL, Xor(UpdateTop(c, b), below << 8), n)
  {
    hide Step, Steps, Xor, Top;
    XorAssociates(c, Top(b), below);
    StepsCompose(POLYNOMIAL, Xor(Xor(c, Top(b)), below), 8, n);
    StepsAreLinear(POLYNOMIAL, Xor(c, Top(b)), below, 8);
    EightStepsShift(POLYNOMIAL, below);
  }

  lemma WordFeedsItsBytes(c: bv32, b1: bv8, b2: bv8, b3: bv8, b4: bv8)
    ensures Steps(POLYNOMIAL, Xor(c, WordOf(b1, b2, b3, b4)), 32) == UpdateTops(c, b1, b2, b3, b4)
  {
    hide Xor, Step, Steps, ReversedBits, BelowFirst, BelowSecond, BelowThird;
    var r2, r3, r4 := ReversedBits(b2), ReversedBits(b3), ReversedBits(b4);
    RemainderAfterFirst(r2, r3, r4);
    RemainderAfterSecond(r3, r4);
    RemainderAfterThird(r4);
    FeedByte(c, b1, BelowFirst(r2, r3, r4), 24);
    var c1 := UpdateTop(c, b1);
    FeedByte(c1, b2, BelowSecond(r3, r4), 16);
    var c2 := UpdateTop(c1, b2);
    FeedByte(c2, b3, BelowThird(r4), 8);
  }

  function WordOf(b1: bv8, b2: bv8, b3: bv8, b4: bv8): bv32 {
    Word(ReversedBits(b1), ReversedBits(b2), ReversedBits(b3), ReversedBits(b4))
  }

  lemma ReversedWordUpdate(c: bv32, b1: bv8, b2: bv8, b3: bv8, b4: bv8)
    ensures Reversed(Steps(POLYNOMIAL, Xor(c, WordOf(b1, b2, b3, b4)), 32))
         == UpdateByte(UpdateByte(UpdateByte(UpdateByte(Reversed(c), b1), b2), b3), b4)
  {
    hide Xor, Steps, WordOf, UpdateTop, UpdateByte, Reversed;
    WordFeedsItsBytes(c, b1, b2, b3, b4);
    ReversedUpdateTop(c, b1);
    ReversedUpdateTop(UpdateTop(c, b1), b2);
    ReversedUpdateTop(UpdateTop(UpdateTop(c, b1), b2), b3);
    ReversedUpdateTop(UpdateTop(UpdateTop(UpdateTop(c, b1), b2), b3), b4);
  }

  // ---------------------------------------------------------------------------------------------
  // The CRC of the source
  // ---------------------------------------------------------------------------------------------

  lemma {:induction false} UpdateAppends(c: bv32, a: seq<bv8>, b: seq<bv8>)
    ensures Update(c, a + b) == Update(Update(c, a), b)
    decreases |a|
  {
    hide UpdateByte;
    if a == [] {
      assert a + b == b;
    } else {
      assert (a + b)[0] == a[0] && (a + b)[1..] == a[1..] + b;
      UpdateAppends(UpdateByte(c, a[0]), a[1..], b);
    }
  }

  lemma UpdateFour(c: bv32, b1: bv8, b2: bv8, b3: bv8, b4: bv8)
    ensures Update(c, [b1, b2, b3, b4]) == UpdateByte(UpdateByte(UpdateByte(UpdateByte(c, b1), b2), b3), b4)
  {
    hide UpdateByte;
    var c1 := UpdateByte(c, b1);
    var c2 := UpdateByte(c1, b2);
    assert [b1, b2, b3, b4][1..] == [b2, b3, b4];
    assert [b2, b3, b4][1..] == [b3, b4];
    assert [b3, b4][1..] == [b4];
    assert [b4][1..] == [];
    assert Update(c2, [b3, b4]) == Update(UpdateByte(c2, b3), [b4]);
    assert Update(c, [b1, b2, b3, b4]) == Update(c1, [b2, b3, b4]) == Update(c2, [b3, b4]);
  }

  datatype CrcResult = Checksum(value: bv32) | InvalidLength

  lemma ReversedOnes()
    ensures Reversed(0xFFFFFFFF) == 0xFFFFFFFF
  {
  }

  lemma UpdateNothing(c: bv32)
    ensures Update(c, []) == c
  {
  }

  lemma Crc32IsUpdate(data: seq<bv8>)
    ensures Crc32(data) == Update(0xFFFFFFFF, data) ^ 0xFFFFFFFF
  {
    hide Update;
  }

  lemma WordOfIsWord(b1: bv8, b2: bv8, b3: bv8, b4: bv8)
    ensures WordOf(b1, b2, b3, b4)
         == Word(ReversedBits(b1), ReversedBits(b2), ReversedBits(b3), ReversedBits(b4))
  {
    hide Word;
  }

  method MixWord(crc: bv32, byte1: bv8, byte2: bv8, byte3: bv8, byte4: bv8) returns (mixed: bv32)
    ensures mixed == Xor(crc, Word(byte1, byte2, byte3, byte4))
  {
    mixed := crc ^ (((byte1 as bv32) << 24) ^ ((byte2 as bv32) << 16) ^ ((byte3 as bv32) << 8) ^ (byte4 as bv32));
  }

  method LookupWord(table: array2<bv32>, crc: bv32) returns (next: bv32)
    requires IsTable(POLYNOMIAL, table)
    ensures next == Lookup(POLYNOMIAL, crc)
  {
    hide TableEntry;
    next := table[3, ((crc >> 24) & 0xFF) as bv8 as int] ^ table[2, ((crc >> 16) & 0xFF) as bv8 as int]
      ^ table[1, ((crc >> 8) & 0xFF) as bv8 as int] ^ table[0, (crc & 0xFF) as bv8 as int];
  }

  // The loop body of crc32.
  method UpdateWord(table: array2<bv32>, crc: bv32, d1: bv8, d2: bv8, d3: bv8, d4: bv8)
    returns (next: bv32)
    requires IsTable(POLYNOMIAL, table)
    ensures Reversed(next) == Update(Reversed(crc), [d1, d2, d3, d4])
  {
    hide *;
    var byte1 := Rbit8(d1);
    var byte2 := Rbit8(d2);
    var byte3 := Rbit8(d3);
    var byte4 := Rbit8(d4);
    var mixed := MixWord(crc, byte1, byte2, byte3, byte4);
    next := LookupWord(table, mixed);
    WordOfIsWord(d1, d2, d3, d4);
    LookupIsSteps(POLYNOMIAL, mixed);
    ReversedWordUpdate(crc, d1, d2, d3, d4);
    UpdateFour(Reversed(crc), d1, d2, d3, d4);
  }

  lemma UpdateNextWord(c: bv32, data: seq<bv8>, i: nat)
    requires i + 4 <= |data|
    ensures Update(c, data[..i + 4])
         == Update(Update(c, data[..i]), [data[i], data[i + 1], data[i + 2], data[i + 3]])
  {
    hide Update;
    assert data[i..i + 4] == [data[i], data[i + 1], data[i + 2], data[i + 3]];
    assert data[..i + 4] == data[..i] + data[i..i + 4];
    UpdateAppends(c, data[..i], data[i..i + 4]);
  }

  // The loop of crc32.
  method UpdateWords(table: array2<bv32>, data: seq<bv8>) returns (crc: bv32)
    requires IsTable(POLYNOMIAL, table) && |data| % 4 == 0
    ensures Reversed(crc) == Update(0xFFFFFFFF, data)
  {
    hide *;
    crc := 0xFFFFFFFF;
    ReversedOnes();
    UpdateNothing(crc);
    var i := 0;
    while i < |data|
      invariant 0 <= i <= |data| && i % 4 == 0
      invariant Reversed(crc) == Update(0xFFFFFFFF, data[..i])
    {
      UpdateNextWord(0xFFFFFFFF, data, i);
      crc := UpdateWord(table, crc, data[i], data[i + 1], data[i + 2], data[i + 3]);
      i := i + 4;
    }
    assert data[..i] == data;
  }

  method Crc32Sliced(data: seq<bv8>) returns (result: CrcResult)
    ensures result == if |data| % 4 == 0 then Checksum(Crc32(data)) else InvalidLength
  {
    if |data| % 4 != 0 {
      return InvalidLength;
    }
    hide *;
    var table := Crc32Tablex4(POLYNOMIAL);
    var crc := UpdateWords(table, data);
    crc := Rbit32(crc);
    result := Checksum(crc ^ 0xFFFFFFFF);
    Crc32IsUpdate(data);
  }
}
