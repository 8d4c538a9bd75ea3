/** The CRC-32 as a linear code: which differences between two messages the checksum cannot see, and
    which four-byte differences across the end of the message these are. */
module CrcErrors {
  import opened Crc
  import opened CrcDetection

  // ---------------------------------------------------------------------------------------------
  // Checksums of different messages differ by the checksum of the difference
  // ---------------------------------------------------------------------------------------------

  function Difference(a: seq<bv8>, b: seq<bv8>): (d: seq<bv8>)
    requires |a| == |b|
    ensures |d| == |a| && forall i | 0 <= i < |a| :: d[i] == a[i] ^ b[i]
  {
    seq(|a|, i requires 0 <= i < |a| => a[i] ^ b[i])
  }

  lemma BytesExclusiveOr(c: bv32, d: bv32, a: bv8, b: bv8)
    ensures Xor(c ^ (a as bv32), d ^ (b as bv32)) == Xor(c, d) ^ ((a ^ b) as bv32)
  {
  }

  lemma UpdateByteUnfolds(c: bv32, b: bv8)
    ensures UpdateByte(c, b) == ReflectedSteps(c ^ (b as bv32), 8)
  {
    hide ReflectedSteps;
  }

  lemma UpdateByteIsLinear(c: bv32, d: bv32, a: bv8, b: bv8)
    ensures Xor(UpdateByte(c, a), UpdateByte(d, b)) == UpdateByte(Xor(c, d), a ^ b)
  {
    hide *;
    UpdateByteUnfolds(c, a);
    UpdateByteUnfolds(d, b);
    UpdateByteUnfolds(Xor(c, d), a ^ b);
    BytesExclusiveOr(c, d, a, b);
    ReflectedStepsAreLinear(c ^ (a as bv32), d ^ (b as bv32), 8);
  }

  lemma {:induction false} UpdateIsLinear(c: bv32, d: bv32, a: seq<bv8>, b: seq<bv8>)
    requires |a| == |b|
    ensures Xor(Update(c, a), Update(d, b)) == Update(Xor(c, d), Difference(a, b))
    decreases |a|
  {
    hide UpdateByte, Xor;
    if a != [] {
      UpdateByteIsLinear(c, d, a[0], b[0]);
      assert Difference(a, b)[1..] == Difference(a[1..], b[1..]);
      UpdateIsLinear(UpdateByte(c, a[0]), UpdateByte(d, b[0]), a[1..], b[1..]);
    }
  }

  lemma ComplementsCancel(a: bv32, b: bv32)
    ensures Xor(a ^ 0xFFFFFFFF, b ^ 0xFFFFFFFF) == Xor(a, b)
  {
    hide *;
    XorIsExclusiveOr(a, 0xFFFFFFFF);
    XorIsExclusiveOr(b, 0xFFFFFFFF);
    XorExchanges(a, 0xFFFFFFFF, b, 0xFFFFFFFF);
    XorWithItself(0xFFFFFFFF);
    XorWithZero(Xor(a, b));
  }

  lemma XorWithItself(a: bv32)
    ensures Xor(a, a) == 0
  {
  }

  lemma XorWithZero(a: bv32)
    ensures Xor(a, 0) == a && Xor(0, a) == a
  {
  }

  /** The checksums of two messages of equal length differ by the register that their difference alone
      would leave. */
  lemma ChecksumsDifferByDifference(a: seq<bv8>, b: seq<bv8>)
    requires |a| == |b|
    ensures Xor(Crc32(a), Crc32(b)) == Update(0, Difference(a, b))
  {
    hide Update, Xor;
    ComplementsCancel(Update(0xFFFFFFFF, a), Update(0xFFFFFFFF, b));
    XorWithItself(0xFFFFFFFF);
    UpdateIsLinear(0xFFFFFFFF, 0xFFFFFFFF, a, b);
  }

  lemma ZeroByteChangesNothing()
    ensures UpdateByte(0, 0) == 0
  {
    assert ReflectedStep(0) == 0;
    assert ReflectedSteps(0, 4) == 0;
  }

  lemma {:induction false} LeadingZerosChangeNothing(zeros: seq<bv8>, rest: seq<bv8>)
    requires forall i | 0 <= i < |zeros| :: zeros[i] == 0
    ensures Update(0, zeros + rest) == Update(0, rest)
    decreases |zeros|
  {
    hide UpdateByte;
    if zeros == [] {
      assert zeros + rest == rest;
    } else {
      ZeroByteChangesNothing();
      assert (zeros + rest)[1..] == zeros[1..] + rest;
      LeadingZerosChangeNothing(zeros[1..], rest);
    }
  }

  // ---------------------------------------------------------------------------------------------
  // One to three bytes into a clear register
  // ---------------------------------------------------------------------------------------------

  function Eight(c: bv32): bv32 {
    ReflectedStep(ReflectedStep(ReflectedStep(ReflectedStep(
      ReflectedStep(ReflectedStep(ReflectedStep(ReflectedStep(c))))))))
  }

  lemma EightIsSteps(c: bv32)
    ensures ReflectedSteps(c, 8) == Eight(c)
  {
    hide ReflectedStep;
    var d := ReflectedStep(ReflectedStep(ReflectedStep(ReflectedStep(c))));
    assert ReflectedSteps(c, 8) == ReflectedSteps(ReflectedStep(ReflectedStep(c)), 6)
        == ReflectedSteps(d, 4);
    assert ReflectedSteps(d, 4) == ReflectedSteps(ReflectedStep(ReflectedStep(d)), 2);
  }

  lemma UpdateByteIsEight(c: bv32, b: bv8)
    ensures UpdateByte(c, b) == Eight(Xor(c, b as bv32))
  {
    hide *;
    UpdateByteUnfolds(c, b);
    XorIsExclusiveOr(c, b as bv32);
    EightIsSteps(c ^ (b as bv32));
  }

  lemma UpdateUnfolds(c: bv32, data: seq<bv8>)
    requires data != []
    ensures Update(c, data) == Update(Eight(Xor(c, data[0] as bv32)), data[1..])
  {
    hide UpdateByte, Eight, Xor;
    UpdateByteIsEight(c, data[0]);
  }

  lemma UpdateOne(a: bv8)
    ensures Update(0, [a]) == Eight(a as bv32)
  {
    hide Eight, Update, Xor;
    XorWithZero(a as bv32);
    UpdateUnfolds(0, [a]);
    assert [a][1..] == [];
    UpdateNothing(Eight(a as bv32));
  }

  lemma UpdateTwo(a: bv8, b: bv8)
    ensures Update(0, [a, b]) == Eight(Xor(Eight(a as bv32), b as bv32))
  {
    hide Eight, Update, Xor;
    XorWithZero(a as bv32);
    UpdateUnfolds(0, [a, b]);
    UpdateUnfolds(Eight(a as bv32), [b]);
    assert [a, b][1..] == [b] && [b][1..] == [];
    UpdateNothing(Eight(Xor(Eight(a as bv32), b as bv32)));
  }

  lemma UpdateThree(a: bv8, b: bv8, c: bv8)
    ensures Update(0, [a, b, c]) == Eight(Xor(Eight(Xor(Eight(a as bv32), b as bv32)), c as bv32))
  {
    hide Eight, Update, Xor;
    XorWithZero(a as bv32);
    var r1 := Eight(a as bv32);
    var r2 := Eight(Xor(r1, b as bv32));
    UpdateUnfolds(0, [a, b, c]);
    UpdateUnfolds(r1, [b, c]);
    UpdateUnfolds(r2, [c]);
    assert [a, b, c][1..] == [b, c] && [b, c][1..] == [c] && [c][1..] == [];
    UpdateNothing(Eight(Xor(r2, c as bv32)));
  }

  // Four bytes as a word, most significant first.
  function Joined(b0: bv8, b1: bv8, b2: bv8, b3: bv8): bv32 {
    ((b0 as bv32) << 24) | ((b1 as bv32) << 16) | ((b2 as bv32) << 8) | (b3 as bv32)
  }

  lemma OneByteKernel(a: bv8, b: bv8, c: bv8, d: bv8)
    ensures Eight(a as bv32) == Joined(b, c, d, 0) <==> a == b == c == d == 0
  {
  }

  lemma TwoByteKernel(a: bv8, b: bv8, c: bv8, d: bv8)
    ensures Eight(Xor(Eight(a as bv32), b as bv32)) == Joined(c, d, 0, 0)
            <==> a == b == c == d == 0 || (a == 0x61 && b == 0xD8 && c == 0xF4 && d == 0xEE)
  {
  }

  function ReflectedUnstep(c: bv32): bv32 {
    if c & 0x80000000 != 0 then ((c ^ REFLECTED_POLYNOMIAL) << 1) | 1 else c << 1
  }

  function Uneight(c: bv32): bv32 {
    ReflectedUnstep(ReflectedUnstep(ReflectedUnstep(ReflectedUnstep(
      ReflectedUnstep(ReflectedUnstep(ReflectedUnstep(ReflectedUnstep(c))))))))
  }

  lemma UnstepInverts(c: bv32)
    ensures ReflectedUnstep(ReflectedStep(c)) == c
  {
  }

  lemma UneightInverts(c: bv32)
    ensures Uneight(Eight(c)) == c
  {
    hide ReflectedStep, ReflectedUnstep;
    var c1 := ReflectedStep(c);
    var c2 := ReflectedStep(c1);
    var c3 := ReflectedStep(c2);
    var c4 := ReflectedStep(c3);
    var c5 := ReflectedStep(c4);
    var c6 := ReflectedStep(c5);
    var c7 := ReflectedStep(c6);
    UnstepInverts(c); UnstepInverts(c1); UnstepInverts(c2); UnstepInverts(c3);
    UnstepInverts(c4); UnstepInverts(c5); UnstepInverts(c6); UnstepInverts(c7);
  }

  function Up(y: bv32): bv32 {
    y << 8
  }

  predicate IsLow(y: bv32) {
    y & 0xFF000000 == 0
  }

  function High(y: bv32): bv32 {
    y & 0xFFFFFF00
  }

  function Down(y: bv32): bv32 {
    y >> 8
  }

  lemma UpAndDown(y: bv32)
    requires IsLow(y)
    ensures High(Up(y)) == Up(y) && Down(Up(y)) == y
  {
  }

  lemma EightOfHigh(y: bv32)
    ensures Eight(High(y)) == Down(y)
  {
    hide Eight, ReflectedSteps;
    HighPartIsShifted(y);
    EightIsSteps(High(y));
  }

  // Below its top byte a word is eight steps away from itself moved up.
  lemma EightOfUp(y: bv32)
    requires IsLow(y)
    ensures Eight(Up(y)) == y
  {
    hide *;
    UpAndDown(y);
    EightOfHigh(Up(y));
  }

  lemma EightTakesNext(c: bv32, y: bv32)
    requires IsLow(y)
    ensures Eight(Xor(c, Up(y))) == Xor(Eight(c), y)
  {
    hide *;
    EightOfUp(y);
    EightIsSteps(c);
    EightIsSteps(Up(y));
    EightIsSteps(Xor(c, Up(y)));
    ReflectedStepsAreLinear(c, Up(y), 8);
  }

  // The bytes in the order the register takes them.
  function Taken(a: bv8, b: bv8, c: bv8): bv32 {
    Xor(Xor(a as bv32, Up(b as bv32)), Up(Up(c as bv32)))
  }

  lemma ByteIsLow(b: bv8)
    ensures IsLow(b as bv32) && IsLow(Up(b as bv32))
  {
  }

  lemma ThreeWordsTaken(a: bv32, b: bv32, c: bv32)
    requires IsLow(b) && IsLow(c) && IsLow(Up(c))
    ensures Eight(Xor(Eight(Xor(Eight(a), b)), c)) == Eight(Eight(Eight(Xor(Xor(a, Up(b)), Up(Up(c))))))
  {
    hide *;
    var x := Xor(a, Up(b));
    EightTakesNext(a, b);
    EightTakesNext(x, Up(c));
    EightTakesNext(Eight(x), c);
  }

  lemma ThreeBytesTaken(a: bv8, b: bv8, c: bv8)
    ensures Eight(Xor(Eight(Xor(Eight(a as bv32), b as bv32)), c as bv32)) == Eight(Eight(Eight(Taken(a, b, c))))
  {
    hide Eight, Xor, Up, IsLow;
    ByteIsLow(b);
    ByteIsLow(c);
    ThreeWordsTaken(a as bv32, b as bv32, c as bv32);
  }

  lemma TopByteComesFromAbove(d: bv8)
    requires Uneight(Uneight(Uneight((d as bv32) << 24))) & 0xFF000000 == 0
    ensures d == 0
  {
  }

  lemma TakenIsLow(a: bv8, b: bv8, c: bv8)
    ensures Taken(a, b, c) & 0xFF000000 == 0
    ensures Taken(a, b, c) == 0 ==> a == b == c == 0
  {
  }

  lemma ZerosStayZero()
    ensures Eight(0) == 0 && Uneight(0) == 0 && Taken(0, 0, 0) == 0 && (0 as bv32) << 24 == 0
  {
  }

  lemma JoinedTop(d: bv8)
    ensures Joined(d, 0, 0, 0) == (d as bv32) << 24
  {
  }

  lemma ThreeByteKernel(a: bv8, b: bv8, c: bv8, d: bv8)
    ensures Eight(Xor(Eight(Xor(Eight(a as bv32), b as bv32)), c as bv32)) == Joined(d, 0, 0, 0)
            <==> a == b == c == d == 0
  {
    hide *;
    var w := Taken(a, b, c);
    ThreeBytesTaken(a, b, c);
    JoinedTop(d);
    ZerosStayZero();
    TakenIsLow(a, b, c);
    UneightInverts(w);
    UneightInverts(Eight(w));
    UneightInverts(Eight(Eight(w)));
    if Eight(Eight(Eight(w))) == (d as bv32) << 24 {
      TopByteComesFromAbove(d);
    }
  }

  // ---------------------------------------------------------------------------------------------
  // The check value
  // ---------------------------------------------------------------------------------------------

  lemma FirstCheckRegisters()
    ensures Eight(Xor(0xFFFFFFFF, 0x31)) == 0x7C231048
    ensures Eight(Xor(0x7C231048, 0x32)) == 0xB0ACBB32
    ensures Eight(Xor(0xB0ACBB32, 0x33)) == 0x77B79C2D
  {
  }

  lemma MiddleCheckRegisters()
    ensures Eight(Xor(0x77B79C2D, 0x34)) == 0x641C1F5C
    ensures Eight(Xor(0x641C1F5C, 0x35)) == 0x340AC5E3
    ensures Eight(Xor(0x340AC5E3, 0x36)) == 0xF68D2C9E
  {
  }

  lemma LastCheckRegisters()
    ensures Eight(Xor(0xF68D2C9E, 0x37)) == 0xAFFC9660
    ensures Eight(Xor(0xAFFC9660, 0x38)) == 0x651F2550
    ensures Eight(Xor(0x651F2550, 0x39)) == 0x340BC6D9
  {
  }

  lemma Fed(c: bv32, b: bv8, d: bv32, data: seq<bv8>, i: nat)
    requires i < |data| && data[i] == b && Eight(Xor(c, b as bv32)) == d
    ensures Update(c, data[i..]) == Update(d, data[i + 1..])
  {
    hide Update, Eight, Xor;
    UpdateUnfolds(c, data[i..]);
    assert data[i..][0] == b && data[i..][1..] == data[i + 1..];
  }

  /** The checksum of the nine digits 1 to 9, which is how this CRC-32 is told from others. */
  lemma CheckValue()
    ensures Crc32([0x31, 0x32, 0x33, 0x34, 0x35, 0x36, 0x37, 0x38, 0x39]) == 0xCBF43926
  {
    hide Update, Eight, Xor;
    var data: seq<bv8> := [0x31, 0x32, 0x33, 0x34, 0x35, 0x36, 0x37, 0x38, 0x39];
    FirstCheckRegisters();
    MiddleCheckRegisters();
    LastCheckRegisters();
    assert data[0..] == data && data[9..] == [];
    Fed(0xFFFFFFFF, 0x31, 0x7C231048, data, 0);
    Fed(0x7C231048, 0x32, 0xB0ACBB32, data, 1);
    Fed(0xB0ACBB32, 0x33, 0x77B79C2D, data, 2);
    Fed(0x77B79C2D, 0x34, 0x641C1F5C, data, 3);
    Fed(0x641C1F5C, 0x35, 0x340AC5E3, data, 4);
    Fed(0x340AC5E3, 0x36, 0xF68D2C9E, data, 5);
    Fed(0xF68D2C9E, 0x37, 0xAFFC9660, data, 6);
    Fed(0xAFFC9660, 0x38, 0x651F2550, data, 7);
    Fed(0x651F2550, 0x39, 0x340BC6D9, data, 8);
    UpdateNothing(0x340BC6D9);
  }
}
