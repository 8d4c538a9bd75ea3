/** The bits of a byte string as digits of its byte values, in plain arithmetic. */
module RawBits {
  import opened Bits

  // Bit n of the data; bit 0 is the most significant one of byte 0.
  predicate RawBit(data: seq<bv8>, n: nat) {
    n / 8 < |data| && (data[n / 8] as nat) / [128, 64, 32, 16, 8, 4, 2, 1][n % 8] % 2 == 1
  }

  function RawDigit(data: seq<bv8>, n: nat): nat {
    if RawBit(data, n) then 1 else 0
  }

  // The k bits from n on as a number, most significant bit first.
  function RawNumber(data: seq<bv8>, n: nat, k: nat): nat
    decreases k
  {
    if k == 0 then 0 else 2 * RawNumber(data, n, k - 1) + RawDigit(data, n + k - 1)
  }

  // Four, or two, bytes as a number, most significant byte first.
  function Word(data: seq<bv8>, i: nat): nat
    requires i + 4 <= |data|
  {
    0x1000000 * (data[i] as nat) + 0x10000 * (data[i + 1] as nat) + 0x100 * (data[i + 2] as nat)
    + data[i + 3] as nat
  }

  function HalfWord(data: seq<bv8>, i: nat): nat
    requires i + 2 <= |data|
  {
    0x100 * (data[i] as nat) + data[i + 1] as nat
  }

  // Each bit of a byte is one digit of its value.
  lemma HighestDigits(b: bv8)
    ensures b & 0x80 != 0 <==> (b as nat) / 128 % 2 == 1
    ensures b & 0x40 != 0 <==> (b as nat) / 64 % 2 == 1
  {
  }

  lemma HighDigits(b: bv8)
    ensures b & 0x20 != 0 <==> (b as nat) / 32 % 2 == 1
    ensures b & 0x10 != 0 <==> (b as nat) / 16 % 2 == 1
  {
  }

  lemma LowDigits(b: bv8)
    ensures b & 0x08 != 0 <==> (b as nat) / 8 % 2 == 1
  {
  }

  lemma LowerDigits(b: bv8)
    ensures b & 0x04 != 0 <==> (b as nat) / 4 % 2 == 1
  {
  }

  lemma LowestDigits(b: bv8)
    ensures b & 0x02 != 0 <==> (b as nat) / 2 % 2 == 1
  {
  }

  lemma LastDigit(b: bv8)
    ensures b & 0x01 != 0 <==> (b as nat) % 2 == 1
  {
  }

  lemma MaskIsDigit(b: bv8, k: nat)
    requires k < 8
    ensures TestMask(b, k) <==> (b as nat) / [128, 64, 32, 16, 8, 4, 2, 1][k] % 2 == 1
  {
    HighestDigits(b);
    HighDigits(b);
    LowDigits(b);
    LowerDigits(b);
    LowestDigits(b);
    LastDigit(b);
  }

  lemma BitIsRaw(data: seq<bv8>, n: nat)
    requires n < 8 * |data|
    ensures BitAt(data, n) <==> RawBit(data, n)
  {
    hide TestMask;
    MaskIsDigit(data[n / 8], n % 8);
  }

  lemma WordSum(a: bv8, b: bv8, c: bv8, d: bv8)
    ensures (((a as bv32) << 24) | ((b as bv32) << 16) | ((c as bv32) << 8) | (d as bv32)) as nat
            == 0x1000000 * (a as nat) + 0x10000 * (b as nat) + 0x100 * (c as nat) + d as nat
  {
  }
}
