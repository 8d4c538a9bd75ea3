/** Bytes as bits, most significant bit first: the addressing shared by the register image
    (scripts/vareg.py), the base64 text and the event stream (FrameAnalyzer::TestBit). */
module Bits {

  function Mask(k: nat): bv8
    requires k < 8
  {
    if k == 0 then 0x80 else if k == 1 then 0x40 else if k == 2 then 0x20 else if k == 3 then 0x10
    else if k == 4 then 0x08 else if k == 5 then 0x04 else if k == 6 then 0x02 else 0x01
  }

  predicate TestMask(b: bv8, k: nat)
    requires k < 8
  {
    b & Mask(k) != 0
  }

  predicate BitAt(data: seq<bv8>, n: nat)
    requires n < 8 * |data|
  {
    TestMask(data[n / 8], n % 8)
  }

  lemma SetMask(b: bv8, k: nat, j: nat)
    requires k < 8 && j < 8
    ensures TestMask(b | Mask(k), j) == (j == k || TestMask(b, j))
  {
    if j == k {
      assert (b | Mask(k)) & Mask(k) == Mask(k);
    } else {
      MasksAreDisjoint(k, j);
      OrKeepsOtherBits(b, Mask(k), Mask(j));
    }
  }

  lemma MasksAreDisjoint(k: nat, j: nat)
    requires k < 8 && j < 8 && k != j
    ensures Mask(k) & Mask(j) == 0
  {
  }

  lemma OrKeepsOtherBits(b: bv8, m: bv8, w: bv8)
    requires m & w == 0
    ensures (b | m) & w == b & w
  {
  }

  lemma ByteIsItsBits(a: bv8, b: bv8)
    requires forall k: nat | k < 8 :: TestMask(a, k) == TestMask(b, k)
    ensures a == b
  {
    assert TestMask(a, 0) == TestMask(b, 0) && TestMask(a, 1) == TestMask(b, 1);
    assert TestMask(a, 2) == TestMask(b, 2) && TestMask(a, 3) == TestMask(b, 3);
    assert TestMask(a, 4) == TestMask(b, 4) && TestMask(a, 5) == TestMask(b, 5);
    assert TestMask(a, 6) == TestMask(b, 6) && TestMask(a, 7) == TestMask(b, 7);
  }

  /** Byte strings of equal length with the same bits are the same. */
  lemma BytesAreTheirBits(a: seq<bv8>, b: seq<bv8>)
    requires |a| == |b|
    requires forall n: nat | n < 8 * |a| :: BitAt(a, n) == BitAt(b, n)
    ensures a == b
  {
    forall i: nat | i < |a|
      ensures a[i] == b[i]
    {
      forall k: nat | k < 8
        ensures TestMask(a[i], k) == TestMask(b[i], k)
      {
        assert BitAt(a, 8 * i + k) == BitAt(b, 8 * i + k);
      }
      ByteIsItsBits(a[i], b[i]);
    }
  }

  function Chosen(bit: bool, mask: bv8): bv8 {
    if bit then mask else 0
  }

  function ByteOf(bits: seq<bool>): (b: bv8)
    requires |bits| == 8
  {
    Chosen(bits[0], 0x80) | Chosen(bits[1], 0x40) | Chosen(bits[2], 0x20) | Chosen(bits[3], 0x10)
    | Chosen(bits[4], 0x08) | Chosen(bits[5], 0x04) | Chosen(bits[6], 0x02) | Chosen(bits[7], 0x01)
  }

  lemma BitOfByte(bits: seq<bool>, k: nat)
    requires |bits| == 8 && k < 8
    ensures TestMask(ByteOf(bits), k) == bits[k]
  {
  }

  /** The bytes whose bits are the given ones. */
  function Pack(bits: seq<bool>): (data: seq<bv8>)
    requires |bits| % 8 == 0
    ensures |data| == |bits| / 8
    ensures forall n: nat | n < |bits| :: BitAt(data, n) == bits[n]
  {
    var data := seq(|bits| / 8, i requires 0 <= i < |bits| / 8 => ByteOf(bits[8 * i..8 * i + 8]));
    assert forall n: nat | n < |bits| :: BitAt(data, n) == bits[n] by {
      forall n: nat | n < |bits|
        ensures BitAt(data, n) == bits[n]
      {
        BitOfByte(bits[8 * (n / 8)..8 * (n / 8) + 8], n % 8);
      }
    }
    data
  }

  function Unpack(data: seq<bv8>): (bits: seq<bool>)
    ensures |bits| == 8 * |data|
  {
    seq(8 * |data|, n requires 0 <= n < 8 * |data| => BitAt(data, n))
  }

  function Zeros(n: nat): (bits: seq<bool>)
    ensures |bits| == n && forall i | 0 <= i < n :: !bits[i]
  {
    seq(n, _ => false)
  }

  // The four bytes of a word, most significant first.
  function BigEndian(c: bv32): (b: seq<bv8>)
    ensures |b| == 4
  {
    [((c >> 24) & 0xFF) as bv8, ((c >> 16) & 0xFF) as bv8, ((c >> 8) & 0xFF) as bv8, (c & 0xFF) as bv8]
  }

  function FromBigEndian(b: seq<bv8>): bv32
    requires |b| == 4
  {
    ((b[0] as bv32) << 24) | ((b[1] as bv32) << 16) | ((b[2] as bv32) << 8) | (b[3] as bv32)
  }

  lemma PackUnpack(data: seq<bv8>)
    ensures Pack(Unpack(data)) == data
  {
    BytesAreTheirBits(Pack(Unpack(data)), data);
  }

  // ---------------------------------------------------------------------------------------------
  // Unsigned numbers and their bits
  // ---------------------------------------------------------------------------------------------

  function Pow2(n: nat): (p: nat)
    ensures p > 0
  {
    if n == 0 then 1 else 2 * Pow2(n - 1)
  }

  function Digit(bit: bool): nat {
    if bit then 1 else 0
  }

  // The n low bits of v, most significant first.
  function BitsOf(v: nat, n: nat): (bits: seq<bool>)
    ensures |bits| == n
    decreases n
  {
    if n == 0 then [] else BitsOf(v / 2, n - 1) + [v % 2 == 1]
  }

  function NatOf(bits: seq<bool>): (v: nat)
    ensures v < Pow2(|bits|)
  {
    if bits == [] then 0 else 2 * NatOf(bits[..|bits| - 1]) + Digit(bits[|bits| - 1])
  }

  lemma {:induction false} NatOfBitsOf(v: nat, n: nat)
    requires v < Pow2(n)
    ensures NatOf(BitsOf(v, n)) == v
    decreases n
  {
    if n > 0 {
      NatOfBitsOf(v / 2, n - 1);
      assert BitsOf(v, n)[..n - 1] == BitsOf(v / 2, n - 1);
    }
  }

  lemma {:induction false} BitsOfNatOf(bits: seq<bool>)
    ensures BitsOf(NatOf(bits), |bits|) == bits
    decreases |bits|
  {
    if bits != [] {
      var init := bits[..|bits| - 1];
      BitsOfNatOf(init);
      assert NatOf(bits) / 2 == NatOf(init);
      assert bits == init + [bits[|bits| - 1]];
    }
  }

  lemma SliceOfSlice<T>(s: seq<T>, lo: nat, hi: nat, a: nat, b: nat)
    requires lo <= hi <= |s| && a <= b <= hi - lo
    ensures s[lo..hi][a..b] == s[lo + a..lo + b]
  {
    var mid := s[lo..hi];
    forall i | 0 <= i < b - a
      ensures mid[a..b][i] == s[lo + a..lo + b][i]
    {
      assert mid[a + i] == s[lo + (a + i)];
    }
  }
}
