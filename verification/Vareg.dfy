/** The register image of one ASIC: scripts/vareg.py packs 60 fields, most significant bit first and
    arrays from their last element down, into the first 936 bits of 128 bytes. */
module Vareg {
  import opened Bits

  datatype Spec = BitField(name: string, bits: nat) | BitFieldArray(name: string, bits: nat, size: nat)

  const BIASES: seq<Spec> := [
    BitField("disc3_bi", 3), BitField("Ioffset", 3), BitField("obi", 3), BitField("ibuf", 3),
    BitField("pre_bias", 3), BitField("sbi", 3), BitField("vrc", 3), BitField("ifsf", 3),
    BitField("ifss", 3), BitField("sha_bias", 3), BitField("twbi", 3)]
  const WIDE_BIASES: seq<Spec> := [BitField("ck_bi", 4), BitField("Iramp", 4), BitField("ifp", 4)]
  const THRESHOLD: seq<Spec> := [BitField("vth", 5)]
  const MODES: seq<Spec> := [BitField("Pos_II_2", 1), BitField("Pos_II_1", 1), BitField("Shabi_lg", 1)]
  const CHANNELS: seq<Spec> := [
    BitFieldArray("Test_Enable", 1, 64), BitFieldArray("Trim_Dac", 4, 64),
    BitFieldArray("CH_Disable", 1, 64), BitField("DTHR", 10), BitFieldArray("Dis_chan_CM", 1, 64),
    BitField("Dis_chan_CMDummy", 1)]
  const DEL_REG: Spec := BitFieldArray("Del_reg", 6, 64)
  const DEL_REG_DUMMY: seq<Spec> := [BitField("Del_reg_Dummy", 6)]
  const SWITCHES: seq<Spec> := [
    BitField("ADC_test2", 1), BitField("ADC_test1", 1), BitField("Ileak_offset", 1),
    BitField("Reserved6", 1), BitField("VA_RO", 1), BitField("ADC_on_b", 1), BitField("Reserved5", 1),
    BitField("negQ", 1), BitField("Low_gain", 1), BitField("Test_on", 1), BitField("CC_on", 1),
    BitField("Nside", 1), BitField("Slew_on_b", 1), BitField("Cal_gen_on", 1), BitField("Preb_hp", 1),
    BitField("Ck_en", 1), BitField("RO_all", 1), BitField("CM_thr_dis", 1), BitField("Iramp_f2", 1),
    BitField("Iramp_fb", 1), BitField("Reserved4", 1), BitField("Reserved3", 1),
    BitField("Reserved2", 1), BitField("Reserved1", 1), BitField("All2", 1), BitField("Cal_HDR", 1),
    BitField("Cal_HDR2", 1), BitField("C_cal6", 1), BitField("C_cal5", 1), BitField("C_cal4", 1),
    BitField("C_cal3", 1), BitField("C_cal2", 1), BitField("C_cal1", 1), BitField("C_cal0", 1)]

  const BEFORE_DEL_REG: seq<Spec> := BIASES + WIDE_BIASES + THRESHOLD + MODES + CHANNELS
  const AFTER_DEL_REG: seq<Spec> := DEL_REG_DUMMY + SWITCHES
  const FIELDS: seq<Spec> := BEFORE_DEL_REG + [DEL_REG] + AFTER_DEL_REG
  const DEL_REG_INDEX := 24

  const IMAGE_BYTES := 128

  // ---------------------------------------------------------------------------------------------
  // Values and the bits they stand for
  // ---------------------------------------------------------------------------------------------

  datatype Value = Scalar(v: nat) | Vector(vs: seq<nat>)

  ghost predicate Fits(spec: Spec, value: Value) {
    match spec
    case BitField(_, bits) => value.Scalar? && value.v < Pow2(bits)
    case BitFieldArray(_, bits, size) =>
      value.Vector? && |value.vs| == size && forall i | 0 <= i < size :: value.vs[i] < Pow2(bits)
  }

  ghost predicate InRange(specs: seq<Spec>, values: seq<Value>) {
    |values| == |specs| && forall k | 0 <= k < |specs| :: Fits(specs[k], values[k])
  }

  function Width(spec: Spec): nat {
    match spec
    case BitField(_, bits) => bits
    case BitFieldArray(_, bits, size) => bits * size
  }

  function TotalWidth(specs: seq<Spec>): nat {
    if specs == [] then 0 else TotalWidth(specs[..|specs| - 1]) + Width(specs[|specs| - 1])
  }

  function Backwards(s: seq<nat>): (r: seq<nat>)
    ensures |r| == |s|
    ensures forall i | 0 <= i < |s| :: r[i] == s[|s| - 1 - i]
  {
    seq(|s|, i requires 0 <= i < |s| => s[|s| - 1 - i])
  }

  // Numbers one after the other, `bits` bits each.
  function StreamBits(vs: seq<nat>, bits: nat): (r: seq<bool>)
    ensures |r| == bits * |vs|
  {
    if vs == [] then [] else
      assert bits * |vs| == bits * (|vs| - 1) + bits;
      StreamBits(vs[..|vs| - 1], bits) + BitsOf(vs[|vs| - 1], bits)
  }

  ghost function FieldBits(spec: Spec, value: Value): (r: seq<bool>)
    requires Fits(spec, value)
    ensures |r| == Width(spec)
  {
    match spec
    case BitField(_, bits) => BitsOf(value.v, bits)
    case BitFieldArray(_, bits, _) => StreamBits(Backwards(value.vs), bits)
  }

  ghost function AllBits(specs: seq<Spec>, values: seq<Value>): (r: seq<bool>)
    requires InRange(specs, values)
    ensures |r| == TotalWidth(specs)
  {
    if specs == [] then [] else
      AllBits(specs[..|specs| - 1], values[..|specs| - 1])
      + FieldBits(specs[|specs| - 1], values[|specs| - 1])
  }

  // ---------------------------------------------------------------------------------------------
  // The layout has 936 bits, 512 of them before Del_reg
  // ---------------------------------------------------------------------------------------------

  lemma {:induction false} WidthsAdd(a: seq<Spec>, b: seq<Spec>)
    ensures TotalWidth(a + b) == TotalWidth(a) + TotalWidth(b)
    decreases |b|
  {
    if b == [] {
      assert a + b == a;
    } else {
      assert (a + b)[..|a + b| - 1] == a + b[..|b| - 1];
      WidthsAdd(a, b[..|b| - 1]);
    }
  }

  lemma {:induction false} UniformWidth(specs: seq<Spec>, w: nat)
    requires forall k | 0 <= k < |specs| :: Width(specs[k]) == w
    ensures TotalWidth(specs) == w * |specs|
    decreases |specs|
  {
    if specs != [] {
      UniformWidth(specs[..|specs| - 1], w);
      assert w * |specs| == w * (|specs| - 1) + w;
    }
  }

  lemma ChannelsWidth()
    ensures TotalWidth(CHANNELS) == 459
  {
    assert CHANNELS[..5][..4] == CHANNELS[..4];
    assert CHANNELS[..4][..3] == CHANNELS[..3];
    assert CHANNELS[..3][..2] == CHANNELS[..2];
    assert CHANNELS[..2][..1] == CHANNELS[..1];
    assert CHANNELS[..1][..0] == [];
    assert TotalWidth(CHANNELS[..1]) == 64;
    assert TotalWidth(CHANNELS[..2]) == 320;
    assert TotalWidth(CHANNELS[..3]) == 384;
    assert TotalWidth(CHANNELS[..4]) == 394;
    assert TotalWidth(CHANNELS[..5]) == 458;
  }

  lemma LayoutWidths()
    ensures TotalWidth(BEFORE_DEL_REG) == 512
    ensures TotalWidth([DEL_REG]) == 384
    ensures TotalWidth(FIELDS) == 936
    ensures |FIELDS| == 60 && |BEFORE_DEL_REG| == DEL_REG_INDEX && FIELDS[DEL_REG_INDEX] == DEL_REG
  {
    UniformWidth(BIASES, 3);
    UniformWidth(WIDE_BIASES, 4);
    UniformWidth(THRESHOLD, 5);
    UniformWidth(MODES, 1);
    ChannelsWidth();
    WidthsAdd(BIASES, WIDE_BIASES);
    WidthsAdd(BIASES + WIDE_BIASES, THRESHOLD);
    WidthsAdd(BIASES + WIDE_BIASES + THRESHOLD, MODES);
    WidthsAdd(BIASES + WIDE_BIASES + THRESHOLD + MODES, CHANNELS);
    UniformWidth([DEL_REG], 384);
    UniformWidth(DEL_REG_DUMMY, 6);
    UniformWidth(SWITCHES, 1);
    WidthsAdd(DEL_REG_DUMMY, SWITCHES);
    WidthsAdd(BEFORE_DEL_REG, [DEL_REG]);
    WidthsAdd(BEFORE_DEL_REG + [DEL_REG], AFTER_DEL_REG);
  }

  // ---------------------------------------------------------------------------------------------
  // The bits determine the values
  // ---------------------------------------------------------------------------------------------

  lemma StreamBitsSplit(a: seq<nat>, bits: nat)
    requires a != []
    ensures bits * |a| == bits * (|a| - 1) + bits
    ensures StreamBits(a, bits) == StreamBits(a[..|a| - 1], bits) + BitsOf(a[|a| - 1], bits)
  {
  }

  lemma {:induction false} StreamBitsInjective(a: seq<nat>, b: seq<nat>, bits: nat)
    requires |a| == |b| && StreamBits(a, bits) == StreamBits(b, bits)
    requires forall i | 0 <= i < |a| :: a[i] < Pow2(bits) && b[i] < Pow2(bits)
    ensures a == b
    decreases |a|
  {
    hide StreamBits, BitsOf;
    if a != [] {
      var n := |a| - 1;
      StreamBitsSplit(a, bits);
      StreamBitsSplit(b, bits);
      SplitEqually(StreamBits(a[..n], bits), BitsOf(a[n], bits), StreamBits(b[..n], bits), BitsOf(b[n], bits));
      NatOfBitsOf(a[n], bits);
      NatOfBitsOf(b[n], bits);
      StreamBitsInjective(a[..n], b[..n], bits);
      assert a == a[..n] + [a[n]] && b == b[..n] + [b[n]];
    }
  }

  lemma BackwardsTwice(s: seq<nat>)
    ensures Backwards(Backwards(s)) == s
  {
  }

  lemma FieldBitsInjective(spec: Spec, v: Value, w: Value)
    requires Fits(spec, v) && Fits(spec, w) && FieldBits(spec, v) == FieldBits(spec, w)
    ensures v == w
  {
    match spec
    case BitField(_, bits) =>
      NatOfBitsOf(v.v, bits);
      NatOfBitsOf(w.v, bits);
    case BitFieldArray(_, bits, size) =>
      StreamBitsInjective(Backwards(v.vs), Backwards(w.vs), bits);
      BackwardsTwice(v.vs);
      BackwardsTwice(w.vs);
  }

  lemma SplitEqually<T>(a: seq<T>, b: seq<T>, c: seq<T>, d: seq<T>)
    requires |a| == |c| && a + b == c + d
    ensures a == c && b == d
  {
    assert (a + b)[..|a|] == a && (c + d)[..|a|] == c;
    assert (a + b)[|a|..] == b && (c + d)[|a|..] == d;
  }

  lemma AllBitsSplit(specs: seq<Spec>, values: seq<Value>)
    requires InRange(specs, values) && specs != []
    ensures var n := |specs| - 1;
            InRange(specs[..n], values[..n]) && Fits(specs[n], values[n])
            && AllBits(specs, values) == AllBits(specs[..n], values[..n]) + FieldBits(specs[n], values[n])
  {
    hide Fits, FieldBits;
  }

  lemma {:induction false} AllBitsInjective(specs: seq<Spec>, v: seq<Value>, w: seq<Value>)
    requires InRange(specs, v) && InRange(specs, w) && AllBits(specs, v) == AllBits(specs, w)
    ensures v == w
    decreases |specs|
  {
    hide Fits, FieldBits, AllBits;
    if specs != [] {
      var n := |specs| - 1;
      AllBitsSplit(specs, v);
      AllBitsSplit(specs, w);
      SplitEqually(AllBits(specs[..n], v[..n]), FieldBits(specs[n], v[n]),
                   AllBits(specs[..n], w[..n]), FieldBits(specs[n], w[n]));
      AllBitsInjective(specs[..n], v[..n], w[..n]);
      FieldBitsInjective(specs[n], v[n], w[n]);
      assert v == v[..n] + [v[n]] && w == w[..n] + [w[n]];
    }
  }

  // ---------------------------------------------------------------------------------------------
  // The image
  // ---------------------------------------------------------------------------------------------

  // The field bits followed by the padding of bytes 117..127.
  ghost predicate IsImage(values: seq<Value>, data: seq<bv8>) {
    && InRange(FIELDS, values)
    && |data| == IMAGE_BYTES
    && TotalWidth(FIELDS) <= 8 * IMAGE_BYTES
    && Unpack(data) == AllBits(FIELDS, values) + Zeros(8 * IMAGE_BYTES - TotalWidth(FIELDS))
  }

  ghost predicate Decodes(data: seq<bv8>, values: seq<Value>) {
    && InRange(FIELDS, values)
    && TotalWidth(FIELDS) <= 8 * |data|
    && Unpack(data)[..TotalWidth(FIELDS)] == AllBits(FIELDS, values)
  }

  ghost predicate PaddingIsZero(data: seq<bv8>) {
    |data| == IMAGE_BYTES && forall i | 117 <= i < IMAGE_BYTES :: data[i] == 0
  }

  lemma ZeroByte(b: bv8)
    ensures b == 0 <==> forall k: nat | k < 8 :: !TestMask(b, k)
  {
    if forall k: nat | k < 8 :: !TestMask(b, k) {
      forall k: nat | k < 8
        ensures TestMask(b, k) == TestMask(0, k)
      {
      }
      ByteIsItsBits(b, 0);
    }
  }

  lemma PaddingBits(data: seq<bv8>)
    requires |data| == IMAGE_BYTES
    ensures PaddingIsZero(data) <==> Unpack(data)[936..] == Zeros(88)
  {
    if PaddingIsZero(data) {
      forall n: nat | 936 <= n < 1024
        ensures !Unpack(data)[n]
      {
        ZeroByte(data[n / 8]);
      }
    }
    if Unpack(data)[936..] == Zeros(88) {
      forall i | 117 <= i < IMAGE_BYTES
        ensures data[i] == 0
      {
        forall k: nat | k < 8
          ensures !TestMask(data[i], k)
        {
          assert Unpack(data)[936..][8 * i + k - 936] == BitAt(data, 8 * i + k);
        }
        ZeroByte(data[i]);
      }
    }
  }

  /** Reading back a packed image gives the values that were packed, and nothing else. */
  lemma ImageRoundTrip(values: seq<Value>, data: seq<bv8>, decoded: seq<Value>)
    requires IsImage(values, data)
    ensures Decodes(data, decoded) <==> decoded == values
  {
    LayoutWidths();
    assert Unpack(data)[..TotalWidth(FIELDS)] == AllBits(FIELDS, values);
    if Decodes(data, decoded) {
      AllBitsInjective(FIELDS, decoded, values);
    }
  }

  /** Packing what was read reproduces the 128 bytes exactly when their padding is zero. */
  lemma RepackingReproduces(data: seq<bv8>, values: seq<Value>, repacked: seq<bv8>)
    requires |data| == IMAGE_BYTES && Decodes(data, values) && IsImage(values, repacked)
    ensures repacked == data <==> PaddingIsZero(data)
  {
    LayoutWidths();
    var n := TotalWidth(FIELDS);
    PaddingBits(data);
    PaddingBits(repacked);
    assert Unpack(repacked)[n..] == Zeros(88);
    if PaddingIsZero(data) {
      assert Unpack(data) == Unpack(data)[..n] + Unpack(data)[n..];
      PackUnpack(data);
      PackUnpack(repacked);
    }
  }

  lemma ImageIsUnique(values: seq<Value>, a: seq<bv8>, b: seq<bv8>)
    requires IsImage(values, a) && IsImage(values, b)
    ensures a == b
  {
    PackUnpack(a);
    PackUnpack(b);
  }

  // ---------------------------------------------------------------------------------------------
  // Where a field lies
  // ---------------------------------------------------------------------------------------------

  lemma {:induction false} PrefixBits(specs: seq<Spec>, values: seq<Value>, k: nat)
    requires InRange(specs, values) && k <= |specs|
    ensures TotalWidth(specs[..k]) <= TotalWidth(specs)
    ensures AllBits(specs, values)[..TotalWidth(specs[..k])] == AllBits(specs[..k], values[..k])
    decreases |specs|
  {
    hide Fits, FieldBits, Width;
    if k == |specs| {
      assert specs[..k] == specs && values[..k] == values;
    } else {
      var n := |specs| - 1;
      PrefixBits(specs[..n], values[..n], k);
      assert specs[..n][..k] == specs[..k] && values[..n][..k] == values[..k];
      var w := TotalWidth(specs[..k]);
      assert AllBits(specs, values)[..TotalWidth(specs[..n])] == AllBits(specs[..n], values[..n]);
      assert AllBits(specs, values)[..w] == AllBits(specs[..n], values[..n])[..w];
    }
  }

  /** Field k takes the Width(specs[k]) bits that follow the fields before it. */
  lemma FieldPosition(specs: seq<Spec>, values: seq<Value>, k: nat)
    requires InRange(specs, values) && k < |specs|
    ensures TotalWidth(specs[..k]) + Width(specs[k]) <= TotalWidth(specs)
    ensures AllBits(specs, values)[TotalWidth(specs[..k])..TotalWidth(specs[..k]) + Width(specs[k])]
         == FieldBits(specs[k], values[k])
  {
    hide Fits, FieldBits, Width;
    PrefixBits(specs, values, k + 1);
    assert specs[..k + 1][..k] == specs[..k] && values[..k + 1][..k] == values[..k];
    var w, w' := TotalWidth(specs[..k]), TotalWidth(specs[..k]) + Width(specs[k]);
    assert AllBits(specs[..k + 1], values[..k + 1])
        == AllBits(specs[..k], values[..k]) + FieldBits(specs[k], values[k]);
    assert AllBits(specs, values)[w..w'] == AllBits(specs, values)[..w'][w..];
  }

  lemma {:induction false} StreamPosition(vs: seq<nat>, bits: nat, i: nat)
    requires i < |vs|
    ensures bits * i + bits <= |StreamBits(vs, bits)|
    ensures StreamBits(vs, bits)[bits * i..bits * i + bits] == BitsOf(vs[i], bits)
    decreases |vs|
  {
    var n := |vs| - 1;
    StreamBitsSplit(vs, bits);
    hide StreamBits;
    var head, from := StreamBits(vs[..n], bits), bits * i;
    if i < n {
      StreamPosition(vs[..n], bits, i);
      assert (head + BitsOf(vs[n], bits))[from..from + bits] == head[from..from + bits];
    } else {
      assert |head| == from;
    }
  }

  /** Only the bits of a changed field change. */
  lemma {:induction false} UnchangedElsewhere(specs: seq<Spec>, v: seq<Value>, w: seq<Value>, k: nat, n: nat)
    requires InRange(specs, v) && InRange(specs, w) && k < |specs|
    requires forall j | 0 <= j < |specs| && j != k :: v[j] == w[j]
    requires n < TotalWidth(specs)
    requires !(TotalWidth(specs[..k]) <= n < TotalWidth(specs[..k]) + Width(specs[k]))
    ensures AllBits(specs, v)[n] == AllBits(specs, w)[n]
    decreases |specs|
  {
    hide Fits, FieldBits, Width, AllBits;
    var m := |specs| - 1;
    AllBitsSplit(specs, v);
    AllBitsSplit(specs, w);
    if k == m {
      assert v[..m] == w[..m];
    } else {
      assert v[m] == w[m];
      if n < TotalWidth(specs[..m]) {
        assert specs[..m][..k] == specs[..k];
        UnchangedElsewhere(specs[..m], v[..m], w[..m], k, n);
      }
    }
  }

  // ---------------------------------------------------------------------------------------------
  // Single bits of a number, as the source tests and sets them
  // ---------------------------------------------------------------------------------------------

  // value & (1 << k)
  predicate NumberBit(value: nat, k: nat)
    decreases k
  {
    if k == 0 then value % 2 == 1 else NumberBit(value / 2, k - 1)
  }

  lemma {:induction false} NumberBitIsBitOf(value: nat, n: nat, i: nat)
    requires i < n
    ensures BitsOf(value, n)[i] == NumberBit(value, n - 1 - i)
    decreases n
  {
    if i < n - 1 {
      NumberBitIsBitOf(value / 2, n - 1, i);
    }
  }
}
