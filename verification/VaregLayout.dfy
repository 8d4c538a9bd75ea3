/** Where every field lies in the 128 bytes of an ASIC, and the number it holds there. */
module VaregLayout {
  import opened Bits
  import opened RawBits
  import opened Vareg
  import opened VaregImage

  // ---------------------------------------------------------------------------------------------
  // The table of the fields
  // ---------------------------------------------------------------------------------------------

  // Field k is the given one and starts at bit `start`.
  predicate IsField(k: nat, spec: Spec, start: nat) {
    k < |FIELDS| && FIELDS[k] == spec && TotalWidth(FIELDS[..k]) == start
  }

  lemma PrefixOfGroup(before: seq<Spec>, group: seq<Spec>, after: seq<Spec>, i: nat)
    requires i < |group|
    ensures (before + group + after)[..|before| + i] == before + group[..i]
    ensures (before + group + after)[|before| + i] == group[i]
  {
  }

  lemma StartInGroup(before: seq<Spec>, group: seq<Spec>, after: seq<Spec>, w: nat, i: nat)
    requires i < |group| && forall j | 0 <= j < |group| :: Width(group[j]) == w
    ensures TotalWidth((before + group + after)[..|before| + i]) == TotalWidth(before) + w * i
  {
    hide TotalWidth, Width;
    var first := group[..i];
    assert |first| == i;
    PrefixOfGroup(before, group, after, i);
    WidthsAdd(before, first);
    UniformWidth(first, w);
  }

  // Where field i of a group of fields of w bits each starts.
  lemma GroupStart(before: seq<Spec>, group: seq<Spec>, after: seq<Spec>, w: nat, i: nat)
    requires before + group + after == FIELDS && i < |group|
    requires forall j | 0 <= j < |group| :: Width(group[j]) == w
    ensures IsField(|before| + i, group[i], TotalWidth(before) + w * i)
  {
    hide FIELDS, TotalWidth, Width;
    PrefixOfGroup(before, group, after, i);
    StartInGroup(before, group, after, w, i);
  }

  const CHANNELS_ON: seq<Spec> := CHANNELS + [DEL_REG] + DEL_REG_DUMMY + SWITCHES

  lemma Groups()
    ensures [] + BIASES + (WIDE_BIASES + THRESHOLD + MODES + CHANNELS_ON) == FIELDS
    ensures BIASES + WIDE_BIASES + (THRESHOLD + MODES + CHANNELS_ON) == FIELDS
    ensures (BIASES + WIDE_BIASES) + THRESHOLD + (MODES + CHANNELS_ON) == FIELDS
    ensures (BIASES + WIDE_BIASES + THRESHOLD) + MODES + CHANNELS_ON == FIELDS
    ensures BEFORE_DEL_REG + [DEL_REG] + AFTER_DEL_REG == FIELDS
    ensures (BEFORE_DEL_REG + [DEL_REG]) + DEL_REG_DUMMY + SWITCHES == FIELDS
    ensures (BEFORE_DEL_REG + [DEL_REG] + DEL_REG_DUMMY) + SWITCHES + [] == FIELDS
  {
    hide BIASES, WIDE_BIASES, THRESHOLD, MODES, CHANNELS, DEL_REG, DEL_REG_DUMMY, SWITCHES;
  }

  lemma GroupWidths()
    ensures TotalWidth([]) == 0 && TotalWidth(BIASES) == 33 && TotalWidth(BIASES + WIDE_BIASES) == 45
    ensures TotalWidth(BIASES + WIDE_BIASES + THRESHOLD) == 50
    ensures TotalWidth(BIASES + WIDE_BIASES + THRESHOLD + MODES) == 53
    ensures TotalWidth(BEFORE_DEL_REG) == 512 && TotalWidth(BEFORE_DEL_REG + [DEL_REG]) == 896
    ensures TotalWidth(BEFORE_DEL_REG + [DEL_REG] + DEL_REG_DUMMY) == 902
  {
    LayoutWidths();
    UniformWidth(BIASES, 3);
    UniformWidth(WIDE_BIASES, 4);
    UniformWidth(THRESHOLD, 5);
    UniformWidth(MODES, 1);
    UniformWidth(DEL_REG_DUMMY, 6);
    WidthsAdd(BIASES, WIDE_BIASES);
    WidthsAdd(BIASES + WIDE_BIASES, THRESHOLD);
    WidthsAdd(BIASES + WIDE_BIASES + THRESHOLD, MODES);
    WidthsAdd(BEFORE_DEL_REG, [DEL_REG]);
    WidthsAdd(BEFORE_DEL_REG + [DEL_REG], DEL_REG_DUMMY);
  }

  lemma GroupSizes()
    ensures |BIASES| == 11 && |WIDE_BIASES| == 3 && |THRESHOLD| == 1 && |MODES| == 3
    ensures |BEFORE_DEL_REG| == 24 && |DEL_REG_DUMMY| == 1 && |SWITCHES| == 34
  {
  }

  lemma BiasField(i: nat)
    requires i < |BIASES|
    ensures IsField(i, BIASES[i], 3 * i)
  {
    hide FIELDS, TotalWidth, IsField, WIDE_BIASES, THRESHOLD, MODES, CHANNELS, DEL_REG, DEL_REG_DUMMY, SWITCHES,
      BEFORE_DEL_REG, AFTER_DEL_REG, CHANNELS_ON;
    Groups();
    GroupWidths();
    GroupSizes();
    GroupStart([], BIASES, WIDE_BIASES + THRESHOLD + MODES + CHANNELS_ON, 3, i);
  }

  lemma BiasFields()
    ensures IsField(0, BitField("disc3_bi", 3), 0) && IsField(1, BitField("Ioffset", 3), 3)
    ensures IsField(2, BitField("obi", 3), 6) && IsField(3, BitField("ibuf", 3), 9)
    ensures IsField(4, BitField("pre_bias", 3), 12) && IsField(5, BitField("sbi", 3), 15)
    ensures IsField(6, BitField("vrc", 3), 18) && IsField(7, BitField("ifsf", 3), 21)
    ensures IsField(8, BitField("ifss", 3), 24) && IsField(9, BitField("sha_bias", 3), 27)
    ensures IsField(10, BitField("twbi", 3), 30)
  {
    hide IsField;
    BiasField(0); BiasField(1); BiasField(2); BiasField(3); BiasField(4); BiasField(5); BiasField(6);
    BiasField(7); BiasField(8); BiasField(9); BiasField(10);
  }

  lemma WideBiasField(i: nat)
    requires i < |WIDE_BIASES|
    ensures IsField(11 + i, WIDE_BIASES[i], 33 + 4 * i)
  {
    hide FIELDS, TotalWidth, IsField, BIASES, THRESHOLD, MODES, CHANNELS, DEL_REG, DEL_REG_DUMMY, SWITCHES,
      BEFORE_DEL_REG, AFTER_DEL_REG, CHANNELS_ON;
    Groups();
    GroupWidths();
    GroupSizes();
    GroupStart(BIASES, WIDE_BIASES, THRESHOLD + MODES + CHANNELS_ON, 4, i);
  }

  lemma WideBiasFields()
    ensures IsField(11, BitField("ck_bi", 4), 33) && IsField(12, BitField("Iramp", 4), 37)
    ensures IsField(13, BitField("ifp", 4), 41)
  {
    hide IsField;
    WideBiasField(0); WideBiasField(1); WideBiasField(2);
  }

  lemma ThresholdField()
    ensures IsField(14, BitField("vth", 5), 45)
  {
    hide FIELDS, TotalWidth, IsField, BIASES, WIDE_BIASES, MODES, CHANNELS, DEL_REG, DEL_REG_DUMMY, SWITCHES,
      BEFORE_DEL_REG, AFTER_DEL_REG, CHANNELS_ON;
    Groups();
    GroupWidths();
    GroupSizes();
    GroupStart(BIASES + WIDE_BIASES, THRESHOLD, MODES + CHANNELS_ON, 5, 0);
  }

  lemma ModeField(i: nat)
    requires i < |MODES|
    ensures IsField(15 + i, MODES[i], 50 + i)
  {
    hide FIELDS, TotalWidth, IsField, BIASES, WIDE_BIASES, THRESHOLD, CHANNELS, DEL_REG, DEL_REG_DUMMY,
      SWITCHES, BEFORE_DEL_REG, AFTER_DEL_REG, CHANNELS_ON;
    Groups();
    GroupWidths();
    GroupSizes();
    GroupStart(BIASES + WIDE_BIASES + THRESHOLD, MODES, CHANNELS_ON, 1, i);
  }

  lemma ModeFields()
    ensures IsField(15, BitField("Pos_II_2", 1), 50) && IsField(16, BitField("Pos_II_1", 1), 51)
    ensures IsField(17, BitField("Shabi_lg", 1), 52)
  {
    hide IsField;
    ModeField(0); ModeField(1); ModeField(2);
  }

  lemma DelRegField()
    ensures IsField(24, BitFieldArray("Del_reg", 6, 64), 512)
  {
    hide FIELDS, TotalWidth, IsField, BIASES, WIDE_BIASES, THRESHOLD, MODES, CHANNELS, DEL_REG_DUMMY, SWITCHES,
      BEFORE_DEL_REG, AFTER_DEL_REG, CHANNELS_ON;
    Groups();
    GroupWidths();
    GroupSizes();
    GroupStart(BEFORE_DEL_REG, [DEL_REG], AFTER_DEL_REG, 384, 0);
  }

  lemma DelRegDummyField()
    ensures IsField(25, BitField("Del_reg_Dummy", 6), 896)
  {
    hide FIELDS, TotalWidth, IsField, BIASES, WIDE_BIASES, THRESHOLD, MODES, CHANNELS, DEL_REG, SWITCHES,
      BEFORE_DEL_REG, AFTER_DEL_REG, CHANNELS_ON;
    Groups();
    GroupWidths();
    GroupSizes();
    GroupStart(BEFORE_DEL_REG + [DEL_REG], DEL_REG_DUMMY, SWITCHES, 6, 0);
  }

  lemma SwitchField(i: nat)
    requires i < |SWITCHES|
    ensures IsField(26 + i, SWITCHES[i], 902 + i)
  {
    hide FIELDS, TotalWidth, IsField, BIASES, WIDE_BIASES, THRESHOLD, MODES, CHANNELS, DEL_REG, DEL_REG_DUMMY,
      BEFORE_DEL_REG, AFTER_DEL_REG, CHANNELS_ON;
    Groups();
    GroupWidths();
    GroupSizes();
    GroupStart(BEFORE_DEL_REG + [DEL_REG] + DEL_REG_DUMMY, SWITCHES, [], 1, i);
  }

  lemma FirstSwitchFields()
    ensures IsField(26, BitField("ADC_test2", 1), 902) && IsField(27, BitField("ADC_test1", 1), 903)
    ensures IsField(28, BitField("Ileak_offset", 1), 904) && IsField(29, BitField("Reserved6", 1), 905)
    ensures IsField(30, BitField("VA_RO", 1), 906) && IsField(31, BitField("ADC_on_b", 1), 907)
    ensures IsField(32, BitField("Reserved5", 1), 908) && IsField(33, BitField("negQ", 1), 909)
    ensures IsField(34, BitField("Low_gain", 1), 910) && IsField(35, BitField("Test_on", 1), 911)
    ensures IsField(36, BitField("CC_on", 1), 912) && IsField(37, BitField("Nside", 1), 913)
  {
    hide IsField;
    SwitchField(0); SwitchField(1); SwitchField(2); SwitchField(3); SwitchField(4); SwitchField(5);
    SwitchField(6); SwitchField(7); SwitchField(8); SwitchField(9); SwitchField(10); SwitchField(11);
  }

  lemma SecondSwitchFields()
    ensures IsField(38, BitField("Slew_on_b", 1), 914) && IsField(39, BitField("Cal_gen_on", 1), 915)
    ensures IsField(40, BitField("Preb_hp", 1), 916) && IsField(41, BitField("Ck_en", 1), 917)
    ensures IsField(42, BitField("RO_all", 1), 918) && IsField(43, BitField("CM_thr_dis", 1), 919)
    ensures IsField(44, BitField("Iramp_f2", 1), 920) && IsField(45, BitField("Iramp_fb", 1), 921)
    ensures IsField(46, BitField("Reserved4", 1), 922) && IsField(47, BitField("Reserved3", 1), 923)
    ensures IsField(48, BitField("Reserved2", 1), 924) && IsField(49, BitField("Reserved1", 1), 925)
  {
    hide IsField;
    SwitchField(12); SwitchField(13); SwitchField(14); SwitchField(15); SwitchField(16); SwitchField(17);
    SwitchField(18); SwitchField(19); SwitchField(20); SwitchField(21); SwitchField(22); SwitchField(23);
  }

  lemma ThirdSwitchFields()
    ensures IsField(50, BitField("All2", 1), 926) && IsField(51, BitField("Cal_HDR", 1), 927)
    ensures IsField(52, BitField("Cal_HDR2", 1), 928) && IsField(53, BitField("C_cal6", 1), 929)
    ensures IsField(54, BitField("C_cal5", 1), 930) && IsField(55, BitField("C_cal4", 1), 931)
    ensures IsField(56, BitField("C_cal3", 1), 932) && IsField(57, BitField("C_cal2", 1), 933)
    ensures IsField(58, BitField("C_cal1", 1), 934) && IsField(59, BitField("C_cal0", 1), 935)
  {
    hide IsField;
    SwitchField(24); SwitchField(25); SwitchField(26); SwitchField(27); SwitchField(28); SwitchField(29);
    SwitchField(30); SwitchField(31); SwitchField(32); SwitchField(33);
  }

  lemma ChannelStarts()
    ensures TotalWidth(CHANNELS[..0]) == 0 && TotalWidth(CHANNELS[..1]) == 64 && TotalWidth(CHANNELS[..2]) == 320
    ensures TotalWidth(CHANNELS[..3]) == 384 && TotalWidth(CHANNELS[..4]) == 394 && TotalWidth(CHANNELS[..5]) == 458
  {
    assert CHANNELS[..5][..4] == CHANNELS[..4];
    assert CHANNELS[..4][..3] == CHANNELS[..3];
    assert CHANNELS[..3][..2] == CHANNELS[..2];
    assert CHANNELS[..2][..1] == CHANNELS[..1];
    assert CHANNELS[..1][..0] == [];
    assert TotalWidth(CHANNELS[..1]) == 64;
    assert TotalWidth(CHANNELS[..2]) == 320;
    assert TotalWidth(CHANNELS[..3]) == 384;
    assert TotalWidth(CHANNELS[..4]) == 394;
  }

  lemma ChannelField(i: nat)
    requires i < |CHANNELS|
    ensures IsField(18 + i, CHANNELS[i], 53 + TotalWidth(CHANNELS[..i]))
  {
    hide FIELDS, TotalWidth, Width, BIASES, WIDE_BIASES, THRESHOLD, MODES, CHANNELS, DEL_REG, DEL_REG_DUMMY, SWITCHES;
    var before := BIASES + WIDE_BIASES + THRESHOLD + MODES;
    GroupWidths();
    GroupSizes();
    PrefixOfGroup(before, CHANNELS, [DEL_REG] + AFTER_DEL_REG, i);
    WidthsAdd(before, CHANNELS[..i]);
    ChannelsFollow();
  }

  lemma ChannelsFollow()
    ensures BIASES + WIDE_BIASES + THRESHOLD + MODES + CHANNELS + ([DEL_REG] + AFTER_DEL_REG) == FIELDS
  {
    hide BIASES, WIDE_BIASES, THRESHOLD, MODES, CHANNELS, DEL_REG, DEL_REG_DUMMY, SWITCHES;
  }

  lemma ChannelFields()
    ensures IsField(18, BitFieldArray("Test_Enable", 1, 64), 53)
    ensures IsField(19, BitFieldArray("Trim_Dac", 4, 64), 117)
    ensures IsField(20, BitFieldArray("CH_Disable", 1, 64), 373) && IsField(21, BitField("DTHR", 10), 437)
    ensures IsField(22, BitFieldArray("Dis_chan_CM", 1, 64), 447)
    ensures IsField(23, BitField("Dis_chan_CMDummy", 1), 511)
  {
    hide IsField, TotalWidth;
    ChannelStarts();
    ChannelField(0); ChannelField(1); ChannelField(2); ChannelField(3); ChannelField(4); ChannelField(5);
  }

  // ---------------------------------------------------------------------------------------------
  // The numbers in the fields
  // ---------------------------------------------------------------------------------------------

  lemma {:induction false} SliceIsNumber(data: seq<bv8>, n: nat, k: nat, v: nat)
    requires n + k <= 8 * |data| && v < Pow2(k) && Unpack(data)[n..n + k] == BitsOf(v, k)
    ensures RawNumber(data, n, k) == v
    decreases k
  {
    hide BitAt, RawBit;
    if k > 0 {
      var slice := Unpack(data)[n..n + k];
      assert slice[..k - 1] == BitsOf(v / 2, k - 1) && slice[k - 1] == (v % 2 == 1);
      assert Unpack(data)[n..n + k - 1] == slice[..k - 1];
      assert slice[k - 1] == BitAt(data, n + k - 1);
      BitIsRaw(data, n + k - 1);
      SliceIsNumber(data, n, k - 1, v / 2);
    }
  }

  lemma FieldSlice(data: seq<bv8>, values: seq<Value>, k: nat)
    requires Decodes(data, values) && k < |FIELDS|
    ensures var start := TotalWidth(FIELDS[..k]);
            && |values| == |FIELDS| && Fits(FIELDS[k], values[k])
            && start + Width(FIELDS[k]) <= 8 * |data|
            && Unpack(data)[start..start + Width(FIELDS[k])] == FieldBits(FIELDS[k], values[k])
  {
    hide FIELDS, FieldBits, AllBits, Width, TotalWidth, Unpack;
    FieldPosition(FIELDS, values, k);
    var start, next := TotalWidth(FIELDS[..k]), TotalWidth(FIELDS[..k]) + Width(FIELDS[k]);
    assert Unpack(data)[start..next] == Unpack(data)[..TotalWidth(FIELDS)][start..next];
  }

  /** A field of the given bits holds the number that stands there, most significant bit first. */
  lemma ScalarIsRead(data: seq<bv8>, values: seq<Value>, k: nat, name: string, bits: nat, start: nat)
    requires Decodes(data, values) && IsField(k, BitField(name, bits), start)
    ensures k < |values| && values[k] == Scalar(RawNumber(data, start, bits))
  {
    hide FIELDS, Decodes, TotalWidth, BitsOf, RawNumber;
    FieldSlice(data, values, k);
    SliceIsNumber(data, start, bits, values[k].v);
  }

  // The place of number j in a row of numbers of the given width.
  function Place(start: nat, bits: nat, j: nat): nat {
    start + bits * j
  }

  // Field k is an array whose element i is v.
  predicate HasElement(values: seq<Value>, k: nat, i: nat, v: nat) {
    k < |values| && values[k].Vector? && i < |values[k].vs| && values[k].vs[i] == v
  }

  /** An array field holds its elements from the last one on: the number at place j is element size - 1 - j. */
  lemma ElementIsRead(data: seq<bv8>, values: seq<Value>, k: nat, name: string, bits: nat, size: nat, start: nat,
                      j: nat)
    requires Decodes(data, values) && IsField(k, BitFieldArray(name, bits, size), start) && j < size
    ensures HasElement(values, k, size - 1 - j, RawNumber(data, Place(start, bits, j), bits))
  {
    hide FIELDS, Decodes, TotalWidth, BitsOf, RawNumber, StreamBits, Unpack;
    FieldSlice(data, values, k);
    ElementInSlice(data, start, bits, values[k].vs, j);
  }

  lemma ElementInSlice(data: seq<bv8>, start: nat, bits: nat, vs: seq<nat>, j: nat)
    requires j < |vs| && vs[|vs| - 1 - j] < Pow2(bits) && start + bits * |vs| <= 8 * |data|
    requires Unpack(data)[start..start + bits * |vs|] == StreamBits(Backwards(vs), bits)
    ensures vs[|vs| - 1 - j] == RawNumber(data, start + bits * j, bits)
  {
    hide BitsOf, RawNumber, StreamBits, Unpack, Pow2;
    StreamPosition(Backwards(vs), bits, j);
    var from := bits * j;
    SliceOfSlice(Unpack(data), start, start + bits * |vs|, from, from + bits);
    SliceIsNumber(data, start + from, bits, vs[|vs| - 1 - j]);
  }

  /** The image of the values decodes to them, and bytes 117 to 127 are zero. */
  lemma ImageDecodes(values: seq<Value>, data: seq<bv8>)
    requires IsImage(values, data)
    ensures |data| == 128 && Decodes(data, values) && forall i | 117 <= i < 128 :: data[i] == 0
  {
    hide FIELDS, AllBits, InRange, Unpack;
    LayoutWidths();
    ImageRoundTrip(values, data, values);
    PaddingBits(data);
    assert Unpack(data)[936..] == Zeros(88);
  }

  // ---------------------------------------------------------------------------------------------
  // Four ASICs
  // ---------------------------------------------------------------------------------------------

  lemma {:induction false} NumberShifts(data: seq<bv8>, lo: nat, hi: nat, n: nat, k: nat)
    requires lo <= hi <= |data| && n + k <= 8 * (hi - lo)
    ensures RawNumber(data[lo..hi], n, k) == RawNumber(data, 8 * lo + n, k)
    decreases k
  {
    hide RawDigit;
    if k > 0 {
      NumberShifts(data, lo, hi, n, k - 1);
      DigitShifts(data, lo, hi, n + k - 1);
    }
  }

  lemma DigitShifts(data: seq<bv8>, lo: nat, hi: nat, p: nat)
    requires lo <= hi <= |data| && p < 8 * (hi - lo)
    ensures RawDigit(data[lo..hi], p) == RawDigit(data, 8 * lo + p)
  {
    assert (8 * lo + p) / 8 == lo + p / 8 && (8 * lo + p) % 8 == p % 8;
  }

  /** The image of ASIC i starts at bit 1024 * (3 - i) of the 512 bytes. */
  lemma BlockNumber(data: seq<bv8>, i: nat, n: nat, k: nat)
    requires |data| == 512 && i < 4 && n + k <= 1024
    ensures RawNumber(Block(data, i), n, k) == RawNumber(data, 1024 * (3 - i) + n, k)
  {
    hide RawNumber;
    NumberShifts(data, 128 * (3 - i), 128 * (4 - i), n, k);
  }
}
