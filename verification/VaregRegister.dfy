/** The Vareg objects of scripts/vareg.py: range-checked fields, packing and unpacking. */
module VaregRegister {
  import opened Bits
  import opened Vareg

  // ---------------------------------------------------------------------------------------------
  // The flattened fields
  // ---------------------------------------------------------------------------------------------

  datatype Entry = Entry(bits: nat, value: nat)

  function FlatWidth(flat: seq<Entry>): nat {
    if flat == [] then 0 else FlatWidth(flat[..|flat| - 1]) + flat[|flat| - 1].bits
  }

  function FlatBits(flat: seq<Entry>): (r: seq<bool>)
    ensures |r| == FlatWidth(flat)
  {
    if flat == [] then [] else
      FlatBits(flat[..|flat| - 1]) + BitsOf(flat[|flat| - 1].value, flat[|flat| - 1].bits)
  }

  lemma FlatBitsPush(flat: seq<Entry>, e: Entry)
    ensures FlatBits(flat + [e]) == FlatBits(flat) + BitsOf(e.value, e.bits)
    ensures FlatWidth(flat + [e]) == FlatWidth(flat) + e.bits
  {
    assert (flat + [e])[..|flat|] == flat;
  }

  lemma FlatBitsPrefix(flat: seq<Entry>, k: nat)
    requires k <= |flat|
    ensures FlatWidth(flat[..k]) <= FlatWidth(flat)
    ensures FlatBits(flat)[..FlatWidth(flat[..k])] == FlatBits(flat[..k])
    decreases |flat|
  {
    if k < |flat| {
      FlatBitsPrefix(flat[..|flat| - 1], k);
      assert flat[..|flat| - 1][..k] == flat[..k];
    } else {
      assert flat[..k] == flat;
    }
  }

  lemma FlatEntryWidth(flat: seq<Entry>, k: nat)
    requires k < |flat|
    ensures FlatWidth(flat[..k + 1]) == FlatWidth(flat[..k]) + flat[k].bits <= FlatWidth(flat)
    ensures FlatBits(flat[..k + 1]) == FlatBits(flat[..k]) + BitsOf(flat[k].value, flat[k].bits)
  {
    hide FlatBits, FlatWidth, BitsOf;
    assert flat[..k + 1] == flat[..k] + [flat[k]];
    FlatBitsPush(flat[..k], flat[k]);
    FlatBitsPrefix(flat, k + 1);
  }

  lemma FlatEntryBit(flat: seq<Entry>, k: nat, i: nat)
    requires k < |flat| && i < flat[k].bits
    ensures FlatWidth(flat[..k]) + i < FlatWidth(flat)
    ensures FlatBits(flat)[FlatWidth(flat[..k]) + i] == NumberBit(flat[k].value, flat[k].bits - 1 - i)
  {
    FlatEntryWidth(flat, k);
    FlatBitsPrefix(flat, k + 1);
    NumberBitIsBitOf(flat[k].value, flat[k].bits, i);
    hide FlatBits, FlatWidth;
    var n := FlatWidth(flat[..k]) + i;
    assert FlatBits(flat)[n] == FlatBits(flat)[..FlatWidth(flat[..k + 1])][n];
  }

  lemma StreamBitsPush(vs: seq<nat>, v: nat, bits: nat)
    ensures StreamBits(vs + [v], bits) == StreamBits(vs, bits) + BitsOf(v, bits)
  {
    assert (vs + [v])[..|vs|] == vs;
  }

  lemma AllBitsPush(specs: seq<Spec>, values: seq<Value>, k: nat)
    requires k < |specs| && k < |values|
    requires InRange(specs[..k], values[..k]) && Fits(specs[k], values[k])
    ensures InRange(specs[..k + 1], values[..k + 1])
    ensures AllBits(specs[..k + 1], values[..k + 1])
         == AllBits(specs[..k], values[..k]) + FieldBits(specs[k], values[k])
  {
    hide Fits, FieldBits;
    assert specs[..k + 1][..k] == specs[..k] && values[..k + 1][..k] == values[..k];
  }

  lemma NothingFlattened(flat: seq<Entry>, vs: seq<nat>, bits: nat)
    ensures FlatBits(flat) == FlatBits(flat) + StreamBits(vs[..0], bits)
  {
    assert vs[..0] == [];
  }

  // The entries of one field: a scalar, or an array from its last element down.
  method FlattenField(spec: Spec, value: Value, flat: seq<Entry>) returns (more: seq<Entry>)
    requires Fits(spec, value)
    ensures FlatBits(more) == FlatBits(flat) + FieldBits(spec, value)
  {
    hide FlatBits, FlatWidth, StreamBits, BitsOf;
    match spec
    case BitField(_, bits) =>
      FlatBitsPush(flat, Entry(bits, value.v));
      more := flat + [Entry(bits, value.v)];
    case BitFieldArray(_, bits, size) =>
      more := flat;
      ghost var backwards := Backwards(value.vs);
      NothingFlattened(flat, backwards, bits);
      for j := 0 to size
        invariant FlatBits(more) == FlatBits(flat) + StreamBits(backwards[..j], bits)
      {
        var e := Entry(bits, value.vs[size - 1 - j]);
        FlatBitsPush(more, e);
        StreamBitsPush(backwards[..j], e.value, bits);
        assert backwards[..j + 1] == backwards[..j] + [e.value];
        more := more + [e];
      }
      assert backwards[..size] == backwards;
  }

  // The packing loops: byte p / 8 takes bit p under the mask 1 << (7 - p % 8).
  method PackEntries(flat: seq<Entry>) returns (out: array<bv8>)
    requires FlatWidth(flat) <= 8 * IMAGE_BYTES
    ensures fresh(out) && out.Length == IMAGE_BYTES
    ensures forall p: nat | p < 8 * IMAGE_BYTES ::
              TestMask(out[p / 8], p % 8) == (p < FlatWidth(flat) && FlatBits(flat)[p])
  {
    hide FlatBits, FlatWidth, NumberBit, TestMask;
    out := new bv8[IMAGE_BYTES](_ => 0);
    var bitPos := 0;
    NothingPacked(flat);
    for k := 0 to |flat|
      invariant bitPos == FlatWidth(flat[..k]) <= FlatWidth(flat)
      invariant forall p: nat | p < 8 * IMAGE_BYTES ::
                  TestMask(out[p / 8], p % 8) == (p < bitPos && FlatBits(flat)[p])
    {
      FlatEntryWidth(flat, k);
      for i := 0 to flat[k].bits
        invariant forall p: nat | p < 8 * IMAGE_BYTES ::
                    TestMask(out[p / 8], p % 8) == (p < bitPos + i && FlatBits(flat)[p])
      {
        FlatEntryBit(flat, k, i);
        if NumberBit(flat[k].value, flat[k].bits - 1 - i) {
          SetBit(out, bitPos + i);
        }
      }
      bitPos := bitPos + flat[k].bits;
    }
    assert flat[..|flat|] == flat;
  }

  lemma NothingPacked(flat: seq<Entry>)
    ensures FlatWidth(flat[..0]) == 0 && forall k: nat | k < 8 :: !TestMask(0, k)
  {
  }

  method SetBit(out: array<bv8>, p: nat)
    requires p < 8 * out.Length
    modifies out
    ensures forall q: nat | q < 8 * out.Length ::
              TestMask(out[q / 8], q % 8) == (q == p || old(TestMask(out[q / 8], q % 8)))
  {
    out[p / 8] := out[p / 8] | Mask(p % 8);
    forall q: nat | q < 8 * out.Length
      ensures TestMask(out[q / 8], q % 8) == (q == p || old(TestMask(out[q / 8], q % 8)))
    {
      SetMask(old(out[p / 8]), p % 8, q % 8);
    }
  }

  lemma UnpackImage(flat: seq<Entry>, data: seq<bv8>)
    requires FlatWidth(flat) <= 8 * IMAGE_BYTES && |data| == IMAGE_BYTES
    requires forall p: nat | p < 8 * IMAGE_BYTES ::
               TestMask(data[p / 8], p % 8) == (p < FlatWidth(flat) && FlatBits(flat)[p])
    ensures Unpack(data) == FlatBits(flat) + Zeros(8 * IMAGE_BYTES - FlatWidth(flat))
  {
    hide FlatBits, TestMask;
    assert forall p: nat | p < 8 * IMAGE_BYTES :: BitAt(data, p) == TestMask(data[p / 8], p % 8);
  }

  // ---------------------------------------------------------------------------------------------
  // Unpacking
  // ---------------------------------------------------------------------------------------------

  lemma NatOfPush(bits: seq<bool>, bit: bool)
    ensures NatOf(bits + [bit]) == 2 * NatOf(bits) + Digit(bit)
  {
    assert (bits + [bit])[..|bits|] == bits;
  }

  lemma ScaledPush(v: nat, d: nat, n: nat)
    ensures v * Pow2(n + 1) + d * Pow2(n) == (2 * v + d) * Pow2(n)
  {
    assert Pow2(n + 1) == 2 * Pow2(n);
  }

  lemma ReadStep(all: seq<bool>, start: nat, p: nat, left: nat)
    requires start <= p < |all|
    ensures NatOf(all[start..p + 1]) * Pow2(left)
         == NatOf(all[start..p]) * Pow2(left + 1) + (if all[p] then Pow2(left) else 0)
  {
    hide NatOf, Pow2;
    assert all[start..p + 1] == all[start..p] + [all[p]];
    NatOfPush(all[start..p], all[p]);
    ScaledPush(NatOf(all[start..p]), Digit(all[p]), left);
  }

  method ReadNumber(data: seq<bv8>, bitPos: nat, bits: nat) returns (value: nat)
    requires bitPos + bits <= 8 * |data|
    ensures value < Pow2(bits) && BitsOf(value, bits) == Unpack(data)[bitPos..bitPos + bits]
  {
    hide NatOf, Pow2, BitsOf;
    value := 0;
    ghost var all := Unpack(data);
    NothingRead(Pow2(bits));
    assert all[bitPos..bitPos] == [];
    for i := 0 to bits
      invariant value == NatOf(all[bitPos..bitPos + i]) * Pow2(bits - i)
    {
      ReadStep(all, bitPos, bitPos + i, bits - i - 1);
      if BitAt(data, bitPos + i) {
        value := value + Pow2(bits - i - 1);
      }
    }
    BitsOfNatOf(all[bitPos..bitPos + bits]);
  }

  lemma NothingRead(p: nat)
    ensures NatOf([]) * p == 0 && Pow2(0) == 1
  {
  }

  method ReadArray(data: seq<bv8>, start: nat, bits: nat, size: nat) returns (arr: seq<nat>)
    requires start + bits * size <= 8 * |data|
    ensures |arr| == size && forall i | 0 <= i < size :: arr[i] < Pow2(bits)
    ensures StreamBits(Backwards(arr), bits) == Unpack(data)[start..start + bits * size]
  {
    hide StreamBits, BitsOf, Unpack, Pow2;
    var read: seq<nat> := [];
    var bitPos := start;
    NothingStreamed(bits);
    assert Unpack(data)[start..start] == [];
    for j := 0 to size
      invariant |read| == j && bitPos == start + bits * j
      invariant forall i | 0 <= i < j :: read[i] < Pow2(bits)
      invariant bitPos <= 8 * |data|
      invariant StreamBits(read, bits) == Unpack(data)[start..bitPos]
    {
      RoomForOneMore(bits, j, size);
      var value := ReadNumber(data, bitPos, bits);
      StreamBitsPush(read, value, bits);
      assert Unpack(data)[start..bitPos + bits]
          == Unpack(data)[start..bitPos] + Unpack(data)[bitPos..bitPos + bits];
      read := read + [value];
      bitPos := bitPos + bits;
    }
    arr := Backwards(read);
    BackwardsTwice(read);
  }

  lemma NothingStreamed(bits: nat)
    ensures StreamBits([], bits) == []
  {
  }

  lemma RoomForOneMore(bits: nat, j: nat, size: nat)
    requires j < size
    ensures bits * j + bits == bits * (j + 1) <= bits * size
  {
  }

  // The fields that data holds completely, with their bits; an index error stops the loop at the next one.
  ghost predicate Unpacked(specs: seq<Spec>, data: seq<bv8>, values: seq<Value>) {
    var n := |values|;
    && n <= |specs| && InRange(specs[..n], values)
    && TotalWidth(specs[..n]) <= 8 * |data|
    && Unpack(data)[..TotalWidth(specs[..n])] == AllBits(specs[..n], values)
    && (n < |specs| ==> TotalWidth(specs[..n + 1]) > 8 * |data|)
  }

  method UnpackFields(specs: seq<Spec>, data: seq<bv8>) returns (values: seq<Value>)
    ensures Unpacked(specs, data, values)
  {
    hide AllBits, InRange, TotalWidth, Width, Fits, FieldBits;
    values := [];
    var bitPos := 0;
    ghost var all := Unpack(data);
    NothingUnpacked(specs);
    assert all[..0] == [];
    for k := 0 to |specs|
      invariant |values| == k && InRange(specs[..k], values)
      invariant bitPos == TotalWidth(specs[..k]) <= 8 * |data|
      invariant all[..bitPos] == AllBits(specs[..k], values)
    {
      WidthOfPrefix(specs, k);
      var ok, value := ReadField(specs[k], data, bitPos);
      if !ok {
        return;
      }
      assert (values + [value])[..k] == values && (values + [value])[..k + 1] == values + [value];
      AllBitsPush(specs, values + [value], k);
      var next := bitPos + Width(specs[k]);
      assert all[..next] == all[..bitPos] + all[bitPos..next];
      values := values + [value];
      bitPos := next;
    }
  }

  lemma NothingUnpacked(specs: seq<Spec>)
    ensures InRange(specs[..0], []) && TotalWidth(specs[..0]) == 0 && AllBits(specs[..0], []) == []
  {
  }

  // A field that ends behind the data raises an index error before it is stored.
  method ReadField(spec: Spec, data: seq<bv8>, bitPos: nat) returns (ok: bool, value: Value)
    ensures ok == (bitPos + Width(spec) <= 8 * |data|)
    ensures ok ==> Fits(spec, value) && FieldBits(spec, value) == Unpack(data)[bitPos..bitPos + Width(spec)]
  {
    ok, value := bitPos + Width(spec) <= 8 * |data|, Scalar(0);
    if !ok {
      return;
    }
    match spec
    case BitField(_, bits) =>
      var v := ReadNumber(data, bitPos, bits);
      value := Scalar(v);
    case BitFieldArray(_, bits, size) =>
      var vs := ReadArray(data, bitPos, bits, size);
      value := Vector(vs);
  }

  lemma WidthOfPrefix(specs: seq<Spec>, k: nat)
    requires k < |specs|
    ensures TotalWidth(specs[..k + 1]) == TotalWidth(specs[..k]) + Width(specs[k]) <= TotalWidth(specs)
  {
    hide Width;
    assert specs[..k + 1] == specs[..k] + [specs[k]];
    assert specs[..k + 1][..k] == specs[..k];
    WidthsAdd(specs[..k + 1], specs[k + 1..]);
    assert specs[..k + 1] + specs[k + 1..] == specs;
  }

  datatype Outcome = Stored | IndexError | ValueError

  // Attributes that were never assigned read as zero.
  function ZeroValue(spec: Spec): (v: Value)
    ensures Fits(spec, v)
  {
    match spec
    case BitField(_, _) => Scalar(0)
    case BitFieldArray(_, _, size) => Vector(seq(size, _ => 0))
  }

  class Register {
    var values: seq<Value>

    constructor ()
      ensures Valid()
      ensures forall k | 0 <= k < |FIELDS| :: values[k] == ZeroValue(FIELDS[k])
    {
      values := seq(|FIELDS|, k requires 0 <= k < |FIELDS| => ZeroValue(FIELDS[k]));
    }

    ghost predicate Valid()
      reads this
    {
      InRange(FIELDS, values)
    }

    // BitField.__set__
    method SetField(k: nat, v: int) returns (r: Outcome)
      requires Valid() && k < |FIELDS| && FIELDS[k].BitField?
      modifies this
      ensures Valid()
      ensures r == if 0 <= v < Pow2(FIELDS[k].bits) then Stored else ValueError
      ensures values == if r.Stored? then old(values)[k := Scalar(v)] else old(values)
    {
      if 0 <= v < Pow2(FIELDS[k].bits) { values := values[k := Scalar(v)]; r := Stored; } else { r := ValueError; }
    }

    // BitFieldArrayView.__setitem__
    method SetElement(k: nat, i: int, v: int) returns (r: Outcome)
      requires Valid() && k < |FIELDS| && FIELDS[k].BitFieldArray?
      modifies this
      ensures Valid()
      ensures r == if !(0 <= i < FIELDS[k].size) then IndexError
                   else if 0 <= v < Pow2(FIELDS[k].bits) then Stored else ValueError
      ensures values == if r.Stored? then old(values)[k := Vector(old(values)[k].vs[i := v])] else old(values)
    {
      assert Fits(FIELDS[k], values[k]);
      if !(0 <= i < FIELDS[k].size) {
        return IndexError;
      }
      if !(0 <= v < Pow2(FIELDS[k].bits)) {
        return ValueError;
      }
      values := values[k := Vector(values[k].vs[i := v])];
      r := Stored;
    }

    // BitFieldArray.__set__
    method SetArray(k: nat, vs: seq<int>) returns (r: Outcome)
      requires Valid() && k < |FIELDS| && FIELDS[k].BitFieldArray?
      modifies this
      ensures Valid()
      ensures r.Stored? <==> |vs| == FIELDS[k].size && forall i | 0 <= i < |vs| :: 0 <= vs[i] < Pow2(FIELDS[k].bits)
      ensures !r.IndexError?
      ensures r.ValueError? ==> values == old(values)
      ensures r.Stored? ==> values == old(values)[k := values[k]] && values[k].Vector? && values[k].vs == vs
    {
      if |vs| != FIELDS[k].size {
        return ValueError;
      }
      var checked: seq<nat> := [];
      for i := 0 to |vs|
        invariant checked == vs[..i]
        invariant forall j | 0 <= j < i :: 0 <= vs[j] < Pow2(FIELDS[k].bits)
      {
        if !(0 <= vs[i] < Pow2(FIELDS[k].bits)) {
          return ValueError;
        }
        checked := checked + [vs[i]];
      }
      assert checked == vs;
      values := values[k := Vector(checked)];
      r := Stored;
    }

    // Vareg._flatten
    method Flatten() returns (flat: seq<Entry>)
      requires Valid()
      ensures FlatBits(flat) == AllBits(FIELDS, values)
    {
      flat := [];
      for k := 0 to |FIELDS|
        invariant InRange(FIELDS[..k], values[..k])
        invariant FlatBits(flat) == AllBits(FIELDS[..k], values[..k])
      {
        assert Fits(FIELDS[k], values[k]);
        AllBitsPush(FIELDS, values, k);
        flat := FlattenField(FIELDS[k], values[k], flat);
      }
      assert FIELDS[..|FIELDS|] == FIELDS && values[..|FIELDS|] == values;
    }

    // Vareg.to_bytearray
    method ToByteArray() returns (out: array<bv8>)
      requires Valid()
      ensures fresh(out) && IsImage(values, out[..])
    {
      var flat := Flatten();
      LayoutWidths();
      out := PackEntries(flat);
      UnpackImage(flat, out[..]);
    }

    // Vareg.from_bytearray; after an index error the fields read so far are stored, the others untouched.
    method FromByteArray(data: seq<bv8>) returns (r: Outcome)
      requires Valid()
      modifies this
      ensures Valid()
      ensures r == if TotalWidth(FIELDS) <= 8 * |data| then Stored else IndexError
      ensures r.Stored? ==> Decodes(data, values)
      ensures ReadAsFarAs(data, values, old(values))
    {
      hide FIELDS, AllBits, TotalWidth, Fits;
      var decoded := UnpackFields(FIELDS, data);
      ghost var n := |decoded|;
      PrefixesAreNarrower(FIELDS, data, decoded);
      PartlyInRange(FIELDS, decoded, values);
      values := decoded + values[|decoded|..];
      assert values[..n] == decoded && values[n..] == old(values)[n..];
      assert |decoded| == |FIELDS| ==> values == decoded;
      r := if |decoded| == |FIELDS| then Stored else IndexError;
    }
  }

  // The fields data holds completely are read, the others as before.
  ghost predicate ReadAsFarAs(data: seq<bv8>, values: seq<Value>, before: seq<Value>) {
    |values| == |before|
    && exists n: nat :: n <= |values| && Unpacked(FIELDS, data, values[..n]) && values[n..] == before[n..]
  }

  lemma PartlyInRange(specs: seq<Spec>, values: seq<Value>, before: seq<Value>)
    requires |values| <= |specs| && InRange(specs[..|values|], values) && InRange(specs, before)
    ensures InRange(specs, values + before[|values|..])
  {
    hide Fits;
    assert forall k | 0 <= k < |values| :: specs[..|values|][k] == specs[k];
  }

  lemma PrefixesAreNarrower(specs: seq<Spec>, data: seq<bv8>, values: seq<Value>)
    requires Unpacked(specs, data, values)
    ensures |values| == |specs| <==> TotalWidth(specs) <= 8 * |data|
    ensures specs[..|specs|] == specs
  {
    hide AllBits, TotalWidth, InRange;
    if |values| < |specs| {
      WidthOfPrefix(specs, |values|);
    }
    assert specs[..|specs|] == specs;
  }
}
