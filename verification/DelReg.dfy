/** scripts/set_delreg.py: new Del_reg trims from median pedestals. Pedestals are half-integers and
    are held doubled, so that the arithmetic is exact. */
module DelReg {
  import opened Bits
  import opened Vareg
  import opened VaregRegister
  import opened VaregImage
  import opened VaregLayout
  import opened RawBits
  import Base64

  const CHANNEL_COUNT := 64
  const MAX_TRIM := 63

  // Python's round(d2 / 2): ties go to the even neighbour.
  function RoundHalf(d2: int): int {
    if d2 % 2 == 0 then d2 / 2
    else if d2 / 2 % 2 == 0 then d2 / 2
    else d2 / 2 + 1
  }

  function Clamp(v: int): nat {
    if v < 0 then 0 else if v > MAX_TRIM then MAX_TRIM else v
  }

  function Highest(u: seq<int>): (m: int)
    requires u != []
    ensures m in u && forall i | 0 <= i < |u| :: u[i] <= m
  {
    if |u| == 1 then u[0] else
      var m := Highest(u[..|u| - 1]);
      if m >= u[|u| - 1] then m else u[|u| - 1]
  }

  // Doubled pedestals with the present trims taken off.
  function Untrimmed(pedestals2: seq<int>, trims: seq<nat>): (u: seq<int>)
    requires |pedestals2| == |trims|
    ensures |u| == |trims| && forall c | 0 <= c < |u| :: u[c] == pedestals2[c] - 2 * trims[c]
  {
    seq(|trims|, c requires 0 <= c < |trims| => pedestals2[c] - 2 * trims[c])
  }

  function Trims(u: seq<int>): (t: seq<nat>)
    requires u != []
    ensures |t| == |u| && forall c | 0 <= c < |u| :: t[c] == Clamp(RoundHalf(Highest(u) - u[c]))
  {
    seq(|u|, c requires 0 <= c < |u| => Clamp(RoundHalf(Highest(u) - u[c])))
  }

  // ---------------------------------------------------------------------------------------------
  // What the trims achieve
  // ---------------------------------------------------------------------------------------------

  function Abs(x: int): nat {
    if x < 0 then -x else x
  }

  // The doubled pedestal of channel c under the trims t.
  function Trimmed(u: seq<int>, t: seq<nat>, c: nat): int
    requires c < |u| == |t|
  {
    u[c] + 2 * t[c]
  }

  /** A channel ends within 1/2 of the highest untrimmed value exactly when it started within 63.5. */
  lemma TrimReaches(u: seq<int>, c: nat)
    requires c < |u|
    ensures Trims(u)[c] <= MAX_TRIM
    ensures Abs(Trimmed(u, Trims(u), c) - Highest(u)) <= 1 <==> Highest(u) - u[c] <= 127
  {
    hide Abs, Clamp, RoundHalf, Highest;
    ClampedRounding(Highest(u) - u[c]);
    assert Trimmed(u, Trims(u), c) - Highest(u) == 2 * Clamp(RoundHalf(Highest(u) - u[c])) - (Highest(u) - u[c]);
  }

  // r is d2 / 2 rounded to the nearest integer; of two that are equally near, the even one.
  predicate IsRounded(d2: int, r: int) {
    if d2 % 2 == 0 then 2 * r == d2 else r % 2 == 0 && (2 * r == d2 - 1 || 2 * r == d2 + 1)
  }

  lemma RoundingIsToEven(d2: int, r: int)
    ensures r == RoundHalf(d2) <==> IsRounded(d2, r)
  {
  }

  lemma ClampedRounding(x: int)
    requires 0 <= x
    ensures Clamp(RoundHalf(x)) <= MAX_TRIM
    ensures Abs(2 * Clamp(RoundHalf(x)) - x) <= 1 <==> x <= 127
  {
  }

  lemma TrimsAlign(u: seq<int>, a: nat, b: nat)
    requires a < |u| && b < |u|
    requires Highest(u) - u[a] <= 127 && Highest(u) - u[b] <= 127
    ensures Abs(Trimmed(u, Trims(u), a) - Trimmed(u, Trims(u), b)) <= 2
  {
    hide Trims, RoundHalf, Clamp, Highest;
    TrimReaches(u, a);
    TrimReaches(u, b);
  }

  /** A lower channel never gets a smaller trim. */
  lemma TrimsAreMonotone(u: seq<int>, a: nat, b: nat)
    requires a < |u| && b < |u| && u[a] <= u[b]
    ensures Trims(u)[a] >= Trims(u)[b]
  {
    RoundingIsMonotone(Highest(u) - u[b], Highest(u) - u[a]);
  }

  lemma RoundingIsMonotone(x: int, y: int)
    requires x <= y
    ensures RoundHalf(x) <= RoundHalf(y)
  {
  }

  /** Calibrating again on the pedestals the new trims predict changes nothing. */
  lemma TrimsAreFixed(u: seq<int>, predicted2: seq<int>)
    requires u != [] && |predicted2| == |u|
    requires forall c | 0 <= c < |u| :: predicted2[c] == Trimmed(u, Trims(u), c)
    ensures Trims(Untrimmed(predicted2, Trims(u))) == Trims(u)
  {
    assert Untrimmed(predicted2, Trims(u)) == u;
  }

  // ---------------------------------------------------------------------------------------------
  // The calibration loops
  // ---------------------------------------------------------------------------------------------

  ghost function Calibrated(values: seq<Value>, pedestals2: seq<int>): (r: seq<Value>)
    requires InRange(FIELDS, values) && |pedestals2| == CHANNEL_COUNT
  {
    LayoutWidths();
    assert Fits(FIELDS[DEL_REG_INDEX], values[DEL_REG_INDEX]);
    values[DEL_REG_INDEX := Vector(Trims(Untrimmed(pedestals2, values[DEL_REG_INDEX].vs)))]
  }

  method CalibrateAsic(asic: Register, pedestals2: seq<int>)
    requires asic.Valid() && |pedestals2| == CHANNEL_COUNT
    modifies asic
    ensures asic.Valid()
    ensures asic.values == Calibrated(old(asic.values), pedestals2)
  {
    LayoutWidths();
    hide FIELDS;
    assert Fits(FIELDS[DEL_REG_INDEX], asic.values[DEL_REG_INDEX]);
    var trims := asic.values[DEL_REG_INDEX].vs;
    var untrimmed: seq<int> := [];
    for channel := 0 to 64
      invariant untrimmed == Untrimmed(pedestals2, trims)[..channel]
    {
      untrimmed := untrimmed + [pedestals2[channel] - 2 * trims[channel]];
    }
    assert untrimmed == Untrimmed(pedestals2, trims);
    AssignTrims(asic, untrimmed);
  }

  method AssignTrims(asic: Register, untrimmed: seq<int>)
    requires asic.Valid() && |untrimmed| == CHANNEL_COUNT
    modifies asic
    ensures asic.Valid()
    ensures asic.values == old(asic.values)[DEL_REG_INDEX := Vector(Trims(untrimmed))]
  {
    LayoutWidths();
    PowerOfSix();
    hide FIELDS, Trims, Clamp, RoundHalf, Highest, Pow2;
    var highest := Max(untrimmed);
    assert Fits(FIELDS[DEL_REG_INDEX], asic.values[DEL_REG_INDEX]);
    for channel := 0 to 64
      invariant asic.Valid()
      invariant asic.values[DEL_REG_INDEX].Vector? && |asic.values[DEL_REG_INDEX].vs| == 64
      invariant asic.values == old(asic.values)[DEL_REG_INDEX := asic.values[DEL_REG_INDEX]]
      invariant asic.values[DEL_REG_INDEX].vs[..channel] == Trims(untrimmed)[..channel]
    {
      ghost var before := asic.values[DEL_REG_INDEX].vs;
      var trim := Clamp(RoundHalf(highest - untrimmed[channel]));
      ClampFits(RoundHalf(highest - untrimmed[channel]));
      var r := asic.SetElement(DEL_REG_INDEX, channel, trim);
      assert asic.values[DEL_REG_INDEX].vs == before[channel := trim];
    }
    assert asic.values[DEL_REG_INDEX].vs == Trims(untrimmed);
  }

  lemma ClampFits(v: int)
    ensures Clamp(v) < 64
  {
  }

  lemma PowerOfSix()
    ensures Pow2(6) == 64
  {
    assert Pow2(3) == 8;
  }

  method Max(u: seq<int>) returns (m: int)
    requires u != []
    ensures m == Highest(u)
  {
    m := u[0];
    for i := 1 to |u|
      invariant m in u[..i] && forall j | 0 <= j < i :: u[j] <= m
    {
      if u[i] > m {
        m := u[i];
      }
    }
  }

  // ---------------------------------------------------------------------------------------------
  // What a calibration changes in the image
  // ---------------------------------------------------------------------------------------------

  lemma DelRegSpan()
    ensures |FIELDS| > DEL_REG_INDEX && FIELDS[DEL_REG_INDEX] == DEL_REG
    ensures TotalWidth(FIELDS[..DEL_REG_INDEX]) == 512 && Width(DEL_REG) == 384
    ensures TotalWidth(FIELDS) == 936
  {
    LayoutWidths();
    assert FIELDS[..DEL_REG_INDEX] == BEFORE_DEL_REG;
  }

  lemma OtherFieldBitsStay(values: seq<Value>, trims: seq<nat>, n: nat)
    requires InRange(FIELDS, values) && DEL_REG_INDEX < |values|
    requires InRange(FIELDS, values[DEL_REG_INDEX := Vector(trims)])
    requires n < 936 && !(512 <= n < 896)
    ensures TotalWidth(FIELDS) == 936
    ensures AllBits(FIELDS, values)[n] == AllBits(FIELDS, values[DEL_REG_INDEX := Vector(trims)])[n]
  {
    DelRegSpan();
    hide FIELDS, AllBits, Fits, TotalWidth, Width;
    UnchangedElsewhere(FIELDS, values, values[DEL_REG_INDEX := Vector(trims)], DEL_REG_INDEX, n);
  }

  /** Outside bits 512..895 of its 128 bytes the image of one ASIC stays as it was. */
  lemma OnlyDelRegBitsChange(data: seq<bv8>, values: seq<Value>, trims: seq<nat>, out: seq<bv8>, n: nat)
    requires PaddingIsZero(data) && Decodes(data, values)
    requires DEL_REG_INDEX < |values| && IsImage(values[DEL_REG_INDEX := Vector(trims)], out)
    requires n < 8 * IMAGE_BYTES && !(512 <= n < 896)
    ensures BitAt(out, n) == BitAt(data, n)
  {
    LayoutWidths();
    PaddingBits(data);
    var changed := values[DEL_REG_INDEX := Vector(trims)];
    hide FIELDS, AllBits, InRange, TotalWidth, BitAt, PaddingIsZero;
    if n < 936 {
      OtherFieldBitsStay(values, trims, n);
      assert Unpack(data)[n] == Unpack(data)[..936][n];
      assert Unpack(out)[n] == AllBits(FIELDS, changed)[n];
    } else {
      assert Unpack(data)[n] == Unpack(data)[936..][n - 936];
      assert Unpack(out)[n] == Zeros(88)[n - 936];
    }
  }

  lemma DelRegBits(values: seq<Value>, data: seq<bv8>)
    requires IsImage(values, data)
    ensures |values| > DEL_REG_INDEX && values[DEL_REG_INDEX].Vector? && |values[DEL_REG_INDEX].vs| == 64
    ensures Unpack(data)[512..896] == StreamBits(Backwards(values[DEL_REG_INDEX].vs), 6)
  {
    DelRegSpan();
    assert Fits(FIELDS[DEL_REG_INDEX], values[DEL_REG_INDEX]);
    FieldPosition(FIELDS, values, DEL_REG_INDEX);
    hide FIELDS, AllBits, InRange, TotalWidth, StreamBits;
    assert Unpack(data)[512..896] == AllBits(FIELDS, values)[512..896];
  }

  /** Channel c takes the six bits from 512 + 6 * (63 - c). */
  lemma TrimPosition(values: seq<Value>, data: seq<bv8>, c: nat)
    requires IsImage(values, data) && c < 64
    ensures |values| > DEL_REG_INDEX && values[DEL_REG_INDEX].Vector? && |values[DEL_REG_INDEX].vs| == 64
    ensures Unpack(data)[512 + 6 * (63 - c)..512 + 6 * (63 - c) + 6] == BitsOf(values[DEL_REG_INDEX].vs[c], 6)
  {
    hide FIELDS, AllBits, InRange, TotalWidth, StreamBits, BitsOf, IsImage;
    DelRegBits(values, data);
    ImageLengths(values, data);
    var vs, from := values[DEL_REG_INDEX].vs, 6 * (63 - c);
    StreamPosition(Backwards(vs), 6, 63 - c);
    SliceOfSlice(Unpack(data), 512, 896, from, from + 6);
  }

  // ---------------------------------------------------------------------------------------------
  // The whole program: load, calibrate asic 0..3, save
  // ---------------------------------------------------------------------------------------------

  ghost predicate AllInRange(asics: seq<seq<Value>>) {
    |asics| == 4 && forall i | 0 <= i < 4 :: InRange(FIELDS, asics[i])
  }

  ghost function Calibrated4(asics: seq<seq<Value>>, pedestals2: seq<int>): (r: seq<seq<Value>>)
    requires AllInRange(asics) && |pedestals2| == 4 * CHANNEL_COUNT
  {
    [Calibrated(asics[0], pedestals2[..64]), Calibrated(asics[1], pedestals2[64..128]),
     Calibrated(asics[2], pedestals2[128..192]), Calibrated(asics[3], pedestals2[192..])]
  }

  // ---------------------------------------------------------------------------------------------
  // The new trims, told from the bytes
  // ---------------------------------------------------------------------------------------------

  // The trim of channel c of ASIC i in the 512 bytes of four images.
  function TrimAt(data: seq<bv8>, i: nat, c: nat): nat
    requires i < 4 && c < 64
  {
    RawNumber(data, 1024 * (3 - i) + 512 + 6 * (63 - c), 6)
  }

  // Its doubled pedestal without the trim: pedestals come ASIC by ASIC.
  function Base2(data: seq<bv8>, pedestals2: seq<int>, i: nat, c: nat): int
    requires i < 4 && c < 64 && |pedestals2| == 256
  {
    pedestals2[64 * i + c] - 2 * TrimAt(data, i, c)
  }

  ghost predicate IsHighest(data: seq<bv8>, pedestals2: seq<int>, i: nat, h: int)
    requires i < 4 && |pedestals2| == 256
  {
    && (forall c: nat | c < 64 :: Base2(data, pedestals2, i, c) <= h)
    && exists c: nat :: c < 64 && Base2(data, pedestals2, i, c) == h
  }

  // Half of d2, rounded, and 63 at most.
  ghost predicate IsLimited(d2: int, t: nat) {
    exists r: int :: IsRounded(d2, r) && t == if r > 63 then 63 else r
  }

  // The trim that lifts channel c to the highest one of its ASIC.
  ghost predicate IsNewTrim(data: seq<bv8>, pedestals2: seq<int>, i: nat, c: nat, t: nat)
    requires i < 4 && c < 64 && |pedestals2| == 256
  {
    exists h: int :: IsHighest(data, pedestals2, i, h) && IsLimited(h - Base2(data, pedestals2, i, c), t)
  }

  ghost predicate HasNewTrims(data: seq<bv8>, pedestals2: seq<int>, out: seq<bv8>)
    requires |pedestals2| == 256
  {
    forall i: nat, c: nat | i < 4 && c < 64 :: IsNewTrim(data, pedestals2, i, c, TrimAt(out, i, c))
  }

  lemma TrimIsRead(data: seq<bv8>, values: seq<Value>, i: nat, c: nat)
    requires |data| == 512 && i < 4 && c < 64 && Decodes(Block(data, i), values)
    ensures HasElement(values, DEL_REG_INDEX, c, TrimAt(data, i, c))
  {
    hide Decodes, IsField, RawNumber, Block;
    DelRegField();
    ElementIsRead(Block(data, i), values, 24, "Del_reg", 6, 64, 512, 63 - c);
    BlockNumber(data, i, 512 + 6 * (63 - c), 6);
  }

  // The same for a whole ASIC.
  lemma TrimsAreRead(data: seq<bv8>, values: seq<Value>, i: nat)
    requires |data| == 512 && i < 4 && Decodes(Block(data, i), values)
    requires DEL_REG_INDEX < |values| && values[DEL_REG_INDEX].Vector? && |values[DEL_REG_INDEX].vs| == 64
    ensures forall c: nat | c < 64 :: values[DEL_REG_INDEX].vs[c] == TrimAt(data, i, c)
  {
    hide Decodes, TrimAt, Block;
    forall c: nat | c < 64 ensures values[DEL_REG_INDEX].vs[c] == TrimAt(data, i, c) {
      TrimIsRead(data, values, i, c);
    }
  }

  // What the loops compute is the new trim.
  lemma ComputedTrim(data: seq<bv8>, pedestals2: seq<int>, i: nat, u: seq<int>, c: nat)
    requires i < 4 && c < 64 && |pedestals2| == 256 && |u| == 64
    requires forall k: nat | k < 64 :: u[k] == Base2(data, pedestals2, i, k)
    ensures IsNewTrim(data, pedestals2, i, c, Trims(u)[c])
  {
    hide Base2, IsLimited, Clamp, RoundHalf;
    var h := Highest(u);
    LimitedRounding(h - u[c]);
    var at :| 0 <= at < |u| && u[at] == h;
    assert Base2(data, pedestals2, i, at) == h;
    assert IsHighest(data, pedestals2, i, h);
  }

  lemma LimitedRounding(d2: int)
    requires d2 >= 0
    ensures IsLimited(d2, Clamp(RoundHalf(d2)))
  {
    assert IsRounded(d2, RoundHalf(d2));
  }

  lemma AsicHasNewTrims(data: seq<bv8>, values: seq<Value>, pedestals2: seq<int>, out: seq<bv8>, i: nat)
    requires |data| == |out| == 512 && i < 4 && |pedestals2| == 256 && InRange(FIELDS, values)
    requires Decodes(Block(data, i), values)
    requires IsImage(Calibrated(values, pedestals2[64 * i..64 * i + 64]), Block(out, i))
    ensures forall c: nat | c < 64 :: IsNewTrim(data, pedestals2, i, c, TrimAt(out, i, c))
  {
    hide FIELDS, Decodes, InRange, IsImage, IsNewTrim, Trims, TrimAt, Block;
    LayoutWidths();
    assert Fits(FIELDS[DEL_REG_INDEX], values[DEL_REG_INDEX]) by { DelRegFits(values); }
    var slice := pedestals2[64 * i..64 * i + 64];
    var u := Untrimmed(slice, values[DEL_REG_INDEX].vs);
    TrimsAreRead(data, values, i);
    assert forall k: nat | k < 64 :: u[k] == Base2(data, pedestals2, i, k);
    ImageDecodes(Calibrated(values, slice), Block(out, i));
    TrimsAreRead(out, Calibrated(values, slice), i);
    forall c: nat | c < 64 ensures IsNewTrim(data, pedestals2, i, c, TrimAt(out, i, c)) {
      ComputedTrim(data, pedestals2, i, u, c);
    }
  }

  lemma DelRegFits(values: seq<Value>)
    requires InRange(FIELDS, values)
    ensures |FIELDS| > DEL_REG_INDEX && |values| > DEL_REG_INDEX && Fits(FIELDS[DEL_REG_INDEX], values[DEL_REG_INDEX])
  {
    LayoutWidths();
  }

  /** Every trim of the new image is the one that lifts its channel to the highest of its ASIC. */
  lemma SavedTrims(data: seq<bv8>, asics: seq<seq<Value>>, pedestals2: seq<int>, out: seq<bv8>)
    requires Decodes4(data, asics) && AllInRange(asics) && |pedestals2| == 256
    requires IsImage4(Calibrated4(asics, pedestals2), out)
    ensures HasNewTrims(data, pedestals2, out)
  {
    hide FIELDS, Decodes, InRange, IsImage, IsNewTrim, Calibrated, Calibrated4, Block, TrimAt;
    forall i: nat, c: nat | i < 4 && c < 64 ensures IsNewTrim(data, pedestals2, i, c, TrimAt(out, i, c)) {
      AsicOfCalibration(asics, pedestals2, i);
      AsicHasNewTrims(data, asics[i], pedestals2, out, i);
    }
  }

  lemma AsicOfCalibration(asics: seq<seq<Value>>, pedestals2: seq<int>, i: nat)
    requires AllInRange(asics) && |pedestals2| == 256 && i < 4
    ensures Calibrated4(asics, pedestals2)[i] == Calibrated(asics[i], pedestals2[64 * i..64 * i + 64])
  {
    hide FIELDS, InRange, Calibrated;
    assert pedestals2[0..64] == pedestals2[..64] && pedestals2[192..256] == pedestals2[192..];
  }

  datatype SaveResult = Saved(text: seq<bv8>) | BadPedestals | BadRegister(why: LoadResult)

  method CalibrateAll(register: Vareg4Asic, pedestals2: seq<int>)
    requires register.Valid() && |pedestals2| == 4 * CHANNEL_COUNT
    modifies register.asic0, register.asic1, register.asic2, register.asic3
    ensures register.Valid()
    ensures AllInRange(old(register.Asics()))
    ensures register.Asics() == Calibrated4(old(register.Asics()), pedestals2)
  {
    hide FIELDS, Calibrated, InRange;
    CalibrateAsic(register.asic0, pedestals2[0..64]);
    CalibrateAsic(register.asic1, pedestals2[64..128]);
    CalibrateAsic(register.asic2, pedestals2[128..192]);
    CalibrateAsic(register.asic3, pedestals2[192..256]);
    assert pedestals2[0..64] == pedestals2[..64] && pedestals2[192..256] == pedestals2[192..];
  }

  /** A calibration of the loaded register: the saved text uploads the calibrated image, which has the new trims
      and, if the padding of the loaded one is zero, differs from it in Del_reg bits only. */
  ghost predicate IsCalibration(raw: seq<bv8>, pedestals2: seq<int>, asics: seq<seq<Value>>, out: seq<bv8>,
                                text: seq<bv8>) {
    && |raw| == BLOCK + 4 && Decodes4(raw[..BLOCK], asics) && AllInRange(asics)
    && |pedestals2| == 256 && IsImage4(Calibrated4(asics, pedestals2), out)
    && HasNewTrims(raw[..BLOCK], pedestals2, out)
    && text == Base64.Encode(Protected(out))
    && CheckText(text) == Upload(out + ZeroBytes(UPLOAD - BLOCK))
    && (PaddingIsZero4(raw[..BLOCK]) ==>
          forall i | 0 <= i < 4 :: SameOutsideDelReg(Block(out, i), Block(raw[..BLOCK], i)))
  }

  // raw is the register file after b64decode.
  method SetDelReg(register: Vareg4Asic, pedestals2: seq<int>, raw: seq<bv8>) returns (r: SaveResult)
    requires register.Valid()
    modifies register.asic0, register.asic1, register.asic2, register.asic3
    ensures |pedestals2| != 256 <==> r.BadPedestals?
    ensures |pedestals2| == 256 ==>
              match Check(raw)
              case WrongSize => r == BadRegister(LengthError)
              case CrcMismatch => r == BadRegister(ChecksumError)
              case _ => r.Saved?
    ensures r.Saved? ==> exists asics, out :: IsCalibration(raw, pedestals2, asics, out, r.text)
  {
    if |pedestals2| != 4 * 64 {
      return BadPedestals;
    }
    var loaded := register.FromRaw(raw, true);
    if !loaded.Loaded? {
      return BadRegister(loaded);
    }
    hide FIELDS, Calibrated, Calibrated4, InRange, IsImage4, Decodes4, Check, CheckText, Protected, Base64.Encode,
      PaddingIsZero4, SameOutsideDelReg, HasNewTrims;
    ghost var asics := register.Asics();
    CalibrateAll(register, pedestals2);
    var text := register.ToBase64();
    ghost var out :| IsImage4(register.Asics(), out) && text == Base64.Encode(Protected(out))
                     && CheckText(text) == Upload(out + ZeroBytes(UPLOAD - BLOCK));
    if PaddingIsZero4(raw[..BLOCK]) {
      Base64.EncodingHasNoSpaces(Protected(out));
      CalibrationKeepsFrame(raw, asics, pedestals2, out, text);
    }
    SavedTrims(raw[..BLOCK], asics, pedestals2, out);
    assert IsCalibration(raw, pedestals2, asics, out, text);
    r := Saved(text);
  }

  ghost predicate SameOutsideDelReg(a: seq<bv8>, b: seq<bv8>) {
    && |a| == IMAGE_BYTES && |b| == IMAGE_BYTES
    && forall n: nat | n < 8 * IMAGE_BYTES && !(512 <= n < 896) :: BitAt(a, n) == BitAt(b, n)
  }

  lemma CalibratedBlock(data: seq<bv8>, values: seq<Value>, pedestals2: seq<int>, out: seq<bv8>)
    requires PaddingIsZero(data) && Decodes(data, values) && |pedestals2| == CHANNEL_COUNT
    requires InRange(FIELDS, values) && IsImage(Calibrated(values, pedestals2), out)
    ensures SameOutsideDelReg(out, data)
  {
    ImageLengths(Calibrated(values, pedestals2), out);
    hide FIELDS, BitAt, Decodes, InRange, IsImage, Calibrated;
    var trims := CalibratedTrims(values, pedestals2);
    forall n: nat | n < 8 * IMAGE_BYTES && !(512 <= n < 896)
      ensures BitAt(out, n) == BitAt(data, n)
    {
      OnlyDelRegBitsChange(data, values, trims, out, n);
    }
  }

  /** With zero padding in, the saved file decodes and uploads; its payload differs from the input
      only in the Del_reg bits of each block. */
  lemma CalibrationKeepsFrame(raw: seq<bv8>, asics: seq<seq<Value>>, pedestals2: seq<int>, out: seq<bv8>,
                              text: seq<bv8>)
    requires |raw| == BLOCK + 4 && PaddingIsZero4(raw[..BLOCK])
    requires Decodes4(raw[..BLOCK], asics) && AllInRange(asics) && |pedestals2| == 256
    requires IsImage4(Calibrated4(asics, pedestals2), out)
    requires Base64.WithoutSpaces(text) == Base64.Encode(Protected(out))
    ensures CheckText(text) == Upload(out + ZeroBytes(UPLOAD - BLOCK))
    ensures forall i | 0 <= i < 4 :: SameOutsideDelReg(Block(out, i), Block(raw[..BLOCK], i))
  {
    hide FIELDS, IsImage, Decodes, Block, PaddingIsZero, InRange, Calibrated, CheckText, SameOutsideDelReg,
      Base64.Encode, Base64.WithoutSpaces, Protected;
    WrittenImageIsUploaded(out, text);
    var data := raw[..BLOCK];
    var c := Calibrated4(asics, pedestals2);
    assert IsImage(c[0], Block(out, 0)) && IsImage(c[1], Block(out, 1));
    assert IsImage(c[2], Block(out, 2)) && IsImage(c[3], Block(out, 3));
    CalibratedBlock(Block(data, 0), asics[0], pedestals2[..64], Block(out, 0));
    CalibratedBlock(Block(data, 1), asics[1], pedestals2[64..128], Block(out, 1));
    CalibratedBlock(Block(data, 2), asics[2], pedestals2[128..192], Block(out, 2));
    CalibratedBlock(Block(data, 3), asics[3], pedestals2[192..], Block(out, 3));
  }

  lemma CalibratedTrims(values: seq<Value>, pedestals2: seq<int>) returns (trims: seq<nat>)
    requires InRange(FIELDS, values) && |pedestals2| == CHANNEL_COUNT
    ensures DEL_REG_INDEX < |values|
    ensures Calibrated(values, pedestals2) == values[DEL_REG_INDEX := Vector(trims)]
  {
    LayoutWidths();
    assert Fits(FIELDS[DEL_REG_INDEX], values[DEL_REG_INDEX]);
    hide FIELDS, Trims;
    trims := Trims(Untrimmed(pedestals2, values[DEL_REG_INDEX].vs));
  }
}
