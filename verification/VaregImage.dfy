/** The image of four ASICs: scripts/vareg.py writes it as base64 text with a CRC-32, do_set_vareg in
    src/commands.cc reads and checks the text before it uploads the image. */
module VaregImage {
  import opened Bits
  import opened RawBits
  import opened Vareg
  import opened VaregRegister
  import Crc
  import CrcDetection
  import opened CrcErrors
  import Base64

  const BLOCK := 512
  const UPLOAD := 4096

  // ---------------------------------------------------------------------------------------------
  // Checksums as four bytes, most significant first
  // ---------------------------------------------------------------------------------------------

  lemma BigEndianRoundTrip(c: bv32)
    ensures FromBigEndian(BigEndian(c)) == c
  {
  }

  lemma FromBigEndianInjective(a: seq<bv8>, b: seq<bv8>)
    requires |a| == 4 && |b| == 4 && FromBigEndian(a) == FromBigEndian(b)
    ensures a == b
  {
    hide BigEndian, FromBigEndian;
    BytesOfBigEndian(a);
    BytesOfBigEndian(b);
  }

  lemma BytesOfBigEndian(a: seq<bv8>)
    requires |a| == 4
    ensures BigEndian(FromBigEndian(a)) == a
  {
    BytesOfJoined(a[0], a[1], a[2], a[3]);
    assert a == [a[0], a[1], a[2], a[3]];
  }

  lemma BytesOfJoined(b0: bv8, b1: bv8, b2: bv8, b3: bv8)
    ensures BigEndian(FromBigEndian([b0, b1, b2, b3])) == [b0, b1, b2, b3]
  {
  }

  // ---------------------------------------------------------------------------------------------
  // The checks of do_set_vareg
  // ---------------------------------------------------------------------------------------------

  datatype Verdict = BadBase64 | WrongSize | CrcMismatch | Upload(payload: seq<bv8>)

  function ZeroBytes(n: nat): (z: seq<bv8>)
    ensures |z| == n && forall i | 0 <= i < n :: z[i] == 0
  {
    seq(n, _ => 0)
  }

  function Check(data: seq<bv8>): Verdict {
    if |data| != BLOCK + 4 then WrongSize
    else if Crc.Crc32(data[..BLOCK]) != FromBigEndian(data[BLOCK..]) then CrcMismatch
    else Upload(data[..BLOCK] + ZeroBytes(UPLOAD - BLOCK))
  }

  function CheckText(text: seq<bv8>): Verdict {
    match Base64.Decode(text)
    case InvalidBase64 => BadBase64
    case Bytes(data) => Check(data)
  }

  method SetVareg(text: seq<bv8>) returns (r: Verdict)
    ensures r == CheckText(text)
  {
    hide Base64.Decode, Crc.Crc32, FromBigEndian;
    var decoded := Base64.Base64Decode(text);
    if decoded.InvalidBase64? {
      return BadBase64;
    }
    var data := decoded.data;
    if |data| != 516 {
      return WrongSize;
    }
    var expected: seq<bv8> := [];
    for i := 512 to 516
      invariant expected == data[512..i]
    {
      expected := expected + [data[i]];
    }
    assert expected == data[BLOCK..];
    var calculated := Crc.Crc32Sliced(data[..512]);
    assert |data[..512]| % 4 == 0;
    if calculated.value != FromBigEndian(expected) {
      return CrcMismatch;
    }
    var payload: seq<bv8> := [];
    for i := 0 to 512
      invariant payload == data[..i]
    {
      payload := payload + [data[i]];
    }
    payload := payload + seq(4096 - |payload|, _ => 0);
    assert payload == data[..BLOCK] + ZeroBytes(UPLOAD - BLOCK);
    r := Upload(payload);
  }

  lemma FromBigEndianIsWord(data: seq<bv8>)
    requires |data| == 516
    ensures FromBigEndian(data[512..]) as nat == Word(data, 512)
  {
    WordSum(data[512], data[513], data[514], data[515]);
  }

  lemma SameWord(a: bv32, b: bv32)
    requires a as nat == b as nat
    ensures a == b
  {
    assert a as nat as bv32 == a;
    assert b as nat as bv32 == b;
  }

  /** 516 bytes are accepted if the last four are the checksum of the others, most significant byte first; what is
      uploaded is 4096 bytes, the 512 and zeros. */
  lemma CheckIsLiteral(data: seq<bv8>)
    ensures Check(data) == WrongSize <==> |data| != 516
    ensures Check(data).Upload? <==> |data| == 516 && Crc.Crc32(data[..512]) as nat == Word(data, 512)
    ensures !Check(data).BadBase64?
    ensures Check(data).Upload? ==>
              var payload := Check(data).payload;
              |payload| == 4096 && payload[..512] == data[..512] && forall i | 512 <= i < 4096 :: payload[i] == 0
  {
    hide Crc.Crc32, FromBigEndian, Word;
    if |data| == 516 {
      FromBigEndianIsWord(data);
      if Crc.Crc32(data[..512]) as nat == Word(data, 512) {
        SameWord(Crc.Crc32(data[..512]), FromBigEndian(data[512..]));
      }
    }
  }

  function Protected(data: seq<bv8>): seq<bv8> {
    data + BigEndian(Crc.Crc32(data))
  }

  /** The four bytes behind the data are its checksum, most significant byte first. */
  lemma ProtectedIsLiteral(data: seq<bv8>)
    ensures |Protected(data)| == |data| + 4 && Protected(data)[..|data|] == data
    ensures Word(Protected(data), |data|) == Crc.Crc32(data) as nat
  {
    hide Crc.Crc32;
    BytesOfWord(Crc.Crc32(data));
  }

  lemma BytesOfWord(c: bv32)
    ensures Word(BigEndian(c), 0) == c as nat
  {
    hide BigEndian, FromBigEndian;
    var b := BigEndian(c);
    BigEndianRoundTrip(c);
    WordOfBytes(b);
  }

  lemma WordOfBytes(b: seq<bv8>)
    requires |b| == 4
    ensures Word(b, 0) == FromBigEndian(b) as nat
  {
    WordSum(b[0], b[1], b[2], b[3]);
  }

  /** A 512-byte image written with its checksum is uploaded unchanged, zero-filled to 4096 bytes,
      whatever white space the text file contains. */
  lemma WrittenImageIsUploaded(data: seq<bv8>, text: seq<bv8>)
    requires |data| == BLOCK && Base64.WithoutSpaces(text) == Base64.Encode(Protected(data))
    ensures CheckText(text) == Upload(data + ZeroBytes(UPLOAD - BLOCK))
  {
    hide Base64.Decode, Base64.Encode, Base64.WithoutSpaces, Protected, Check;
    Base64.DecodingInvertsEncoding(text, Protected(data));
    WrittenIsAccepted(data);
  }

  /** The text that is written, as it is written, uploads the image. */
  lemma WrittenTextUploads(data: seq<bv8>)
    requires |data| == BLOCK
    ensures CheckText(Base64.Encode(Protected(data))) == Upload(data + ZeroBytes(UPLOAD - BLOCK))
  {
    hide CheckText, Base64.Encode, Base64.WithoutSpaces, Protected;
    Base64.EncodingHasNoSpaces(Protected(data));
    WrittenImageIsUploaded(data, Base64.Encode(Protected(data)));
  }

  lemma WrittenIsAccepted(data: seq<bv8>)
    requires |data| == BLOCK
    ensures Check(Protected(data)) == Upload(data + ZeroBytes(UPLOAD - BLOCK))
  {
    hide Crc.Crc32, FromBigEndian, BigEndian;
    BigEndianRoundTrip(Crc.Crc32(data));
    assert Protected(data)[..BLOCK] == data;
    assert Protected(data)[BLOCK..] == BigEndian(Crc.Crc32(data));
  }

  // ---------------------------------------------------------------------------------------------
  // Damaged images
  // ---------------------------------------------------------------------------------------------

  lemma FromBigEndianIsLinear(a: seq<bv8>, b: seq<bv8>)
    requires |a| == 4 && |b| == 4
    ensures Crc.Xor(FromBigEndian(a), FromBigEndian(b)) == FromBigEndian(Difference(a, b))
  {
  }

  /** An accepted image stays accepted exactly when the difference alone is a message with its checksum
      for a register that starts clear. */
  lemma DamageIsAcceptedIff(good: seq<bv8>, bad: seq<bv8>)
    requires Check(good).Upload? && |bad| == |good|
    ensures var e := Difference(good, bad);
            Check(bad).Upload? <==> Crc.Update(0, e[..BLOCK]) == FromBigEndian(e[BLOCK..])
    ensures Check(bad).Upload? || Check(bad).CrcMismatch?
  {
    hide Crc.Crc32, Crc.Update, Crc.Xor, FromBigEndian;
    var e := Difference(good, bad);
    assert e[..BLOCK] == Difference(good[..BLOCK], bad[..BLOCK]);
    assert e[BLOCK..] == Difference(good[BLOCK..], bad[BLOCK..]);
    ChecksumsDifferByDifference(good[..BLOCK], bad[..BLOCK]);
    FromBigEndianIsLinear(good[BLOCK..], bad[BLOCK..]);
    var c := Crc.Crc32(good[..BLOCK]);
    if Crc.Update(0, e[..BLOCK]) == FromBigEndian(e[BLOCK..]) {
      CrcDetection.XorCancelsLeft(Crc.Crc32(bad[..BLOCK]), FromBigEndian(bad[BLOCK..]), c);
    }
  }

  // The one difference of four bytes that the checksum does not see.
  const BLIND_SPOT := BLOCK - 2
  const UNSEEN: seq<bv8> := [0x61, 0xD8, 0xF4, 0xEE]

  /** An accepted image damaged inside four consecutive bytes, anywhere in data and checksum, is rejected,
      but for one difference at one place: 61 D8 F4 EE across the end of the data. */
  lemma FourByteDamage(good: seq<bv8>, bad: seq<bv8>, k: nat)
    requires Check(good).Upload? && |bad| == |good| && bad != good
    requires k <= BLOCK && bad[..k] == good[..k] && bad[k + 4..] == good[k + 4..]
    ensures Check(bad).Upload? <==> k == BLIND_SPOT && Difference(good, bad)[k..k + 4] == UNSEEN
    ensures Check(bad).Upload? || Check(bad).CrcMismatch?
  {
    hide Crc.Crc32, Crc.Update, FromBigEndian, Check;
    AcceptedLength(good);
    DamageIsAcceptedIff(good, bad);
    if k + 4 <= BLOCK {
      DamagedDataIsRejected(good, bad, k);
    } else if k == BLOCK {
      DamagedChecksumIsRejected(good, bad);
    } else {
      DamageAcrossTheEnd(good, bad, k);
    }
  }

  lemma AcceptedLength(data: seq<bv8>)
    requires Check(data).Upload?
    ensures |data| == BLOCK + 4
  {
  }

  lemma DamagedDataIsRejected(good: seq<bv8>, bad: seq<bv8>, k: nat)
    requires Check(good).Upload? && |bad| == |good| && bad != good
    requires k + 4 <= BLOCK && bad[..k] == good[..k] && bad[k + 4..] == good[k + 4..]
    ensures !Check(bad).Upload?
  {
    hide Crc.Crc32, FromBigEndian;
    var suffix := good[k + 4..BLOCK];
    assert bad[BLOCK..] == bad[k + 4..][BLOCK - k - 4..] == good[BLOCK..];
    assert bad[k + 4..BLOCK] == bad[k + 4..][..BLOCK - k - 4] == suffix;
    assert good == good[..k] + good[k..k + 4] + good[k + 4..];
    assert bad == bad[..k] + bad[k..k + 4] + bad[k + 4..];
    assert good[..BLOCK] == good[..k] + good[k..k + 4] + suffix;
    assert bad[..BLOCK] == good[..k] + bad[k..k + 4] + suffix;
    CrcDetection.BurstIsDetected(good[..k], good[k..k + 4], bad[k..k + 4], suffix);
  }

  lemma DamagedChecksumIsRejected(good: seq<bv8>, bad: seq<bv8>)
    requires Check(good).Upload? && |bad| == |good| && bad != good
    requires bad[..BLOCK] == good[..BLOCK]
    ensures !Check(bad).Upload?
  {
    hide Crc.Crc32, FromBigEndian;
    assert good == good[..BLOCK] + good[BLOCK..] && bad == bad[..BLOCK] + bad[BLOCK..];
    if FromBigEndian(bad[BLOCK..]) == FromBigEndian(good[BLOCK..]) {
      FromBigEndianInjective(bad[BLOCK..], good[BLOCK..]);
    }
  }

  lemma DamageAcrossTheEnd(good: seq<bv8>, bad: seq<bv8>, k: nat)
    requires |good| == |bad| == BLOCK + 4 && bad != good
    requires BLOCK - 4 < k < BLOCK && bad[..k] == good[..k] && bad[k + 4..] == good[k + 4..]
    ensures var e := Difference(good, bad);
            Crc.Update(0, e[..BLOCK]) == FromBigEndian(e[BLOCK..]) <==> k == BLIND_SPOT && e[k..k + 4] == UNSEEN
  {
    hide Crc.Update, FromBigEndian;
    var e := Difference(good, bad);
    var d, m := e[k..k + 4], BLOCK - k;
    ByteDifferences(good, bad);
    assert forall i | 0 <= i < k :: good[i] == good[..k][i] && bad[i] == bad[..k][i];
    assert forall i | k + 4 <= i < |good| :: good[i] == good[k + 4..][i - k - 4] && bad[i] == bad[k + 4..][i - k - 4];
    assert e[..BLOCK] == e[..k] + d[..m];
    LeadingZerosChangeNothing(e[..k], d[..m]);
    assert e[BLOCK..] == d[m..] + ZeroBytes(m);
    assert d != [0, 0, 0, 0];
    KernelAcrossTheEnd(d, m);
  }

  // Bytes differ where the difference is not zero.
  lemma ByteDifferences(a: seq<bv8>, b: seq<bv8>)
    requires |a| == |b|
    ensures forall i | 0 <= i < |a| :: Difference(a, b)[i] == 0 <==> a[i] == b[i]
  {
  }

  lemma KernelAcrossTheEnd(d: seq<bv8>, m: nat)
    requires |d| == 4 && 0 < m < 4
    ensures Crc.Update(0, d[..m]) == FromBigEndian(d[m..] + ZeroBytes(m))
            <==> d == [0, 0, 0, 0] || (m == 2 && d == UNSEEN)
  {
    hide Crc.Update, Eight, Crc.Xor, Joined;
    var a, b, c, e := d[0], d[1], d[2], d[3];
    assert d == [a, b, c, e];
    if m == 1 {
      assert d[..1] == [a] && d[1..] + ZeroBytes(1) == [b, c, e, 0];
      UpdateOne(a);
      OneByteKernel(a, b, c, e);
      JoinedIsFromBigEndian(b, c, e, 0);
    } else if m == 2 {
      assert d[..2] == [a, b] && d[2..] + ZeroBytes(2) == [c, e, 0, 0];
      UpdateTwo(a, b);
      TwoByteKernel(a, b, c, e);
      JoinedIsFromBigEndian(c, e, 0, 0);
    } else {
      assert d[..3] == [a, b, c] && d[3..] + ZeroBytes(3) == [e, 0, 0, 0];
      UpdateThree(a, b, c);
      ThreeByteKernel(a, b, c, e);
      JoinedIsFromBigEndian(e, 0, 0, 0);
    }
  }

  lemma JoinedIsFromBigEndian(b0: bv8, b1: bv8, b2: bv8, b3: bv8)
    ensures FromBigEndian([b0, b1, b2, b3]) == Joined(b0, b1, b2, b3)
  {
  }

  // The image with the unseen difference.
  function Blinded(good: seq<bv8>): (bad: seq<bv8>)
    requires |good| == BLOCK + 4
    ensures |bad| == |good|
  {
    good[..BLIND_SPOT] + Difference(good[BLIND_SPOT..BLIND_SPOT + 4], UNSEEN) + good[BLIND_SPOT + 4..]
  }

  /** Every written image has a damaged twin that is uploaded in its place. */
  lemma OneDamageSlipsThrough(data: seq<bv8>)
    requires |data| == BLOCK
    ensures var good := Protected(data);
            && Check(good) == Upload(data + ZeroBytes(UPLOAD - BLOCK))
            && Check(Blinded(good)).Upload?
            && Check(Blinded(good)) != Check(good)
  {
    hide Crc.Crc32, Crc.Update, BigEndian, FromBigEndian;
    var good := Protected(data);
    var bad := Blinded(good);
    WrittenIsAccepted(data);
    BlindedDifference(good);
    FourByteDamage(good, bad, BLIND_SPOT);
    assert bad[..BLOCK][BLIND_SPOT] == bad[BLIND_SPOT] != good[BLIND_SPOT] == good[..BLOCK][BLIND_SPOT];
    assert Check(bad).payload[BLIND_SPOT] == bad[BLIND_SPOT];
  }

  lemma ExclusiveOrTwice(a: bv8, b: bv8)
    ensures a ^ (a ^ b) == b && (b != 0 ==> a ^ b != a)
  {
  }

  lemma BlindedDifference(good: seq<bv8>)
    requires |good| == BLOCK + 4
    ensures var bad := Blinded(good);
            && bad[..BLIND_SPOT] == good[..BLIND_SPOT] && bad[BLIND_SPOT + 4..] == good[BLIND_SPOT + 4..]
            && Difference(good, bad)[BLIND_SPOT..BLIND_SPOT + 4] == UNSEEN
            && bad[BLIND_SPOT] != good[BLIND_SPOT]
  {
    forall i | 0 <= i < 4 ensures good[BLIND_SPOT + i] ^ (good[BLIND_SPOT + i] ^ UNSEEN[i]) == UNSEEN[i] {
      ExclusiveOrTwice(good[BLIND_SPOT + i], UNSEEN[i]);
    }
    ExclusiveOrTwice(good[BLIND_SPOT], UNSEEN[0]);
  }

  // ---------------------------------------------------------------------------------------------
  // Four ASICs: asic3 comes first in the image
  // ---------------------------------------------------------------------------------------------

  // asics[i] holds the values of asic i.
  ghost predicate IsImage4(asics: seq<seq<Value>>, data: seq<bv8>) {
    && |asics| == 4 && |data| == BLOCK
    && forall i | 0 <= i < 4 :: IsImage(asics[i], Block(data, i))
  }

  ghost predicate Decodes4(data: seq<bv8>, asics: seq<seq<Value>>) {
    && |asics| == 4 && |data| == BLOCK
    && forall i | 0 <= i < 4 :: Decodes(Block(data, i), asics[i])
  }

  function Block(data: seq<bv8>, asic: nat): (b: seq<bv8>)
    requires |data| == BLOCK && asic < 4
    ensures |b| == IMAGE_BYTES
  {
    data[IMAGE_BYTES * (3 - asic)..IMAGE_BYTES * (4 - asic)]
  }

  lemma BlocksMakeImage(data: seq<bv8>)
    requires |data| == BLOCK
    ensures data == Block(data, 3) + Block(data, 2) + Block(data, 1) + Block(data, 0)
  {
  }

  lemma Image4RoundTrip(asics: seq<seq<Value>>, data: seq<bv8>, decoded: seq<seq<Value>>)
    requires IsImage4(asics, data) && |decoded| == 4
    ensures Decodes4(data, decoded) <==> decoded == asics
  {
    hide IsImage, Decodes, Block;
    ImageRoundTrip(asics[0], Block(data, 0), decoded[0]);
    ImageRoundTrip(asics[1], Block(data, 1), decoded[1]);
    ImageRoundTrip(asics[2], Block(data, 2), decoded[2]);
    ImageRoundTrip(asics[3], Block(data, 3), decoded[3]);
    if Decodes4(data, decoded) {
      assert decoded[0] == asics[0] && decoded[1] == asics[1];
      assert decoded[2] == asics[2] && decoded[3] == asics[3];
    } else {
      assert exists i :: 0 <= i < 4 && !Decodes(Block(data, i), decoded[i]);
    }
  }

  ghost predicate PaddingIsZero4(data: seq<bv8>) {
    |data| == BLOCK && forall i | 0 <= i < 4 :: PaddingIsZero(Block(data, i))
  }

  lemma Repacking4Reproduces(data: seq<bv8>, asics: seq<seq<Value>>, repacked: seq<bv8>)
    requires Decodes4(data, asics) && IsImage4(asics, repacked)
    ensures repacked == data <==> PaddingIsZero4(data)
  {
    hide IsImage, Decodes, Block, PaddingIsZero;
    RepackingReproduces(Block(data, 0), asics[0], Block(repacked, 0));
    RepackingReproduces(Block(data, 1), asics[1], Block(repacked, 1));
    RepackingReproduces(Block(data, 2), asics[2], Block(repacked, 2));
    RepackingReproduces(Block(data, 3), asics[3], Block(repacked, 3));
    BlocksMakeImage(data);
    BlocksMakeImage(repacked);
  }

  datatype LoadResult = Loaded | LengthError | ChecksumError

  class Vareg4Asic {
    const asic0: Register
    const asic1: Register
    const asic2: Register
    const asic3: Register

    constructor ()
      ensures Valid() && fresh(asic0) && fresh(asic1) && fresh(asic2) && fresh(asic3)
    {
      asic0 := new Register();
      asic1 := new Register();
      asic2 := new Register();
      asic3 := new Register();
    }

    ghost predicate Valid()
      reads this, asic0, asic1, asic2, asic3
    {
      && asic0 != asic1 && asic0 != asic2 && asic0 != asic3
      && asic1 != asic2 && asic1 != asic3 && asic2 != asic3
      && asic0.Valid() && asic1.Valid() && asic2.Valid() && asic3.Valid()
    }

    ghost function Asics(): (a: seq<seq<Value>>)
      reads this, asic0, asic1, asic2, asic3
    {
      [asic0.values, asic1.values, asic2.values, asic3.values]
    }

    method ToByteArray() returns (out: seq<bv8>)
      requires Valid()
      ensures IsImage4(Asics(), out)
    {
      hide FIELDS, IsImage, InRange;
      var b3 := asic3.ToByteArray();
      var b2 := asic2.ToByteArray();
      var b1 := asic1.ToByteArray();
      var b0 := asic0.ToByteArray();
      ImageLengths(asic0.values, b0[..]);
      ImageLengths(asic1.values, b1[..]);
      ImageLengths(asic2.values, b2[..]);
      ImageLengths(asic3.values, b3[..]);
      out := b3[..] + b2[..] + b1[..] + b0[..];
      assert Block(out, 3) == b3[..];
      assert Block(out, 2) == b2[..];
      assert Block(out, 1) == b1[..];
      assert Block(out, 0) == b0[..];
    }

    method FromByteArray(data: seq<bv8>) returns (r: LoadResult)
      requires Valid()
      modifies asic0, asic1, asic2, asic3
      ensures Valid()
      ensures r == if |data| == BLOCK then Loaded else LengthError
      ensures if |data| == BLOCK then Decodes4(data, Asics()) else Asics() == old(Asics())
    {
      hide FIELDS, Decodes, InRange, ReadAsFarAs, TotalWidth;
      if |data| != 128 * 4 {
        return LengthError;
      }
      assert TotalWidth(FIELDS) == 936 by { LayoutWidths(); }
      var _ := asic3.FromByteArray(data[0..128]);
      var _ := asic2.FromByteArray(data[128..256]);
      var _ := asic1.FromByteArray(data[256..384]);
      var _ := asic0.FromByteArray(data[384..512]);
      r := Loaded;
    }

    // to_base64, with zlib's crc32 as the reference checksum and b64encode as the reference encoding.
    method ToBase64() returns (text: seq<bv8>)
      requires Valid()
      ensures exists data :: IsImage4(Asics(), data) && text == Base64.Encode(Protected(data))
                             && CheckText(text) == Upload(data + ZeroBytes(UPLOAD - BLOCK))
    {
      hide CheckText, IsImage4, Base64.Encode, Protected;
      var data := ToByteArray();
      ProtectedIs(data);
      var raw := data + BigEndian(Crc.Crc32(data));
      text := Base64.Encode(raw);
      ImageIsBlock(Asics(), data);
      WrittenTextUploads(data);
    }

    // from_base64 after b64decode.
    method FromRaw(raw: seq<bv8>, check: bool) returns (r: LoadResult)
      requires Valid()
      modifies asic0, asic1, asic2, asic3
      ensures Valid()
      ensures r == if |raw| != BLOCK + 4 then LengthError
                   else if check && Check(raw).CrcMismatch? then ChecksumError else Loaded
      ensures if r.Loaded? then Decodes4(raw[..BLOCK], Asics()) else Asics() == old(Asics())
    {
      if |raw| != 512 + 4 {
        return LengthError;
      }
      if check {
        var stored := FromBigEndian(raw[512..516]);
        var calculated := Crc.Crc32(raw[0..512]);
        assert raw[512..516] == raw[BLOCK..] && raw[0..512] == raw[..BLOCK];
        if stored != calculated {
          return ChecksumError;
        }
      }
      assert raw[0..512] == raw[..BLOCK];
      r := FromByteArray(raw[0..512]);
    }
  }

  lemma ProtectedIs(data: seq<bv8>)
    ensures Protected(data) == data + BigEndian(Crc.Crc32(data))
  {
  }

  lemma ImageIsBlock(asics: seq<seq<Value>>, data: seq<bv8>)
    requires IsImage4(asics, data)
    ensures |data| == BLOCK
  {
    hide IsImage;
  }

  lemma ImageLengths(values: seq<Value>, data: seq<bv8>)
    requires IsImage(values, data)
    ensures |data| == IMAGE_BYTES
  {
  }
}
