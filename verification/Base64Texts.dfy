/** base64 texts character by character: which are refused, what is skipped, and the encoding of section 4 of
    RFC 4648 in plain arithmetic. */
module Base64Texts {
  import opened Bits
  import opened Base64

  // ---------------------------------------------------------------------------------------------
  // Decoding
  // ---------------------------------------------------------------------------------------------

  predicate IsTextCharacter(c: bv8) {
    || 0x41 <= c <= 0x5A || 0x61 <= c <= 0x7A || 0x30 <= c <= 0x39 || c == 0x2B || c == 0x2F || c == 0x3D
    || c == 0x0A || c == 0x0D || c == 0x09 || c == 0x20
  }

  lemma OthersAreInvalid(c: bv8)
    ensures !IsSpace(c) && DecTable(c) == Invalid <==> !IsTextCharacter(c)
    ensures !IsSpace(c) && DecTable(c) == Padding <==> c == 0x3D
  {
  }

  // A character that must not be there stands before the first '='.
  ghost predicate IsRefused(s: seq<bv8>) {
    exists i: nat :: i < |s| && !IsTextCharacter(s[i]) && 0x3D !in s[..i]
  }

  lemma RefusalShifts(s: seq<bv8>)
    requires s != [] && IsTextCharacter(s[0])
    ensures IsRefused(s) <==> s[0] != 0x3D && IsRefused(s[1..])
  {
    var rest := s[1..];
    if i: nat :| i < |s| && !IsTextCharacter(s[i]) && 0x3D !in s[..i] {
      assert s[..i][0] == s[0];
      assert rest[..i - 1] == s[..i][1..] && rest[i - 1] == s[i];
    }
    if i: nat :| s[0] != 0x3D && i < |rest| && !IsTextCharacter(rest[i]) && 0x3D !in rest[..i] {
      assert s[..i + 1] == [s[0]] + rest[..i] && s[i + 1] == rest[i];
    }
  }

  lemma {:induction false} PayloadIsRefused(s: seq<bv8>)
    ensures PayloadOf(s) == InvalidCharacter <==> IsRefused(s)
    decreases |s|
  {
    hide DecTable, IsSpace, IsTextCharacter, IsRefused;
    if s == [] {
      NothingIsRefused();
    } else {
      OthersAreInvalid(s[0]);
      PayloadIsRefused(s[1..]);
      if IsTextCharacter(s[0]) {
        RefusalShifts(s);
      } else {
        FirstIsRefused(s);
      }
    }
  }

  lemma NothingIsRefused()
    ensures !IsRefused([])
  {
  }

  lemma FirstIsRefused(s: seq<bv8>)
    requires s != [] && !IsTextCharacter(s[0])
    ensures IsRefused(s)
  {
    assert 0x3D !in s[..0];
  }

  /** A text is refused exactly if a byte other than A-Z, a-z, 0-9, '+', '/', '=', line feed, carriage return, tab
      and space stands before the first '='. */
  lemma RefusedTexts(s: seq<bv8>)
    ensures Decode(s) == InvalidBase64
            <==> exists i: nat :: i < |s| && !IsTextCharacter(s[i]) && 0x3D !in s[..i]
  {
    hide PayloadOf, IsTextCharacter, DecodedBytes;
    PayloadIsRefused(s);
  }

  lemma FourSpaces(c: bv8)
    requires c == 0x0A || c == 0x0D || c == 0x09 || c == 0x20
    ensures IsSpace(c)
  {
  }

  lemma {:induction false} SpaceIsSkipped(a: seq<bv8>, c: bv8, b: seq<bv8>)
    requires IsSpace(c)
    ensures PayloadOf(a + [c] + b) == PayloadOf(a + b)
    decreases |a|
  {
    hide DecTable, IsSpace;
    if a == [] {
      assert [c] + b == [] + [c] + b && ([c] + b)[1..] == b && [] + b == b;
    } else {
      SpaceIsSkipped(a[1..], c, b);
      assert (a + [c] + b)[1..] == a[1..] + [c] + b;
      assert (a + b)[1..] == a[1..] + b;
    }
  }

  /** A line feed, carriage return, tab or space anywhere in a text makes no difference. */
  lemma SpacesAreSkipped(a: seq<bv8>, c: bv8, b: seq<bv8>)
    requires c == 0x0A || c == 0x0D || c == 0x09 || c == 0x20
    ensures Decode(a + [c] + b) == Decode(a + b)
  {
    hide PayloadOf, DecodedBytes;
    FourSpaces(c);
    SpaceIsSkipped(a, c, b);
  }

  /** Nothing behind the first '=' makes a difference. */
  lemma {:induction false} PaddingEnds(a: seq<bv8>, b: seq<bv8>)
    ensures Decode(a + [0x3D] + b) == Decode(a)
    decreases |a|
  {
    hide DecodedBytes;
    EqualsSignEnds(a, b);
  }

  lemma {:induction false} EqualsSignEnds(a: seq<bv8>, b: seq<bv8>)
    ensures PayloadOf(a + [0x3D] + b) == PayloadOf(a)
    decreases |a|
  {
    if a == [] {
      OthersAreInvalid(0x3D);
      assert ([] + [0x3D] + b)[0] == 0x3D;
    } else {
      hide DecTable, IsSpace;
      EqualsSignEnds(a[1..], b);
      assert (a + [0x3D] + b)[1..] == a[1..] + [0x3D] + b;
    }
  }

  // ---------------------------------------------------------------------------------------------
  // Encoding
  // ---------------------------------------------------------------------------------------------

  function Octet(data: seq<bv8>, i: nat): (v: nat)
    ensures v < 256
  {
    if i < |data| then data[i] as nat else 0
  }

  // Symbol i: every three octets give four of them.
  function SymbolOf(data: seq<bv8>, i: nat): (v: nat)
    ensures v < 64
  {
    var a, b, c := Octet(data, i / 4 * 3), Octet(data, i / 4 * 3 + 1), Octet(data, i / 4 * 3 + 2);
    if i % 4 == 0 then a / 4
    else if i % 4 == 1 then a % 4 * 16 + b / 16
    else if i % 4 == 2 then b % 16 * 4 + c / 64
    else c % 64
  }

  // Table 1 of RFC 4648.
  function Letter(v: nat): char
    requires v < 64
  {
    ("ABCDEFGHIJKLMNOPQRSTUVWXYZ" + "abcdefghijklmnopqrstuvwxyz" + "0123456789+/")[v]
  }

  // The same table in five ranges.
  function Code(v: nat): int {
    if v < 26 then 0x41 + v else if v < 52 then 0x47 + v else if v < 62 then v - 4 else if v == 62 then 0x2B else 0x2F
  }

  lemma LetterCodes(v: nat)
    requires v < 64
    ensures Letter(v) as int == Code(v)
  {
  }

  lemma AlphabetCodes(v: bv8)
    requires v < 64
    ensures Alphabet(v) as int == Code(v as nat)
  {
  }

  // The bits of a symbol, by the octets they come from.
  lemma FirstSymbol(a: bv8)
    ensures ByteOf([false, false, TestMask(a, 0), TestMask(a, 1), TestMask(a, 2), TestMask(a, 3), TestMask(a, 4),
                    TestMask(a, 5)]) == a >> 2
  {
  }

  lemma SecondSymbol(a: bv8, b: bv8)
    ensures ByteOf([false, false, TestMask(a, 6), TestMask(a, 7), TestMask(b, 0), TestMask(b, 1), TestMask(b, 2),
                    TestMask(b, 3)]) == ((a & 3) << 4) | (b >> 4)
  {
  }

  lemma ThirdSymbol(b: bv8, c: bv8)
    ensures ByteOf([false, false, TestMask(b, 4), TestMask(b, 5), TestMask(b, 6), TestMask(b, 7), TestMask(c, 0),
                    TestMask(c, 1)]) == ((b & 15) << 2) | (c >> 6)
  {
  }

  lemma FourthSymbol(c: bv8)
    ensures ByteOf([false, false, TestMask(c, 2), TestMask(c, 3), TestMask(c, 4), TestMask(c, 5), TestMask(c, 6),
                    TestMask(c, 7)]) == c & 63
  {
  }

  lemma ShiftedDown(a: bv8)
    ensures (a >> 2) as nat == a as nat / 4 && (a >> 4) as nat == a as nat / 16 && (a >> 6) as nat == a as nat / 64
  {
  }

  lemma LowPart(a: bv8)
    ensures (a & 3) as nat == a as nat % 4
    ensures (a & 15) as nat == a as nat % 16
  {
  }

  lemma LowerPart(a: bv8)
    ensures (a & 63) as nat == a as nat % 64
  {
  }

  lemma Joined(a: bv8, b: bv8)
    ensures (((a & 3) << 4) | (b >> 4)) as nat == 16 * (a & 3) as nat + (b >> 4) as nat
    ensures (((a & 15) << 2) | (b >> 6)) as nat == 4 * (a & 15) as nat + (b >> 6) as nat
  {
  }

  function OctetByte(data: seq<bv8>, i: nat): bv8 {
    if i < |data| then data[i] else 0
  }

  lemma PaddedBitIsOctetBit(data: seq<bv8>, n: nat)
    ensures PaddedBit(data, n) == TestMask(OctetByte(data, n / 8), n % 8)
  {
    ZeroHasNoBits(n % 8);
  }

  lemma ZeroHasNoBits(k: nat)
    requires k < 8
    ensures !TestMask(0, k)
  {
  }

  lemma FirstValue(a: bv8)
    ensures (a >> 2) as nat == a as nat / 4
  {
    ShiftedDown(a);
  }

  lemma FirstOfGroup(data: seq<bv8>, g: nat)
    ensures var a := Octet(data, 3 * g);
            SextetAt(data, 4 * g) as nat == a / 4
  {
    hide TestMask, PaddedBit, ByteOf, OctetByte, Octet;
    var a := OctetByte(data, 3 * g);
    BitOfGroup(data, g, 0); BitOfGroup(data, g, 1); BitOfGroup(data, g, 2);
    BitOfGroup(data, g, 3); BitOfGroup(data, g, 4); BitOfGroup(data, g, 5);
    FirstSymbol(a);
    FirstValue(a);
    OctetValue(data, 3 * g);
  }

  lemma SecondValue(a: bv8, b: bv8)
    ensures (((a & 3) << 4) | (b >> 4)) as nat == a as nat % 4 * 16 + b as nat / 16
  {
    LowPart(a);
    ShiftedDown(b);
    Joined(a, b);
  }

  lemma SecondOfGroup(data: seq<bv8>, g: nat)
    ensures var a, b := Octet(data, 3 * g), Octet(data, 3 * g + 1);
            SextetAt(data, 4 * g + 1) as nat == a % 4 * 16 + b / 16
  {
    hide TestMask, PaddedBit, ByteOf, OctetByte, Octet;
    var a, b := OctetByte(data, 3 * g), OctetByte(data, 3 * g + 1);
    BitOfGroup(data, g, 6); BitOfGroup(data, g, 7); BitOfGroup(data, g, 8);
    BitOfGroup(data, g, 9); BitOfGroup(data, g, 10); BitOfGroup(data, g, 11);
    SecondSymbol(a, b);
    SecondValue(a, b);
    OctetValue(data, 3 * g);
    OctetValue(data, 3 * g + 1);
  }

  lemma ThirdValue(b: bv8, c: bv8)
    ensures (((b & 15) << 2) | (c >> 6)) as nat == b as nat % 16 * 4 + c as nat / 64
  {
    LowPart(b);
    ShiftedDown(c);
    Joined(b, c);
  }

  lemma ThirdOfGroup(data: seq<bv8>, g: nat)
    ensures var b, c := Octet(data, 3 * g + 1), Octet(data, 3 * g + 2);
            SextetAt(data, 4 * g + 2) as nat == b % 16 * 4 + c / 64
  {
    hide TestMask, PaddedBit, ByteOf, OctetByte, Octet;
    var b, c := OctetByte(data, 3 * g + 1), OctetByte(data, 3 * g + 2);
    BitOfGroup(data, g, 12); BitOfGroup(data, g, 13); BitOfGroup(data, g, 14);
    BitOfGroup(data, g, 15); BitOfGroup(data, g, 16); BitOfGroup(data, g, 17);
    ThirdSymbol(b, c);
    ThirdValue(b, c);
    OctetValue(data, 3 * g + 1);
    OctetValue(data, 3 * g + 2);
  }

  lemma FourthValue(c: bv8)
    ensures (c & 63) as nat == c as nat % 64
  {
    LowerPart(c);
  }

  lemma FourthOfGroup(data: seq<bv8>, g: nat)
    ensures var c := Octet(data, 3 * g + 2);
            SextetAt(data, 4 * g + 3) as nat == c % 64
  {
    hide TestMask, PaddedBit, ByteOf, OctetByte, Octet;
    var c := OctetByte(data, 3 * g + 2);
    BitOfGroup(data, g, 18); BitOfGroup(data, g, 19); BitOfGroup(data, g, 20);
    BitOfGroup(data, g, 21); BitOfGroup(data, g, 22); BitOfGroup(data, g, 23);
    FourthSymbol(c);
    FourthValue(c);
    OctetValue(data, 3 * g + 2);
  }

  lemma SextetIsSymbol(data: seq<bv8>, i: nat)
    ensures SextetAt(data, i) as nat == SymbolOf(data, i)
  {
    hide SextetAt, Octet;
    var g := i / 4;
    if i % 4 == 0 {
      FirstOfGroup(data, g);
    } else if i % 4 == 1 {
      SecondOfGroup(data, g);
    } else if i % 4 == 2 {
      ThirdOfGroup(data, g);
    } else {
      FourthOfGroup(data, g);
    }
  }

  lemma OctetValue(data: seq<bv8>, i: nat)
    ensures OctetByte(data, i) as nat == Octet(data, i)
  {
  }

  lemma BitOfGroup(data: seq<bv8>, g: nat, n: nat)
    requires n < 24
    ensures PaddedBit(data, 24 * g + n) == TestMask(OctetByte(data, 3 * g + n / 8), n % 8)
  {
    hide PaddedBit, TestMask, OctetByte;
    PaddedBitIsOctetBit(data, 24 * g + n);
  }

  lemma {:induction false} CharacterAt(sextets: seq<bv8>, i: nat)
    requires i < |sextets|
    ensures Characters(sextets)[i] == Alphabet(sextets[i])
  {
    hide Alphabet;
    if i > 0 {
      CharacterAt(sextets[1..], i - 1);
    }
  }

  lemma {:induction false} PaddingAt(n: nat, i: nat)
    requires i < n
    ensures |Paddings(n)| == n && Paddings(n)[i] == 0x3D
  {
    if i > 0 {
      PaddingAt(n - 1, i - 1);
    } else if n > 1 {
      PaddingAt(n - 1, 0);
    }
  }

  /** The encoding of section 4 of RFC 4648: four characters for every three octets begun; a character that
      stands for no bit of the data is '='. */
  lemma EncodingIsTheStandard(data: seq<bv8>)
    ensures |Encode(data)| == (|data| + 2) / 3 * 4
    ensures forall i | 0 <= i < |Encode(data)| ::
              Encode(data)[i] as int == (if 6 * i < 8 * |data| then Letter(SymbolOf(data, i)) else '=') as int
  {
    hide SextetAt, Letter, SymbolOf, Alphabet, Characters, Paddings;
    var sextets := Sextets(data);
    var n := (4 - |sextets| % 4) % 4;
    if n > 0 {
      PaddingAt(n, 0);
    } else {
      NoPaddings();
    }
    forall i | 0 <= i < |Encode(data)|
      ensures Encode(data)[i] as int == (if 6 * i < 8 * |data| then Letter(SymbolOf(data, i)) else '=') as int
    {
      if i < |sextets| {
        CharacterAt(sextets, i);
        SextetIsSymbol(data, i);
        AlphabetCodes(sextets[i]);
        LetterCodes(SymbolOf(data, i));
      } else {
        PaddingAt(n, i - |sextets|);
      }
    }
  }

  lemma NoPaddings()
    ensures Paddings(0) == []
  {
  }

  // ---------------------------------------------------------------------------------------------
  // Round trip
  // ---------------------------------------------------------------------------------------------

  // The text without line feeds, carriage returns, tabs and spaces.
  function Stripped(s: seq<bv8>): seq<bv8> {
    if s == [] then [] else
      var rest := Stripped(s[1..]);
      if s[0] == 0x0A || s[0] == 0x0D || s[0] == 0x09 || s[0] == 0x20 then rest else [s[0]] + rest
  }

  lemma {:induction false} StrippingSkipsSpaces(s: seq<bv8>)
    ensures Stripped(s) == WithoutSpaces(s)
  {
    if s != [] {
      StrippingSkipsSpaces(s[1..]);
    }
  }

  /** Decoding inverts the standard's encoding, wherever line feeds, carriage returns, tabs and spaces are
      inserted. */
  lemma EncodedTextsDecode(s: seq<bv8>, data: seq<bv8>)
    requires |Stripped(s)| == (|data| + 2) / 3 * 4
    requires forall i | 0 <= i < |Stripped(s)| ::
               Stripped(s)[i] as int == (if 6 * i < 8 * |data| then Letter(SymbolOf(data, i)) else '=') as int
    ensures Decode(s) == Bytes(data)
  {
    hide Stripped, Encode, Decode, SymbolOf, Letter;
    EncodingIsTheStandard(data);
    StrippingSkipsSpaces(s);
    SameCharacters(Stripped(s), Encode(data));
    DecodingInvertsEncoding(s, data);
  }

  lemma SameCharacters(s: seq<bv8>, t: seq<bv8>)
    requires |s| == |t| && forall i | 0 <= i < |s| :: s[i] as int == t[i] as int
    ensures s == t
  {
    forall i | 0 <= i < |s| ensures s[i] == t[i] {
      SameByte(s[i], t[i]);
    }
  }

  lemma SameByte(a: bv8, b: bv8)
    requires a as int == b as int
    ensures a == b
  {
  }
}
