/** base64_decode of include/base64.hh against the encoding of section 4 of RFC 4648. */
module Base64 {
  import opened Bits

  // ---------------------------------------------------------------------------------------------
  // The decoding table
  // ---------------------------------------------------------------------------------------------

  datatype Symbol = Invalid | Padding | Sextet(v: bv8)

  // kBase64DecTable: -1 is Invalid, -2 is Padding.
  function DecTable(c: bv8): Symbol {
    if 0x41 <= c <= 0x5A then Sextet(c - 0x41)
    else if 0x61 <= c <= 0x7A then Sextet(c - 0x61 + 26)
    else if 0x30 <= c <= 0x39 then Sextet(c - 0x30 + 52)
    else if c == 0x2B then Sextet(62)
    else if c == 0x2F then Sextet(63)
    else if c == 0x3D then Padding
    else Invalid
  }

  // '\n', '\r', '\t' and ' '.
  predicate IsSpace(c: bv8) {
    c == 0x0A || c == 0x0D || c == 0x09 || c == 0x20
  }

  // ---------------------------------------------------------------------------------------------
  // What a text stands for
  // ---------------------------------------------------------------------------------------------

  datatype Payload = Symbols(sextets: seq<bv8>) | InvalidCharacter

  // The symbols before the first '=', white space left out.
  function PayloadOf(s: seq<bv8>): (p: Payload)
    decreases |s|
  {
    if s == [] then Symbols([])
    else if IsSpace(s[0]) then PayloadOf(s[1..])
    else match DecTable(s[0])
      case Invalid => InvalidCharacter
      case Padding => Symbols([])
      case Sextet(v) =>
        match PayloadOf(s[1..])
        case Symbols(rest) => Symbols([v] + rest)
        case InvalidCharacter => InvalidCharacter
  }

  // Bit k of a six-bit symbol, most significant first.
  predicate SextetBit(v: bv8, k: nat)
    requires k < 6
  {
    TestMask(v, k + 2)
  }

  predicate SymbolBit(sextets: seq<bv8>, n: nat)
    requires n < 6 * |sextets|
  {
    SextetBit(sextets[n / 6], n % 6)
  }

  /** The bits of the symbols, cut into whole bytes. */
  ghost predicate Spells(sextets: seq<bv8>, data: seq<bv8>) {
    && |data| == 6 * |sextets| / 8
    && forall n: nat | n < 8 * |data| :: BitAt(data, n) == SymbolBit(sextets, n)
  }

  function DecodedBytes(sextets: seq<bv8>): (data: seq<bv8>)
    ensures Spells(sextets, data)
  {
    var n := 8 * (6 * |sextets| / 8);
    Pack(seq(n, i requires 0 <= i < n => SymbolBit(sextets, i)))
  }

  datatype Decoded = Bytes(data: seq<bv8>) | InvalidBase64

  function Decode(s: seq<bv8>): Decoded {
    match PayloadOf(s)
    case InvalidCharacter => InvalidBase64
    case Symbols(sextets) => Bytes(DecodedBytes(sextets))
  }

  lemma SpellingIsUnique(sextets: seq<bv8>, a: seq<bv8>, b: seq<bv8>)
    requires Spells(sextets, a) && Spells(sextets, b)
    ensures a == b
  {
    BytesAreTheirBits(a, b);
  }

  // ---------------------------------------------------------------------------------------------
  // The accumulator: 32 bits that wrap and are never masked
  // ---------------------------------------------------------------------------------------------

  // Bit k of the accumulator, least significant first.
  predicate AccBit(acc: bv32, k: nat)
    requires k < 14
  {
    acc & AccMask(k) != 0
  }

  function AccMask(k: nat): bv32
    requires k < 14
  {
    if k == 0 then 0x1 else if k == 1 then 0x2 else if k == 2 then 0x4 else if k == 3 then 0x8
    else if k == 4 then 0x10 else if k == 5 then 0x20 else if k == 6 then 0x40 else if k == 7 then 0x80
    else if k == 8 then 0x100 else if k == 9 then 0x200 else if k == 10 then 0x400
    else if k == 11 then 0x800 else if k == 12 then 0x1000 else 0x2000
  }

  function Shifted(acc: bv32, v: bv8): bv32 {
    (acc << 6) | (v as bv32)
  }

  lemma ShiftedKeepsOldBits(acc: bv32, v: bv8, k: nat)
    requires v & 0xC0 == 0 && k < 8
    ensures AccBit(Shifted(acc, v), k + 6) == AccBit(acc, k)
  {
  }

  lemma ShiftedTakesSymbol(acc: bv32, v: bv8, k: nat)
    requires v & 0xC0 == 0 && k < 6
    ensures AccBit(Shifted(acc, v), k) == SextetBit(v, 5 - k)
  {
  }

  // acc >> bits, for the three counts of bits that can stay behind.
  function Remaining(acc: bv32, bits: nat): bv32 {
    if bits == 0 then acc else if bits == 2 then acc >> 2 else acc >> 4
  }

  function Emitted(acc: bv32, bits: nat): bv8 {
    (Remaining(acc, bits) & 0xFF) as bv8
  }

  lemma LowByteBit(x: bv32, j: nat)
    requires j < 8
    ensures TestMask((x & 0xFF) as bv8, j) == AccBit(x, 7 - j)
  {
  }

  lemma ShiftedDownBit(acc: bv32, k: nat)
    requires k < 8
    ensures AccBit(acc >> 2, k) == AccBit(acc, k + 2)
    ensures AccBit(acc >> 4, k) == AccBit(acc, k + 4)
  {
  }

  lemma EmittedBits(acc: bv32, bits: nat, j: nat)
    requires (bits == 0 || bits == 2 || bits == 4) && j < 8
    ensures TestMask(Emitted(acc, bits), j) == AccBit(acc, bits + 7 - j)
  {
    hide AccBit, TestMask;
    LowByteBit(Remaining(acc, bits), j);
    ShiftedDownBit(acc, 7 - j);
  }

  // The state of the loop: bytes written, and `bits` symbol bits waiting in the accumulator.
  ghost predicate Holds(sextets: seq<bv8>, out: seq<bv8>, acc: bv32, bits: nat) {
    && bits < 14 && 6 * |sextets| == 8 * |out| + bits
    && (forall n: nat | n < 8 * |out| :: BitAt(out, n) == SymbolBit(sextets, n))
    && (forall k: nat | k < bits :: AccBit(acc, k) == SymbolBit(sextets, 6 * |sextets| - 1 - k))
  }

  lemma TakenBit(sextets: seq<bv8>, acc: bv32, v: bv8, k: nat)
    requires v & 0xC0 == 0 && k < 14 && k < 6 * |sextets| + 6
    requires k >= 6 ==> AccBit(acc, k - 6) == SymbolBit(sextets, 6 * |sextets| + 5 - k)
    ensures AccBit(Shifted(acc, v), k) == SymbolBit(sextets + [v], 6 * |sextets| + 5 - k)
  {
    hide Shifted, AccBit, SextetBit;
    if k < 6 {
      ShiftedTakesSymbol(acc, v, k);
    } else {
      ShiftedKeepsOldBits(acc, v, k - 6);
    }
  }

  lemma TakeSymbol(sextets: seq<bv8>, out: seq<bv8>, acc: bv32, bits: nat, v: bv8)
    requires Holds(sextets, out, acc, bits) && bits < 8 && v & 0xC0 == 0
    ensures Holds(sextets + [v], out, Shifted(acc, v), bits + 6)
  {
    hide Shifted, AccBit, SextetBit, BitAt;
    forall k: nat | k < bits + 6
      ensures AccBit(Shifted(acc, v), k) == SymbolBit(sextets + [v], 6 * |sextets| + 5 - k)
    {
      TakenBit(sextets, acc, v, k);
    }
  }

  lemma EmitByte(sextets: seq<bv8>, out: seq<bv8>, acc: bv32, bits: nat)
    requires Holds(sextets, out, acc, bits + 8) && (bits == 0 || bits == 2 || bits == 4)
    ensures Holds(sextets, out + [Emitted(acc, bits)], acc, bits)
  {
    var more := out + [Emitted(acc, bits)];
    forall n: nat | n < 8 * |more|
      ensures BitAt(more, n) == SymbolBit(sextets, n)
    {
      if n < 8 * |out| {
        assert BitAt(more, n) == BitAt(out, n);
      } else {
        hide Emitted, AccBit, TestMask;
        EmittedBits(acc, bits, n - 8 * |out|);
      }
    }
  }

  lemma TableSextetIsSixBits(c: bv8)
    requires DecTable(c).Sextet?
    ensures DecTable(c).v & 0xC0 == 0
  {
  }

  function Prefixed(sextets: seq<bv8>, p: Payload): Payload {
    match p
    case Symbols(rest) => Symbols(sextets + rest)
    case InvalidCharacter => InvalidCharacter
  }

  lemma NothingRead(s: seq<bv8>)
    ensures PayloadOf(s) == Prefixed([], PayloadOf(s[0..]))
  {
    assert s[0..] == s;
  }

  lemma PayloadStep(s: seq<bv8>, i: nat, sextets: seq<bv8>)
    requires i < |s|
    ensures var p := Prefixed(sextets, PayloadOf(s[i..]));
            if IsSpace(s[i]) then p == Prefixed(sextets, PayloadOf(s[i + 1..]))
            else match DecTable(s[i])
                 case Invalid => p == InvalidCharacter
                 case Padding => p == Symbols(sextets)
                 case Sextet(v) => p == Prefixed(sextets + [v], PayloadOf(s[i + 1..]))
  {
    hide DecTable;
    assert s[i..][0] == s[i] && s[i..][1..] == s[i + 1..];
    assert sextets + [] == sextets;
    var d, p := DecTable(s[i]), PayloadOf(s[i + 1..]);
    if d.Sextet? && p.Symbols? {
      assert sextets + ([d.v] + p.sextets) == sextets + [d.v] + p.sextets;
    }
  }

  lemma PayloadEnds(s: seq<bv8>, sextets: seq<bv8>)
    ensures Prefixed(sextets, PayloadOf(s[|s|..])) == Symbols(sextets)
  {
    assert sextets + [] == sextets;
  }

  method Base64Decode(s: seq<bv8>) returns (r: Decoded)
    ensures r == Decode(s)
  {
    hide Holds, DecTable, Emitted, Shifted, Spells, DecodedBytes, PayloadOf, IsSpace;
    var out: seq<bv8> := [];
    var acc: bv32 := 0;
    var bits := 0;
    ghost var sextets: seq<bv8> := [];
    EmptyHolds(acc);
    NothingRead(s);
    var i := 0;
    while i < |s|
      invariant 0 <= i <= |s|
      invariant bits == 0 || bits == 2 || bits == 4 || bits == 6
      invariant Holds(sextets, out, acc, bits)
      invariant PayloadOf(s) == Prefixed(sextets, PayloadOf(s[i..]))
    {
      var c := s[i];
      PayloadStep(s, i, sextets);
      i := i + 1;
      if IsSpace(c) {
        continue;
      }
      match DecTable(c)
      case Invalid =>
        return InvalidBase64;
      case Padding =>
        break;
      case Sextet(v) =>
        TableSextetIsSixBits(c);
        TakeSymbol(sextets, out, acc, bits, v);
        sextets := sextets + [v];
        acc := Shifted(acc, v);
        bits := bits + 6;
        if bits >= 8 {
          bits := bits - 8;
          EmitByte(sextets, out, acc, bits);
          out := out + [Emitted(acc, bits)];
        }
    }
    PayloadEnds(s, sextets);
    HeldBytesSpell(sextets, out, acc, bits);
    SpellingIsUnique(sextets, out, DecodedBytes(sextets));
    r := Bytes(out);
  }

  lemma EmptyHolds(acc: bv32)
    ensures Holds([], [], acc, 0)
  {
  }

  lemma HeldBytesSpell(sextets: seq<bv8>, out: seq<bv8>, acc: bv32, bits: nat)
    requires Holds(sextets, out, acc, bits) && bits < 8
    ensures Spells(sextets, out)
  {
  }

  // ---------------------------------------------------------------------------------------------
  // The encoding of section 4 of RFC 4648
  // ---------------------------------------------------------------------------------------------

  function Alphabet(v: bv8): bv8 {
    if v < 26 then 0x41 + v
    else if v < 52 then 0x61 + (v - 26)
    else if v < 62 then 0x30 + (v - 52)
    else if v == 62 then 0x2B
    else 0x2F
  }

  // The bits of the input, with zeros past its end.
  predicate PaddedBit(data: seq<bv8>, n: nat) {
    n < 8 * |data| && BitAt(data, n)
  }

  function SextetBits(data: seq<bv8>, i: nat): (bits: seq<bool>)
    ensures |bits| == 8 && !bits[0] && !bits[1]
  {
    [false, false, PaddedBit(data, 6 * i), PaddedBit(data, 6 * i + 1), PaddedBit(data, 6 * i + 2),
     PaddedBit(data, 6 * i + 3), PaddedBit(data, 6 * i + 4), PaddedBit(data, 6 * i + 5)]
  }

  lemma SextetBitIsPaddedBit(data: seq<bv8>, i: nat, k: nat)
    requires k < 6
    ensures SextetBits(data, i)[k + 2] == PaddedBit(data, 6 * i + k)
  {
    hide PaddedBit;
  }

  function SextetAt(data: seq<bv8>, i: nat): bv8 {
    ByteOf(SextetBits(data, i))
  }

  function Sextets(data: seq<bv8>): seq<bv8> {
    seq((8 * |data| + 5) / 6, i requires i >= 0 => SextetAt(data, i))
  }

  function Characters(sextets: seq<bv8>): (s: seq<bv8>)
    ensures |s| == |sextets|
  {
    if sextets == [] then [] else [Alphabet(sextets[0])] + Characters(sextets[1..])
  }

  function Paddings(n: nat): seq<bv8> {
    if n == 0 then [] else [0x3D] + Paddings(n - 1)
  }

  function Encode(data: seq<bv8>): seq<bv8> {
    Characters(Sextets(data)) + Paddings((4 - |Sextets(data)| % 4) % 4)
  }

  function WithoutSpaces(s: seq<bv8>): seq<bv8>
    decreases |s|
  {
    if s == [] then [] else (if IsSpace(s[0]) then [] else [s[0]]) + WithoutSpaces(s[1..])
  }

  lemma AlphabetIsInverted(v: bv8)
    requires v & 0xC0 == 0
    ensures DecTable(Alphabet(v)) == Sextet(v) && !IsSpace(Alphabet(v))
  {
  }

  lemma {:induction false} PayloadOfEncoded(s: seq<bv8>, sextets: seq<bv8>, n: nat)
    requires WithoutSpaces(s) == Characters(sextets) + Paddings(n)
    requires forall i | 0 <= i < |sextets| :: sextets[i] & 0xC0 == 0
    ensures PayloadOf(s) == Symbols(sextets)
    decreases |s|
  {
    hide DecTable, Alphabet;
    if s == [] {
      assert |Characters(sextets)| == 0;
    } else if IsSpace(s[0]) {
      PayloadOfEncoded(s[1..], sextets, n);
    } else if sextets == [] {
      assert s[0] == (Characters(sextets) + Paddings(n))[0] == 0x3D;
      assert DecTable(0x3D) == Padding by { PaddingIsPadding(); }
    } else {
      assert s[0] == (Characters(sextets) + Paddings(n))[0] == Alphabet(sextets[0]);
      assert WithoutSpaces(s[1..]) == WithoutSpaces(s)[1..] == Characters(sextets[1..]) + Paddings(n);
      AlphabetIsInverted(sextets[0]);
      PayloadOfEncoded(s[1..], sextets[1..], n);
    }
  }

  lemma PaddingIsPadding()
    ensures DecTable(0x3D) == Padding
  {
  }

  lemma SextetHasSixBits(data: seq<bv8>, i: nat)
    ensures SextetAt(data, i) & 0xC0 == 0
  {
    hide PaddedBit, ByteOf, SextetBits;
    BitOfByte(SextetBits(data, i), 0);
    BitOfByte(SextetBits(data, i), 1);
    TwoClearBits(SextetAt(data, i));
  }

  lemma TwoClearBits(b: bv8)
    requires !TestMask(b, 0) && !TestMask(b, 1)
    ensures b & 0xC0 == 0
  {
  }

  lemma SextetSpellsBit(data: seq<bv8>, i: nat, k: nat)
    requires k < 6 && 6 * i + k < 8 * |data|
    ensures SextetBit(SextetAt(data, i), k) == BitAt(data, 6 * i + k)
  {
    hide BitAt, ByteOf, SextetBits, TestMask;
    BitOfByte(SextetBits(data, i), k + 2);
    SextetBitIsPaddedBit(data, i, k);
  }

  lemma SextetsSpell(data: seq<bv8>)
    ensures Spells(Sextets(data), data)
  {
    hide BitAt, SextetAt, SextetBit;
    forall n: nat | n < 8 * |data|
      ensures BitAt(data, n) == SymbolBit(Sextets(data), n)
    {
      assert 6 * (n / 6) + n % 6 == n;
      SextetSpellsBit(data, n / 6, n % 6);
    }
  }

  lemma {:induction false} CharactersAreNoSpaces(sextets: seq<bv8>, rest: seq<bv8>)
    requires forall i | 0 <= i < |sextets| :: sextets[i] & 0xC0 == 0
    ensures WithoutSpaces(Characters(sextets) + rest) == Characters(sextets) + WithoutSpaces(rest)
    decreases |sextets|
  {
    hide Alphabet, IsSpace;
    var s := Characters(sextets) + rest;
    if sextets == [] {
      assert s == rest;
    } else {
      AlphabetIsInverted(sextets[0]);
      assert s[0] == Alphabet(sextets[0]) && s[1..] == Characters(sextets[1..]) + rest;
      CharactersAreNoSpaces(sextets[1..], rest);
    }
  }

  lemma {:induction false} PaddingsAreNoSpaces(n: nat)
    ensures WithoutSpaces(Paddings(n)) == Paddings(n)
  {
    if n > 0 {
      PaddingsAreNoSpaces(n - 1);
      assert Paddings(n)[1..] == Paddings(n - 1);
    }
  }

  /** The encoding itself contains no white space. */
  lemma EncodingHasNoSpaces(data: seq<bv8>)
    ensures WithoutSpaces(Encode(data)) == Encode(data)
  {
    hide SextetAt;
    forall i | 0 <= i < |Sextets(data)| ensures Sextets(data)[i] & 0xC0 == 0 {
      SextetHasSixBits(data, i);
    }
    var n := (4 - |Sextets(data)| % 4) % 4;
    CharactersAreNoSpaces(Sextets(data), Paddings(n));
    PaddingsAreNoSpaces(n);
  }

  /** Decoding inverts the encoding, wherever spaces, tabs and line ends are inserted. */
  lemma DecodingInvertsEncoding(s: seq<bv8>, data: seq<bv8>)
    requires WithoutSpaces(s) == Encode(data)
    ensures Decode(s) == Bytes(data)
  {
    hide SextetAt;
    forall i | 0 <= i < |Sextets(data)|
      ensures Sextets(data)[i] & 0xC0 == 0
    {
      SextetHasSixBits(data, i);
    }
    PayloadOfEncoded(s, Sextets(data), (4 - |Sextets(data)| % 4) % 4);
    SextetsSpell(data);
    SpellingIsUnique(Sextets(data), DecodedBytes(Sextets(data)), data);
  }
}
