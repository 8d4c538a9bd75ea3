/** What a valid event is, byte by byte and bit by bit, in plain arithmetic on the bytes of the buffer. */
module EventLayout {
  import opened Bits
  import opened RawBits
  import opened EventFormat
  import EventDecoding

  // ---------------------------------------------------------------------------------------------
  // Numbers in the buffer
  // ---------------------------------------------------------------------------------------------

  // Ten bits, least significant first.
  function RawTen(data: seq<bv8>, n: nat): nat {
    RawDigit(data, n) + 2 * RawDigit(data, n + 1) + 4 * RawDigit(data, n + 2) + 8 * RawDigit(data, n + 3)
    + 16 * RawDigit(data, n + 4) + 32 * RawDigit(data, n + 5) + 64 * RawDigit(data, n + 6)
    + 128 * RawDigit(data, n + 7) + 256 * RawDigit(data, n + 8) + 512 * RawDigit(data, n + 9)
  }

  lemma MemoryBitIsRaw(m: Memory, n: nat)
    requires n < 8 * |m.data|
    ensures Bit(m, n) <==> RawBit(m.data, n)
  {
    hide TestMask;
    MaskIsDigit(m.data[n / 8], n % 8);
  }

  lemma TwoDigits(m: Memory, n: nat, k: nat)
    requires n + 2 <= 8 * |m.data|
    ensures Number(m, n, k + 2) == RawDigit(m.data, n) + 2 * RawDigit(m.data, n + 1) + 4 * Number(m, n + 2, k)
  {
    hide Bit, RawBit;
    MemoryBitIsRaw(m, n);
    MemoryBitIsRaw(m, n + 1);
    assert Number(m, n + 1, k + 1) == Digit(Bit(m, n + 1)) + 2 * Number(m, n + 2, k);
  }

  lemma NoDigits(m: Memory, n: nat)
    ensures Number(m, n, 0) == 0
  {
  }

  lemma TenIsRaw(m: Memory, n: nat)
    requires n + 10 <= 8 * |m.data|
    ensures Number(m, n, 10) == RawTen(m.data, n)
  {
    hide RawDigit, Number;
    TwoDigits(m, n, 8);
    TwoDigits(m, n + 2, 6);
    TwoDigits(m, n + 4, 4);
    TwoDigits(m, n + 6, 2);
    TwoDigits(m, n + 8, 0);
    NoDigits(m, n + 10);
  }

  // ---------------------------------------------------------------------------------------------
  // One ASIC block
  // ---------------------------------------------------------------------------------------------

  // The flagged channels before channel c.
  function FlaggedBefore(flags: seq<bool>, c: nat): set<nat> {
    set i: nat | i < c && i < |flags| && flags[i]
  }

  lemma {:induction false} CountIsFlagged(flags: seq<bool>, c: nat)
    requires c <= |flags|
    ensures Count(flags, c) == |FlaggedBefore(flags, c)|
  {
    if c == 0 {
      assert FlaggedBefore(flags, 0) == {};
    } else {
      CountIsFlagged(flags, c - 1);
      if flags[c - 1] {
        assert FlaggedBefore(flags, c) == FlaggedBefore(flags, c - 1) + {c - 1};
      } else {
        assert FlaggedBefore(flags, c) == FlaggedBefore(flags, c - 1);
      }
    }
  }

  // How many bits the block of an ASIC takes.
  function BlockBits(a: AsicData): nat {
    if |a.header| > 1 && a.header[1] then 91 + 10 * |FlaggedBefore(a.chflag, 64)| else 5
  }

  // An ASIC without data: the second of its five header bits is clear.
  ghost predicate IsEmpty(a: AsicData)
    requires |a.chflag| == |a.adc| == 64
  {
    && a.ref == 0 && a.cmn == 0
    && forall c | 0 <= c < 64 :: !a.chflag[c] && a.adc[c] == 0
  }

  // An ASIC with data: header, channel flags, one bit, reference, samples of the flagged channels in order,
  // common mode noise, one bit.
  ghost predicate IsFull(a: AsicData, data: seq<bv8>, pos: nat)
    requires |a.chflag| == |a.adc| == 64
  {
    && a.ref == RawTen(data, pos + 70)
    && a.cmn == RawTen(data, pos + 80 + 10 * |FlaggedBefore(a.chflag, 64)|)
    && (forall c | 0 <= c < 64 :: a.chflag[c] == RawBit(data, pos + 5 + c))
    && forall c | 0 <= c < 64 ::
         a.adc[c] == if a.chflag[c] then RawTen(data, pos + 80 + 10 * |FlaggedBefore(a.chflag, c)|) else -1
  }

  // The block that starts at bit pos.
  ghost predicate IsBlock(a: AsicData, data: seq<bv8>, pos: nat) {
    && |a.header| == 5 && |a.chflag| == 64 && |a.adc| == 64
    && (forall j | 0 <= j < 5 :: a.header[j] == RawBit(data, pos + j))
    && if a.header[1] then IsFull(a, data, pos) else IsEmpty(a)
  }

  lemma HeaderIsRaw(m: Memory, pos: nat)
    requires pos + 5 <= 8 * |m.data|
    ensures forall j | 0 <= j < 5 :: HeaderAt(m, pos)[j] == RawBit(m.data, pos + j)
  {
    hide Bit, RawBit;
    forall j: nat | j < 5 ensures HeaderAt(m, pos)[j] == RawBit(m.data, pos + j) {
      MemoryBitIsRaw(m, pos + j);
    }
  }

  lemma FlagsAreRaw(m: Memory, pos: nat)
    requires pos + 69 <= 8 * |m.data|
    ensures forall c | 0 <= c < 64 :: FlagsAt(m, pos)[c] == RawBit(m.data, pos + 5 + c)
  {
    hide Bit, RawBit;
    forall c: nat | c < 64 ensures FlagsAt(m, pos)[c] == RawBit(m.data, pos + 5 + c) {
      MemoryBitIsRaw(m, pos + 5 + c);
    }
  }

  lemma AdcIsRaw(m: Memory, pos: nat, c: nat)
    requires pos + AsicBits(m, pos) <= 8 * |m.data| && HeaderAt(m, pos)[1] && c < 64
    ensures var flags := FlagsAt(m, pos);
            AdcAt(m, pos, c) == if flags[c] then RawTen(m.data, pos + 80 + 10 * |FlaggedBefore(flags, c)|) else -1
  {
    hide FlagsAt, HeaderAt, Number, RawTen, FlaggedBefore;
    var flags := FlagsAt(m, pos);
    if flags[c] {
      EventDecoding.CountGrows(flags, c + 1, 64);
      CountIsFlagged(flags, c);
      TenIsRaw(m, pos + 80 + 10 * Count(flags, c));
    }
  }

  lemma SizeIsRaw(m: Memory, pos: nat)
    ensures BlockBits(AsicAt(m, pos)) == AsicBits(m, pos)
  {
    hide Number, AdcAt;
    CountIsFlagged(FlagsAt(m, pos), 64);
  }

  lemma AsicIsBlock(m: Memory, pos: nat)
    requires pos + AsicBits(m, pos) <= 8 * |m.data|
    ensures IsBlock(AsicAt(m, pos), m.data, pos)
  {
    hide FlagsAt, HeaderAt, Number, RawTen, RawBit, FlaggedBefore, AdcAt;
    HeaderIsRaw(m, pos);
    if HeaderAt(m, pos)[1] {
      var flags := FlagsAt(m, pos);
      FlagsAreRaw(m, pos);
      CountIsFlagged(flags, 64);
      TenIsRaw(m, pos + 70);
      TenIsRaw(m, pos + 80 + 10 * Count(flags, 64));
      forall c | 0 <= c < 64
        ensures AdcAt(m, pos, c) == if flags[c] then RawTen(m.data, pos + 80 + 10 * |FlaggedBefore(flags, c)|) else -1
      {
        AdcIsRaw(m, pos, c);
      }
    }
  }

  // The bits decide the block.
  lemma BlockIsUnique(a: AsicData, b: AsicData, data: seq<bv8>, pos: nat)
    requires IsBlock(a, data, pos) && IsBlock(b, data, pos)
    ensures a == b
  {
    hide RawTen, RawBit, FlaggedBefore;
    assert a.header == b.header;
    assert a.chflag == b.chflag;
    assert a.adc == b.adc;
  }

  // ---------------------------------------------------------------------------------------------
  // One event
  // ---------------------------------------------------------------------------------------------

  lemma Big32IsWord(data: seq<bv8>, i: nat)
    requires i + 4 <= |data|
    ensures Big32(data, i) as nat == Word(data, i)
  {
    WordSum(data[i], data[i + 1], data[i + 2], data[i + 3]);
  }

  lemma Big16IsHalfWord(data: seq<bv8>, i: nat)
    requires i + 2 <= |data|
    ensures Big16(data, i) as nat == HalfWord(data, i)
    ensures IsPseudo(Big16(data, i)) <==> (data[i + 1] as nat) % 2 == 1
  {
    Big16Sum(data[i], data[i + 1]);
    PseudoBit(data[i], data[i + 1]);
  }

  lemma Big16Sum(a: bv8, b: bv8)
    ensures (((a as bv32) << 8) | (b as bv32)) as nat == 0x100 * (a as nat) + b as nat
  {
  }

  lemma PseudoBit(a: bv8, b: bv8)
    ensures (((a as bv32) << 8) | (b as bv32)) & 1 == 1 <==> (b as nat) % 2 == 1
  {
  }

  // The fields at fixed places behind the header of the event at byte head.
  ghost predicate IsFixed(e: EventValue, data: seq<bv8>, head: nat)
    requires head + 24 <= |data|
  {
    && e.ti as nat == Word(data, head + 4)
    && e.livetime as nat == Word(data, head + 8)
    && e.integralLivetime as nat == HalfWord(data, head + 12)
    && e.flagTrigPat as nat == HalfWord(data, head + 14)
    && (e.isPseudo <==> (data[head + 15] as nat) % 2 == 1)
    && e.eventCounter as nat == Word(data, head + 16)
    && e.pseudoCounter as nat == Word(data, head + 20)
  }

  // Where the first n of the blocks that start at bit pos end.
  function BlocksEnd(asics: seq<AsicData>, pos: nat, n: nat): nat
    requires n <= |asics|
  {
    if n == 0 then pos else BlocksEnd(asics, pos, n - 1) + BlockBits(asics[n - 1])
  }

  predicate IsHeader(data: seq<bv8>, n: nat) {
    n + 4 <= |data| && data[n] == 0x3C && data[n + 1] == 0x3C && data[n + 2] == 0x00 && data[n + 3] == 0x00
  }

  predicate IsFooter(data: seq<bv8>, n: nat) {
    n + 4 <= |data| && data[n] == 0x00 && data[n + 1] == 0x00 && data[n + 2] == 0x77 && data[n + 3] == 0x77
  }

  // The place of the footer behind these blocks: one word after the next word boundary.
  function Place(blocks: seq<AsicData>, head: nat): nat
    requires |blocks| == 4
  {
    (BlocksEnd(blocks, 8 * (head + 24), 4) + 31) / 32 * 4 + 4
  }

  /** Bytes head to next are a header, fixed fields, four blocks one behind the other, and whatever stands before
      the first footer at or behind its place. */
  ghost predicate IsSpan(blocks: seq<AsicData>, data: seq<bv8>, head: nat, next: nat) {
    && IsHeader(data, head) && |blocks| == 4 && next >= 4
    && (forall i | 0 <= i < 4 :: IsBlock(blocks[i], data, BlocksEnd(blocks, 8 * (head + 24), i)))
    && Place(blocks, head) <= next - 4 && IsFooter(data, next - 4)
    && forall q: nat | Place(blocks, head) <= q < next - 4 :: !IsFooter(data, q)
  }

  // Nothing is left of an event that is not valid.
  ghost predicate IsBlank(e: EventValue) {
    && !e.valid && e.ti == 0 && e.livetime == 0 && e.integralLivetime == 0 && e.flagTrigPat == 0
    && e.eventCounter == 0 && e.pseudoCounter == 0 && |e.asics| == 4
    && forall i | 0 <= i < 4 ::
         && e.asics[i].header == [false, false, false, false, false]
         && |e.asics[i].chflag| == |e.asics[i].adc| == 64 && IsEmpty(e.asics[i])
  }

  ghost predicate IsRead(e: EventValue, blocks: seq<AsicData>, data: seq<bv8>, head: nat, next: nat) {
    && head + 24 <= |data| && |blocks| == 4
    && (e.isPseudo <==> (data[head + 15] as nat) % 2 == 1)
    && if next - 4 == Place(blocks, head) then e.valid && IsFixed(e, data, head) && e.asics == blocks
       else IsBlank(e)
  }

  lemma FixedFieldsAreRaw(data: seq<bv8>, head: nat, e: EventValue)
    requires head + 24 <= |data|
    ensures IsFixed(FixedFields(data, head, e), data, head)
  {
    hide Big32, Big16, Word, HalfWord, IsPseudo;
    Big32IsWord(data, head + 4);
    Big32IsWord(data, head + 8);
    Big16IsHalfWord(data, head + 12);
    Big16IsHalfWord(data, head + 14);
    Big32IsWord(data, head + 16);
    Big32IsWord(data, head + 20);
  }

  lemma {:induction false} BlocksFollow(m: Memory, asics: seq<AsicData>, pos: nat, n: nat)
    requires n <= |asics|
    requires forall i: nat | i < n :: BlockBits(asics[i]) == AsicBits(m, BlockStart(m, pos, i))
    ensures BlocksEnd(asics, pos, n) == BlockStart(m, pos, n)
    decreases n
  {
    hide BlockBits, AsicBits;
    if n > 0 {
      BlocksFollow(m, asics, pos, n - 1);
    }
  }

  lemma {:induction false} StartsGrow(m: Memory, pos: nat, i: nat, n: nat)
    requires i <= n
    ensures BlockStart(m, pos, i) <= BlockStart(m, pos, n)
    decreases n
  {
    hide AsicBits;
    if i < n {
      StartsGrow(m, pos, i, n - 1);
    }
  }

  lemma NoBlocks(m: Memory, pos: nat)
    ensures BlockStart(m, pos, 0) == pos
  {
  }

  lemma BlocksAreRaw(m: Memory, pos: nat)
    requires BlockStart(m, pos, 4) <= 8 * |m.data|
    ensures var asics := AsicsAt(m, pos);
            && (forall i | 0 <= i < 4 :: IsBlock(asics[i], m.data, BlocksEnd(asics, pos, i)))
            && BlocksEnd(asics, pos, 4) == BlockStart(m, pos, 4)
  {
    hide IsBlock, BlockBits, AsicAt, AsicBits, BlockStart, BlocksEnd;
    var asics := AsicsAt(m, pos);
    forall i: nat | i < 4 ensures BlockBits(asics[i]) == AsicBits(m, BlockStart(m, pos, i)) {
      SizeIsRaw(m, BlockStart(m, pos, i));
    }
    forall i: nat | i < 4 ensures IsBlock(asics[i], m.data, BlocksEnd(asics, pos, i)) {
      BlocksFollow(m, asics, pos, i);
      StartIsNext(m, pos, i);
      StartsGrow(m, pos, i + 1, 4);
      AsicIsBlock(m, BlockStart(m, pos, i));
    }
    BlocksFollow(m, asics, pos, 4);
  }

  lemma StartIsNext(m: Memory, pos: nat, i: nat)
    ensures BlockStart(m, pos, i + 1) == BlockStart(m, pos, i) + AsicBits(m, BlockStart(m, pos, i))
  {
  }

  lemma BlockIsRead(m: Memory, pos: nat, a: AsicData)
    requires IsBlock(a, m.data, pos) && pos + BlockBits(a) <= 8 * |m.data|
    ensures AsicAt(m, pos) == a && AsicBits(m, pos) == BlockBits(a)
  {
    hide RawTen, RawBit, FlaggedBefore, HeaderAt, FlagsAt, AsicAt, IsFull;
    HeaderIsRaw(m, pos);
    assert HeaderAt(m, pos) == a.header;
    if a.header[1] {
      FlagsOfFull(m, pos, a);
      CountIsFlagged(FlagsAt(m, pos), 64);
    }
    AsicIsBlock(m, pos);
    BlockIsUnique(AsicAt(m, pos), a, m.data, pos);
  }

  lemma FlagsOfFull(m: Memory, pos: nat, a: AsicData)
    requires |a.chflag| == |a.adc| == 64 && IsFull(a, m.data, pos) && pos + 69 <= 8 * |m.data|
    ensures FlagsAt(m, pos) == a.chflag
  {
    hide RawTen, RawBit, FlaggedBefore;
    FlagsAreRaw(m, pos);
  }

  lemma {:induction false} EndsGrow(asics: seq<AsicData>, pos: nat, i: nat, n: nat)
    requires i <= n <= |asics|
    ensures BlocksEnd(asics, pos, i) <= BlocksEnd(asics, pos, n)
    decreases n
  {
    hide BlockBits;
    if i < n {
      EndsGrow(asics, pos, i, n - 1);
    }
  }

  lemma BlocksAreRead(m: Memory, blocks: seq<AsicData>, pos: nat)
    requires |blocks| == 4 && BlocksEnd(blocks, pos, 4) <= 8 * |m.data|
    requires forall i | 0 <= i < 4 :: IsBlock(blocks[i], m.data, BlocksEnd(blocks, pos, i))
    ensures BlockStart(m, pos, 4) == BlocksEnd(blocks, pos, 4)
    ensures AsicsAt(m, pos) == blocks
  {
    hide IsBlock, BlockBits, AsicAt, AsicBits, BlockStart;
    NoBlocks(m, pos);
    for i := 0 to 4
      invariant BlockStart(m, pos, i) == BlocksEnd(blocks, pos, i)
      invariant forall j | 0 <= j < i :: AsicAt(m, BlockStart(m, pos, j)) == blocks[j]
    {
      EndsGrow(blocks, pos, i + 1, 4);
      BlockIsRead(m, BlocksEnd(blocks, pos, i), blocks[i]);
      StartIsNext(m, pos, i);
    }
  }

  lemma SpanIsRead(m: Memory, blocks: seq<AsicData>, head: nat, next: nat)
    requires IsSpan(blocks, m.data, head, next)
    ensures AsicsAt(m, 8 * (head + 24)) == blocks && FooterPlace(m, head) == Place(blocks, head)
    ensures head + 24 <= |m.data|
  {
    hide IsBlock, BlocksEnd, AsicAt, BlockStart;
    var pos := 8 * (head + 24);
    BlocksAreRead(m, blocks, pos);
    EndsGrow(blocks, pos, 0, 4);
    NoEnd(blocks, pos);
  }

  lemma NoEnd(blocks: seq<AsicData>, pos: nat)
    ensures BlocksEnd(blocks, pos, 0) == pos
  {
  }

  lemma FooterIsRaw(data: seq<bv8>, n: nat)
    ensures Matches(data, n, EVENT_FOOTER) <==> IsFooter(data, n)
  {
  }

  lemma HeaderIsMatched(data: seq<bv8>, n: nat)
    ensures Matches(data, n, EVENT_HEADER) <==> IsHeader(data, n)
  {
  }

  lemma FixedIgnoresAsics(e: EventValue, asics: seq<AsicData>, data: seq<bv8>, head: nat)
    requires head + 24 <= |data| && IsFixed(e, data, head)
    ensures IsFixed(e.(asics := asics), data, head)
  {
  }

  lemma InvalidIsBlank(e: EventValue)
    ensures IsBlank(Invalidated(e)) && Invalidated(e).isPseudo == e.isPseudo
  {
    assert Zeros(5) == [false, false, false, false, false];
    assert forall i | 0 <= i < 4 :: Invalidated(e).asics[i] == ResetAsic();
  }

  // What a call makes of a span.
  lemma SpanDecides(m: Memory, head: nat, previous: EventValue, blocks: seq<AsicData>, next: nat)
    requires IsSpan(blocks, m.data, head, next)
    ensures var step := Unpack1(m, head, previous);
            step.outcome == EventRead && step.head == next && IsRead(step.event, blocks, m.data, head, next)
  {
    hide AsicsAt, FooterPlace, FixedFields, IsBlock, IsFixed, Matches, BlocksEnd, Place, Invalidated, IsBlank;
    SpanIsRead(m, blocks, head, next);
    HeaderIsMatched(m.data, head);
    var e := FixedFields(m.data, head, Reset(previous));
    FixedFieldsAreRaw(m.data, head, Reset(previous));
    FixedIgnoresAsics(e, blocks, m.data, head);
    FixedHasPseudo(e, m.data, head);
    FixedKeepsValid(m.data, head, Reset(previous));
    InvalidIsBlank(e);
    forall q | Place(blocks, head) <= q < next ensures Matches(m.data, q, EVENT_FOOTER) <==> IsFooter(m.data, q) {
      FooterIsRaw(m.data, q);
    }
  }

  lemma FixedKeepsValid(data: seq<bv8>, head: nat, e: EventValue)
    ensures FixedFields(data, head, e).valid == e.valid
  {
  }

  lemma FixedHasPseudo(e: EventValue, data: seq<bv8>, head: nat)
    requires head + 24 <= |data| && IsFixed(e, data, head)
    ensures e.isPseudo <==> (data[head + 15] as nat) % 2 == 1
  {
  }

  lemma ReadMeansSpan(m: Memory, head: nat, previous: EventValue)
    requires Unpack1(m, head, previous).outcome == EventRead
    ensures IsSpan(AsicsAt(m, 8 * (head + 24)), m.data, head, Unpack1(m, head, previous).head)
  {
    hide AsicsAt, BlockStart, FixedFields, IsBlock, Matches, BlocksEnd;
    HeaderIsMatched(m.data, head);
    BlocksAreRaw(m, 8 * (head + 24));
    forall q ensures Matches(m.data, q, EVENT_FOOTER) <==> IsFooter(m.data, q) {
      FooterIsRaw(m.data, q);
    }
  }

  /** A call at byte head returns true exactly if a span starts there; it then stops behind the span, and the
      event is that of the span. A header without room for the fixed fields is an exception; where no header
      stands the cursor stays. */
  ghost predicate ReadsItsBytes(data: seq<bv8>, head: nat, step: Step) {
    && (step.outcome == EventRead <==> exists blocks, next: nat :: IsSpan(blocks, data, head, next))
    && (forall blocks, next: nat | IsSpan(blocks, data, head, next) ::
          next == step.head && IsRead(step.event, blocks, data, head, next))
    && (step.outcome == OutOfRange <==> IsHeader(data, head) && head + 24 > |data|)
    && (step.outcome != EventRead && (!IsHeader(data, head) || head + 24 > |data|) ==> step.head == head)
  }

  lemma CallsReadTheirBytes(m: Memory, head: nat, previous: EventValue)
    ensures ReadsItsBytes(m.data, head, Unpack1(m, head, previous))
  {
    hide AsicsAt, IsSpan, IsRead, Unpack1, IsHeader;
    var step := Unpack1(m, head, previous);
    forall blocks, next: nat | IsSpan(blocks, m.data, head, next)
      ensures next == step.head && step.outcome == EventRead && IsRead(step.event, blocks, m.data, head, next)
    {
      SpanDecides(m, head, previous, blocks, next);
    }
    if step.outcome == EventRead {
      ReadMeansSpan(m, head, previous);
    }
    NoEventStays(m, head, previous);
  }

  lemma NoEventStays(m: Memory, head: nat, previous: EventValue)
    ensures var step, short := Unpack1(m, head, previous), head + 24 > |m.data|;
            && (step.outcome == OutOfRange <==> IsHeader(m.data, head) && short)
            && (!IsHeader(m.data, head) || short ==> step.outcome != EventRead && step.head == head)
  {
    hide FixedFields, FooterPlace, AsicsAt, FooterFrom, Invalidated, Matches, IsHeader;
    HeaderIsMatched(m.data, head);
  }
}
