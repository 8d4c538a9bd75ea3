/** An encoder for the event stream, and the proof that the decoder inverts it on whole frames. */
module EventEncoding {
  import opened Bits
  import opened EventFormat
  import opened EventDecoding

  // ---------------------------------------------------------------------------------------------
  // Encodable events
  // ---------------------------------------------------------------------------------------------

  predicate IsAdc(v: int) {
    0 <= v < 1024
  }

  ghost predicate WellFormedAsic(a: AsicData) {
    && |a.header| == 5 && |a.chflag| == CHANNEL_NUM && |a.adc| == CHANNEL_NUM
    && if !a.header[1] then a == ResetAsic().(header := a.header)
       else
         && IsAdc(a.ref) && IsAdc(a.cmn)
         && forall j | 0 <= j < CHANNEL_NUM :: if a.chflag[j] then IsAdc(a.adc[j]) else a.adc[j] == -1
  }

  ghost predicate WellFormed(e: EventValue) {
    && e.valid && e.isPseudo == IsPseudo(e.flagTrigPat)
    && e.integralLivetime & 0xFFFF0000 == 0 && e.flagTrigPat & 0xFFFF0000 == 0
    && |e.asics| == ASIC_NUM && forall i | 0 <= i < ASIC_NUM :: WellFormedAsic(e.asics[i])
  }

  // Bits the decoder skips: two in every ASIC block, and those up to the footer.
  datatype Filler = Filler(first: seq<bool>, second: seq<bool>, pad: seq<bool>)

  // ---------------------------------------------------------------------------------------------
  // The encoding
  // ---------------------------------------------------------------------------------------------

  // The k low bits of v, least significant first.
  function LowBits(v: nat, k: nat): (b: seq<bool>)
    ensures |b| == k
    decreases k
  {
    if k == 0 then [] else [v % 2 == 1] + LowBits(v / 2, k - 1)
  }

  ghost function AdcBits(a: AsicData, j: nat): (b: seq<bool>)
    requires WellFormedAsic(a) && a.header[1] && j <= CHANNEL_NUM
    ensures |b| == 10 * Count(a.chflag, j)
  {
    if j == 0 then []
    else AdcBits(a, j - 1) + if a.chflag[j - 1] then LowBits(a.adc[j - 1], 10) else []
  }

  ghost function AsicBlock(a: AsicData, first: bool, second: bool): (b: seq<bool>)
    requires WellFormedAsic(a)
    ensures |b| == if a.header[1] then 91 + 10 * Count(a.chflag, CHANNEL_NUM) else 5
  {
    if !a.header[1] then a.header
    else
      a.header + a.chflag + [first] + LowBits(a.ref, 10) + AdcBits(a, CHANNEL_NUM)
      + LowBits(a.cmn, 10) + [second]
  }

  ghost predicate GoodFiller(f: Filler) {
    |f.first| == ASIC_NUM && |f.second| == ASIC_NUM
  }

  ghost function Blocks(asics: seq<AsicData>, f: Filler, i: nat): (b: seq<bool>)
    requires |asics| == ASIC_NUM && (forall k | 0 <= k < ASIC_NUM :: WellFormedAsic(asics[k]))
    requires GoodFiller(f) && i <= ASIC_NUM
  {
    if i == 0 then []
    else Blocks(asics, f, i - 1) + AsicBlock(asics[i - 1], f.first[i - 1], f.second[i - 1])
  }

  // From the first ASIC bit to the footer: (n + 63) / 32 words for n bits.
  function PayloadBits(n: nat): (b: nat)
    ensures b >= n + 32 && b % 8 == 0 && b / 8 == 4 * ((n + 63) / 32)
  {
    (n + 63) / 32 * 32
  }

  ghost predicate Encodable(e: EventValue, f: Filler) {
    && WellFormed(e) && GoodFiller(f)
    && |f.pad| == PayloadBits(|Blocks(e.asics, f, ASIC_NUM)|) - |Blocks(e.asics, f, ASIC_NUM)|
  }

  /** Every well-formed event can be written, with any bits in its blocks and any padding to the footer: the
      length of the padding, 32 to 63 bits, depends on the event alone. */
  lemma EveryEventIsEncodable(e: EventValue, first: seq<bool>, second: seq<bool>, pad: seq<bool>)
    requires WellFormed(e) && |first| == |second| == ASIC_NUM
    ensures var n := |Blocks(e.asics, Filler(first, second, []), ASIC_NUM)|;
            && 32 <= PayloadBits(n) - n < 64
            && (Encodable(e, Filler(first, second, pad)) <==> |pad| == PayloadBits(n) - n)
  {
    hide WellFormedAsic, AsicBlock;
    BlocksIgnorePad(e.asics, Filler(first, second, []), pad, ASIC_NUM);
  }

  lemma {:induction false} BlocksIgnorePad(asics: seq<AsicData>, f: Filler, pad: seq<bool>, i: nat)
    requires |asics| == ASIC_NUM && (forall k | 0 <= k < ASIC_NUM :: WellFormedAsic(asics[k]))
    requires GoodFiller(f) && i <= ASIC_NUM
    ensures Blocks(asics, f.(pad := pad), i) == Blocks(asics, f, i)
    decreases i
  {
    hide WellFormedAsic, AsicBlock;
    if i > 0 {
      BlocksIgnorePad(asics, f, pad, i - 1);
    }
  }

  function Bytes16(v: bv32): (b: seq<bv8>)
    ensures |b| == 2
  {
    [((v >> 8) & 0xFF) as bv8, (v & 0xFF) as bv8]
  }

  function FixedBytes(e: EventValue): (b: seq<bv8>)
    ensures |b| == FIXED_BYTES
  {
    EVENT_HEADER + BigEndian(e.ti) + BigEndian(e.livetime) + Bytes16(e.integralLivetime)
    + Bytes16(e.flagTrigPat) + BigEndian(e.eventCounter) + BigEndian(e.pseudoCounter)
  }

  ghost function Payload(e: EventValue, f: Filler): (b: seq<bool>)
    requires Encodable(e, f)
    ensures |b| == PayloadBits(|Blocks(e.asics, f, ASIC_NUM)|)
  {
    Blocks(e.asics, f, ASIC_NUM) + f.pad
  }

  ghost function EventBytes(e: EventValue, f: Filler): (b: seq<bv8>)
    requires Encodable(e, f)
    ensures |b| == 28 + PayloadBits(|Blocks(e.asics, f, ASIC_NUM)|) / 8
  {
    FixedBytes(e) + Pack(Payload(e, f)) + EVENT_FOOTER
  }

  // ---------------------------------------------------------------------------------------------
  // Decoding one ASIC block
  // ---------------------------------------------------------------------------------------------

  // The bits b stand in memory from position pos.
  ghost predicate Stands(m: Memory, pos: nat, b: seq<bool>) {
    forall k | 0 <= k < |b| :: Bit(m, pos + k) == b[k]
  }

  lemma StandsSplit(m: Memory, pos: nat, a: seq<bool>, b: seq<bool>)
    requires Stands(m, pos, a + b)
    ensures Stands(m, pos, a) && Stands(m, pos + |a|, b)
  {
    hide Bit;
    forall k | 0 <= k < |a|
      ensures Bit(m, pos + k) == a[k]
    {
      assert (a + b)[k] == a[k];
    }
    forall k | 0 <= k < |b|
      ensures Bit(m, pos + |a| + k) == b[k]
    {
      assert (a + b)[|a| + k] == b[k];
    }
  }

  lemma {:induction false} NumberOfLowBits(m: Memory, pos: nat, v: nat, k: nat)
    requires v < Pow2(k) && Stands(m, pos, LowBits(v, k))
    ensures Number(m, pos, k) == v
    decreases k
  {
    hide Bit;
    if k > 0 {
      assert LowBits(v, k) == [v % 2 == 1] + LowBits(v / 2, k - 1);
      assert Bit(m, pos + 0) == LowBits(v, k)[0];
      StandsSplit(m, pos, [v % 2 == 1], LowBits(v / 2, k - 1));
      NumberOfLowBits(m, pos + 1, v / 2, k - 1);
    }
  }

  lemma PowerOfTen()
    ensures Pow2(10) == 1024
  {
    assert Pow2(5) == 32;
  }

  lemma {:induction false} AdcDecodes(m: Memory, start: nat, a: AsicData, j: nat, n: nat)
    requires WellFormedAsic(a) && a.header[1] && j < n <= CHANNEL_NUM && a.chflag[j]
    requires Stands(m, start, AdcBits(a, n))
    ensures Number(m, start + 10 * Count(a.chflag, j), 10) == a.adc[j]
    decreases n
  {
    hide Bit, Number, Pow2, LowBits;
    PowerOfTen();
    var last := if a.chflag[n - 1] then LowBits(a.adc[n - 1], 10) else [];
    StandsSplit(m, start, AdcBits(a, n - 1), last);
    if j == n - 1 {
      NumberOfLowBits(m, start + 10 * Count(a.chflag, j), a.adc[j], 10);
    } else {
      AdcDecodes(m, start, a, j, n - 1);
    }
  }

  lemma PresentAsicStands(m: Memory, pos: nat, a: AsicData, first: bool, second: bool)
    requires WellFormedAsic(a) && a.header[1] && Stands(m, pos, AsicBlock(a, first, second))
    ensures Stands(m, pos, a.header) && Stands(m, pos + 5, a.chflag)
    ensures Stands(m, pos + 70, LowBits(a.ref, 10))
    ensures Stands(m, pos + 80, AdcBits(a, CHANNEL_NUM))
    ensures Stands(m, pos + 80 + 10 * Count(a.chflag, CHANNEL_NUM), LowBits(a.cmn, 10))
  {
    hide Stands, LowBits, AdcBits, Count;
    var flags, skip := a.header + a.chflag, a.header + a.chflag + [first];
    var ref := skip + LowBits(a.ref, 10);
    var adc := ref + AdcBits(a, CHANNEL_NUM);
    var cmn := adc + LowBits(a.cmn, 10);
    StandsSplit(m, pos, cmn, [second]);
    StandsSplit(m, pos, adc, LowBits(a.cmn, 10));
    StandsSplit(m, pos, ref, AdcBits(a, CHANNEL_NUM));
    StandsSplit(m, pos, skip, LowBits(a.ref, 10));
    StandsSplit(m, pos, flags, [first]);
    StandsSplit(m, pos, a.header, a.chflag);
  }

  lemma HeaderStands(m: Memory, pos: nat, header: seq<bool>)
    requires |header| == 5 && Stands(m, pos, header)
    ensures HeaderAt(m, pos) == header
  {
    hide Bit;
  }

  lemma FlagsStand(m: Memory, pos: nat, flags: seq<bool>)
    requires |flags| == CHANNEL_NUM && Stands(m, pos + 5, flags)
    ensures FlagsAt(m, pos) == flags
  {
    hide Bit;
  }

  /** A block that stands in memory is read back, whatever its skipped bits are. */
  lemma AsicDecodes(m: Memory, pos: nat, a: AsicData, first: bool, second: bool)
    requires WellFormedAsic(a) && Stands(m, pos, AsicBlock(a, first, second))
    ensures AsicAt(m, pos) == a && AsicBits(m, pos) == |AsicBlock(a, first, second)|
  {
    hide Bit, Stands, LowBits, AdcBits, Count, HeaderAt, FlagsAt, Number, Pow2;
    if !a.header[1] {
      HeaderStands(m, pos, a.header);
    } else {
      PresentAsicStands(m, pos, a, first, second);
      HeaderStands(m, pos, a.header);
      FlagsStand(m, pos, a.chflag);
      PowerOfTen();
      NumberOfLowBits(m, pos + 70, a.ref, 10);
      NumberOfLowBits(m, pos + 80 + 10 * Count(a.chflag, CHANNEL_NUM), a.cmn, 10);
      forall j | 0 <= j < CHANNEL_NUM
        ensures AdcAt(m, pos, j) == a.adc[j]
      {
        if a.chflag[j] {
          AdcDecodes(m, pos + 80, a, j, CHANNEL_NUM);
        }
      }
      assert AsicAt(m, pos).adc == a.adc;
    }
  }

  lemma {:induction false} BlocksDecode(m: Memory, pos: nat, asics: seq<AsicData>, f: Filler, i: nat)
    requires |asics| == ASIC_NUM && (forall k | 0 <= k < ASIC_NUM :: WellFormedAsic(asics[k]))
    requires GoodFiller(f) && i <= ASIC_NUM && Stands(m, pos, Blocks(asics, f, i))
    ensures BlockStart(m, pos, i) == pos + |Blocks(asics, f, i)|
    ensures forall k: nat | k < i :: AsicAt(m, BlockStart(m, pos, k)) == asics[k]
    decreases i
  {
    hide Stands, AsicBlock, AsicAt, AsicBits, WellFormedAsic;
    if i > 0 {
      var rest, block := Blocks(asics, f, i - 1), AsicBlock(asics[i - 1], f.first[i - 1], f.second[i - 1]);
      StandsSplit(m, pos, rest, block);
      BlocksDecode(m, pos, asics, f, i - 1);
      AsicDecodes(m, pos + |rest|, asics[i - 1], f.first[i - 1], f.second[i - 1]);
    }
  }

  // ---------------------------------------------------------------------------------------------
  // Decoding one event
  // ---------------------------------------------------------------------------------------------

  lemma Bytes32RoundTrip(data: seq<bv8>, n: nat, v: bv32)
    requires n + 4 <= |data| && data[n..n + 4] == BigEndian(v)
    ensures Big32(data, n) == v
  {
    assert data[n] == data[n..n + 4][0] && data[n + 1] == data[n..n + 4][1];
    assert data[n + 2] == data[n..n + 4][2] && data[n + 3] == data[n..n + 4][3];
  }

  lemma Bytes16RoundTrip(data: seq<bv8>, n: nat, v: bv32)
    requires n + 2 <= |data| && data[n..n + 2] == Bytes16(v) && v & 0xFFFF0000 == 0
    ensures Big16(data, n) == v
  {
    assert data[n] == data[n..n + 2][0] && data[n + 1] == data[n..n + 2][1];
  }

  lemma FixedBytesParts(e: EventValue)
    ensures var b := FixedBytes(e);
            && b[0..4] == EVENT_HEADER && b[4..8] == BigEndian(e.ti) && b[8..12] == BigEndian(e.livetime)
            && b[12..14] == Bytes16(e.integralLivetime) && b[14..16] == Bytes16(e.flagTrigPat)
            && b[16..20] == BigEndian(e.eventCounter) && b[20..24] == BigEndian(e.pseudoCounter)
  {
    hide BigEndian, Bytes16;
  }

  lemma FixedFieldsDecode(data: seq<bv8>, head: nat, e: EventValue, blank: EventValue)
    requires head + FIXED_BYTES <= |data| && data[head..head + FIXED_BYTES] == FixedBytes(e)
    requires e.integralLivetime & 0xFFFF0000 == 0 && e.flagTrigPat & 0xFFFF0000 == 0
    requires e.valid && blank.valid && e.isPseudo == IsPseudo(e.flagTrigPat)
    ensures FixedFields(data, head, blank) == e.(asics := blank.asics)
    ensures Matches(data, head, EVENT_HEADER)
  {
    hide BigEndian, Bytes16, Big32, Big16, IsPseudo, FixedBytes;
    var b := FixedBytes(e);
    FixedBytesParts(e);
    SliceOfSlice(data, head, head + FIXED_BYTES, 0, 4);
    SliceOfSlice(data, head, head + FIXED_BYTES, 4, 8);
    SliceOfSlice(data, head, head + FIXED_BYTES, 8, 12);
    SliceOfSlice(data, head, head + FIXED_BYTES, 12, 14);
    SliceOfSlice(data, head, head + FIXED_BYTES, 14, 16);
    SliceOfSlice(data, head, head + FIXED_BYTES, 16, 20);
    SliceOfSlice(data, head, head + FIXED_BYTES, 20, 24);
    Bytes32RoundTrip(data, head + 4, e.ti);
    Bytes32RoundTrip(data, head + 8, e.livetime);
    Bytes16RoundTrip(data, head + 12, e.integralLivetime);
    Bytes16RoundTrip(data, head + 14, e.flagTrigPat);
    Bytes32RoundTrip(data, head + 16, e.eventCounter);
    Bytes32RoundTrip(data, head + 20, e.pseudoCounter);
  }

  lemma PackedBitsStand(m: Memory, at: nat, bits: seq<bool>)
    requires |bits| % 8 == 0 && at + |bits| / 8 <= |m.data|
    requires m.data[at..at + |bits| / 8] == Pack(bits)
    ensures Stands(m, 8 * at, bits)
  {
    hide TestMask, Pack;
    var packed := Pack(bits);
    forall k | 0 <= k < |bits|
      ensures Bit(m, 8 * at + k) == bits[k]
    {
      assert BitAt(packed, k) == bits[k];
      assert m.data[at + k / 8] == packed[k / 8];
    }
  }

  lemma ThreeParts<T>(a: seq<T>, b: seq<T>, c: seq<T>)
    ensures (a + b + c)[..|a|] == a
    ensures (a + b + c)[|a|..|a| + |b|] == b
    ensures (a + b + c)[|a| + |b|..] == c
  {
  }

  // The three parts of an encoded event inside a longer byte string.
  lemma EventParts(data: seq<bv8>, head: nat, e: EventValue, f: Filler)
    requires Encodable(e, f) && head + |EventBytes(e, f)| <= |data|
    requires data[head..head + |EventBytes(e, f)|] == EventBytes(e, f)
    ensures var at, n := head + FIXED_BYTES, |Payload(e, f)| / 8;
            && at + n + 4 == head + |EventBytes(e, f)|
            && data[head..at] == FixedBytes(e)
            && data[at..at + n] == Pack(Payload(e, f))
            && data[at + n..at + n + 4] == EVENT_FOOTER
  {
    hide FixedBytes, Payload, Pack, Encodable;
    var b, n := EventBytes(e, f), |Payload(e, f)| / 8;
    ThreeParts(FixedBytes(e), Pack(Payload(e, f)), EVENT_FOOTER);
    SliceOfSlice(data, head, head + |b|, 0, FIXED_BYTES);
    SliceOfSlice(data, head, head + |b|, FIXED_BYTES, FIXED_BYTES + n);
    SliceOfSlice(data, head, head + |b|, FIXED_BYTES + n, |b|);
  }

  lemma PayloadDecodes(m: Memory, head: nat, e: EventValue, f: Filler)
    requires Encodable(e, f) && head % 4 == 0
    requires head + FIXED_BYTES + |Payload(e, f)| / 8 <= |m.data|
    requires m.data[head + FIXED_BYTES..head + FIXED_BYTES + |Payload(e, f)| / 8] == Pack(Payload(e, f))
    ensures AsicsAt(m, 8 * (head + FIXED_BYTES)) == e.asics
    ensures FooterPlace(m, head) == head + FIXED_BYTES + |Payload(e, f)| / 8
  {
    hide Stands, AsicAt, Pack, BlockStart, Aligned, Blocks, PayloadBits, WellFormedAsic;
    var at := head + FIXED_BYTES;
    PackedBitsStand(m, at, Payload(e, f));
    StandsSplit(m, 8 * at, Blocks(e.asics, f, ASIC_NUM), f.pad);
    BlocksDecode(m, 8 * at, e.asics, f, ASIC_NUM);
    AlignedFromWord(head / 4, |Blocks(e.asics, f, ASIC_NUM)|);
  }

  /** An event written at a word boundary is read back, and the cursor stops right behind it. */
  lemma EventDecodes(m: Memory, head: nat, e: EventValue, f: Filler, previous: EventValue)
    requires Encodable(e, f) && head % 4 == 0
    requires head + |EventBytes(e, f)| <= |m.data|
    requires m.data[head..head + |EventBytes(e, f)|] == EventBytes(e, f)
    ensures Unpack1(m, head, previous) == Step(EventRead, head + |EventBytes(e, f)|, e)
  {
    hide FixedFields, FixedBytes, Payload, EventBytes, Pack, AsicsAt, FooterPlace;
    EventParts(m.data, head, e, f);
    FixedFieldsDecode(m.data, head, e, Reset(previous));
    PayloadDecodes(m, head, e, f);
  }

  // ---------------------------------------------------------------------------------------------
  // Whole frames
  // ---------------------------------------------------------------------------------------------

  datatype Written = Written(event: EventValue, filler: Filler)

  ghost predicate AllEncodable(ws: seq<Written>) {
    forall i | 0 <= i < |ws| :: Encodable(ws[i].event, ws[i].filler)
  }

  ghost function FrameBytes(ws: seq<Written>): (b: seq<bv8>)
    requires AllEncodable(ws)
  {
    if ws == [] then [] else EventBytes(ws[0].event, ws[0].filler) + FrameBytes(ws[1..])
  }

  function WrittenEvents(ws: seq<Written>): seq<EventValue> {
    seq(|ws|, i requires 0 <= i < |ws| => ws[i].event)
  }

  lemma EventBytesAreWords(e: EventValue, f: Filler)
    requires Encodable(e, f)
    ensures |EventBytes(e, f)| % 4 == 0
  {
    hide EventBytes, Payload, Blocks;
  }

  lemma FrameSplits(ws: seq<Written>)
    requires AllEncodable(ws) && ws != []
    ensures var b, rest := EventBytes(ws[0].event, ws[0].filler), FrameBytes(ws[1..]);
            && |FrameBytes(ws)| == |b| + |rest|
            && FrameBytes(ws)[0..|b|] == b && FrameBytes(ws)[|b|..|b| + |rest|] == rest
  {
    hide Encodable, EventBytes;
  }

  lemma FrameStarts(data: seq<bv8>, head: nat, ws: seq<Written>)
    requires AllEncodable(ws) && ws != []
    requires head + |FrameBytes(ws)| <= |data| && data[head..head + |FrameBytes(ws)|] == FrameBytes(ws)
    ensures var b := EventBytes(ws[0].event, ws[0].filler);
            var next := head + |b|;
            && next + |FrameBytes(ws[1..])| == head + |FrameBytes(ws)|
            && data[head..next] == b
            && data[next..next + |FrameBytes(ws[1..])|] == FrameBytes(ws[1..])
  {
    hide Encodable, EventBytes, FrameBytes;
    var b, rest := EventBytes(ws[0].event, ws[0].filler), FrameBytes(ws[1..]);
    FrameSplits(ws);
    SliceOfSlice(data, head, head + |FrameBytes(ws)|, 0, |b|);
    SliceOfSlice(data, head, head + |FrameBytes(ws)|, |b|, |b| + |rest|);
  }

  lemma {:induction false} FrameDecodesFrom(m: Memory, head: nat, ws: seq<Written>, previous: EventValue)
    requires AllEncodable(ws)
    requires head % 4 == 0 && head + |FrameBytes(ws)| <= |m.data|
    requires m.data[head..head + |FrameBytes(ws)|] == FrameBytes(ws)
    requires !Matches(m.data, head + |FrameBytes(ws)|, EVENT_HEADER)
    ensures EventsFrom(m, head, previous) == Events(WrittenEvents(ws), NoEvent)
    decreases |ws|
  {
    hide Encodable, EventBytes, Unpack1, FrameBytes, Matches;
    if ws == [] {
      EmptyFrame();
      NoHeaderNoEvent(m, head, previous);
    } else {
      FrameStarts(m.data, head, ws);
      EventBytesAreWords(ws[0].event, ws[0].filler);
      EventDecodes(m, head, ws[0].event, ws[0].filler, previous);
      FrameDecodesFrom(m, head + |EventBytes(ws[0].event, ws[0].filler)|, ws[1..], ws[0].event);
      assert WrittenEvents(ws) == [ws[0].event] + WrittenEvents(ws[1..]);
    }
  }

  lemma EmptyFrame()
    ensures FrameBytes([]) == []
  {
  }

  lemma NoHeaderNoEvent(m: Memory, head: nat, previous: EventValue)
    requires !Matches(m.data, head, EVENT_HEADER)
    ensures EventsFrom(m, head, previous) == Events([], NoEvent)
  {
  }

  lemma MatchesInTail(a: seq<bv8>, b: seq<bv8>, pattern: seq<bv8>)
    ensures Matches(a + b, |a|, pattern) <==> Matches(b, 0, pattern)
  {
    if |pattern| <= |b| {
      assert (a + b)[|a|..|a| + |pattern|] == b[0..|pattern|];
    }
  }

  /** A frame that holds encoded events, followed by bytes that do not start with an event header, decodes
      to exactly those events in order; bytes behind the frame do not matter. */
  lemma FrameDecodes(ws: seq<Written>, rest: seq<bv8>, beyond: nat -> bv8, previous: EventValue)
    requires AllEncodable(ws)
    requires !Matches(rest, 0, EVENT_HEADER)
    ensures EventsFrom(Memory(FrameBytes(ws) + rest, beyond), 0, previous) == Events(WrittenEvents(ws), NoEvent)
  {
    hide AllEncodable, FrameBytes, EventsFrom, Matches;
    var m := Memory(FrameBytes(ws) + rest, beyond);
    MatchesInTail(FrameBytes(ws), rest, EVENT_HEADER);
    assert m.data[0..|FrameBytes(ws)|] == FrameBytes(ws);
    FrameDecodesFrom(m, 0, ws, previous);
  }

  // ---------------------------------------------------------------------------------------------
  // Behind a damaged event
  // ---------------------------------------------------------------------------------------------

  // An event starts at head, its footer is not where it is expected, and the next footer ends at next.
  predicate DamagedUntil(m: Memory, head: nat, next: nat) {
    var place := FooterPlace(m, head);
    && Matches(m.data, head, EVENT_HEADER) && head + FIXED_BYTES <= |m.data|
    && place < next - 4 && next <= |m.data| && Matches(m.data, next - 4, EVENT_FOOTER)
    && forall q | place <= q < next - 4 :: !Matches(m.data, q, EVENT_FOOTER)
  }

  lemma {:induction false} FooterIsFirst(data: seq<bv8>, n: nat, p: nat)
    requires n <= p && Matches(data, p, EVENT_FOOTER)
    requires forall q | n <= q < p :: !Matches(data, q, EVENT_FOOTER)
    ensures FooterFrom(data, n) == p
    decreases p - n
  {
    hide Matches;
    if n < p {
      PatternFits(data, p);
      FooterIsFirst(data, n + 1, p);
    }
  }

  lemma PatternFits(data: seq<bv8>, p: nat)
    requires Matches(data, p, EVENT_FOOTER)
    ensures p + 4 <= |data|
  {
  }

  lemma DamagedEventIsRead(m: Memory, head: nat, next: nat, previous: EventValue)
    requires DamagedUntil(m, head, next)
    ensures var step := Unpack1(m, head, previous);
            step.outcome.EventRead? && step.head == next && !step.event.valid
  {
    hide FooterPlace, FooterFrom, FixedFields, AsicsAt;
    var place := FooterPlace(m, head);
    FooterIsFirst(m.data, place, next - 4);
    assert !Matches(m.data, place, EVENT_FOOTER);
  }

  /** The decoder finds its way back: behind a damaged event whose next footer ends at a word boundary, the
      events that follow are read exactly as they were written, after one invalid event for the damage. */
  lemma DecodingRecovers(m: Memory, head: nat, next: nat, ws: seq<Written>, previous: EventValue)
    requires DamagedUntil(m, head, next) && next % 4 == 0
    requires AllEncodable(ws) && next + |FrameBytes(ws)| <= |m.data|
    requires m.data[next..next + |FrameBytes(ws)|] == FrameBytes(ws)
    requires !Matches(m.data, next + |FrameBytes(ws)|, EVENT_HEADER)
    ensures var events := EventsFrom(m, head, previous);
            && |events.list| == 1 + |ws| && !events.list[0].valid
            && events.list[1..] == WrittenEvents(ws) && events.end == NoEvent
  {
    hide Unpack1, FrameBytes, AllEncodable, DamagedUntil, Matches;
    DamagedEventIsRead(m, head, next, previous);
    var step := Unpack1(m, head, previous);
    FrameDecodesFrom(m, next, ws, step.event);
  }
}
