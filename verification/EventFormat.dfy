/** The event stream inside a 32768-byte frame, as FrameAnalyzer::UnpackNextEvent of
    include/raw2root/frame_analyzer.hh reads it: what one call yields at a given position. */
module EventFormat {
  import opened Bits

  const ASIC_NUM := 4
  const CHANNEL_NUM := 64
  const EVENT_HEADER: seq<bv8> := [0x3C, 0x3C, 0x00, 0x00]
  const EVENT_FOOTER: seq<bv8> := [0x00, 0x00, 0x77, 0x77]
  const FIXED_BYTES := 24

  // ---------------------------------------------------------------------------------------------
  // Memory: the buffer, and whatever happens to follow it
  // ---------------------------------------------------------------------------------------------

  datatype Memory = Memory(data: seq<bv8>, beyond: nat -> bv8)

  function ByteAt(m: Memory, n: nat): bv8 {
    if n < |m.data| then m.data[n] else m.beyond(n)
  }

  // TestBit: no bounds check.
  predicate Bit(m: Memory, n: nat) {
    TestMask(ByteAt(m, n / 8), n % 8)
  }

  // The k bits from n on as a number, least significant bit first.
  function Number(m: Memory, n: nat, k: nat): (v: nat)
    ensures v < Pow2(k)
    decreases k
  {
    if k == 0 then 0 else Digit(Bit(m, n)) + 2 * Number(m, n + 1, k - 1)
  }

  // ---------------------------------------------------------------------------------------------
  // Events
  // ---------------------------------------------------------------------------------------------

  datatype AsicData = AsicData(header: seq<bool>, chflag: seq<bool>, ref: int, cmn: int, adc: seq<int>)

  function ResetAsic(): AsicData {
    AsicData(Zeros(5), Zeros(CHANNEL_NUM), 0, 0, seq(CHANNEL_NUM, _ => 0))
  }

  datatype EventValue = EventValue(
    ti: bv32, livetime: bv32, integralLivetime: bv32, flagTrigPat: bv32, eventCounter: bv32,
    pseudoCounter: bv32, isPseudo: bool, valid: bool, asics: seq<AsicData>)

  // EventData::Reset leaves is_pseudo_event alone.
  function Reset(e: EventValue): EventValue {
    EventValue(0, 0, 0, 0, 0, 0, e.isPseudo, true, seq(ASIC_NUM, _ => ResetAsic()))
  }

  function Invalidated(e: EventValue): EventValue {
    Reset(e).(valid := false)
  }

  function Big32(data: seq<bv8>, n: nat): bv32
    requires n + 4 <= |data|
  {
    ((data[n] as bv32) << 24) | ((data[n + 1] as bv32) << 16) | ((data[n + 2] as bv32) << 8) | (data[n + 3] as bv32)
  }

  function Big16(data: seq<bv8>, n: nat): bv32
    requires n + 2 <= |data|
  {
    ((data[n] as bv32) << 8) | (data[n + 1] as bv32)
  }

  predicate IsPseudo(flagTrigPat: bv32) {
    flagTrigPat & 1 == 1
  }

  // The fixed fields are read in order until one would end past the buffer.
  function TimeFields(data: seq<bv8>, head: nat, e: EventValue): EventValue {
    e.(ti := if head + 8 <= |data| then Big32(data, head + 4) else e.ti,
       livetime := if head + 12 <= |data| then Big32(data, head + 8) else e.livetime,
       integralLivetime := if head + 14 <= |data| then Big16(data, head + 12) else e.integralLivetime)
  }

  function CounterFields(data: seq<bv8>, head: nat, e: EventValue): EventValue {
    e.(flagTrigPat := if head + 16 <= |data| then Big16(data, head + 14) else e.flagTrigPat,
       isPseudo := if head + 16 <= |data| then IsPseudo(Big16(data, head + 14)) else e.isPseudo,
       eventCounter := if head + 20 <= |data| then Big32(data, head + 16) else e.eventCounter,
       pseudoCounter := if head + 24 <= |data| then Big32(data, head + 20) else e.pseudoCounter)
  }

  function FixedFields(data: seq<bv8>, head: nat, e: EventValue): EventValue {
    CounterFields(data, head, TimeFields(data, head, e))
  }

  // How many of the first j channels are flagged.
  function Count(flags: seq<bool>, j: nat): (c: nat)
    requires j <= |flags|
    ensures c <= j
  {
    if j == 0 then 0 else Count(flags, j - 1) + Digit(flags[j - 1])
  }

  function HeaderAt(m: Memory, pos: nat): (h: seq<bool>)
    ensures |h| == 5
  {
    seq(5, j requires 0 <= j < 5 => Bit(m, pos + j))
  }

  function FlagsAt(m: Memory, pos: nat): (f: seq<bool>)
    ensures |f| == CHANNEL_NUM
  {
    seq(CHANNEL_NUM, j requires 0 <= j < CHANNEL_NUM => Bit(m, pos + 5 + j))
  }

  function AdcAt(m: Memory, pos: nat, j: nat): int
    requires j < CHANNEL_NUM
  {
    var flags := FlagsAt(m, pos);
    if flags[j] then Number(m, pos + 80 + 10 * Count(flags, j), 10) else -1
  }

  // The block of one ASIC that starts at bit pos.
  function AsicAt(m: Memory, pos: nat): AsicData {
    var header := HeaderAt(m, pos);
    if !header[1] then ResetAsic().(header := header) else
      var flags := FlagsAt(m, pos);
      AsicData(header, flags, Number(m, pos + 70, 10),
               Number(m, pos + 80 + 10 * Count(flags, CHANNEL_NUM), 10),
               seq(CHANNEL_NUM, j requires 0 <= j < CHANNEL_NUM => AdcAt(m, pos, j)))
  }

  function AsicBits(m: Memory, pos: nat): (n: nat)
    ensures 5 <= n <= 731
  {
    if !HeaderAt(m, pos)[1] then 5 else 91 + 10 * Count(FlagsAt(m, pos), CHANNEL_NUM)
  }

  // Where block i starts when block 0 starts at bit pos.
  function BlockStart(m: Memory, pos: nat, i: nat): (p: nat)
    ensures pos + 5 * i <= p <= pos + 731 * i
  {
    if i == 0 then pos else
      var p := BlockStart(m, pos, i - 1);
      p + AsicBits(m, p)
  }

  function AsicsAt(m: Memory, pos: nat): (a: seq<AsicData>)
    ensures |a| == ASIC_NUM
  {
    seq(ASIC_NUM, i requires 0 <= i < ASIC_NUM => AsicAt(m, BlockStart(m, pos, i)))
  }

  // head_ = ((bit_offset + 63) / 32) * 4
  function Aligned(bitOffset: nat): nat {
    (bitOffset + 63) / 32 * 4
  }

  predicate Matches(data: seq<bv8>, n: nat, pattern: seq<bv8>) {
    n + |pattern| <= |data| && data[n..n + |pattern|] == pattern
  }

  // The first footer at or after n, or the first position without room for one.
  function FooterFrom(data: seq<bv8>, n: nat): (p: nat)
    ensures n <= p
    ensures p + 4 <= |data| ==> Matches(data, p, EVENT_FOOTER)
    ensures n + 4 <= |data| ==> p + 3 <= |data|
    ensures forall q | n <= q < p :: !Matches(data, q, EVENT_FOOTER)
    decreases |data| - n
  {
    if n + 4 > |data| || Matches(data, n, EVENT_FOOTER) then n else FooterFrom(data, n + 1)
  }

  // ---------------------------------------------------------------------------------------------
  // One call of UnpackNextEvent
  // ---------------------------------------------------------------------------------------------

  datatype Outcome = EventRead | NoEvent | OutOfRange | Uninitialized

  datatype Step = Step(outcome: Outcome, head: nat, event: EventValue)

  // The place where the footer is expected.
  function FooterPlace(m: Memory, head: nat): (p: nat)
    ensures head + 32 <= p + 1 && p <= head + 397
  {
    Aligned(BlockStart(m, 8 * (head + FIXED_BYTES), ASIC_NUM))
  }

  function Finish(m: Memory, head: nat, e: EventValue): Step {
    var place := FooterPlace(m, head);
    if place + 4 > |m.data| then Step(NoEvent, place, Invalidated(e))
    else if Matches(m.data, place, EVENT_FOOTER) then
      Step(EventRead, place + 4, e.(asics := AsicsAt(m, 8 * (head + FIXED_BYTES))))
    else
      var p := FooterFrom(m.data, place);
      if p + 4 <= |m.data| then Step(EventRead, p + 4, Invalidated(e))
      else Step(NoEvent, p, Invalidated(e))
  }

  function Unpack1(m: Memory, head: nat, previous: EventValue): Step {
    if !Matches(m.data, head, EVENT_HEADER) then Step(NoEvent, head, Reset(previous))
    else
      var e := FixedFields(m.data, head, Reset(previous));
      if head + FIXED_BYTES > |m.data| then Step(OutOfRange, head, e)
      else Finish(m, head, e)
  }

  // The events of one buffer from head on, and the outcome that ends the event loop.
  datatype Events = Events(list: seq<EventValue>, end: Outcome)

  function EventsFrom(m: Memory, head: nat, previous: EventValue): Events
    decreases |m.data| - head
  {
    var step := Unpack1(m, head, previous);
    if !step.outcome.EventRead? then Events([], step.outcome)
    else
      var rest := EventsFrom(m, step.head, step.event);
      Events([step.event] + rest.list, rest.end)
  }
}
