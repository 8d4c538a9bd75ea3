/** The FrameAnalyzer of include/raw2root/frame_analyzer.hh: a cursor over one buffer. */
module FrameAnalyzer {
  import opened Bits
  import opened EventFormat
  import EventDecoding
  import EventLayout

  // head_ is a uint32_t. Near 2^32 bytes head_ + 4 wraps, and the search for a footer need not end.
  const MAX_BUFFER := 0xFFFF_FFE0

  // head_ * 8 is computed in 32 bits as well: below this size it cannot wrap. Every caller passes at most
  // 32768 bytes.
  const NO_WRAP := 0x2000_0000

  // The bit at which the ASIC blocks of the event at head are read.
  function FirstBit(head: nat): nat {
    8 * (head + FIXED_BYTES) % 0x1_0000_0000
  }

  // Finish of EventFormat.dfy, for blocks that are read from the given bit on.
  function FinishAt(m: Memory, start: nat, e: EventValue): Step {
    var place := Aligned(BlockStart(m, start, ASIC_NUM));
    if place + 4 > |m.data| then Step(NoEvent, place, Invalidated(e))
    else if Matches(m.data, place, EVENT_FOOTER) then Step(EventRead, place + 4, e.(asics := AsicsAt(m, start)))
    else
      var p := FooterFrom(m.data, place);
      if p + 4 <= |m.data| then Step(EventRead, p + 4, Invalidated(e))
      else Step(NoEvent, p, Invalidated(e))
  }

  // Unpack1 of EventFormat.dfy, in 32 bits.
  function UnpackWrapped(m: Memory, head: nat, previous: EventValue): Step {
    if !Matches(m.data, head, EVENT_HEADER) then Step(NoEvent, head, EventFormat.Reset(previous))
    else
      var e := FixedFields(m.data, head, EventFormat.Reset(previous));
      if head + FIXED_BYTES > |m.data| then Step(OutOfRange, head, e)
      else FinishAt(m, FirstBit(head), e)
  }

  /** Buffers of less than 2^29 bytes are read as if the arithmetic were unbounded. */
  lemma SmallBuffersDoNotWrap(m: Memory, head: nat, previous: EventValue)
    requires |m.data| < NO_WRAP
    ensures UnpackWrapped(m, head, previous) == Unpack1(m, head, previous)
  {
    hide AsicsAt, BlockStart, FooterFrom, FixedFields;
  }

  lemma SmallBuffersReadTheirBytes(m: Memory, head: nat, previous: EventValue)
    ensures |m.data| < NO_WRAP ==> EventLayout.ReadsItsBytes(m.data, head, UnpackWrapped(m, head, previous))
  {
    hide UnpackWrapped, Unpack1, EventLayout.ReadsItsBytes;
    if |m.data| < NO_WRAP {
      SmallBuffersDoNotWrap(m, head, previous);
      EventLayout.CallsReadTheirBytes(m, head, previous);
    }
  }

  // A buffer whose event at byte 2^29 - 24 is read from its first bit on.
  function Wrapping(n: nat): (data: seq<bv8>)
    requires n >= NO_WRAP
    ensures |data| == n
  {
    seq(n, i requires 0 <= i < n =>
      if i == NO_WRAP - 24 || i == NO_WRAP - 23 then 0x3C else if i == 10 || i == 11 then 0x77 else 0)
  }

  lemma ClearBits(m: Memory)
    requires |m.data| >= 3 && m.data[0] == m.data[1] == m.data[2] == 0
    ensures forall k: nat | k < 20 :: !Bit(m, k)
  {
    forall k: nat | k < 20 ensures !Bit(m, k) {
      NoBitSet(k % 8);
    }
  }

  lemma NoBitSet(k: nat)
    requires k < 8
    ensures !TestMask(0, k)
  {
  }

  lemma FourShortBlocks(m: Memory)
    requires forall k: nat | k < 20 :: !Bit(m, k)
    ensures BlockStart(m, 0, ASIC_NUM) == 20
  {
    hide Bit, FlagsAt;
    assert BlockStart(m, 0, 1) == 5;
    assert BlockStart(m, 0, 2) == 10;
    assert BlockStart(m, 0, 3) == 15;
  }

  /** From 2^29 bytes on a call can return true with the cursor far behind where it was. */
  lemma LargeBuffersCanGoBack(n: nat, beyond: nat -> bv8, previous: EventValue)
    requires n >= NO_WRAP
    ensures var step := UnpackWrapped(Memory(Wrapping(n), beyond), NO_WRAP - 24, previous);
            step.outcome == EventRead && step.head == 12
  {
    hide Bit, AsicsAt, BlockStart, FooterFrom, FixedFields;
    var m := Memory(Wrapping(n), beyond);
    ClearBits(m);
    FourShortBlocks(m);
    assert m.data[NO_WRAP - 24..NO_WRAP - 20] == EVENT_HEADER;
    assert m.data[8..12] == EVENT_FOOTER;
  }

  /** Every true return moves the cursor forward, whatever the buffer contains, exactly if the buffer has less
      than 2^29 bytes. */
  lemma ForwardBelowWrap(n: nat)
    ensures n < NO_WRAP
            <==> forall m: Memory, head: nat, previous: EventValue ::
                   |m.data| == n && UnpackWrapped(m, head, previous).outcome.EventRead? ==>
                     UnpackWrapped(m, head, previous).head > head
  {
    hide UnpackWrapped, Unpack1;
    if n < NO_WRAP {
      forall m: Memory, head: nat, previous: EventValue |
        |m.data| == n && UnpackWrapped(m, head, previous).outcome.EventRead?
        ensures UnpackWrapped(m, head, previous).head > head
      {
        SmallBuffersDoNotWrap(m, head, previous);
        EventDecoding.CallAdvances(m, head, previous);
      }
    } else {
      var blank := EventValue(0, 0, 0, 0, 0, 0, false, true, []);
      LargeBuffersCanGoBack(n, _ => 0, blank);
    }
  }

  class EventData {
    var ti: bv32
    var livetime: bv32
    var integralLivetime: bv32
    var flagTrigPat: bv32
    var eventCounter: bv32
    var pseudoCounter: bv32
    var isPseudo: bool
    var valid: bool
    var asicData: seq<AsicData>

    constructor ()
      ensures Value() == EventFormat.Reset(Value()) && !isPseudo
    {
      ti, livetime, integralLivetime, flagTrigPat, eventCounter, pseudoCounter := 0, 0, 0, 0, 0, 0;
      isPseudo, valid := false, true;
      asicData := seq(ASIC_NUM, _ => ResetAsic());
    }

    function Value(): EventValue
      reads this
    {
      EventValue(ti, livetime, integralLivetime, flagTrigPat, eventCounter, pseudoCounter, isPseudo,
                 valid, asicData)
    }

    method Reset()
      modifies this
      ensures Value() == EventFormat.Reset(old(Value()))
    {
      ti := 0;
      livetime := 0;
      integralLivetime := 0;
      flagTrigPat := 0;
      eventCounter := 0;
      pseudoCounter := 0;
      valid := true;
      asicData := seq(ASIC_NUM, _ => ResetAsic());
    }

    method Invalidate()
      modifies this
      ensures Value() == Invalidated(old(Value()))
    {
      Reset();
      valid := false;
    }
  }

  datatype Pointer = Null | To(memory: Memory)
  datatype Read = Value(v: bv32) | ReadOutOfRange

  // A word as a little-endian host loads it, and the swaps of GetValueFromRawData.
  function Loaded4(b0: bv8, b1: bv8, b2: bv8, b3: bv8): bv32 {
    (b0 as bv32) | ((b1 as bv32) << 8) | ((b2 as bv32) << 16) | ((b3 as bv32) << 24)
  }

  function Swapped4(v: bv32): bv32 {
    ((v & 0xFF000000) >> 24) | ((v & 0x00FF0000) >> 8) | ((v & 0x0000FF00) << 8) | ((v & 0x000000FF) << 24)
  }

  function Loaded2(b0: bv8, b1: bv8): bv16 {
    (b0 as bv16) | ((b1 as bv16) << 8)
  }

  function Swapped2(v: bv16): bv16 {
    (v >> 8) | (v << 8)
  }

  lemma SwappingReadsBigEndian4(data: seq<bv8>, n: nat)
    requires n + 4 <= |data|
    ensures Swapped4(Loaded4(data[n], data[n + 1], data[n + 2], data[n + 3])) == Big32(data, n)
  {
  }

  lemma SwappingReadsBigEndian2(data: seq<bv8>, n: nat)
    requires n + 2 <= |data|
    ensures Swapped2(Loaded2(data[n], data[n + 1])) as bv32 == Big16(data, n)
  {
  }

  lemma NoCounterFields(data: seq<bv8>, head: nat, e: EventValue)
    requires head + 14 > |data|
    ensures CounterFields(data, head, e) == e
  {
  }

  lemma {:induction false} NumberTakesBit(m: Memory, n: nat, k: nat)
    ensures Number(m, n, k + 1) == Number(m, n, k) + Digit(Bit(m, n + k)) * Pow2(k)
    decreases k
  {
    hide Bit;
    if k > 0 {
      NumberTakesBit(m, n + 1, k - 1);
    }
  }

  class FrameAnalyzer {
    var pointer: Pointer
    var head: nat

    ghost predicate Valid()
      reads this
    {
      pointer.To? ==> |pointer.memory.data| <= MAX_BUFFER && head <= MAX_BUFFER
    }

    constructor ()
      ensures Valid() && pointer.Null? && head == 0
    {
      pointer, head := Null, 0;
    }

    // Initialize; a null pointer with a positive size is refused.
    method Initialize(data: Pointer, size: nat) returns (ok: bool)
      requires data.To? ==> size == |data.memory.data| <= MAX_BUFFER
      modifies this
      ensures ok <==> !(data.Null? && size > 0)
      ensures if ok then pointer == data && head == 0 && Valid() else pointer == old(pointer) && head == old(head)
    {
      if data.Null? && size > 0 {
        return false;
      }
      pointer, head := data, 0;
      ok := true;
    }

    // GetValueFromRawData<Big, 4>: load in host order, then swap.
    method GetValue4(offset: nat) returns (r: Read)
      requires pointer.To?
      ensures var data := pointer.memory.data;
              r == if offset + 4 > |data| then ReadOutOfRange else Value(Big32(data, offset))
    {
      var data := pointer.memory.data;
      if offset + 4 > |data| {
        return ReadOutOfRange;
      }
      hide Loaded4, Swapped4, Big32;
      SwappingReadsBigEndian4(data, offset);
      r := Value(Swapped4(Loaded4(data[offset], data[offset + 1], data[offset + 2], data[offset + 3])));
    }

    method GetValue2(offset: nat) returns (r: Read)
      requires pointer.To?
      ensures var data := pointer.memory.data;
              r == if offset + 2 > |data| then ReadOutOfRange else Value(Big16(data, offset))
    {
      var data := pointer.memory.data;
      if offset + 2 > |data| {
        return ReadOutOfRange;
      }
      hide Loaded2, Swapped2, Big16;
      SwappingReadsBigEndian2(data, offset);
      r := Value(Swapped2(Loaded2(data[offset], data[offset + 1])) as bv32);
    }

    // The reads before the ASIC blocks; false is an exception that leaves the rest unread.
    method ReadTimeFields(event: EventData) returns (ok: bool)
      requires pointer.To?
      modifies event
      ensures event.Value() == TimeFields(pointer.memory.data, head, old(event.Value()))
      ensures ok <==> head + 14 <= |pointer.memory.data|
    {
      hide Big32, Big16;
      var r := GetValue4(head + 4);
      if r.ReadOutOfRange? { return false; }
      event.ti := r.v;
      r := GetValue4(head + 8);
      if r.ReadOutOfRange? { return false; }
      event.livetime := r.v;
      r := GetValue2(head + 12);
      if r.ReadOutOfRange? { return false; }
      event.integralLivetime := r.v;
      ok := true;
    }

    method ReadCounterFields(event: EventData) returns (ok: bool)
      requires pointer.To?
      modifies event
      ensures event.Value() == CounterFields(pointer.memory.data, head, old(event.Value()))
      ensures ok <==> head + FIXED_BYTES <= |pointer.memory.data|
    {
      hide Big32, Big16, IsPseudo;
      var r := GetValue2(head + 14);
      if r.ReadOutOfRange? { return false; }
      event.flagTrigPat := r.v;
      event.isPseudo := IsPseudo(event.flagTrigPat);
      r := GetValue4(head + 16);
      if r.ReadOutOfRange? { return false; }
      event.eventCounter := r.v;
      r := GetValue4(head + 20);
      if r.ReadOutOfRange? { return false; }
      event.pseudoCounter := r.v;
      ok := true;
    }

    method ReadFixedFields(event: EventData) returns (ok: bool)
      requires pointer.To?
      modifies event
      ensures event.Value() == FixedFields(pointer.memory.data, head, old(event.Value()))
      ensures ok <==> head + FIXED_BYTES <= |pointer.memory.data|
    {
      hide Big32, Big16, IsPseudo, CounterFields;
      ok := ReadTimeFields(event);
      if ok {
        ok := ReadCounterFields(event);
      } else {
        NoCounterFields(pointer.memory.data, head, event.Value());
      }
    }

    method Convert10Bit(n: nat) returns (ret: nat)
      requires pointer.To?
      ensures ret == Number(pointer.memory, n, 10)
    {
      ret := 0;
      for i := 0 to 10
        invariant ret == Number(pointer.memory, n, i)
      {
        NumberTakesBit(pointer.memory, n, i);
        if Bit(pointer.memory, n + i) {
          ret := ret + Pow2(i);
        }
      }
    }

    // The block of one ASIC at bit `start`.
    method ReadAsic(blank: AsicData, start: nat) returns (asic: AsicData, bitOffset: nat)
      requires pointer.To? && blank == ResetAsic()
      ensures asic == AsicAt(pointer.memory, start)
      ensures bitOffset == start + AsicBits(pointer.memory, start)
    {
      hide Number, Bit;
      var m := pointer.memory;
      bitOffset := start;
      var header := Zeros(5);
      for j := 0 to 5
        invariant |header| == 5 && forall k | 0 <= k < j :: header[k] == HeaderAt(m, start)[k]
      {
        header := header[j := Bit(m, bitOffset + j)];
      }
      assert header == HeaderAt(m, start);
      asic := blank.(header := header);
      bitOffset := bitOffset + 5;
      if !header[1] {
        return;
      }
      var flags := Zeros(CHANNEL_NUM);
      for j := 0 to 64
        invariant |flags| == CHANNEL_NUM && forall k | 0 <= k < j :: flags[k] == FlagsAt(m, start)[k]
      {
        assert FlagsAt(m, start)[j] == Bit(m, start + 5 + j);
        flags := flags[j := Bit(m, bitOffset + j)];
      }
      assert flags == FlagsAt(m, start);
      bitOffset := bitOffset + 64;
      bitOffset := bitOffset + 1;
      var ref := Convert10Bit(bitOffset);
      bitOffset := bitOffset + 10;
      var adc, next := ReadAdc(asic.adc, flags, start, bitOffset);
      bitOffset := next;
      var cmn := Convert10Bit(bitOffset);
      bitOffset := bitOffset + 10;
      bitOffset := bitOffset + 1;
      asic := asic.(chflag := flags, ref := ref, adc := adc, cmn := cmn);
    }

    method ReadAdc(blank: seq<int>, flags: seq<bool>, ghost start: nat, from: nat)
      returns (adc: seq<int>, bitOffset: nat)
      requires pointer.To? && |blank| == CHANNEL_NUM
      requires flags == FlagsAt(pointer.memory, start) && from == start + 80
      ensures |adc| == CHANNEL_NUM
      ensures forall j | 0 <= j < CHANNEL_NUM :: adc[j] == AdcAt(pointer.memory, start, j)
      ensures bitOffset == from + 10 * Count(flags, CHANNEL_NUM)
    {
      hide Number, FlagsAt;
      adc := blank;
      bitOffset := from;
      for j := 0 to 64
        invariant |adc| == CHANNEL_NUM
        invariant forall k | 0 <= k < j :: adc[k] == AdcAt(pointer.memory, start, k)
        invariant bitOffset == from + 10 * Count(flags, j)
      {
        if flags[j] {
          var v := Convert10Bit(bitOffset);
          adc := adc[j := v];
          bitOffset := bitOffset + 10;
        } else {
          adc := adc[j := -1];
        }
      }
    }

    // The loop over the ASICs, and the move to the word where the footer should be.
    method ReadAsics(event: EventData)
      requires pointer.To? && |pointer.memory.data| <= MAX_BUFFER
      requires FIXED_BYTES <= head <= |pointer.memory.data|
      requires event.asicData == seq(ASIC_NUM, _ => ResetAsic())
      modifies this`head, event
      ensures var start := FirstBit(old(head) - FIXED_BYTES);
              && head == Aligned(BlockStart(pointer.memory, start, ASIC_NUM))
              && event.Value() == old(event.Value()).(asics := AsicsAt(pointer.memory, start))
    {
      hide AsicAt, AsicBits, ResetAsic, AsicsSoFar, AsicsAt;
      var m := pointer.memory;
      var bitOffset := head * 8 % 0x1_0000_0000;
      ghost var start := bitOffset;
      AsicsStartReset(m, start);
      for i := 0 to 4
        invariant head == old(head)
        invariant bitOffset == BlockStart(m, start, i)
        invariant event.Value() == old(event.Value()).(asics := event.asicData)
        invariant event.asicData == AsicsSoFar(m, start, i)
      {
        OneMoreAsic(m, start, i);
        var asic, next := ReadAsic(event.asicData[i], bitOffset);
        event.asicData := event.asicData[i := asic];
        bitOffset := next;
      }
      AllAsics(m, start);
      head := (bitOffset + 63) / 32 * 4;
    }

    // The byte-wise search after a footer mismatch.
    method FindFooter(data: seq<bv8>) returns (r: Outcome)
      modifies this`head
      ensures var p := FooterFrom(data, old(head));
              if p + 4 <= |data| then r == EventRead && head == p + 4 else r == NoEvent && head == p
    {
      ghost var start := head;
      while head + 4 <= |data|
        invariant start <= head
        invariant FooterFrom(data, start) == FooterFrom(data, head)
        decreases |data| - head
      {
        if data[head..head + 4] == EVENT_FOOTER {
          head := head + 4;
          return EventRead;
        }
        head := head + 1;
      }
      r := NoEvent;
    }

    // Everything after the fixed fields of an event whose header is at head.
    method FinishEvent(event: EventData) returns (r: Outcome)
      requires pointer.To? && |pointer.memory.data| <= MAX_BUFFER
      requires head + FIXED_BYTES <= |pointer.memory.data|
      requires event.asicData == seq(ASIC_NUM, _ => ResetAsic())
      modifies this`head, event
      ensures Step(r, head, event.Value()) == FinishAt(pointer.memory, FirstBit(old(head)), old(event.Value()))
    {
      hide AsicsAt, BlockStart, Aligned, FooterFrom, FirstBit;
      var data := pointer.memory.data;
      head := head + 24;
      ReadAsics(event);
      if head + 4 > |data| {
        event.Invalidate();
        return NoEvent;
      }
      // The source makes this comparison twice in a row; the second one cannot succeed.
      if data[head..head + 4] == EVENT_FOOTER {
        head := head + 4;
        return EventRead;
      }
      event.Invalidate();
      r := FindFooter(data);
    }

    method UnpackNextEvent(event: EventData) returns (r: Outcome)
      requires Valid()
      modifies this, event
      ensures Valid() && pointer == old(pointer)
      ensures old(pointer).Null? ==> r == Uninitialized && head == old(head) && event.Value() == old(event.Value())
      ensures old(pointer).To? ==>
                Step(r, head, event.Value()) == UnpackWrapped(old(pointer).memory, old(head), old(event.Value()))
      ensures old(pointer).To? && |old(pointer).memory.data| < NO_WRAP ==>
                EventLayout.ReadsItsBytes(old(pointer).memory.data, old(head), Step(r, head, event.Value()))
    {
      if pointer.Null? {
        return Uninitialized;
      }
      hide FixedFields, FinishAt, FirstBit, EventLayout.ReadsItsBytes;
      var data := pointer.memory.data;
      SmallBuffersReadTheirBytes(pointer.memory, head, event.Value());
      event.Reset();
      if head + 4 > |data| {
        return NoEvent;
      }
      if data[head..head + 4] != EVENT_HEADER {
        return NoEvent;
      }
      event.valid := true;
      var ok := ReadFixedFields(event);
      if !ok {
        return OutOfRange;
      }
      FixedFieldsKeepAsics(data, head, EventFormat.Reset(old(event.Value())));
      FinishIsBounded(pointer.memory, FirstBit(head), event.Value());
      r := FinishEvent(event);
    }
  }

  lemma FixedFieldsKeepAsics(data: seq<bv8>, head: nat, e: EventValue)
    ensures FixedFields(data, head, e).asics == e.asics
  {
  }

  lemma FinishIsBounded(m: Memory, start: nat, e: EventValue)
    requires |m.data| <= MAX_BUFFER && start < 0x1_0000_0000
    ensures FinishAt(m, start, e).head <= MAX_BUFFER
  {
    hide AsicsAt;
  }

  // The blocks when the first n of them are read.
  function AsicsSoFar(m: Memory, pos: nat, n: nat): (a: seq<AsicData>)
    ensures |a| == ASIC_NUM
  {
    seq(ASIC_NUM, k requires 0 <= k < ASIC_NUM => if k < n then AsicAt(m, BlockStart(m, pos, k)) else ResetAsic())
  }

  lemma AsicsStartReset(m: Memory, pos: nat)
    ensures AsicsSoFar(m, pos, 0) == seq(ASIC_NUM, _ => ResetAsic())
  {
    hide AsicAt, ResetAsic;
  }

  lemma OneMoreAsic(m: Memory, pos: nat, n: nat)
    requires n < ASIC_NUM
    ensures AsicsSoFar(m, pos, n)[n] == ResetAsic()
    ensures AsicsSoFar(m, pos, n)[n := AsicAt(m, BlockStart(m, pos, n))] == AsicsSoFar(m, pos, n + 1)
  {
    hide AsicAt, ResetAsic;
  }

  lemma AllAsics(m: Memory, pos: nat)
    ensures AsicsSoFar(m, pos, ASIC_NUM) == AsicsAt(m, pos)
  {
    hide AsicAt, ResetAsic;
  }
}
