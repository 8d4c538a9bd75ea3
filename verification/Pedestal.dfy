/** src/calc_pedestal.cc: the median pedestal of every channel over the first 8192 valid events. */
module Pedestal {
  import opened EventFormat
  import EventDecoding
  import EventLayout
  import opened EventEncoding
  import FrameAnalyzer
  import RawDataFile
  import opened Order

  const MAX_EVENTS := 8192

  // ---------------------------------------------------------------------------------------------
  // The events of a frame depend on its bytes alone
  // ---------------------------------------------------------------------------------------------

  function FrameEvents(frame: seq<bv8>): Events {
    EventsFrom(Memory(frame, _ => 0), 0, EventFormat.Reset(EventValue(0, 0, 0, 0, 0, 0, false, true, [])))
  }

  // The event object is reused; nothing of its old value survives in an event that is read.
  lemma PreviousIsForgotten(m: Memory, head: nat, a: EventValue, b: EventValue)
    ensures var x, y := Unpack1(m, head, a), Unpack1(m, head, b);
            x.outcome == y.outcome && x.head == y.head && (x.outcome.EventRead? ==> x.event == y.event)
  {
    hide FooterPlace, AsicsAt, FooterFrom;
    assert head + FIXED_BYTES <= |m.data| ==>
             FixedFields(m.data, head, EventFormat.Reset(a)) == FixedFields(m.data, head, EventFormat.Reset(b));
  }

  lemma {:induction false} EventsDependOnData(m: Memory, w: Memory, i: nat, j: nat, a: EventValue, b: EventValue)
    requires m.data == w.data && EventDecoding.SamePlace(m.data, i, j)
    ensures EventsFrom(m, i, a) == EventsFrom(w, j, b)
    decreases |m.data| - i
  {
    hide Unpack1;
    EventDecoding.CallIgnoresBeyond(m, w, i, j, a);
    PreviousIsForgotten(w, j, a, b);
    var x, y := Unpack1(m, i, a), Unpack1(w, j, b);
    if x.outcome.EventRead? {
      EventDecoding.CallAdvances(m, i, a);
      EventDecoding.CallAdvances(w, j, b);
      EventsDependOnData(m, w, x.head, y.head, x.event, y.event);
    }
  }

  // ---------------------------------------------------------------------------------------------
  // The first valid events of a sequence of frames
  // ---------------------------------------------------------------------------------------------

  function Valids(list: seq<EventValue>): (v: seq<EventValue>)
    ensures forall e <- v :: e in list && e.valid
  {
    if list == [] then []
    else (if list[0].valid then [list[0]] else []) + Valids(list[1..])
  }

  // The valid events before place i.
  function ValidBefore(list: seq<EventValue>, i: nat): set<nat> {
    set j: nat | j < i && j < |list| && list[j].valid
  }

  /** Every valid event is kept, and the n-th valid event is the n-th one kept. */
  lemma {:induction false} ValidsAreInOrder(list: seq<EventValue>)
    ensures |Valids(list)| == |ValidBefore(list, |list|)|
    ensures forall i: nat | i < |list| && list[i].valid ::
              |ValidBefore(list, i)| < |Valids(list)| && Valids(list)[|ValidBefore(list, i)|] == list[i]
  {
    if list == [] {
      assert ValidBefore(list, 0) == {};
    } else {
      ValidsAreInOrder(list[1..]);
      forall i: nat | i < |list|
        ensures |ValidBefore(list, i + 1)| == (if list[0].valid then 1 else 0) + |ValidBefore(list[1..], i)|
      {
        FirstOfValid(list, i);
      }
      assert ValidBefore(list, 0) == {};
      forall i: nat | i < |list| && list[i].valid
        ensures |ValidBefore(list, i)| < |Valids(list)| && Valids(list)[|ValidBefore(list, i)|] == list[i]
      {
        if i > 0 {
          assert list[1..][i - 1] == list[i];
          assert |ValidBefore(list, i - 1 + 1)| == |ValidBefore(list, i)|;
        }
      }
    }
  }

  lemma NextValid(list: seq<EventValue>, i: nat)
    requires i < |list|
    ensures |ValidBefore(list, i + 1)| == |ValidBefore(list, i)| + if list[i].valid then 1 else 0
  {
    assert ValidBefore(list, i + 1) == ValidBefore(list, i) + if list[i].valid then {i} else {};
  }

  lemma {:induction false} FirstOfValid(list: seq<EventValue>, i: nat)
    requires i < |list|
    ensures |ValidBefore(list, i + 1)| == (if list[0].valid then 1 else 0) + |ValidBefore(list[1..], i)|
    decreases i
  {
    NextValid(list, i);
    if i == 0 {
      assert ValidBefore(list[1..], 0) == ValidBefore(list, 0) == {};
    } else {
      FirstOfValid(list, i - 1);
      NextValid(list[1..], i - 1);
    }
  }

  function ValidEvents(frames: seq<seq<bv8>>): seq<EventValue> {
    if frames == [] then [] else Valids(FrameEvents(frames[0]).list) + ValidEvents(frames[1..])
  }

  // An exception from the analyzer ends the program.
  datatype Collected = Collected(events: seq<EventValue>, aborted: bool)

  function Prepend(events: seq<EventValue>, c: Collected): Collected {
    c.(events := events + c.events)
  }

  // The event loop over what one frame still yields, then the loop over the frames.
  function CollectFrom(frame: Events, frames: seq<seq<bv8>>, room: nat): Collected
    decreases |frames|
  {
    var v := Valids(frame.list);
    if |v| >= room then Collected(v[..room], false)
    else if frame.end.OutOfRange? then Collected(v, true)
    else Prepend(v, Collect(frames, room - |v|))
  }

  function Collect(frames: seq<seq<bv8>>, room: nat): Collected
    decreases |frames|, 0
  {
    if frames == [] || room == 0 then Collected([], false)
    else CollectFrom(FrameEvents(frames[0]), frames[1..], room)
  }

  // Frame i ends in an exception before the wanted number of events is complete.
  ghost predicate AbortsAt(frames: seq<seq<bv8>>, room: nat, i: nat) {
    i < |frames| && FrameEvents(frames[i]).end.OutOfRange? && |ValidEvents(frames[..i + 1])| < room
  }

  function Shorter(a: nat, b: nat): nat {
    if a < b then a else b
  }

  /** The events used are the first ones, up to the wanted number, of all valid events of all frames in
      order; the program aborts exactly when a frame ends in an exception before that number. */
  lemma {:induction false} FirstValidEvents(frames: seq<seq<bv8>>, room: nat)
    ensures var c, all := Collect(frames, room), ValidEvents(frames);
            && (c.aborted <==> exists i: nat :: AbortsAt(frames, room, i))
            && (!c.aborted ==> c.events == all[..Shorter(room, |all|)])
    decreases |frames|
  {
    hide FrameEvents, Valids;
    if frames != [] && room > 0 {
      var v := Valids(FrameEvents(frames[0]).list);
      FirstFrame(frames);
      if |v| >= room {
        forall i: nat | i < |frames| ensures !AbortsAt(frames, room, i) {
          FirstFrame(frames[..i + 1]);
          assert frames[..i + 1][0] == frames[0];
        }
      } else if FrameEvents(frames[0]).end.OutOfRange? {
        FirstFrame(frames[..1]);
        assert AbortsAt(frames, room, 0);
      } else {
        var rest, left: nat := frames[1..], room - |v|;
        FirstValidEvents(rest, left);
        if i: nat :| AbortsAt(rest, left, i) {
          AbortShifts(frames, room, i);
          assert AbortsAt(frames, room, i + 1);
        }
        if i: nat :| AbortsAt(frames, room, i) {
          assert frames[..1] == [frames[0]];
          if i > 0 { AbortShifts(frames, room, i - 1); }
        }
      }
    }
  }

  lemma AbortShifts(frames: seq<seq<bv8>>, room: nat, i: nat)
    requires frames != [] && |Valids(FrameEvents(frames[0]).list)| < room
    ensures AbortsAt(frames, room, i + 1)
            <==> AbortsAt(frames[1..], room - |Valids(FrameEvents(frames[0]).list)|, i)
  {
    hide FrameEvents, Valids;
    if i + 1 < |frames| {
      FirstFrame(frames[..i + 2]);
      assert frames[..i + 2][1..] == frames[1..][..i + 1];
    }
  }

  lemma FirstFrame(frames: seq<seq<bv8>>)
    requires frames != []
    ensures ValidEvents(frames) == Valids(FrameEvents(frames[0]).list) + ValidEvents(frames[1..])
  {
  }

  // A frame that an acquisition wrote: encoded events, then anything that is not another event.
  ghost predicate IsWritten(frame: seq<bv8>, ws: seq<Written>) {
    && AllEncodable(ws)
    && |FrameBytes(ws)| <= |frame| && frame[..|FrameBytes(ws)|] == FrameBytes(ws)
    && !Matches(frame[|FrameBytes(ws)|..], 0, EVENT_HEADER)
  }

  function AllWritten(ws: seq<seq<Written>>): seq<EventValue> {
    if ws == [] then [] else WrittenEvents(ws[0]) + AllWritten(ws[1..])
  }

  lemma {:induction false} ValidsKeepAll(list: seq<EventValue>)
    requires forall i | 0 <= i < |list| :: list[i].valid
    ensures Valids(list) == list
  {
    if list != [] { ValidsKeepAll(list[1..]); }
  }

  lemma WrittenFrame(frame: seq<bv8>, ws: seq<Written>)
    requires IsWritten(frame, ws)
    ensures FrameEvents(frame) == Events(WrittenEvents(ws), NoEvent)
    ensures Valids(FrameEvents(frame).list) == WrittenEvents(ws)
  {
    var n := |FrameBytes(ws)|;
    assert frame == FrameBytes(ws) + frame[n..];
    WrittenAreValid(ws);
    hide AllEncodable, EventsFrom, FrameBytes, Matches;
    FrameDecodes(ws, frame[n..], _ => 0, EventFormat.Reset(EventValue(0, 0, 0, 0, 0, 0, false, true, [])));
    ValidsKeepAll(WrittenEvents(ws));
  }

  lemma WrittenAreValid(ws: seq<Written>)
    requires AllEncodable(ws)
    ensures forall i | 0 <= i < |ws| :: ws[i].event.valid
  {
  }

  lemma {:induction false} WrittenFrames(frames: seq<seq<bv8>>, ws: seq<seq<Written>>)
    requires |frames| == |ws| && forall i | 0 <= i < |ws| :: IsWritten(frames[i], ws[i])
    ensures ValidEvents(frames) == AllWritten(ws)
    ensures forall i | 0 <= i < |frames| :: FrameEvents(frames[i]).end.NoEvent?
    decreases |frames|
  {
    hide IsWritten, FrameEvents, Valids, WrittenEvents;
    if frames != [] {
      WrittenFrame(frames[0], ws[0]);
      WrittenFrames(frames[1..], ws[1..]);
    }
  }

  /** From frames filled with encoded events the program uses exactly the first 8192 of those events. */
  lemma WrittenEventsAreUsed(frames: seq<seq<bv8>>, ws: seq<seq<Written>>)
    requires |frames| == |ws| && forall i | 0 <= i < |ws| :: IsWritten(frames[i], ws[i])
    ensures Collect(frames, 8192) == Collected(AllWritten(ws)[..Shorter(8192, |AllWritten(ws)|)], false)
  {
    hide IsWritten, FrameEvents, Collect;
    WrittenFrames(frames, ws);
    FirstValidEvents(frames, MAX_EVENTS);
  }

  // ---------------------------------------------------------------------------------------------
  // Samples
  // ---------------------------------------------------------------------------------------------

  // What the analyzer guarantees about an event.
  predicate Shaped(e: EventValue) {
    |e.asics| == ASIC_NUM && forall i | 0 <= i < ASIC_NUM :: ShapedAsic(e.asics[i])
  }

  predicate ShapedAsic(a: AsicData) {
    && |a.chflag| == CHANNEL_NUM && |a.adc| == CHANNEL_NUM && IsAdc(a.cmn)
    && forall c | 0 <= c < CHANNEL_NUM && a.chflag[c] :: IsAdc(a.adc[c])
  }

  lemma DecodedAsicIsShaped(m: Memory, pos: nat)
    ensures ShapedAsic(AsicAt(m, pos))
  {
    hide Number, FlagsAt, HeaderAt;
    TenBits();
  }

  lemma TenBits()
    ensures Bits.Pow2(10) == 1024
  {
    assert Bits.Pow2(5) == 32;
  }

  lemma ReadEventIsShaped(m: Memory, head: nat, previous: EventValue)
    requires Unpack1(m, head, previous).outcome.EventRead?
    ensures Shaped(Unpack1(m, head, previous).event)
  {
    hide FooterPlace, FooterFrom, AsicAt, FixedFields, ShapedAsic;
    forall pos: nat ensures ShapedAsic(AsicAt(m, pos)) {
      DecodedAsicIsShaped(m, pos);
    }
    ResetIsShaped();
  }

  lemma ResetIsShaped()
    ensures ShapedAsic(ResetAsic())
  {
  }

  function SampleOf(e: EventValue, asic: nat, channel: nat): (s: seq<int>)
    requires Shaped(e) && asic < ASIC_NUM && channel < CHANNEL_NUM
    ensures |s| <= 1 && forall x <- s :: -1023 <= x <= 1023
  {
    var a := e.asics[asic];
    if a.chflag[channel] then [a.adc[channel] - a.cmn] else []
  }

  // ADC minus common mode noise over the events that flag the channel, in order.
  function Samples(events: seq<EventValue>, asic: nat, channel: nat): (s: seq<int>)
    requires asic < ASIC_NUM && channel < CHANNEL_NUM
    requires forall e <- events :: Shaped(e)
    ensures |s| <= |events| && forall x <- s :: -1023 <= x <= 1023
  {
    if events == [] then [] else
      var n := |events| - 1;
      Samples(events[..n], asic, channel) + SampleOf(events[n], asic, channel)
  }

  function ChannelSamples(events: seq<EventValue>, k: nat): seq<int>
    requires (forall e <- events :: Shaped(e)) && k < ASIC_NUM * CHANNEL_NUM
  {
    Samples(events, k / CHANNEL_NUM, k % CHANNEL_NUM)
  }

  // ---------------------------------------------------------------------------------------------
  // The median of a channel, told from the events
  // ---------------------------------------------------------------------------------------------

  // Printed value k is that of channel k % 64 of ASIC k / 64.
  predicate Flags(e: EventValue, k: nat)
    requires Shaped(e) && k < 256
  {
    e.asics[k / 64].chflag[k % 64]
  }

  function Level(e: EventValue, k: nat): int
    requires Shaped(e) && k < 256
  {
    e.asics[k / 64].adc[k % 64] - e.asics[k / 64].cmn
  }

  ghost predicate AllShaped(events: seq<EventValue>) {
    forall e <- events :: Shaped(e)
  }

  // The events that flag the channel, and those of them with a level below v.
  ghost function Flagging(events: seq<EventValue>, k: nat): set<nat>
    requires AllShaped(events) && k < 256
  {
    set i: nat | i < |events| && Flags(events[i], k)
  }

  ghost function Under(events: seq<EventValue>, k: nat, v: int): set<nat>
    requires AllShaped(events) && k < 256
  {
    set i | i in Flagging(events, k) && Level(events[i], k) < v
  }

  // In ascending order of level, v stands at place r.
  ghost predicate IsRank(events: seq<EventValue>, k: nat, v: int, r: nat)
    requires AllShaped(events) && k < 256
  {
    |Under(events, k, v)| <= r < |Under(events, k, v + 1)|
  }

  // The one in the middle, twice, or the two in the middle.
  ghost predicate AreMiddles(events: seq<EventValue>, k: nat, v: int, w: int)
    requires AllShaped(events) && k < 256
  {
    var n := |Flagging(events, k)|;
    n > 0 && IsRank(events, k, v, (n - 1) / 2) && IsRank(events, k, w, n / 2)
  }

  /** x is twice the middle level of the events that flag the channel, or the sum of the two middle levels; at
      least half of these events lie on either side of it. */
  ghost predicate IsMiddle(events: seq<EventValue>, k: nat, x: int)
    requires AllShaped(events) && k < 256
  {
    var flagging := Flagging(events, k);
    && (exists v: int, w: int :: AreMiddles(events, k, v, w) && x == v + w)
    && |flagging| <= 2 * |set i | i in flagging && 2 * Level(events[i], k) <= x|
    && |flagging| <= 2 * |set i | i in flagging && 2 * Level(events[i], k) >= x|
  }

  lemma SampleIsLevel(e: EventValue, k: nat)
    requires Shaped(e) && k < 256
    ensures SampleOf(e, k / CHANNEL_NUM, k % CHANNEL_NUM) == if Flags(e, k) then [Level(e, k)] else []
  {
  }

  lemma {:induction false} FlaggingHasSamples(events: seq<EventValue>, k: nat)
    requires AllShaped(events) && k < 256
    ensures |Flagging(events, k)| == |ChannelSamples(events, k)|
    decreases |events|
  {
    hide SampleOf, Shaped, Flags, Level;
    if events == [] {
      assert Flagging(events, k) == {};
    } else {
      var n := |events| - 1;
      FlaggingHasSamples(events[..n], k);
      SampleIsLevel(events[n], k);
      assert Flagging(events, k)
             == Flagging(events[..n], k) + if Flags(events[n], k) then {n} else {};
    }
  }

  lemma {:induction false} UnderIsCounted(events: seq<EventValue>, k: nat, v: int)
    requires AllShaped(events) && k < 256
    ensures |Under(events, k, v)| == CountBelow(ChannelSamples(events, k), v)
    decreases |events|
  {
    hide SampleOf, Shaped, Flags, Level, CountBelow;
    if events == [] {
      assert Under(events, k, v) == {};
      NothingBelow(v);
    } else {
      var n := |events| - 1;
      UnderIsCounted(events[..n], k, v);
      SampleIsLevel(events[n], k);
      if Flags(events[n], k) {
        CountAppends(ChannelSamples(events[..n], k), Level(events[n], k), v);
      } else {
        assert ChannelSamples(events, k) == ChannelSamples(events[..n], k);
      }
      assert Under(events, k, v)
             == Under(events[..n], k, v) + if Flags(events[n], k) && Level(events[n], k) < v then {n} else {};
    }
  }

  lemma NothingBelow(v: int)
    ensures CountBelow([], v) == 0
  {
  }

  lemma HalvesOfRanks(events: seq<EventValue>, k: nat, v: int, w: int)
    requires AllShaped(events) && k < 256 && AreMiddles(events, k, v, w) && v <= w
    ensures var n := |Flagging(events, k)|;
            && n <= 2 * |set i | i in Flagging(events, k) && 2 * Level(events[i], k) <= v + w|
            && n <= 2 * |set i | i in Flagging(events, k) && 2 * Level(events[i], k) >= v + w|
  {
    hide Shaped, Level;
    var flagging := Flagging(events, k);
    var low := set i | i in flagging && 2 * Level(events[i], k) <= v + w;
    var high := set i | i in flagging && 2 * Level(events[i], k) >= v + w;
    SubsetSize(Under(events, k, v + 1), low);
    SubsetSize(flagging - Under(events, k, w), high);
    assert flagging == (flagging - Under(events, k, w)) + Under(events, k, w);
  }

  lemma SubsetSize<T>(a: set<T>, b: set<T>)
    requires a <= b
    ensures |a| <= |b|
  {
    assert b == a + (b - a);
  }

  /** The sorted-order median of the samples is the middle of the levels. */
  lemma MedianIsMiddle(events: seq<EventValue>, k: nat)
    requires AllShaped(events) && k < 256 && ChannelSamples(events, k) != []
    ensures IsMiddle(events, k, DoubledMedian(ChannelSamples(events, k)))
  {
    hide Shaped, ChannelSamples, Sort, CountBelow, Level, Under, Flagging;
    var s := ChannelSamples(events, k);
    FlaggingHasSamples(events, k);
    RankOfSample(events, k, (|s| - 1) / 2);
    RankOfSample(events, k, |s| / 2);
    MiddlesAreOrdered(s);
    HalvesOfRanks(events, k, Sort(s)[(|s| - 1) / 2], Sort(s)[|s| / 2]);
    assert AreMiddles(events, k, Sort(s)[(|s| - 1) / 2], Sort(s)[|s| / 2]);
  }

  lemma MiddlesAreOrdered(s: seq<int>)
    requires s != []
    ensures Sort(s)[(|s| - 1) / 2] <= Sort(s)[|s| / 2]
    ensures DoubledMedian(s) == Sort(s)[(|s| - 1) / 2] + Sort(s)[|s| / 2]
  {
    hide Sort;
    SortSorts(s);
  }

  lemma RankOfSample(events: seq<EventValue>, k: nat, r: nat)
    requires AllShaped(events) && k < 256 && r < |ChannelSamples(events, k)|
    ensures IsRank(events, k, Sort(ChannelSamples(events, k))[r], r)
  {
    hide Shaped, ChannelSamples, Sort, CountBelow, Under;
    var v := Sort(ChannelSamples(events, k))[r];
    SortedRank(ChannelSamples(events, k), r);
    UnderIsCounted(events, k, v);
    UnderIsCounted(events, k, v + 1);
  }

  // ---------------------------------------------------------------------------------------------
  // The program
  // ---------------------------------------------------------------------------------------------

  /** The median of src/calc_pedestal.cc, doubled; it rearranges its argument. */
  method Median(samples: array<int>) returns (ok: bool, doubled: int)
    modifies samples
    ensures ok == (samples.Length > 0)
    ensures ok ==> doubled == DoubledMedian(old(samples[..]))
    ensures multiset(samples[..]) == multiset(old(samples[..]))
  {
    hide Partitioned, DoubledMedian;
    if samples.Length == 0 {
      return false, 0;
    }
    ok := true;
    var middle := samples.Length / 2;
    NthElement(samples, middle);
    MedianIgnoresOrder(old(samples[..]), samples[..]);
    MiddleIsMedian(samples[..]);
    if samples.Length % 2 != 0 {
      return true, 2 * samples[middle];
    }
    var lower := MaxElement(samples, middle);
    LastIsGreatest(samples[..middle], lower);
    doubled := lower + samples[middle];
  }

  lemma MiddleIsMedian(s: seq<int>)
    requires s != [] && Partitioned(s, |s| / 2)
    ensures DoubledMedian(s) == if |s| % 2 == 1 then 2 * s[|s| / 2]
                                else Sort(s[..|s| / 2])[|s| / 2 - 1] + s[|s| / 2]
  {
    hide Sort, Partitioned;
    PartitionSelects(s, |s| / 2);
    if |s| % 2 == 0 {
      assert Sort(s)[..|s| / 2][|s| / 2 - 1] == Sort(s)[|s| / 2 - 1];
    }
  }

  // The samples of one event, appended channel by channel.
  method AddSamples(samples: array2<seq<int>>, event: FrameAnalyzer.EventData)
    requires samples.Length0 == ASIC_NUM && samples.Length1 == CHANNEL_NUM
    requires Shaped(event.Value())
    modifies samples
    ensures forall a, c | 0 <= a < ASIC_NUM && 0 <= c < CHANNEL_NUM ::
              samples[a, c] == old(samples[a, c]) + SampleOf(event.Value(), a, c)
    ensures forall a, c | 0 <= a < 4 && 0 <= c < 64 ::
              samples[a, c] == old(samples[a, c])
                               + if event.asicData[a].chflag[c] then [event.asicData[a].adc[c] - event.asicData[a].cmn]
                                 else []
  {
    var e := event.Value();
    for asic := 0 to ASIC_NUM
      invariant forall a, c | 0 <= a < ASIC_NUM && 0 <= c < CHANNEL_NUM ::
                  samples[a, c] == old(samples[a, c]) + if a < asic then SampleOf(e, a, c) else []
    {
      var data := event.asicData[asic];
      for channel := 0 to CHANNEL_NUM
        invariant forall a, c | 0 <= a < ASIC_NUM && 0 <= c < CHANNEL_NUM ::
                    samples[a, c] == old(samples[a, c])
                                     + if a < asic || (a == asic && c < channel) then SampleOf(e, a, c) else []
      {
        if data.chflag[channel] {
          samples[asic, channel] := samples[asic, channel] + [data.adc[channel] - data.cmn];
        }
      }
    }
  }

  ghost predicate Holds(samples: array2<seq<int>>, events: seq<EventValue>)
    reads samples
  {
    && samples.Length0 == ASIC_NUM && samples.Length1 == CHANNEL_NUM
    && (forall e <- events :: Shaped(e))
    && forall a, c | 0 <= a < ASIC_NUM && 0 <= c < CHANNEL_NUM :: samples[a, c] == Samples(events, a, c)
  }

  lemma OutcomesOfCalls(m: Memory, head: nat, e: EventValue)
    ensures !Unpack1(m, head, e).outcome.Uninitialized?
  {
    hide FooterPlace, FooterFrom, FixedFields, AsicsAt;
  }

  // A call of UnpackNextEvent takes the first of the events to come.
  lemma EventStep(m: Memory, head: nat, e: EventValue)
    ensures var step, coming := Unpack1(m, head, e), EventsFrom(m, head, e);
            if step.outcome.EventRead? then
              var rest := EventsFrom(m, step.head, step.event);
              && head < step.head <= |m.data| && Shaped(step.event)
              && coming.end == rest.end
              && Valids(coming.list) == (if step.event.valid then [step.event] else []) + Valids(rest.list)
            else coming.end == step.outcome && Valids(coming.list) == [] && !step.outcome.Uninitialized?
  {
    hide Unpack1, Shaped;
    OutcomesOfCalls(m, head, e);
    var step := Unpack1(m, head, e);
    if step.outcome.EventRead? {
      EventDecoding.CallAdvances(m, head, e);
      ReadEventIsShaped(m, head, e);
    }
  }

  lemma SamplesGrow(events: seq<EventValue>, e: EventValue, asic: nat, channel: nat)
    requires asic < ASIC_NUM && channel < CHANNEL_NUM
    requires (forall e <- events :: Shaped(e)) && Shaped(e)
    ensures Samples(events + [e], asic, channel) == Samples(events, asic, channel) + SampleOf(e, asic, channel)
  {
    hide SampleOf, Shaped;
    assert (events + [e])[..|events|] == events;
  }

  method AddEvent(samples: array2<seq<int>>, event: FrameAnalyzer.EventData, ghost events: seq<EventValue>)
    requires Holds(samples, events) && Shaped(event.Value())
    modifies samples
    ensures Holds(samples, events + [event.Value()])
  {
    hide Shaped, Samples, SampleOf;
    AddSamples(samples, event);
    forall a: nat, c: nat | a < ASIC_NUM && c < CHANNEL_NUM
      ensures Samples(events + [event.Value()], a, c) == Samples(events, a, c) + SampleOf(event.Value(), a, c)
    {
      SamplesGrow(events, event.Value(), a, c);
    }
  }

  // The inner loop: the events of the frame the analyzer was given.
  method CollectFrame(analyzer: FrameAnalyzer.FrameAnalyzer, event: FrameAnalyzer.EventData,
                      samples: array2<seq<int>>, count: nat, ghost events: seq<EventValue>)
    returns (ok: bool, eventCount: nat, ghost all: seq<EventValue>)
    requires analyzer.Valid() && analyzer.pointer.To? && analyzer.head == 0
    requires |analyzer.pointer.memory.data| == RawDataFile.FRAME_SIZE
    requires Holds(samples, events) && count == |events| <= MAX_EVENTS
    modifies analyzer, event, samples
    ensures var frame, room := FrameEvents(old(analyzer.pointer).memory.data), MAX_EVENTS - count;
            var v := Valids(frame.list);
            && all == events + v[..Shorter(room, |v|)]
            && ok == (|v| >= room || !frame.end.OutOfRange?)
    ensures analyzer.Valid() && Holds(samples, all) && eventCount == |all| <= MAX_EVENTS
  {
    hide Shaped, Unpack1, FrameEvents, EventsFrom, Valids, FrameAnalyzer.UnpackWrapped, Holds,
      EventLayout.ReadsItsBytes;
    ok, eventCount, all := true, count, events;
    ghost var m := analyzer.pointer.memory;
    ghost var frame := FrameEvents(m.data);
    FrameEventsAreComing(m, event.Value());
    while eventCount < MAX_EVENTS
      invariant analyzer.Valid() && analyzer.pointer == old(analyzer.pointer)
      invariant Holds(samples, all) && |events| <= eventCount == |all| <= MAX_EVENTS
      invariant var coming := EventsFrom(m, analyzer.head, event.Value());
                frame.end == coming.end && events + Valids(frame.list) == all + Valids(coming.list)
      decreases |m.data| - analyzer.head
    {
      EventStep(m, analyzer.head, event.Value());
      ghost var before := all + Valids(EventsFrom(m, analyzer.head, event.Value()).list);
      FrameAnalyzer.SmallBuffersDoNotWrap(m, analyzer.head, event.Value());
      var outcome := analyzer.UnpackNextEvent(event);
      if !outcome.EventRead? {
        FirstOfAll(events, Valids(frame.list), all, []);
        return outcome.NoEvent?, eventCount, all;
      }
      if !event.valid { continue; }
      eventCount := eventCount + 1;
      AddEvent(samples, event, all);
      all := all + [event.Value()];
    }
    FirstOfAll(events, Valids(frame.list), all, Valids(EventsFrom(m, analyzer.head, event.Value()).list));
  }

  lemma FirstOfAll(events: seq<EventValue>, v: seq<EventValue>, all: seq<EventValue>, coming: seq<EventValue>)
    requires events + v == all + coming && |events| <= |all| <= MAX_EVENTS
    requires |all| == MAX_EVENTS || coming == []
    ensures all == events + v[..Shorter(MAX_EVENTS - |events|, |v|)]
    ensures |v| >= MAX_EVENTS - |events| <==> |all| == MAX_EVENTS
  {
    assert all == (all + coming)[..|all|];
  }

  lemma FrameEventsAreComing(m: Memory, e: EventValue)
    ensures FrameEvents(m.data) == EventsFrom(m, 0, e)
  {
    hide EventsFrom;
    EventsDependOnData(m, Memory(m.data, _ => 0), 0, 0, e,
                       EventFormat.Reset(EventValue(0, 0, 0, 0, 0, 0, false, true, [])));
  }

  // The outer loop, over the frames of the file.
  method CollectSamples(raw: RawDataFile.RawDataFile, beyond: (nat, nat) -> bv8, samples: array2<seq<int>>)
    returns (ok: bool, ghost events: seq<EventValue>)
    requires Holds(samples, [])
    modifies raw, samples
    ensures var frames := RawDataFile.Scan(old(raw.isOldFormat), old(raw.content), old(raw.pos)).frames;
            var c := Collect(frames, MAX_EVENTS);
            ok == !c.aborted && (ok ==> events == c.events)
    ensures Holds(samples, events)
  {
    hide Holds, Collect, Prepend, Shorter, FrameEvents, Valids, RawDataFile.NextFrame, RawDataFile.Scan;
    var event := new FrameAnalyzer.EventData();
    var analyzer := new FrameAnalyzer.FrameAnalyzer();
    var eventCount := 0;
    events := [];
    ghost var frames := RawDataFile.Scan(raw.isOldFormat, raw.content, raw.pos).frames;
    ghost var total := Collect(frames, MAX_EVENTS);
    PrependTwice([], [], total);
    while eventCount < MAX_EVENTS
      invariant analyzer.Valid()
      invariant raw.isOldFormat == old(raw.isOldFormat) && raw.content == old(raw.content)
      invariant frames == RawDataFile.Scan(raw.isOldFormat, raw.content, raw.pos).frames
      invariant Holds(samples, events) && eventCount == |events| <= MAX_EVENTS
      invariant total == Prepend(events, Collect(frames, MAX_EVENTS - eventCount))
      decreases |frames|
    {
      RawDataFile.ScanByCalls(raw.isOldFormat, raw.content, raw.pos);
      var more := raw.GetNextFrame();
      if !more {
        CollectEnds(events, frames);
        return true, events;
      }
      CollectTurns(events, frames);
      assert frames[0] == raw.frame;
      assert frames[1..] == RawDataFile.Scan(raw.isOldFormat, raw.content, raw.pos).frames;
      var p := raw.pos;
      var frame := Memory(raw.frame, (n: nat) => beyond(p, n));
      var _ := analyzer.Initialize(FrameAnalyzer.To(frame), |raw.frame|);
      ok, eventCount, events := CollectFrame(analyzer, event, samples, eventCount, events);
      if !ok { return; }
      frames := frames[1..];
    }
    CollectEnds(events, frames);
    ok := true;
  }

  lemma CollectTurns(events: seq<EventValue>, frames: seq<seq<bv8>>)
    requires |events| < MAX_EVENTS && frames != []
    ensures var room := MAX_EVENTS - |events|;
            var f := FrameEvents(frames[0]);
            var v := Valids(f.list);
            var all := events + v[..Shorter(room, |v|)];
            Prepend(events, Collect(frames, room))
            == if |v| < room && f.end.OutOfRange? then Collected(all, true)
               else Prepend(all, Collect(frames[1..], MAX_EVENTS - |all|))
  {
    hide FrameEvents, Valids, Prepend, Collect;
    var room := MAX_EVENTS - |events|;
    var f := FrameEvents(frames[0]);
    var v := Valids(f.list);
    var taken := v[..Shorter(room, |v|)];
    FirstFrameIsCollected(frames, room);
    if |v| < room && f.end.OutOfRange? {
      PrependTwice(events, [], Collected(v, true));
    } else {
      PrependTwice(events, taken, Collect(frames[1..], room - |taken|));
    }
  }

  lemma FirstFrameIsCollected(frames: seq<seq<bv8>>, room: nat)
    requires frames != [] && room > 0
    ensures var f := FrameEvents(frames[0]);
            var v := Valids(f.list);
            Collect(frames, room)
            == if |v| < room && f.end.OutOfRange? then Collected(v, true)
               else Prepend(v[..Shorter(room, |v|)], Collect(frames[1..], room - Shorter(room, |v|)))
  {
    hide FrameEvents, Valids;
  }

  lemma PrependTwice(a: seq<EventValue>, b: seq<EventValue>, c: Collected)
    ensures Prepend(a, Prepend(b, c)) == Prepend(a + b, c)
    ensures Prepend(a, c) == Collected(a + c.events, c.aborted)
    ensures Prepend([], c) == c
  {
    assert a + (b + c.events) == (a + b) + c.events;
  }

  lemma CollectEnds(events: seq<EventValue>, frames: seq<seq<bv8>>)
    requires |events| <= MAX_EVENTS && (frames == [] || |events| == MAX_EVENTS)
    ensures Prepend(events, Collect(frames, MAX_EVENTS - |events|)) == Collected(events, false)
  {
  }

  // The exit code and the doubled medians written before the program ends: it stops at the first channel that no
  // event flags.
  ghost predicate Reports(code: nat, printed: seq<int>, c: Collected) {
    if c.aborted then code == 1 && printed == [] else
      && AllShaped(c.events) && |printed| <= 256
      && code == (if |printed| == 256 then 0 else 1)
      && (forall k: nat | k < |printed| :: IsMiddle(c.events, k, printed[k]))
      && (|printed| < 256 ==> forall e <- c.events :: !Flags(e, |printed|))
  }

  // The same, in terms of the samples.
  ghost predicate Medians(code: nat, printed: seq<int>, c: Collected) {
    if c.aborted then code == 1 && printed == [] else
      && AllShaped(c.events) && |printed| <= 256
      && code == (if |printed| == 256 then 0 else 1)
      && (forall k: nat | k < |printed| ::
            ChannelSamples(c.events, k) != [] && printed[k] == DoubledMedian(ChannelSamples(c.events, k)))
      && (|printed| < 256 ==> ChannelSamples(c.events, |printed|) == [])
  }

  lemma NobodyFlags(events: seq<EventValue>, k: nat)
    requires AllShaped(events) && k < 256 && ChannelSamples(events, k) == []
    ensures forall e <- events :: !Flags(e, k)
  {
    hide Shaped, ChannelSamples, Flags;
    FlaggingHasSamples(events, k);
    assert Flagging(events, k) == {};
    forall i: nat | i < |events| ensures !Flags(events[i], k) {
      assert i !in Flagging(events, k);
    }
  }

  lemma MediansAreReported(code: nat, printed: seq<int>, c: Collected)
    requires Medians(code, printed, c)
    ensures Reports(code, printed, c)
  {
    hide Shaped, ChannelSamples, Flags, DoubledMedian, IsMiddle;
    if !c.aborted {
      forall k: nat | k < |printed| ensures IsMiddle(c.events, k, printed[k]) {
        MedianIsMiddle(c.events, k);
      }
      if |printed| < 256 {
        NobodyFlags(c.events, |printed|);
      }
    }
  }

  /** The whole program, with twice each median in place of the printed decimal. */
  method CalcPedestal(content: seq<bv8>, beyond: (nat, nat) -> bv8) returns (code: nat, printed: seq<int>)
    ensures var frames := RawDataFile.Scan(RawDataFile.IsOldFormat(content), content, 0).frames;
            Reports(code, printed, Collect(frames, 8192))
  {
    hide Medians, Reports, Samples, Collect, RawDataFile.Scan, RawDataFile.IsOldFormat;
    var samples := new seq<int>[ASIC_NUM, CHANNEL_NUM]((_, _) => []);
    var raw := new RawDataFile.RawDataFile(content);
    assert Holds(samples, []) by { NoSamples(); }
    ghost var frames := RawDataFile.Scan(RawDataFile.IsOldFormat(content), content, 0).frames;
    var ok;
    ghost var events;
    ok, events := CollectSamples(raw, beyond, samples);
    if ok {
      code, printed := PrintMedians(samples, events);
    } else {
      code, printed := 1, [];
      AbortPrintsNothing(Collect(frames, 8192));
    }
    MediansAreReported(code, printed, Collect(frames, 8192));
  }

  lemma AbortPrintsNothing(c: Collected)
    requires c.aborted
    ensures Medians(1, [], c)
  {
  }

  method PrintMedians(samples: array2<seq<int>>, ghost events: seq<EventValue>) returns (code: nat, printed: seq<int>)
    requires Holds(samples, events)
    ensures Medians(code, printed, Collected(events, false))
  {
    hide DoubledMedian, Samples;
    printed := [];
    for asic := 0 to ASIC_NUM
      invariant |printed| == asic * CHANNEL_NUM
      invariant forall k: nat | k < |printed| ::
                  ChannelSamples(events, k) != [] && printed[k] == DoubledMedian(ChannelSamples(events, k))
    {
      for channel := 0 to CHANNEL_NUM
        invariant |printed| == asic * CHANNEL_NUM + channel
        invariant forall k: nat | k < |printed| ::
                    ChannelSamples(events, k) != [] && printed[k] == DoubledMedian(ChannelSamples(events, k))
      {
        var s := samples[asic, channel];
        var vector := new int[|s|](i requires 0 <= i < |s| => s[i]);
        assert vector[..] == s == ChannelSamples(events, |printed|);
        var found, doubled := Median(vector);
        if !found { return 1, printed; }
        printed := printed + [doubled];
      }
    }
    code := 0;
  }

  lemma NoSamples()
    ensures forall a: nat, c: nat | a < ASIC_NUM && c < CHANNEL_NUM :: Samples([], a, c) == []
  {
  }

  // A level that stands at some place is the level of an event.
  lemma RankIsLevel(events: seq<EventValue>, k: nat, v: int, r: nat)
    requires AllShaped(events) && k < 256 && IsRank(events, k, v, r)
    ensures -1023 <= v <= 1023
  {
    hide Shaped, Flags;
    BiggerHasMore(Under(events, k, v), Under(events, k, v + 1));
    var i :| i in Under(events, k, v + 1) && i !in Under(events, k, v);
    LevelIsBounded(events[i], k);
  }

  lemma BiggerHasMore(a: set<nat>, b: set<nat>)
    requires |a| < |b|
    ensures exists i :: i in b && i !in a
  {
    if b <= a {
      SubsetSize(b, a);
    }
  }

  lemma LevelIsBounded(e: EventValue, k: nat)
    requires Shaped(e) && k < 256 && Flags(e, k)
    ensures -1023 <= Level(e, k) <= 1023
  {
  }

  /** Every printed pedestal is a half-integer in -1023 to 1023. */
  lemma PedestalsAreBounded(code: nat, printed: seq<int>, c: Collected)
    requires Reports(code, printed, c)
    ensures forall k | 0 <= k < |printed| :: -2046 <= printed[k] <= 2046
  {
    hide IsRank, Shaped, Flags;
    forall k | 0 <= k < |printed| ensures -2046 <= printed[k] <= 2046 {
      var n := |Flagging(c.events, k)|;
      var v: int, w: int :| AreMiddles(c.events, k, v, w) && printed[k] == v + w;
      RankIsLevel(c.events, k, v, (n - 1) / 2);
      RankIsLevel(c.events, k, w, n / 2);
    }
  }
}
