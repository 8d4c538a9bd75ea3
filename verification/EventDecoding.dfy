/** Properties of the event decoder of EventFormat.dfy. */
module EventDecoding {
  import opened Bits
  import opened EventFormat

  // ---------------------------------------------------------------------------------------------
  // Progress
  // ---------------------------------------------------------------------------------------------

  /** A call that returns true moves forward by at least 35 bytes and stays inside the buffer. The event
      is valid exactly when the footer is where it is expected; otherwise the call stops just after
      the first footer at or after that place. */
  lemma CallAdvances(m: Memory, head: nat, previous: EventValue)
    requires Unpack1(m, head, previous).outcome.EventRead?
    ensures var step, place := Unpack1(m, head, previous), FooterPlace(m, head);
            && head + 35 <= step.head <= |m.data|
            && Matches(m.data, head, EVENT_HEADER)
            && Matches(m.data, step.head - 4, EVENT_FOOTER)
            && (step.event.valid <==> Matches(m.data, place, EVENT_FOOTER))
            && (forall q | place <= q < step.head - 4 :: !Matches(m.data, q, EVENT_FOOTER))
  {
    hide FooterPlace;
  }

  /** From a word boundary a valid event of n ASIC bits takes 28 + 4 * ((n + 63) / 32) bytes, 36 to 400. */
  lemma ValidEventLength(m: Memory, head: nat, previous: EventValue)
    requires head % 4 == 0
    requires Unpack1(m, head, previous).outcome.EventRead? && Unpack1(m, head, previous).event.valid
    ensures var pos := 8 * (head + FIXED_BYTES);
            var n := BlockStart(m, pos, ASIC_NUM) - pos;
            && Unpack1(m, head, previous).head == head + 28 + 4 * ((n + 63) / 32)
            && head + 36 <= Unpack1(m, head, previous).head <= head + 400
  {
    hide FixedFields, AsicsAt, AsicBits, FooterFrom;
    var pos := 8 * (head + FIXED_BYTES);
    var n := BlockStart(m, pos, ASIC_NUM) - pos;
    AlignedFromWord(head / 4, n);
  }

  /** Every alignment rounds up to a word and then skips exactly one word more. */
  lemma AlignedSkipsOneWord(n: nat)
    ensures Aligned(n) == (n + 31) / 32 * 4 + 4
  {
  }

  lemma AlignedFromWord(q: nat, n: nat)
    ensures Aligned(8 * (4 * q + FIXED_BYTES) + n) == 4 * q + FIXED_BYTES + 4 * ((n + 63) / 32)
  {
  }

  /** The event loop ends after at most one event for every 35 bytes. */
  lemma {:induction false} EventsAreBounded(m: Memory, head: nat, previous: EventValue)
    requires head <= |m.data|
    ensures 35 * |EventsFrom(m, head, previous).list| <= |m.data| - head
    decreases |m.data| - head
  {
    hide Unpack1;
    var step := Unpack1(m, head, previous);
    if step.outcome.EventRead? {
      CallAdvances(m, head, previous);
      EventsAreBounded(m, step.head, step.event);
    }
  }

  // ---------------------------------------------------------------------------------------------
  // Bytes behind the buffer never matter
  // ---------------------------------------------------------------------------------------------

  lemma {:induction false} NumberInside(m: Memory, w: Memory, n: nat, k: nat)
    requires m.data == w.data && n + k <= 8 * |m.data|
    ensures Number(m, n, k) == Number(w, n, k)
    decreases k
  {
    hide TestMask;
    if k > 0 {
      assert Bit(m, n) == Bit(w, n);
      NumberInside(m, w, n + 1, k - 1);
    }
  }

  lemma FlagsInside(m: Memory, w: Memory, pos: nat)
    requires m.data == w.data
    ensures pos + 5 <= 8 * |m.data| ==> HeaderAt(m, pos) == HeaderAt(w, pos)
    ensures pos + 69 <= 8 * |m.data| ==> FlagsAt(m, pos) == FlagsAt(w, pos)
  {
    hide TestMask;
    assert forall n: nat | n < 8 * |m.data| :: Bit(m, n) == Bit(w, n);
    hide Bit;
    if pos + 5 <= 8 * |m.data| {
      assert HeaderAt(m, pos) == HeaderAt(w, pos);
    }
    if pos + 69 <= 8 * |m.data| {
      assert FlagsAt(m, pos) == FlagsAt(w, pos);
    }
  }

  lemma AdcInside(m: Memory, w: Memory, pos: nat, j: nat)
    requires m.data == w.data && j < CHANNEL_NUM
    requires FlagsAt(m, pos) == FlagsAt(w, pos)
    requires pos + 80 + 10 * Count(FlagsAt(m, pos), CHANNEL_NUM) <= 8 * |m.data|
    ensures AdcAt(m, pos, j) == AdcAt(w, pos, j)
  {
    hide TestMask, FlagsAt, Number;
    var flags := FlagsAt(m, pos);
    if flags[j] {
      CountGrows(flags, j + 1, CHANNEL_NUM);
      NumberInside(m, w, pos + 80 + 10 * Count(flags, j), 10);
    }
  }

  lemma {:induction false} CountGrows(flags: seq<bool>, i: nat, j: nat)
    requires i <= j <= |flags|
    ensures Count(flags, i) <= Count(flags, j)
    decreases j
  {
    if i < j {
      CountGrows(flags, i, j - 1);
    }
  }

  // A block that ends inside the buffer is read from the buffer alone.
  lemma BlockInside(m: Memory, w: Memory, pos: nat)
    requires m.data == w.data && pos + AsicBits(m, pos) <= 8 * |m.data|
    ensures AsicBits(w, pos) == AsicBits(m, pos) && AsicAt(w, pos) == AsicAt(m, pos)
  {
    hide TestMask, FlagsAt, HeaderAt, Number, AdcAt;
    FlagsInside(m, w, pos);
    if HeaderAt(m, pos)[1] {
      var flags := FlagsAt(m, pos);
      NumberInside(m, w, pos + 70, 10);
      NumberInside(m, w, pos + 80 + 10 * Count(flags, CHANNEL_NUM), 10);
      forall j | 0 <= j < CHANNEL_NUM
        ensures AdcAt(m, pos, j) == AdcAt(w, pos, j)
      {
        AdcInside(m, w, pos, j);
      }
      assert AsicAt(w, pos).adc == AsicAt(m, pos).adc;
    }
  }

  lemma {:induction false} BlocksInside(m: Memory, w: Memory, pos: nat, i: nat)
    requires m.data == w.data && BlockStart(m, pos, i) <= 8 * |m.data|
    ensures BlockStart(w, pos, i) == BlockStart(m, pos, i)
    ensures forall k: nat | k < i :: AsicAt(w, BlockStart(w, pos, k)) == AsicAt(m, BlockStart(m, pos, k))
    decreases i
  {
    hide AsicAt, AsicBits;
    if i > 0 {
      BlocksInside(m, w, pos, i - 1);
      BlockInside(m, w, BlockStart(m, pos, i - 1));
    }
  }

  lemma EventInside(m: Memory, w: Memory, head: nat)
    requires m.data == w.data
    ensures var pos := 8 * (head + FIXED_BYTES);
            || (FooterPlace(w, head) == FooterPlace(m, head) && AsicsAt(w, pos) == AsicsAt(m, pos))
            || (FooterPlace(w, head) + 4 > |m.data| && FooterPlace(m, head) + 4 > |m.data|)
  {
    hide AsicAt, AsicBits;
    var pos := 8 * (head + FIXED_BYTES);
    if BlockStart(m, pos, ASIC_NUM) <= 8 * |m.data| {
      BlocksInside(m, w, pos, ASIC_NUM);
    } else if BlockStart(w, pos, ASIC_NUM) <= 8 * |m.data| {
      BlocksInside(w, m, pos, ASIC_NUM);
    }
  }

  // Equal heads, or both too close to the end for another event.
  predicate SamePlace(data: seq<bv8>, a: nat, b: nat) {
    a == b || (a + 4 > |data| && b + 4 > |data|)
  }

  lemma CallIgnoresBeyond(m: Memory, w: Memory, a: nat, b: nat, previous: EventValue)
    requires m.data == w.data && SamePlace(m.data, a, b)
    ensures var x, y := Unpack1(m, a, previous), Unpack1(w, b, previous);
            x.outcome == y.outcome && x.event == y.event && SamePlace(m.data, x.head, y.head)
  {
    hide FooterPlace, AsicsAt, FixedFields;
    if a == b {
      EventInside(m, w, a);
    }
  }

  // What n successive calls return, and what they leave in the event.
  function Observed(m: Memory, head: nat, e: EventValue, n: nat): seq<(Outcome, EventValue)>
    decreases n
  {
    if n == 0 then [] else
      var step := Unpack1(m, head, e);
      [(step.outcome, step.event)] + Observed(m, step.head, step.event, n - 1)
  }

  /** Although TestBit reads unchecked, no sequence of calls depends on a byte behind the buffer. */
  lemma {:induction false} CallsIgnoreBeyond(m: Memory, w: Memory, a: nat, b: nat, e: EventValue, n: nat)
    requires m.data == w.data && SamePlace(m.data, a, b)
    ensures Observed(m, a, e, n) == Observed(w, b, e, n)
    decreases n
  {
    hide Unpack1;
    if n > 0 {
      CallIgnoresBeyond(m, w, a, b, e);
      var x, y := Unpack1(m, a, e), Unpack1(w, b, e);
      CallsIgnoreBeyond(m, w, x.head, y.head, x.event, n - 1);
    }
  }
}
