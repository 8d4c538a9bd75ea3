/** Raw data files byte by byte: what a pass returns, told without the scanner. */
module RawDataLayout {
  import opened RawDataFile

  // ---------------------------------------------------------------------------------------------
  // What stands where
  // ---------------------------------------------------------------------------------------------

  // The first three bytes of either header, and the fourth.
  predicate HeaderAt(content: seq<bv8>, p: nat, last: bv8) {
    && p + 4 <= |content|
    && content[p] == 0xAB && content[p + 1] == 0xCD && content[p + 2] == 0xEF && content[p + 3] == last
  }

  predicate FooterAt(content: seq<bv8>, p: nat) {
    && p + 4 <= |content|
    && content[p] == 0xFF && content[p + 1] == 0xFF && content[p + 2] == 0x01 && content[p + 3] == 0x23
  }

  lemma HeadersAreLiteral(content: seq<bv8>, p: nat)
    requires p + 4 <= |content|
    ensures content[p..p + 4] == HK_HEADER <==> HeaderAt(content, p, 0x03)
    ensures content[p..p + 4] == DATA_HEADER <==> HeaderAt(content, p, 0x02)
    ensures content[p..p + 4] == FOOTER <==> FooterAt(content, p)
  {
    assert content[p..p + 4] == [content[p], content[p + 1], content[p + 2], content[p + 3]];
  }

  /** What the scanner finds at a position of an old-format file. */
  lemma FoundIsLiteral(content: seq<bv8>, p: nat)
    ensures var f := Look(true, content, p);
            && (f == Wait <==>
                  || p + 4 > |content|
                  || (HeaderAt(content, p, 0x03) && p + 8376 > |content|)
                  || (HeaderAt(content, p, 0x02) && p + 32780 > |content|))
            && (f == HkRecord <==> HeaderAt(content, p, 0x03) && p + 8376 <= |content|)
            && (f.Frame? <==> HeaderAt(content, p, 0x02) && FooterAt(content, p + 32776))
            && (f.Frame? ==> f.payload == content[p + 4..p + 32772])
  {
    if p + 4 <= |content| {
      HeadersAreLiteral(content, p);
      if p + 32780 <= |content| {
        HeadersAreLiteral(content, p + 32776);
      }
    }
  }

  // ---------------------------------------------------------------------------------------------
  // Every frame is one of the file
  // ---------------------------------------------------------------------------------------------

  ghost predicate IsGenuine(content: seq<bv8>, frame: seq<bv8>, p: nat) {
    HeaderAt(content, p, 0x02) && FooterAt(content, p + 32776) && frame == content[p + 4..p + 32772]
  }

  // Frame i stands at places[i], and the records do not overlap.
  ghost predicate StandAt(content: seq<bv8>, frames: seq<seq<bv8>>, places: seq<nat>, pos: nat) {
    && |places| == |frames|
    && (forall i | 0 <= i < |frames| :: pos <= places[i] && IsGenuine(content, frames[i], places[i]))
    && forall i, j | 0 <= i < j < |frames| :: places[i] + 32780 <= places[j]
  }

  /** Every frame of a pass over an old-format file stands between a data header and a footer, and the frames are
      returned in the order of their places, which do not overlap. */
  lemma {:induction false} FramesAreGenuine(content: seq<bv8>, pos: nat) returns (places: seq<nat>)
    ensures StandAt(content, Scan(true, content, pos).frames, places, pos)
    decreases |content| - pos
  {
    hide Look, Advance, StandAt;
    var f := Look(true, content, pos);
    if f.Wait? {
      places := [];
      NothingStands(content, pos);
    } else {
      FoundFits(true, content, pos);
      var next := pos + Advance(true, f);
      places := FramesAreGenuine(content, next);
      if f.Frame? {
        FrameIsGenuine(content, pos);
        OneMoreStands(content, f.payload, Scan(true, content, next).frames, places, pos, next);
        places := [pos] + places;
      } else {
        StandLater(content, Scan(true, content, next).frames, places, pos, next);
        assert [] + Scan(true, content, next).frames == Scan(true, content, next).frames;
      }
    }
  }

  lemma NothingStands(content: seq<bv8>, pos: nat)
    ensures StandAt(content, [], [], pos)
  {
  }

  lemma OneMoreStands(content: seq<bv8>, frame: seq<bv8>, frames: seq<seq<bv8>>, places: seq<nat>, pos: nat,
                      next: nat)
    requires StandAt(content, frames, places, next) && IsGenuine(content, frame, pos) && pos + 32780 <= next
    ensures StandAt(content, [frame] + frames, [pos] + places, pos)
  {
    hide IsGenuine;
  }

  lemma StandLater(content: seq<bv8>, frames: seq<seq<bv8>>, places: seq<nat>, pos: nat, next: nat)
    requires StandAt(content, frames, places, next) && pos <= next
    ensures StandAt(content, frames, places, pos)
  {
    hide IsGenuine;
  }

  lemma FrameIsGenuine(content: seq<bv8>, pos: nat)
    requires Look(true, content, pos).Frame?
    ensures IsGenuine(content, Look(true, content, pos).payload, pos)
    ensures Advance(true, Look(true, content, pos)) == 32780
  {
    hide Look, HeaderAt, FooterAt;
    FoundIsLiteral(content, pos);
  }

  // ---------------------------------------------------------------------------------------------
  // Bytes between records
  // ---------------------------------------------------------------------------------------------

  // No header of either kind starts before position n.
  ghost predicate NoHeader(content: seq<bv8>, pos: nat, n: nat) {
    forall p: nat | pos <= p < n :: !HeaderAt(content, p, 0x02) && !HeaderAt(content, p, 0x03)
  }

  lemma {:induction false} JunkIsPassed(content: seq<bv8>, pos: nat, n: nat)
    requires pos <= n && (pos < n ==> n + 4 <= |content|) && NoHeader(content, pos, n)
    ensures var p, rest := Scan(true, content, pos), Scan(true, content, n);
            && p.frames == rest.frames && p.misaligned == n - pos + rest.misaligned && p.pos == rest.pos
    decreases n - pos
  {
    hide Look, HeaderAt, FooterAt;
    if pos < n {
      FoundIsLiteral(content, pos);
      JunkIsPassed(content, pos + 1, n);
    }
  }

  lemma RecordIsPassed(before: seq<bv8>, r: Record, rest: seq<bv8>)
    requires IsRecord(r)
    ensures var content, n := before + (RecordBytes(r) + rest), |before| + |RecordBytes(r)|;
            Scan(true, content, |before|) == Then(Turn(true, FoundOf(r), |before|), Scan(true, content, n))
  {
    hide Look, Scan, RecordBytes, IsRecord, Then, FoundOf, Advance;
    var content := before + (RecordBytes(r) + rest);
    RecordIsFound(r);
    RecordIsAligned(r);
    LookIsStable(true, RecordBytes(r), rest, 0);
    LookShifts(before, RecordBytes(r) + rest, 0);
    ScanTurns(true, content, |before|);
  }

  lemma RecordIsAligned(r: Record)
    ensures !FoundOf(r).Wait? && !FoundOf(r).Misaligned?
  {
  }

  lemma FirstRecord(records: seq<Record>)
    requires records != []
    ensures FileBytes(records) == RecordBytes(records[0]) + FileBytes(records[1..])
    ensures Payloads(records) == Turn(true, FoundOf(records[0]), 0).frames + Payloads(records[1..])
  {
  }

  lemma Regrouped(a: seq<bv8>, b: seq<bv8>, c: seq<bv8>, d: seq<bv8>)
    ensures a + (b + c) + d == a + (b + (c + d)) == (a + b) + c + d
  {
  }

  // Whole records at a position of a file.
  lemma {:induction false} RecordsArePassed(before: seq<bv8>, records: seq<Record>, after: seq<bv8>)
    requires forall r <- records :: IsRecord(r)
    ensures var content, n := before + FileBytes(records) + after, |before| + |FileBytes(records)|;
            var p, rest := Scan(true, content, |before|), Scan(true, content, n);
            p.frames == Payloads(records) + rest.frames && p.misaligned == rest.misaligned && p.pos == rest.pos
    decreases |records|
  {
    hide Scan, RecordBytes, IsRecord, FileBytes, Payloads, FoundOf, Advance;
    if records == [] {
      NoRecords();
      assert before + [] + after == before + after;
    } else {
      var r, more := records[0], FileBytes(records[1..]);
      FirstRecord(records);
      RecordIsAligned(r);
      RecordIsPassed(before, r, more + after);
      Regrouped(before, RecordBytes(r), more, after);
      RecordsArePassed(before + RecordBytes(r), records[1..], after);
    }
  }

  lemma NoRecords()
    ensures FileBytes([]) == [] && Payloads([]) == []
  {
  }

  /** Records, then bytes among which no header starts, then records: every payload before and behind these bytes is
      returned, and each of them is one misalignment. */
  lemma JunkIsSkipped(a: seq<Record>, junk: seq<bv8>, b: seq<Record>)
    requires (forall r <- a :: IsRecord(r)) && (forall r <- b :: IsRecord(r)) && a != [] && b != []
    requires var file := FileBytes(a) + junk + FileBytes(b);
             NoHeader(file, |FileBytes(a)|, |FileBytes(a)| + |junk|)
    ensures var file := FileBytes(a) + junk + FileBytes(b);
            var p := Scan(IsOldFormat(file), file, 0);
            p.frames == Payloads(a) + Payloads(b) && p.misaligned == |junk| && p.pos == |file|
  {
    hide Scan, IsRecord, IsOldFormat, HeaderAt, FileBytes, Payloads, NoHeader;
    var x, y := FileBytes(a), FileBytes(b);
    assert [] + x + (junk + y) == x + junk + y;
    RecordsArePassed([], a, junk + y);
    JunkIsCounted(x, junk, b);
    StartDecides(a, junk + y);
    assert x + (junk + y) == x + junk + y;
  }

  lemma JunkIsCounted(x: seq<bv8>, junk: seq<bv8>, b: seq<Record>)
    requires (forall r <- b :: IsRecord(r)) && b != []
    requires NoHeader(x + junk + FileBytes(b), |x|, |x| + |junk|)
    ensures var file := x + junk + FileBytes(b);
            var p := Scan(true, file, |x|);
            p.frames == Payloads(b) && p.misaligned == |junk| && p.pos == |file|
  {
    hide Scan, IsRecord, FileBytes, NoHeader, Payloads;
    RecordIsLong(b);
    JunkIsPassed(x + junk + FileBytes(b), |x|, |x| + |junk|);
    RecordsAreScanned(x + junk, b);
  }

  lemma StartDecides(a: seq<Record>, rest: seq<bv8>)
    requires a != [] && forall r <- a :: IsRecord(r)
    ensures IsOldFormat(FileBytes(a) + rest)
  {
    hide RecordBytes, IsRecord, IsOldFormat;
    assert IsRecord(a[0]);
    RecordStarts(a[0], FileBytes(a[1..]) + rest);
    assert RecordBytes(a[0]) + (FileBytes(a[1..]) + rest) == FileBytes(a) + rest;
  }

  lemma RecordIsLong(records: seq<Record>)
    requires records != [] && IsRecord(records[0])
    ensures |FileBytes(records)| >= 4
  {
  }

  // ---------------------------------------------------------------------------------------------
  // The new format
  // ---------------------------------------------------------------------------------------------

  lemma {:induction false} FramesAreCut(content: seq<bv8>, pos: nat, i: nat)
    requires pos <= |content|
    ensures var p := Scan(false, content, pos);
            && |p.frames| == (|content| - pos) / 32768 && p.misaligned == 0
            && (i < |p.frames| ==> p.frames[i] == content[pos + 32768 * i..pos + 32768 * i + 32768])
    decreases |content| - pos
  {
    if pos + 32768 <= |content| {
      FramesAreCut(content, pos + 32768, if i > 0 then i - 1 else 0);
    }
  }

  /** A file that does not start with the bytes of an old-format file is cut into frames of 32768 bytes; an
      incomplete one at the end is not returned. */
  lemma NewFormatIsCut(content: seq<bv8>, i: nat)
    requires |content| < 4 || content[0] != 0xAB || content[1] != 0xCD || content[2] != 0xEF
    ensures var p := Scan(IsOldFormat(content), content, 0);
            && |p.frames| == |content| / 32768 && p.misaligned == 0
            && (i < |p.frames| ==> p.frames[i] == content[32768 * i..32768 * i + 32768])
  {
    hide Scan, IsOldFormat;
    FormatBytes(content);
    FramesAreCut(content, 0, i);
  }
}
