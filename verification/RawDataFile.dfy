/** The frame scanner of include/raw2root/raw_data_file.hh over a file that may grow between calls,
    with reads that never block. */
module RawDataFile {

  const FRAME_SIZE := 32768
  const HK_BODY := 8372
  const HK_RECORD := 8376
  const DATA_RECORD := 32780
  const HK_HEADER: seq<bv8> := [0xAB, 0xCD, 0xEF, 0x03]
  const DATA_HEADER: seq<bv8> := [0xAB, 0xCD, 0xEF, 0x02]
  const FOOTER: seq<bv8> := [0xFF, 0xFF, 0x01, 0x23]

  // ---------------------------------------------------------------------------------------------
  // What stands at a position
  // ---------------------------------------------------------------------------------------------

  // The constructor looks at three of the first four bytes; a shorter file reads as zeros.
  predicate IsOldFormat(content: seq<bv8>) {
    |content| >= 4 && content[..3] == HK_HEADER[..3]
  }

  datatype Found = Wait | HkRecord | Misaligned | Frame(payload: seq<bv8>)

  // One turn of the loop of GetNextFrame; Wait covers every read that finds too few bytes.
  function Look(oldFormat: bool, content: seq<bv8>, pos: nat): Found {
    if !oldFormat then
      if pos + FRAME_SIZE > |content| then Wait else Frame(content[pos..pos + FRAME_SIZE])
    else if pos + 4 > |content| then Wait
    else if content[pos..pos + 4] == HK_HEADER then
      if pos + HK_RECORD > |content| then Wait else HkRecord
    else if content[pos..pos + 4] == DATA_HEADER then
      if pos + DATA_RECORD > |content| then Wait
      else if content[pos + 32776..pos + DATA_RECORD] != FOOTER then Misaligned
      else Frame(content[pos + 4..pos + 4 + FRAME_SIZE])
    else Misaligned
  }

  function Advance(oldFormat: bool, f: Found): nat {
    match f
    case Wait => 0
    case HkRecord => HK_RECORD
    case Misaligned => 1
    case Frame(_) => if oldFormat then DATA_RECORD else FRAME_SIZE
  }

  lemma FoundFits(oldFormat: bool, content: seq<bv8>, pos: nat)
    requires !Look(oldFormat, content, pos).Wait?
    ensures pos < pos + Advance(oldFormat, Look(oldFormat, content, pos)) <= |content|
  {
  }

  // ---------------------------------------------------------------------------------------------
  // One call, and a whole pass
  // ---------------------------------------------------------------------------------------------

  datatype Call = Call(found: Found, pos: nat, misaligned: nat, hk: nat)

  // GetNextFrame from pos: it ends with a frame or waiting.
  function NextFrame(oldFormat: bool, content: seq<bv8>, pos: nat): (c: Call)
    ensures c.found.Wait? || (c.found.Frame? && |c.found.payload| == FRAME_SIZE)
    ensures c.pos >= pos
    decreases |content| - pos
  {
    var f := Look(oldFormat, content, pos);
    match f
    case Wait => Call(Wait, pos, 0, 0)
    case Frame(_) => Call(f, pos + Advance(oldFormat, f), 0, 0)
    case _ =>
      FoundFits(oldFormat, content, pos);
      var rest := NextFrame(oldFormat, content, pos + Advance(oldFormat, f));
      rest.(misaligned := rest.misaligned + (if f.Misaligned? then 1 else 0),
            hk := rest.hk + if f.HkRecord? then 1 else 0)
  }

  // What a look at a position leaves in the frame buffer: a data record is read into it as far as its payload
  // is there, whatever follows.
  function Touched(oldFormat: bool, content: seq<bv8>, pos: nat, frame: seq<bv8>): seq<bv8> {
    if !oldFormat then
      if pos + FRAME_SIZE > |content| then frame else content[pos..pos + FRAME_SIZE]
    else if pos + 4 + FRAME_SIZE <= |content| && content[pos..pos + 4] == DATA_HEADER
    then content[pos + 4..pos + 4 + FRAME_SIZE] else frame
  }

  // The frame buffer after GetNextFrame from pos.
  function Buffered(oldFormat: bool, content: seq<bv8>, pos: nat, frame: seq<bv8>): seq<bv8>
    decreases |content| - pos
  {
    var f := Look(oldFormat, content, pos);
    var touched := Touched(oldFormat, content, pos, frame);
    if f.Wait? || f.Frame? then touched
    else
      FoundFits(oldFormat, content, pos);
      Buffered(oldFormat, content, pos + Advance(oldFormat, f), touched)
  }

  datatype Pass = Pass(frames: seq<seq<bv8>>, misaligned: nat, hk: nat, pos: nat)

  // Calls until one returns false.
  function Scan(oldFormat: bool, content: seq<bv8>, pos: nat): Pass
    decreases |content| - pos
  {
    var f := Look(oldFormat, content, pos);
    if f.Wait? then Pass([], 0, 0, pos)
    else
      FoundFits(oldFormat, content, pos);
      var rest := Scan(oldFormat, content, pos + Advance(oldFormat, f));
      Pass((if f.Frame? then [f.payload] else []) + rest.frames,
           rest.misaligned + (if f.Misaligned? then 1 else 0),
           rest.hk + (if f.HkRecord? then 1 else 0), rest.pos)
  }

  function Then(a: Pass, b: Pass): Pass {
    Pass(a.frames + b.frames, a.misaligned + b.misaligned, a.hk + b.hk, b.pos)
  }

  // ---------------------------------------------------------------------------------------------
  // Accounting
  // ---------------------------------------------------------------------------------------------

  /** In the old format every byte passed over belongs to a skipped housekeeping record, to a returned
      frame's record, or is one counted misalignment. */
  lemma {:induction false} BytesAreAccounted(content: seq<bv8>, pos: nat)
    requires pos <= |content|
    ensures var p := Scan(true, content, pos);
            p.pos == pos + 8376 * p.hk + 32780 * |p.frames| + p.misaligned <= |content|
    decreases |content| - pos
  {
    hide Look;
    var f := Look(true, content, pos);
    if !f.Wait? {
      FoundFits(true, content, pos);
      BytesAreAccounted(content, pos + Advance(true, f));
    }
  }

  lemma FramesAreBounded(content: seq<bv8>)
    ensures |Scan(true, content, 0).frames| <= |content| / 32780
  {
    hide Scan;
    BytesAreAccounted(content, 0);
  }

  // ---------------------------------------------------------------------------------------------
  // Growing files
  // ---------------------------------------------------------------------------------------------

  lemma LookIsStable(oldFormat: bool, content: seq<bv8>, more: seq<bv8>, pos: nat)
    requires !Look(oldFormat, content, pos).Wait?
    ensures Look(oldFormat, content + more, pos) == Look(oldFormat, content, pos)
  {
    var all := content + more;
    if !oldFormat {
      assert all[pos..pos + FRAME_SIZE] == content[pos..pos + FRAME_SIZE];
    } else {
      assert all[pos..pos + 4] == content[pos..pos + 4];
      if content[pos..pos + 4] == DATA_HEADER {
        assert all[pos + 32776..pos + DATA_RECORD] == content[pos + 32776..pos + DATA_RECORD];
        assert all[pos + 4..pos + 4 + FRAME_SIZE] == content[pos + 4..pos + 4 + FRAME_SIZE];
      }
    }
  }

  // The pass made of a single call.
  function AsPass(c: Call): Pass {
    Pass(if c.found.Frame? then [c.found.payload] else [], c.misaligned, c.hk, c.pos)
  }

  lemma {:induction false} WaitingMeansDone(oldFormat: bool, content: seq<bv8>, pos: nat)
    requires NextFrame(oldFormat, content, pos).found.Wait?
    ensures var c := NextFrame(oldFormat, content, pos); Scan(oldFormat, content, c.pos) == Pass([], 0, 0, c.pos)
    decreases |content| - pos
  {
    hide Look;
    var f := Look(oldFormat, content, pos);
    if f.HkRecord? || f.Misaligned? {
      FoundFits(oldFormat, content, pos);
      WaitingMeansDone(oldFormat, content, pos + Advance(oldFormat, f));
    }
  }

  // ---------------------------------------------------------------------------------------------
  // Runs that mix appends and calls
  // ---------------------------------------------------------------------------------------------

  datatype Action = Append(more: seq<bv8>) | Get

  datatype Reader = Reader(content: seq<bv8>, done: Pass)

  function Act(oldFormat: bool, r: Reader, a: Action): Reader {
    match a
    case Append(more) => r.(content := r.content + more)
    case Get => r.(done := Then(r.done, AsPass(NextFrame(oldFormat, r.content, r.done.pos))))
  }

  function Run(oldFormat: bool, r: Reader, actions: seq<Action>): Reader {
    if actions == [] then r
    else Act(oldFormat, Run(oldFormat, r, actions[..|actions| - 1]), actions[|actions| - 1])
  }

  // What was read so far and what a pass would still find make up the single pass, whatever else is
  // appended.
  ghost predicate Agrees(oldFormat: bool, content: seq<bv8>, done: Pass) {
    Then(done, Scan(oldFormat, content, done.pos)) == Scan(oldFormat, content, 0)
  }

  ghost predicate Keeps(oldFormat: bool, r: Reader) {
    forall more: seq<bv8> :: Agrees(oldFormat, r.content + more, r.done)
  }

  lemma ThenAssociates(a: Pass, b: Pass, c: Pass)
    ensures Then(Then(a, b), c) == Then(a, Then(b, c))
  {
  }

  lemma AppendKeeps(oldFormat: bool, r: Reader, b: seq<bv8>)
    requires Keeps(oldFormat, r)
    ensures Keeps(oldFormat, Act(oldFormat, r, Append(b)))
  {
    hide Agrees;
    var s := Act(oldFormat, r, Append(b));
    forall more: seq<bv8> ensures Agrees(oldFormat, s.content + more, s.done) {
      assert r.content + b + more == r.content + (b + more);
    }
  }

  lemma GetKeeps(oldFormat: bool, r: Reader)
    requires Keeps(oldFormat, r)
    ensures Keeps(oldFormat, Act(oldFormat, r, Get))
  {
    var c := NextFrame(oldFormat, r.content, r.done.pos);
    var s := Act(oldFormat, r, Get);
    forall more: seq<bv8> ensures Agrees(oldFormat, s.content + more, s.done) {
      GetAgrees(oldFormat, r.content, more, r.done);
    }
  }

  lemma GetAgrees(oldFormat: bool, content: seq<bv8>, more: seq<bv8>, done: Pass)
    requires Agrees(oldFormat, content + more, done)
    ensures Agrees(oldFormat, content + more, Then(done, AsPass(NextFrame(oldFormat, content, done.pos))))
  {
    hide Scan, NextFrame, AsPass;
    var c := AsPass(NextFrame(oldFormat, content, done.pos));
    CallOnGrownFile(oldFormat, content, more, done.pos);
    ThenAssociates(done, c, Scan(oldFormat, content + more, c.pos));
  }

  // What one turn of the loop contributes.
  function Turn(oldFormat: bool, f: Found, pos: nat): Pass {
    Pass(if f.Frame? then [f.payload] else [], if f.Misaligned? then 1 else 0, if f.HkRecord? then 1 else 0,
         pos + Advance(oldFormat, f))
  }

  lemma ScanTurns(oldFormat: bool, content: seq<bv8>, pos: nat)
    ensures var f := Look(oldFormat, content, pos);
            !f.Wait? ==> var t := Turn(oldFormat, f, pos);
                         Scan(oldFormat, content, pos) == Then(t, Scan(oldFormat, content, t.pos))
  {
    hide Look, Advance;
  }

  lemma CallTurns(oldFormat: bool, content: seq<bv8>, pos: nat)
    ensures var f := Look(oldFormat, content, pos);
            f.HkRecord? || f.Misaligned? ==>
              var t := Turn(oldFormat, f, pos);
              AsPass(NextFrame(oldFormat, content, pos)) == Then(t, AsPass(NextFrame(oldFormat, content, t.pos)))
  {
    hide Look, Advance;
  }

  lemma CallEnds(oldFormat: bool, content: seq<bv8>, pos: nat)
    ensures var f := Look(oldFormat, content, pos);
            f.Frame? || f.Wait? ==>
              AsPass(NextFrame(oldFormat, content, pos)) == Turn(oldFormat, f, pos)
  {
    hide Look;
  }

  lemma NothingFirst(p: Pass, pos: nat)
    ensures Then(Turn(true, Wait, pos), p) == Then(Turn(false, Wait, pos), p) == p
  {
  }

  lemma {:induction false} CallOnGrownFile(oldFormat: bool, content: seq<bv8>, more: seq<bv8>, pos: nat)
    ensures var c := AsPass(NextFrame(oldFormat, content, pos));
            Scan(oldFormat, content + more, pos) == Then(c, Scan(oldFormat, content + more, c.pos))
    decreases |content| - pos
  {
    hide Look, Scan, NextFrame, Then, AsPass;
    var all := content + more;
    var f := Look(oldFormat, content, pos);
    if f.Wait? {
      CallEnds(oldFormat, content, pos);
      NothingFirst(Scan(oldFormat, all, pos), pos);
    } else {
      FoundFits(oldFormat, content, pos);
      LookIsStable(oldFormat, content, more, pos);
      ScanTurns(oldFormat, all, pos);
      if f.Frame? {
        CallEnds(oldFormat, content, pos);
      } else {
        var t := Turn(oldFormat, f, pos);
        CallTurns(oldFormat, content, pos);
        CallOnGrownFile(oldFormat, content, more, t.pos);
        var c := AsPass(NextFrame(oldFormat, content, t.pos));
        ThenAssociates(t, c, Scan(oldFormat, all, c.pos));
        assert Then(t, c).pos == c.pos by { ThenEnds(t, c); }
      }
    }
  }

  lemma ThenEnds(a: Pass, b: Pass)
    ensures Then(a, b).pos == b.pos
  {
  }

  const START := Pass([], 0, 0, 0)

  lemma {:induction false} RunKeeps(oldFormat: bool, initial: seq<bv8>, actions: seq<Action>)
    ensures Keeps(oldFormat, Run(oldFormat, Reader(initial, START), actions))
    decreases |actions|
  {
    hide Scan, NextFrame;
    var r := Reader(initial, START);
    if actions != [] {
      var before := Run(oldFormat, r, actions[..|actions| - 1]);
      RunKeeps(oldFormat, initial, actions[..|actions| - 1]);
      match actions[|actions| - 1]
      case Append(b) => AppendKeeps(oldFormat, before, b);
      case Get => GetKeeps(oldFormat, before);
    }
  }

  /** Reading while the file grows returns, call by call, the frames that a single pass over the final
      file returns first; once a call waits, it has returned all of them and counted the same
      misalignments. */
  lemma IncrementalIsOneShot(oldFormat: bool, initial: seq<bv8>, actions: seq<Action>)
    ensures var r := Run(oldFormat, Reader(initial, START), actions);
            var whole := Scan(oldFormat, r.content, 0);
            && r.done.frames <= whole.frames
            && r.done.misaligned <= whole.misaligned
            && (NextFrame(oldFormat, r.content, r.done.pos).found.Wait? ==>
                  Act(oldFormat, r, Get).done == whole)
  {
    hide Scan, NextFrame;
    var r := Run(oldFormat, Reader(initial, START), actions);
    RunKeeps(oldFormat, initial, actions);
    assert r.content + [] == r.content;
    assert Agrees(oldFormat, r.content, r.done);
    var c := NextFrame(oldFormat, r.content, r.done.pos);
    if c.found.Wait? {
      WaitingMeansDone(oldFormat, r.content, r.done.pos);
      GetAgrees(oldFormat, r.content, [], r.done);
    }
  }

  /** Successive calls without growth are the single pass. */
  lemma ScanByCalls(oldFormat: bool, content: seq<bv8>, pos: nat)
    ensures var c := NextFrame(oldFormat, content, pos);
            Scan(oldFormat, content, pos).frames
            == if c.found.Frame? then [c.found.payload] + Scan(oldFormat, content, c.pos).frames else []
  {
    assert content + [] == content;
    CallOnGrownFile(oldFormat, content, [], pos);
    if NextFrame(oldFormat, content, pos).found.Wait? {
      WaitingMeansDone(oldFormat, content, pos);
    }
  }

  function Appended(actions: seq<Action>): seq<bv8> {
    if actions == [] then []
    else
      Appended(actions[..|actions| - 1])
      + match actions[|actions| - 1] case Append(more) => more case Get => []
  }

  lemma {:induction false} RunAppends(oldFormat: bool, r: Reader, actions: seq<Action>)
    ensures Run(oldFormat, r, actions).content == r.content + Appended(actions)
    decreases |actions|
  {
    if actions != [] {
      RunAppends(oldFormat, r, actions[..|actions| - 1]);
    }
  }

  /** The format is settled by the bytes present when the file is opened: it is that of the final file
      unless an old-format file was opened with fewer than four bytes in it. */
  lemma FormatIsSettled(initial: seq<bv8>, more: seq<bv8>)
    ensures IsOldFormat(initial) == IsOldFormat(initial + more)
            <==> |initial| >= 4 || !IsOldFormat(initial + more)
  {
    if |initial| >= 4 {
      assert (initial + more)[..3] == initial[..3];
    }
  }

  /** Opened three bytes into its first header, an old-format file is taken for a new-format one. */
  lemma ThreeBytesAreTooFew()
    ensures !IsOldFormat(HK_HEADER[..3]) && IsOldFormat(HK_HEADER[..3] + HK_HEADER[3..])
  {
    assert HK_HEADER[..3] + HK_HEADER[3..] == HK_HEADER;
  }

  /** If the first four bytes were there when the file was opened, or the file is not in the old format,
      then however it grows between calls, they return what a single pass over the final file returns,
      and once one of them waits, all of it. */
  lemma GrowingFileIsRead(initial: seq<bv8>, actions: seq<Action>)
    requires |initial| >= 4 || !IsOldFormat(initial + Appended(actions))
    ensures var r := Run(IsOldFormat(initial), Reader(initial, START), actions);
            var final := initial + Appended(actions);
            var whole := Scan(IsOldFormat(final), final, 0);
            && r.content == final
            && r.done.frames <= whole.frames
            && r.done.misaligned <= whole.misaligned
            && (NextFrame(IsOldFormat(final), final, r.done.pos).found.Wait? ==>
                  Act(IsOldFormat(final), r, Get).done == whole)
  {
    hide Scan, NextFrame, Act, IsOldFormat;
    RunAppends(IsOldFormat(initial), Reader(initial, START), actions);
    FormatIsSettled(initial, Appended(actions));
    IncrementalIsOneShot(IsOldFormat(initial), initial, actions);
  }

  // ---------------------------------------------------------------------------------------------
  // Files of whole records
  // ---------------------------------------------------------------------------------------------

  datatype Record = Hk(body: seq<bv8>) | Data(payload: seq<bv8>, time: seq<bv8>)

  predicate IsRecord(r: Record) {
    match r
    case Hk(body) => |body| == 8372
    case Data(payload, time) => |payload| == 32768 && |time| == 4
  }

  function RecordBytes(r: Record): seq<bv8> {
    match r
    case Hk(body) => [0xAB, 0xCD, 0xEF, 0x03] + body
    case Data(payload, time) => [0xAB, 0xCD, 0xEF, 0x02] + payload + time + [0xFF, 0xFF, 0x01, 0x23]
  }

  function FileBytes(records: seq<Record>): seq<bv8> {
    if records == [] then [] else RecordBytes(records[0]) + FileBytes(records[1..])
  }

  function Payloads(records: seq<Record>): seq<seq<bv8>> {
    if records == [] then []
    else (match records[0] case Hk(_) => [] case Data(payload, _) => [payload]) + Payloads(records[1..])
  }

  function FoundOf(r: Record): Found {
    match r
    case Hk(_) => HkRecord
    case Data(payload, _) => Frame(payload)
  }

  lemma RecordIsFound(r: Record)
    requires IsRecord(r)
    ensures Look(true, RecordBytes(r), 0) == FoundOf(r)
    ensures |RecordBytes(r)| == Advance(true, FoundOf(r))
  {
    var b := RecordBytes(r);
    match r
    case Hk(body) => assert b[0..4] == HK_HEADER;
    case Data(payload, time) =>
      assert b[0..4] == DATA_HEADER && b[0..4][3] == 0x02;
      assert b[4..4 + FRAME_SIZE] == payload;
      assert b[32776..DATA_RECORD] == FOOTER;
  }

  // Looking does not depend on what stands before the position.
  lemma LookShifts(before: seq<bv8>, content: seq<bv8>, pos: nat)
    ensures Look(true, before + content, |before| + pos) == Look(true, content, pos)
  {
    var all, n := before + content, |before|;
    if pos + 4 <= |content| {
      assert all[n + pos..n + pos + 4] == content[pos..pos + 4];
      if pos + DATA_RECORD <= |content| {
        assert all[n + pos + 32776..n + pos + DATA_RECORD] == content[pos + 32776..pos + DATA_RECORD];
        assert all[n + pos + 4..n + pos + 4 + FRAME_SIZE] == content[pos + 4..pos + 4 + FRAME_SIZE];
      }
    }
  }

  lemma {:induction false} RecordsAreScanned(before: seq<bv8>, records: seq<Record>)
    requires forall r <- records :: IsRecord(r)
    ensures var p := Scan(true, before + FileBytes(records), |before|);
            && p.frames == Payloads(records) && p.misaligned == 0
            && p.pos == |before + FileBytes(records)|
    decreases |records|
  {
    hide Look, Advance, RecordBytes, IsRecord;
    if records == [] {
      NothingLeft(before);
    } else {
      var r := records[0];
      var rest := FileBytes(records[1..]);
      RecordIsFound(r);
      LookIsStable(true, RecordBytes(r), rest, 0);
      LookShifts(before, FileBytes(records), 0);
      FoundFits(true, before + FileBytes(records), |before|);
      assert before + FileBytes(records) == before + RecordBytes(r) + rest;
      RecordsAreScanned(before + RecordBytes(r), records[1..]);
    }
  }

  lemma NothingLeft(content: seq<bv8>)
    ensures Look(true, content + [], |content|).Wait?
  {
  }

  /** A file made of whole records is recognised, and a pass over it returns every payload, in order, without a
      misalignment, whatever the payloads look like inside. */
  lemma RecordFileIsRead(records: seq<Record>)
    requires forall r <- records :: IsRecord(r)
    ensures var file := FileBytes(records);
            var p := Scan(IsOldFormat(file), file, 0);
            && (IsOldFormat(file) <==> records != [])
            && p.frames == Payloads(records) && p.misaligned == 0 && p.pos == |file|
  {
    hide IsRecord;
    var file := FileBytes(records);
    RecordsAreScanned([], records);
    assert [] + file == file;
    if records != [] {
      assert IsRecord(records[0]);
      RecordStarts(records[0], FileBytes(records[1..]));
    }
  }

  lemma RecordStarts(r: Record, rest: seq<bv8>)
    requires IsRecord(r)
    ensures IsOldFormat(RecordBytes(r) + rest)
  {
    var file := RecordBytes(r) + rest;
    assert file[..3] == RecordBytes(r)[..3] == HK_HEADER[..3];
  }

  /** The format is decided by the first three bytes, if there are four. */
  lemma FormatBytes(content: seq<bv8>)
    ensures IsOldFormat(content)
            <==> |content| >= 4 && content[0] == 0xAB && content[1] == 0xCD && content[2] == 0xEF
  {
    if |content| >= 4 {
      assert content[..3] == [content[0], content[1], content[2]];
      assert HK_HEADER[..3] == [0xAB, 0xCD, 0xEF];
    }
  }

  lemma OldFormatStarts(content: seq<bv8>)
    requires IsOldFormat(content)
    ensures content[0] == 0xAB
  {
    assert content[..3][0] == HK_HEADER[..3][0];
  }

  // ---------------------------------------------------------------------------------------------
  // Files of whole frames
  // ---------------------------------------------------------------------------------------------

  function Flat(frames: seq<seq<bv8>>): seq<bv8> {
    if frames == [] then [] else frames[0] + Flat(frames[1..])
  }

  ghost predicate WholeFrames(frames: seq<seq<bv8>>) {
    forall i | 0 <= i < |frames| :: |frames[i]| == FRAME_SIZE
  }

  lemma {:induction false} FlatLength(frames: seq<seq<bv8>>)
    requires WholeFrames(frames)
    ensures |Flat(frames)| == FRAME_SIZE * |frames|
  {
    if frames != [] {
      FlatLength(frames[1..]);
    }
  }

  lemma {:induction false} FramesAreScanned(before: seq<bv8>, frames: seq<seq<bv8>>)
    requires WholeFrames(frames)
    ensures Scan(false, before + Flat(frames), |before|).frames == frames
    decreases |frames|
  {
    var all := before + Flat(frames);
    if frames != [] {
      var next := before + frames[0];
      assert all == next + Flat(frames[1..]);
      assert all[|before|..|before| + FRAME_SIZE] == frames[0];
      FramesAreScanned(next, frames[1..]);
    }
  }

  /** A file of nothing but whole frames is read back as these frames exactly if it is not taken for an
      old-format file. */
  lemma FrameFileIsRead(frames: seq<seq<bv8>>)
    requires WholeFrames(frames)
    ensures var file := Flat(frames);
            Scan(IsOldFormat(file), file, 0).frames == frames <==> !IsOldFormat(file)
  {
    hide Scan;
    var file := Flat(frames);
    FlatLength(frames);
    if IsOldFormat(file) {
      FramesAreBounded(file);
    } else {
      assert [] + file == file;
      FramesAreScanned([], frames);
    }
  }

  // ---------------------------------------------------------------------------------------------
  // The reader itself
  // ---------------------------------------------------------------------------------------------

  class RawDataFile {
    // The file on disk, which others may extend, and the stream position in it.
    var content: seq<bv8>
    var pos: nat
    var isOldFormat: bool
    var frame: seq<bv8>
    var misalignmentCount: nat

    constructor (initial: seq<bv8>)
      ensures content == initial && pos == 0 && misalignmentCount == 0
      ensures isOldFormat == IsOldFormat(initial)
      ensures isOldFormat
              <==> |initial| >= 4 && initial[0] == 0xAB && initial[1] == 0xCD && initial[2] == 0xEF
    {
      content, pos, misalignmentCount := initial, 0, 0;
      frame := seq(FRAME_SIZE, _ => 0 as bv8);
      isOldFormat := false;
      new;
      var ok, first4Bytes := ReadData(4);
      if ok {
        assert first4Bytes[..3] == initial[..3];
      } else {
        first4Bytes := [0, 0, 0, 0];
      }
      isOldFormat := && first4Bytes[0] == HK_HEADER[0] && first4Bytes[1] == HK_HEADER[1]
                       && first4Bytes[2] == HK_HEADER[2];
      pos := 0;
    }

    // Another process appends to the file.
    method Append(more: seq<bv8>)
      modifies this`content
      ensures content == old(content) + more
    {
      content := content + more;
    }

    method ReadData(length: nat) returns (ok: bool, data: seq<bv8>)
      modifies this`pos
      ensures ok == (old(pos) + length <= |content|)
      ensures if ok then pos == old(pos) + length && data == content[old(pos)..pos]
              else pos == old(pos) && data == []
    {
      if pos + length > |content| { return false, []; }
      data := content[pos..pos + length];
      pos := pos + length;
      ok := true;
    }

    /** The next frame, or false when the file does not hold it completely yet; the position is then
        back at the start of the incomplete record. */
    method GetNextFrame() returns (ok: bool)
      modifies this`pos, this`frame, this`misalignmentCount
      ensures Called(NextFrame(isOldFormat, content, old(pos)), ok, pos,
                     misalignmentCount - old(misalignmentCount))
      ensures ok ==> frame == NextFrame(isOldFormat, content, old(pos)).found.payload
      ensures frame == Buffered(isOldFormat, content, old(pos), old(frame))
    {
      hide Look, NextFrame, Called, Touched, Buffered;
      var data: seq<bv8>;
      if !isOldFormat {
        NewFormatCall(content, pos, frame);
        ok, data := ReadData(FRAME_SIZE);
        if ok { frame := data; }
        return;
      }
      ghost var c, count, b := NextFrame(true, content, pos), misalignmentCount, Buffered(true, content, pos, frame);
      CallPending(content, pos);
      while true
        invariant Pending(content, c, pos, misalignmentCount - count)
        invariant Buffered(true, content, pos, frame) == b
        decreases |content| - pos
      {
        hide Pending;
        PendingLooks(content, c, pos, misalignmentCount - count);
        BufferedLooks(content, pos, frame);
        var headerPos := pos;
        var got, header := ReadData(4);
        if !got { LookWaits(content, headerPos, frame); return false; }
        if header == HK_HEADER {
          LookHk(content, headerPos, frame);
          var body: seq<bv8>;
          got, body := ReadData(HK_BODY);
          if !got { pos := headerPos; return false; }
          continue;
        }
        if header == DATA_HEADER {
          LookData(content, headerPos, frame);
          got, data := ReadData(FRAME_SIZE);
          if !got { pos := headerPos; return false; }
          frame := data;
          var unixtime: seq<bv8>;
          got, unixtime := ReadData(4);
          if !got { pos := headerPos; return false; }
          var footer: seq<bv8>;
          got, footer := ReadData(4);
          if !got { pos := headerPos; return false; }
          if footer != FOOTER {
            pos := headerPos + 1;
            misalignmentCount := misalignmentCount + 1;
            continue;
          }
          return true;
        }
        LookElse(content, headerPos, frame);
        pos := headerPos + 1;
        misalignmentCount := misalignmentCount + 1;
      }
    }
  }

  ghost predicate Called(c: Call, ok: bool, pos: nat, misaligned: int) {
    ok == c.found.Frame? && pos == c.pos && misaligned == c.misaligned
  }

  // Part of the way through call c: what is left is the call from the present position.
  ghost predicate Pending(content: seq<bv8>, c: Call, pos: nat, misaligned: int) {
    var d := NextFrame(true, content, pos);
    c.found == d.found && c.pos == d.pos && c.misaligned == misaligned + d.misaligned
  }

  lemma CallPending(content: seq<bv8>, pos: nat)
    ensures Pending(content, NextFrame(true, content, pos), pos, 0)
  {
  }

  lemma PendingLooks(content: seq<bv8>, c: Call, pos: nat, misaligned: int)
    requires Pending(content, c, pos, misaligned)
    ensures var f := Look(true, content, pos);
            match f
            case Wait => Called(c, false, pos, misaligned)
            case Frame(p) => Called(c, true, pos + DATA_RECORD, misaligned) && c.found.payload == p
            case HkRecord => Pending(content, c, pos + HK_RECORD, misaligned)
            case Misaligned => Pending(content, c, pos + 1, misaligned + 1)
  {
    hide Look;
  }

  lemma BufferedLooks(content: seq<bv8>, pos: nat, frame: seq<bv8>)
    ensures var f := Look(true, content, pos);
            var touched := Touched(true, content, pos, frame);
            Buffered(true, content, pos, frame)
            == match f
               case Wait => touched
               case Frame(_) => touched
               case HkRecord => Buffered(true, content, pos + HK_RECORD, touched)
               case Misaligned => Buffered(true, content, pos + 1, touched)
  {
    hide Look, Touched;
  }

  lemma NewFormatCall(content: seq<bv8>, pos: nat, frame: seq<bv8>)
    ensures var ok := pos + FRAME_SIZE <= |content|;
            var c := NextFrame(false, content, pos);
            && Called(c, ok, if ok then pos + FRAME_SIZE else pos, 0)
            && (ok ==> c.found == Frame(content[pos..pos + FRAME_SIZE]))
            && Buffered(false, content, pos, frame) == if ok then content[pos..pos + FRAME_SIZE] else frame
  {
  }

  lemma LookWaits(content: seq<bv8>, pos: nat, frame: seq<bv8>)
    requires pos + 4 > |content|
    ensures Look(true, content, pos) == Wait && Touched(true, content, pos, frame) == frame
  {
  }

  lemma LookHk(content: seq<bv8>, pos: nat, frame: seq<bv8>)
    requires pos + 4 <= |content| && content[pos..pos + 4] == HK_HEADER
    ensures Touched(true, content, pos, frame) == frame
    ensures Look(true, content, pos) == if pos + HK_RECORD > |content| then Wait else HkRecord
  {
    assert content[pos..pos + 4][3] == 0x03;
  }

  lemma LookData(content: seq<bv8>, pos: nat, frame: seq<bv8>)
    requires pos + 4 <= |content| && content[pos..pos + 4] == DATA_HEADER
    ensures Touched(true, content, pos, frame)
            == if pos + 4 + FRAME_SIZE <= |content| then content[pos + 4..pos + 4 + FRAME_SIZE] else frame
    ensures Look(true, content, pos)
            == if pos + DATA_RECORD > |content| then Wait
               else if content[pos + 32776..pos + DATA_RECORD] != FOOTER then Misaligned
               else Frame(content[pos + 4..pos + 4 + FRAME_SIZE])
  {
    assert content[pos..pos + 4][3] == 0x02;
  }

  lemma LookElse(content: seq<bv8>, pos: nat, frame: seq<bv8>)
    requires pos + 4 <= |content| && content[pos..pos + 4] != HK_HEADER && content[pos..pos + 4] != DATA_HEADER
    ensures Look(true, content, pos) == Misaligned && Touched(true, content, pos, frame) == frame
  {
  }
}
