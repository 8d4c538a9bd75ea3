/** From the acquisition to the new register file: what the calibration of a pedestal readout works on. */
module PedestalReadout {
  import opened Acquisition
  import opened Readout
  import opened ReadoutSafety
  import opened ReadoutResults
  import RawDataFile
  import Pedestal
  import EventEncoding
  import EventFormat
  import DelReg
  import VaregImage

  // The frames received for an address and not dropped, in order.
  function FramesOf(addresses: set<nat>, received: seq<Reply>, a: nat): seq<seq<bv8>> {
    if received == [] then [] else
      var n := |received| - 1;
      FramesOf(addresses, received[..n], a)
      + if Kept(addresses, received[n]) && received[n].address == a then [received[n].value] else []
  }

  lemma {:induction false} FlatPush(frames: seq<seq<bv8>>, frame: seq<bv8>)
    ensures RawDataFile.Flat(frames + [frame]) == RawDataFile.Flat(frames) + frame
    decreases |frames|
  {
    if frames == [] {
      assert [frame][1..] == [] && frame + [] == frame;
    } else {
      assert (frames + [frame])[1..] == frames[1..] + [frame];
      FlatPush(frames[1..], frame);
    }
  }

  lemma {:induction false} FramesAreFlat(addresses: set<nat>, received: seq<Reply>, a: nat)
    ensures RawDataFile.Flat(FramesOf(addresses, received, a)) == FramesFor(addresses, received, a)
    decreases |received|
  {
    hide Kept;
    if received != [] {
      var n := |received| - 1;
      FramesAreFlat(addresses, received[..n], a);
      var before := FramesOf(addresses, received[..n], a);
      FlatPush(before, received[n].value);
      assert before + [] == before && FramesFor(addresses, received[..n], a) + [] == RawDataFile.Flat(before);
    }
  }

  lemma {:induction false} FramesAreWhole(addresses: set<nat>, received: seq<Reply>, a: nat)
    ensures RawDataFile.WholeFrames(FramesOf(addresses, received, a))
    decreases |received|
  {
    if received != [] {
      FramesAreWhole(addresses, received[..|received| - 1], a);
    }
  }

  // Job k wrote everything it received for address a, whatever happened to other files, and its stream is over.
  ghost predicate Acquired(s: State, k: nat, a: nat) {
    && k < |s.workers| && a in s.workers[k].job.addresses && JoinCall in s.workers[k].calls
    && DataWrite(a) !in s.workers[k].failures
  }

  function FramesOfJob(w: Worker, a: nat): seq<seq<bv8>> {
    FramesOf(w.job.addresses, w.received, a)
  }

  /** The file of a finished job reads back as the frames received, in order, exactly if the first of them
      does not start like an old-format file. */
  lemma AcquiredFileIsRead(run: seq<Event>, k: nat, a: nat)
    requires Acquired(Reached(run), k, a)
    ensures var w := Reached(run).workers[k];
            && a in w.files
            && (RawDataFile.Scan(RawDataFile.IsOldFormat(w.files[a]), w.files[a], 0).frames == FramesOfJob(w, a)
                <==> !RawDataFile.IsOldFormat(w.files[a]))
  {
    hide NextState, FramesFor, FramesOf, RawDataFile.Scan, RawDataFile.IsOldFormat;
    FilesAfterTheJoin(run, k, a);
    var w := Reached(run).workers[k];
    FramesAreFlat(w.job.addresses, w.received, a);
    FramesAreWhole(w.job.addresses, w.received, a);
    RawDataFile.FrameFileIsRead(FramesOfJob(w, a));
  }

  /** If the frames received are filled with encoded events, calc_pedestal, run on the file of the job,
      takes exactly the first 8192 of these events. */
  lemma AcquiredEventsAreUsed(run: seq<Event>, k: nat, a: nat, ws: seq<seq<EventEncoding.Written>>)
    requires Acquired(Reached(run), k, a)
    requires var frames := FramesOfJob(Reached(run).workers[k], a);
             |ws| == |frames| && forall i | 0 <= i < |ws| :: Pedestal.IsWritten(frames[i], ws[i])
    ensures var w := Reached(run).workers[k];
            a in w.files
    ensures var w := Reached(run).workers[k];
            var file := w.files[a];
            var all := Pedestal.AllWritten(ws);
            !RawDataFile.IsOldFormat(file) ==>
              Pedestal.Collect(RawDataFile.Scan(RawDataFile.IsOldFormat(file), file, 0).frames, 8192)
              == Pedestal.Collected(all[..Pedestal.Shorter(8192, |all|)], false)
  {
    hide NextState, FramesOf, RawDataFile.Scan, RawDataFile.IsOldFormat, Pedestal.IsWritten, Pedestal.Collect;
    AcquiredFileIsRead(run, k, a);
    Pedestal.WrittenEventsAreUsed(FramesOfJob(Reached(run).workers[k], a), ws);
  }

  /** A file whose first frame holds an event is not taken for an old-format file. */
  lemma EventsAreNotOldFormat(frames: seq<seq<bv8>>)
    requires RawDataFile.WholeFrames(frames)
    requires frames != [] && EventFormat.Matches(frames[0], 0, EventFormat.EVENT_HEADER)
    ensures !RawDataFile.IsOldFormat(RawDataFile.Flat(frames))
  {
    var file := RawDataFile.Flat(frames);
    assert file[0] == frames[0][0] == frames[0][0..4][0] == 0x3C;
    if RawDataFile.IsOldFormat(file) {
      RawDataFile.OldFormatStarts(file);
    }
  }

  // ---------------------------------------------------------------------------------------------
  // calc_pedestal | set_delreg.py
  // ---------------------------------------------------------------------------------------------

  /** The pipe has the result of its second program, which nevertheless notices when the first one fails:
      it then gets fewer than 256 values. */
  method GenerateRegister(content: seq<bv8>, beyond: (nat, nat) -> bv8, register: VaregImage.Vareg4Asic, raw: seq<bv8>)
    returns (r: DelReg.SaveResult, ghost code: nat, ghost medians2: seq<int>)
    requires register.Valid()
    modifies register.asic0, register.asic1, register.asic2, register.asic3
    ensures var frames := RawDataFile.Scan(RawDataFile.IsOldFormat(content), content, 0).frames;
            Pedestal.Reports(code, medians2, Pedestal.Collect(frames, 8192))
    ensures r.BadPedestals? <==> code != 0
    ensures r.Saved? <==> code == 0 && VaregImage.Check(raw).Upload?
    ensures r.Saved? ==> exists asics, out :: DelReg.IsCalibration(raw, medians2, asics, out, r.text)
  {
    hide Pedestal.Collect, RawDataFile.Scan, RawDataFile.IsOldFormat, DelReg.IsCalibration;
    var exit, printed := Pedestal.CalcPedestal(content, beyond);
    code, medians2 := exit, printed;
    r := DelReg.SetDelReg(register, printed, raw);
  }
}
