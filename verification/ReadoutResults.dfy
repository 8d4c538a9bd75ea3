/** What holds in every run of the shell and its background acquisitions. */
module ReadoutResults {
  import opened ReadoutStatus
  import opened Acquisition
  import opened Readout
  import opened ReadoutSafety

  function Reached(run: seq<Event>): State {
    After(Init(), run)
  }

  lemma ReachedFits(run: seq<Event>)
    ensures Inv(Reached(run))
  {
    hide Inv, NextState;
    InitFits();
    RunKeeps(Init(), run);
  }

  ghost predicate Live(s: State, k: nat) {
    k < |s.workers| && !s.workers[k].pc.Exited?
  }

  // ---------------------------------------------------------------------------------------------
  // Threads and commands
  // ---------------------------------------------------------------------------------------------

  /** There is never more than one acquisition worker; a joinable handle is never assigned to; and when
      the process ends, by exit or at the end of input, every worker has ended. */
  lemma OneWorker(run: seq<Event>, j: nat, k: nat)
    ensures var s := Reached(run);
            && !s.shell.Terminated?
            && (Live(s, j) && Live(s, k) ==> j == k)
            && (s.shell.Gone? ==> !Live(s, k) && s.handle.None?)
  {
    hide RecordFits, FreshRecord, WorkerInv, NextState;
    ReachedFits(run);
  }

  // The commands that can run beside an acquisition; readout, pedcalib_readout, exit and quit do not run, but are
  // looked at.
  predicate RunsBeside(name: string) {
    name in {"help", "sleep", "set", "get", "show", "list_devices", "list_detectors", "list_routers",
             "reconnect_device"}
  }

  lemma SafeLeafRunsBeside(name: string)
    requires Safe(name) && IsLeaf(name)
    ensures RunsBeside(name)
  {
  }

  /** While an acquisition is active no command runs but the nine above, however deep in scripts, and scripts
      are never nested deeper than ten. */
  lemma UnsafeCommandsRunAlone(run: seq<Event>)
    ensures var s := Reached(run);
            && (s.shell.Running? ==> s.shell.tokens != [])
            && (s.shell.Running? && !RunsBeside(s.shell.tokens[0]) ==>
                  !s.flags.active && forall k: nat | Live(s, k) :: Ended(s.workers[k].pc))
            && (s.shell.Running? || s.shell.Script? ==> s.shell.depth <= 10)
  {
    hide RecordFits, FreshRecord, WorkerInv, NextState, Safe, IsLeaf, RunsBeside;
    ReachedFits(run);
    var s := Reached(run);
    if s.shell.Running? && s.flags.active {
      SafeLeafRunsBeside(s.shell.tokens[0]);
    }
  }

  /** The configuration commands are not among the nine. */
  lemma ConfigurationRunsAlone(run: seq<Event>)
    ensures var s := Reached(run);
            s.shell.Running? && s.shell.tokens != [] && s.flags.active ==>
              s.shell.tokens[0] !in {"connect", "add_detector", "add_router", "remove_detector", "remove_router",
                                     "remove_device", "remove_all_devices", "configure_fpga", "set_vareg",
                                     "set_linkspeed"}
  {
    hide NextState, Live, Reached;
    UnsafeCommandsRunAlone(run);
  }

  /** The active flag is set exactly from the start of a job to the worker's last store; starting the next
      job waits only for a worker that has made that store. */
  lemma ActiveMeansWorking(run: seq<Event>, k: nat)
    ensures var s := Reached(run);
            && (Live(s, k) && !Ended(s.workers[k].pc) ==> s.flags.active)
            && (s.flags.active && !Spawning(s.shell) ==>
                  exists j: nat :: Live(s, j) && !Ended(s.workers[j].pc))
            && (s.shell.Starting? && s.shell.phase.JoinWait? ==>
                  s.handle.Some? && s.handle.value < |s.workers| && Ended(s.workers[s.handle.value].pc))
  {
    hide RecordFits, FreshRecord, WorkerInv, NextState;
    ReachedFits(run);
    var s := Reached(run);
    if s.flags.active && !Spawning(s.shell) {
      assert Live(s, |s.workers| - 1);
    }
    if Live(s, k) {
      OnlyTheLastRuns(s, k);
    }
  }

  /** A job that has cleared the active flag has left its result in the record, where it stays until the
      next job resets the record. */
  lemma ResultIsLeft(run: seq<Event>)
    ensures var s := Reached(run);
            s.workers != [] && !s.flags.active && !Taken(s.shell) ==>
              var w := s.workers[|s.workers| - 1];
              s.status.flags.hasResult && s.status.flags.succeeded == w.verdict.success
              && s.status.flags.stopRequested == w.verdict.stopSeen && s.status.jobName == JobName(w.job.kind)
  {
    hide FreshRecord, WorkerInv, NextState, CountersFit;
    ReachedFits(run);
  }

  // ---------------------------------------------------------------------------------------------
  // One job
  // ---------------------------------------------------------------------------------------------

  /** A job that ended never started the stream, or it started, stopped and cancelled it and joined its
      reader, each exactly once and in this order, and then calibrated on its own files exactly if it is a pedestal
      readout that succeeded so far. */
  lemma CallsOfAJob(run: seq<Event>, k: nat)
    ensures var s := Reached(run);
            k < |s.workers| ==>
              var w := s.workers[k];
              && (w.pc.Exited? ==>
                    || w.calls == []
                    || w.calls == STREAM_CALLS
                    || w.calls == STREAM_CALLS + [CalibrateCall(w.job.prefix)])
              && (forall c <- w.calls | c.CalibrateCall? ::
                    c.prefix == w.job.prefix && w.job.kind.Pedcalib? && ReadoutSucceeded(w))
              && (w.pc.Exited? && StartCall in w.calls ==> w.reader.ReaderDone?)
              && (w.pc.Exited? ==>
                    ((exists c <- w.calls :: c.CalibrateCall?) <==> ReadoutSucceeded(w) && w.job.kind.Pedcalib?))
  {
    hide RecordFits, FreshRecord, NextState;
    ReachedFits(run);
    var s := Reached(run);
    if k < |s.workers| {
      JobCalls(s.workers[k]);
    }
  }

  lemma JobCalls(w: Worker)
    requires WorkerInv(w)
    ensures w.pc.Exited? ==>
              w.calls == [] || w.calls == STREAM_CALLS || w.calls == STREAM_CALLS + [CalibrateCall(w.job.prefix)]
    ensures forall c <- w.calls | c.CalibrateCall? ::
              c.prefix == w.job.prefix && w.job.kind.Pedcalib? && ReadoutSucceeded(w)
    ensures w.pc.Exited? && StartCall in w.calls ==> w.reader.ReaderDone?
    ensures w.pc.Exited? ==>
              ((exists c <- w.calls :: c.CalibrateCall?) <==> ReadoutSucceeded(w) && w.job.kind.Pedcalib?)
  {
    assert IsCalibrated(w) ==> w.calls[4].CalibrateCall?;
    hide FilesFit, FilesAreTheStream;
  }

  /** A job reports success exactly when its stream was started, the server accepted the stop, no failure
      was recorded, no stop was pending at the final check, and the calibration, if it is one, ended well.
      FailuresAreSteps says what is recorded; a stream that closed early without being noticed is not. */
  lemma SuccessMeans(run: seq<Event>, k: nat)
    ensures var s := Reached(run);
            k < |s.workers| && HasResult(s.workers[k].pc) ==>
              var w := s.workers[k];
              (w.verdict.success <==>
                 && STREAM_CALLS <= w.calls && w.verdict.stopOk && w.failures == {} && !w.verdict.halted
                 && (w.job.kind.Pedcalib? ==> w.verdict.calibrated))
  {
    hide RecordFits, FreshRecord, NextState;
    ReachedFits(run);
    var s := Reached(run);
    if k < |s.workers| && HasResult(s.workers[k].pc) {
      JobSuccess(s.workers[k]);
    }
  }

  // The step that records the failure f for worker k.
  predicate Records(s: State, e: Event, k: nat, f: Failure) {
    && k < |s.workers| && !s.shell.Gone? && !s.shell.Terminated?
    && match e
       case Work(j, _) => j == k && f.EarlyClose? && NoticesClose(s.workers[k])
       case Read(j, answer) => j == k && ReaderFails(s.workers[k], answer, f)
       case _ => false
  }

  ghost predicate HasFailed(s: State, k: nat, f: Failure) {
    k < |s.workers| && f in s.workers[k].failures
  }

  lemma ShellRecordsNothing(s: State, e: Event, k: nat, f: Failure)
    requires !e.Work? && !e.Read?
    ensures HasFailed(NextState(s, e), k, f) <==> HasFailed(s, k, f)
  {
    hide Turn;
  }

  lemma StepRecords(s: State, e: Event, k: nat, f: Failure)
    ensures HasFailed(NextState(s, e), k, f) <==> HasFailed(s, k, f) || Records(s, e, k, f)
  {
    hide NextWorker, NextReader, WorkerStatus, ReaderStatus, NextShell, NextSignal;
    match e
    case Work(j, answer) =>
      if j < |s.workers| {
        WorkerFailures(s.workers[j], s.flags.stopRequested, s.flags.interrupted, s.status.filePrefix, answer, f);
      }
    case Read(j, answer) =>
      if j < |s.workers| {
        ReaderFailures(s.workers[j], s.flags.stopRequested, s.flags.interrupted, answer, f);
      }
    case _ =>
      ShellRecordsNothing(s, e, k, f);
  }

  /** A failure of job k is recorded exactly by a step that finds it: a frame or housekeeping write that
      fails, a stream that ends with an error, or the worker looking for the reader, in its loop, and finding
      it done. */
  lemma {:induction false} FailuresAreSteps(run: seq<Event>, k: nat, f: Failure)
    ensures HasFailed(Reached(run), k, f)
            <==> exists i | 0 <= i < |run| :: Records(Reached(run[..i]), run[i], k, f)
    decreases |run|
  {
    hide NextState, Records;
    if run == [] {
      assert Reached(run) == Init();
    } else {
      var n := |run| - 1;
      var before := run[..n];
      FailuresAreSteps(before, k, f);
      StepRecords(Reached(before), run[n], k, f);
      assert forall i | 0 <= i < n :: before[..i] == run[..i] && before[i] == run[i];
    }
  }

  lemma JobSuccess(w: Worker)
    requires WorkerInv(w) && HasResult(w.pc)
    ensures w.verdict.success <==>
              && STREAM_CALLS <= w.calls && w.verdict.stopOk && w.failures == {} && !w.verdict.halted
              && (w.job.kind.Pedcalib? ==> w.verdict.calibrated)
  {
    hide FilesFit, FilesAreTheStream;
  }

  /** Every detector file that no write failed on holds, frame by frame in stream order, what was received
      for its address, less the frame in the reader's hand; once the reader is done the file, the local
      counter and the record agree. */
  lemma FilesHoldTheStream(run: seq<Event>, k: nat, a: nat)
    ensures var s := Reached(run);
            k < |s.workers| && a in s.workers[k].job.addresses && !s.workers[k].reader.NotStarted? ==>
              var w := s.workers[k];
              && a in w.files && a in w.counters
              && (DataWrite(a) !in w.failures ==>
                    && w.files[a] + InHand(w.reader, a) == FramesFor(w.job.addresses, w.received, a)
                    && |w.files[a]| == 32768 * (w.counters[a] + if w.reader == CountLocal(a) then 1 else 0))
              && (k == |s.workers| - 1 && !Taken(s.shell) ==>
                    && a in s.status.counters
                    && w.counters[a] == s.status.counters[a] + if w.reader == CountShared(a) then 1 else 0)
  {
    hide FreshRecord, NextState, Controlled;
    ReachedFits(run);
  }

  lemma FilesAfterTheJoin(run: seq<Event>, k: nat, a: nat)
    ensures var s := Reached(run);
            k < |s.workers| && a in s.workers[k].job.addresses && JoinCall in s.workers[k].calls
            && DataWrite(a) !in s.workers[k].failures ==>
              var w := s.workers[k];
              && a in w.files && a in w.counters
              && w.files[a] == FramesFor(w.job.addresses, w.received, a)
              && |w.files[a]| == 32768 * w.counters[a]
              && (k == |s.workers| - 1 && !Taken(s.shell) ==>
                    a in s.status.counters && s.status.counters[a] == w.counters[a])
  {
    hide RecordFits, FreshRecord, NextState;
    ReachedFits(run);
    FilesHoldTheStream(run, k, a);
    var s := Reached(run);
    if k < |s.workers| && JoinCall in s.workers[k].calls {
      JoinedReaderIsDone(s.workers[k]);
    }
  }

  lemma JoinedReaderIsDone(w: Worker)
    requires WorkerInv(w) && JoinCall in w.calls
    ensures w.reader.ReaderDone?
  {
    hide FilesFit, FilesAreTheStream;
  }

  // ---------------------------------------------------------------------------------------------
  // Stop requests
  // ---------------------------------------------------------------------------------------------

  // The worker still has its final check before it.
  predicate BeforeCheck(pc: WorkerPc) {
    !InEnd(pc) && !pc.FinalInterrupted? && !pc.FinalResult?
  }

  // The stop flag was read for the report.
  predicate Reported(pc: WorkerPc) {
    pc.FinishStatus? || HasResult(pc)
  }

  // A stop was recorded in time: the job does not succeed, and will report the stop.
  ghost predicate Doomed(w: Worker, stop: bool) {
    && !w.verdict.success && !w.pc.FinalInterrupted? && !w.pc.FinalResult? && !w.pc.Calibrating?
    && if Reported(w.pc) then w.verdict.stopSeen else stop
  }

  lemma SetupStaysDoomed(w: Worker, stop: bool, answer: Answer)
    requires InSetup(w.pc) && Doomed(w, stop)
    ensures Doomed(SetupStep(w, answer), stop)
  {
  }

  lemma LoopStaysDoomed(w: Worker, stop: bool, intr: bool, answer: Answer)
    requires InLoop(w.pc) && Doomed(w, stop)
    ensures Doomed(LoopStep(w, stop, intr, answer), stop)
  {
  }

  lemma ShutdownStaysDoomed(w: Worker, stop: bool, answer: Answer)
    requires InShutdown(w.pc) && Doomed(w, stop)
    ensures Doomed(ShutdownStep(w, answer), stop)
  {
  }

  lemma FinalStaysDoomed(w: Worker, stop: bool, intr: bool)
    requires InFinal(w.pc) && Doomed(w, stop)
    ensures Doomed(FinalStep(w, stop, intr), stop)
  {
  }

  lemma EndStaysDoomed(w: Worker, stop: bool, prefix: string, answer: Answer)
    requires InEnd(w.pc) && Doomed(w, stop)
    ensures Doomed(EndStep(w, stop, prefix, answer), stop)
  {
  }

  lemma WorkerStaysDoomed(w: Worker, stop: bool, intr: bool, prefix: string, answer: Answer)
    requires Doomed(w, stop)
    ensures Doomed(NextWorker(w, stop, intr, prefix, answer), stop)
  {
    hide Doomed, SetupStep, LoopStep, ShutdownStep, FinalStep, EndStep;
    if InSetup(w.pc) {
      SetupStaysDoomed(w, stop, answer);
    } else if InLoop(w.pc) {
      LoopStaysDoomed(w, stop, intr, answer);
    } else if InShutdown(w.pc) {
      ShutdownStaysDoomed(w, stop, answer);
    } else if InFinal(w.pc) {
      FinalStaysDoomed(w, stop, intr);
    } else {
      EndStaysDoomed(w, stop, prefix, answer);
    }
  }

  lemma ReaderStaysDoomed(w: Worker, stop: bool, intr: bool, answer: Answer)
    requires Doomed(w, stop)
    ensures Doomed(NextReader(w, stop, intr, answer), stop)
  {
    hide NextReader;
    ReaderLeavesWorker(w, stop, intr, answer);
  }

  /** A stop recorded while a job is active stays recorded until the job has cleared the active flag. */
  lemma StopStays(s: State, e: Event)
    requires Inv(s) && s.flags.active && s.flags.stopRequested
    ensures NextState(s, e).flags.stopRequested
  {
    hide RecordFits, FreshRecord, WorkerInv, Turn, WorkerStatus, ReaderStatus, NextWorker, NextReader;
  }

  // Worker k was told to stop before its final check.
  ghost predicate StopNoted(s: State, k: nat) {
    k < |s.workers| && Doomed(s.workers[k], s.flags.stopRequested)
  }

  // What a step does to worker k and to the stop flag.
  lemma StepOnWorker(s: State, e: Event, k: nat)
    requires k < |s.workers|
    ensures var t := NextState(s, e);
            && k < |t.workers|
            && (t.workers[k] == s.workers[k]
                || (e.Work? && t.workers[k] == NextWorker(s.workers[k], s.flags.stopRequested, s.flags.interrupted,
                                                          s.status.filePrefix, e.answer))
                || (e.Read? && t.workers[k] == NextReader(s.workers[k], s.flags.stopRequested, s.flags.interrupted,
                                                          e.answer)))
            && (e.Work? || e.Read? ==> t.flags.stopRequested == s.flags.stopRequested)
  {
    hide Turn, WorkerStatus, ReaderStatus, NextWorker, NextReader;
  }

  lemma RunningMeansActive(s: State, k: nat)
    requires Inv(s) && k < |s.workers| && !Ended(s.workers[k].pc)
    ensures s.flags.active
  {
    hide Inv, RecordFits, WorkerInv, FreshRecord;
    RecordIsTheWorkers(s, k);
  }

  lemma StopStaysNoted(s: State, e: Event, k: nat)
    requires Inv(s) && StopNoted(s, k)
    ensures StopNoted(NextState(s, e), k)
  {
    hide Inv, NextState, NextWorker, NextReader, Doomed;
    var w, stop, t := s.workers[k], s.flags.stopRequested, NextState(s, e);
    StepOnWorker(s, e, k);
    if e.Work? {
      WorkerStaysDoomed(w, stop, s.flags.interrupted, s.status.filePrefix, e.answer);
    } else if e.Read? {
      ReaderStaysDoomed(w, stop, s.flags.interrupted, e.answer);
    } else {
      if stop && !Ended(w.pc) {
        RunningMeansActive(s, k);
        StopStays(s, e);
      }
      DoomedBy(w, stop, t.flags.stopRequested);
    }
  }

  lemma DoomedBy(w: Worker, stop: bool, later: bool)
    requires Doomed(w, stop)
    requires stop && !Ended(w.pc) ==> later
    ensures Doomed(w, later)
  {
  }

  lemma {:induction false} StopRemainsNoted(s: State, run: seq<Event>, k: nat)
    requires Inv(s) && StopNoted(s, k)
    ensures StopNoted(After(s, run), k)
    decreases |run|
  {
    hide Inv, NextState, StopNoted;
    if run != [] {
      StopRemainsNoted(s, run[..|run| - 1], k);
      RunKeeps(s, run[..|run| - 1]);
      StopStaysNoted(After(s, run[..|run| - 1]), run[|run| - 1], k);
    }
  }

  /** A stop recorded before a job's final check is never lost, whatever the shell and the signal handlers
      do meanwhile: the job does not succeed, it reports the stop, and no calibration runs. */
  lemma StopIsHonoured(before: seq<Event>, run: seq<Event>, k: nat)
    requires var s := Reached(before);
             k < |s.workers| && s.flags.stopRequested && BeforeCheck(s.workers[k].pc)
    ensures var t := After(Reached(before), run);
            && k < |t.workers| && !t.workers[k].verdict.success && !t.workers[k].pc.Calibrating?
            && (HasResult(t.workers[k].pc) ==> t.workers[k].verdict.stopSeen)
            && (HasResult(t.workers[k].pc) && k == |t.workers| - 1 && !Taken(t.shell) ==>
                  !t.status.flags.succeeded && t.status.flags.stopRequested)
  {
    hide NextState, WorkerInv, CountersFit, FreshRecord, Doomed;
    var s := Reached(before);
    ReachedFits(before);
    DoomedBeforeCheck(s.workers[k]);
    StopRemainsNoted(s, run, k);
    RunKeeps(s, run);
    DoomedFails(After(s, run).workers[k], After(s, run).flags.stopRequested);
  }

  lemma DoomedBeforeCheck(w: Worker)
    requires WorkerInv(w) && BeforeCheck(w.pc)
    ensures Doomed(w, true)
  {
    hide FilesFit, FilesAreTheStream;
  }

  lemma DoomedFails(w: Worker, stop: bool)
    requires Doomed(w, stop)
    ensures !w.verdict.success && !w.pc.Calibrating? && (HasResult(w.pc) ==> w.verdict.stopSeen)
  {
  }

  // The verdict is complete: the flag was loaded for the report.
  ghost predicate Settled(s: State, k: nat, v: Verdict) {
    k < |s.workers| && Reported(s.workers[k].pc) && s.workers[k].verdict == v
  }

  lemma SettledWorkerRests(w: Worker, stop: bool, intr: bool, prefix: string, answer: Answer)
    requires Reported(w.pc)
    ensures var v := NextWorker(w, stop, intr, prefix, answer); Reported(v.pc) && v.verdict == w.verdict
  {
    hide SetupStep, LoopStep, ShutdownStep, FinalStep;
  }

  lemma {:induction false} VerdictStays(s: State, run: seq<Event>, k: nat, v: Verdict)
    requires Settled(s, k, v)
    ensures Settled(After(s, run), k, v)
    decreases |run|
  {
    hide NextState, NextWorker, NextReader, Reported;
    if run != [] {
      var n := |run| - 1;
      VerdictStays(s, run[..n], k, v);
      var t, e := After(s, run[..n]), run[n];
      var w, stop, intr := t.workers[k], t.flags.stopRequested, t.flags.interrupted;
      StepOnWorker(t, e, k);
      if e.Work? {
        SettledWorkerRests(w, stop, intr, t.status.filePrefix, e.answer);
      } else if e.Read? {
        ReaderLeavesWorker(w, stop, intr, e.answer);
      }
    }
  }

  lemma LoadingSettles(s: State, k: nat, answer: Answer)
    requires Inv(s) && k < |s.workers| && s.workers[k].pc.LoadStop?
    ensures Settled(NextState(s, Work(k, answer)), k, s.workers[k].verdict.(stopSeen := s.flags.stopRequested))
  {
    hide Inv, SetupStep, LoopStep, ShutdownStep, FinalStep;
    WorkIsDone(s, answer, k);
    StepOnWorker(s, Work(k, answer), k);
  }

  /** The record of a job reports exactly its success and, independently, whether the stop flag was set when
      the worker loaded it for the report: a stop after the final check leaves both in the record. */
  lemma ReportIsExact(s: State, k: nat, answer: Answer, run: seq<Event>)
    requires Inv(s) && k < |s.workers| && s.workers[k].pc.LoadStop?
    ensures var t := After(NextState(s, Work(k, answer)), run);
            && k < |t.workers| && t.workers[k].verdict == s.workers[k].verdict.(stopSeen := s.flags.stopRequested)
            && (HasResult(t.workers[k].pc) && k == |t.workers| - 1 && !Taken(t.shell) ==>
                  && t.status.flags.hasResult
                  && (t.status.flags.succeeded <==> s.workers[k].verdict.success)
                  && (t.status.flags.stopRequested <==> s.flags.stopRequested))
  {
    hide NextState, WorkerInv, CountersFit, FreshRecord;
    LoadingSettles(s, k, answer);
    VerdictStays(NextState(s, Work(k, answer)), run, k, s.workers[k].verdict.(stopSeen := s.flags.stopRequested));
    StepKeeps(s, Work(k, answer));
    RunKeeps(NextState(s, Work(k, answer)), run);
  }

  // The steps that may set the stop flag: `readout stop`, exit, and a handler that found a job active.
  predicate Cause(s: State, e: Event) {
    || (e.SignalStore? && s.storing > 0)
    || (e.Shell? && (s.shell.StoreStop? || s.shell.QuitStop?))
  }

  ghost predicate NoCause(s: State, run: seq<Event>) {
    forall i | 0 <= i < |run| :: !Cause(After(s, run[..i]), run[i])
  }

  lemma OnlyCausesStop(s: State, e: Event)
    requires !s.flags.stopRequested && !Cause(s, e)
    ensures !NextState(s, e).flags.stopRequested
  {
    hide Turn, WorkerStatus, ReaderStatus, NextWorker, NextReader;
  }

  /** Starting a job clears the stop flag, and it stays clear until the user, exit or a handler that found
      a job active asks to stop. */
  lemma {:induction false} NoStopWithoutCause(s: State, input: Input, run: seq<Event>)
    requires s.shell.Starting? && s.shell.phase.ClearStop?
    requires NoCause(NextState(s, Shell(input)), run)
    ensures !After(NextState(s, Shell(input)), run).flags.stopRequested
    decreases |run|
  {
    hide NextState, Cause;
    var t := NextState(s, Shell(input));
    if run == [] {
      ClearingClears(s, input);
    } else {
      var n := |run| - 1;
      assert forall i | 0 <= i < n :: run[..n][..i] == run[..i];
      NoStopWithoutCause(s, input, run[..n]);
      OnlyCausesStop(After(t, run[..n]), run[n]);
    }
  }

  lemma ClearingClears(s: State, input: Input)
    requires s.shell.Starting? && s.shell.phase.ClearStop?
    ensures !NextState(s, Shell(input)).flags.stopRequested
  {
  }

  // The steps that ask to stop the job there is: `readout stop`, exit, and a handler that finds it active.
  predicate Request(s: State, e: Event) {
    || (e.SignalLoad? && s.loading > 0 && s.flags.active)
    || (e.Shell? && (s.shell.StoreStop? || s.shell.QuitStop?))
  }

  ghost predicate NoRequest(s: State, run: seq<Event>) {
    forall i | 0 <= i < |run| :: !Request(After(s, run[..i]), run[i])
  }

  lemma OnlyRequestsStore(s: State, e: Event)
    requires !s.flags.stopRequested && s.storing == 0 && !Request(s, e)
    ensures !NextState(s, e).flags.stopRequested && NextState(s, e).storing == 0
  {
    hide Turn, WorkerStatus, ReaderStatus, NextWorker, NextReader;
  }

  lemma {:induction false} CleanStaysClean(s: State, run: seq<Event>)
    requires !s.flags.stopRequested && s.storing == 0 && NoRequest(s, run)
    ensures !After(s, run).flags.stopRequested && After(s, run).storing == 0
    decreases |run|
  {
    hide NextState, Request;
    if run != [] {
      var n := |run| - 1;
      assert forall i | 0 <= i < n :: run[..n][..i] == run[..i];
      CleanStaysClean(s, run[..n]);
      OnlyRequestsStore(After(s, run[..n]), run[n]);
    }
  }

  lemma ClearingKeepsHandlers(s: State, input: Input)
    requires s.shell.Starting? && s.shell.phase.ClearStop?
    ensures NextState(s, Shell(input)).storing == s.storing
  {
  }

  // The shell sets the active flag and creates the worker, then the handler stores its request.
  const LATE_STORE := [Shell(NotReady), Shell(NotReady), SignalStore]

  lemma LateStoreSteps(s: State)
    requires Inv(s) && s.shell.Starting? && s.shell.phase.SetActive? && s.storing > 0
    ensures var a := NextState(s, Shell(NotReady));
            var b := NextState(a, Shell(NotReady));
            var c := NextState(b, SignalStore);
            && a.shell.Starting? && a.shell.phase.SpawnWorker? && b.shell.Return?
            && c.flags.stopRequested && c.workers == s.workers + [NewWorker(s.shell.phase.job)]
  {
    hide WorkerInv, RecordFits, FreshRecord;
  }

  lemma LateStoreStops(s: State)
    requires Inv(s) && s.shell.Starting? && s.shell.phase.SetActive? && s.storing > 0
    ensures NoRequest(s, LATE_STORE)
    ensures var t := After(s, LATE_STORE);
            t.flags.stopRequested && t.workers == s.workers + [NewWorker(s.shell.phase.job)]
  {
    hide Inv, NextState;
    LateStoreSteps(s);
    assert LATE_STORE[..0] == [] && LATE_STORE[..1] == [Shell(NotReady)];
    assert LATE_STORE[..2] == [Shell(NotReady), Shell(NotReady)];
    assert LATE_STORE[..1][..0] == [] && LATE_STORE[..2][..1] == LATE_STORE[..1];
    assert After(s, LATE_STORE[..0]) == s;
    assert After(s, LATE_STORE[..1]) == NextState(s, Shell(NotReady));
    assert After(s, LATE_STORE[..2]) == NextState(NextState(s, Shell(NotReady)), Shell(NotReady));
  }

  /** When a job is started, no run without a new request sets the stop flag exactly if no handler that found
      an earlier job active has still to store its request. (FlagsReachNewJobs of ReadoutStarts.dfy takes the
      interrupt flag into account.) */
  lemma OldRequestsReachNewJobs(s: State, input: Input)
    requires Inv(s) && s.shell.Starting? && s.shell.phase.ClearStop?
    ensures var t := NextState(s, Shell(input));
            s.storing == 0 <==> forall run | NoRequest(t, run) :: !After(t, run).flags.stopRequested
  {
    hide Inv, NextState, NoRequest, After;
    var t := NextState(s, Shell(input));
    ClearingClears(s, input);
    ClearingKeepsHandlers(s, input);
    StepKeeps(s, Shell(input));
    if s.storing == 0 {
      forall run | NoRequest(t, run) ensures !After(t, run).flags.stopRequested {
        CleanStaysClean(t, run);
      }
    } else {
      ClearingLeadsOn(s, input);
      LateStoreStops(t);
    }
  }

  lemma ClearingLeadsOn(s: State, input: Input)
    requires s.shell.Starting? && s.shell.phase.ClearStop?
    ensures var t := NextState(s, Shell(input)); t.shell.Starting? && t.shell.phase.SetActive?
  {
  }

  /** A handler stores a stop request exactly when it finds a job active. */
  lemma HandlersStopActiveJobs(s: State)
    requires s.loading > 0 && Inv(s) && !s.shell.Gone?
    ensures var t := NextState(s, SignalLoad);
            && (s.flags.active ==> t.storing == s.storing + 1 && NextState(t, SignalStore).flags.stopRequested)
            && (!s.flags.active ==> t == s.(loading := s.loading - 1))
  {
    hide Inv;
    NotTerminated(s);
  }

  // Steps of the other threads and of the handlers.
  ghost predicate Others(run: seq<Event>) {
    forall i | 0 <= i < |run| :: !run[i].Shell?
  }

  lemma {:induction false} OthersKeepShell(s: State, run: seq<Event>)
    requires Others(run)
    ensures After(s, run).shell == s.shell
    decreases |run|
  {
    hide NextState;
    if run != [] {
      OthersKeepShell(s, run[..|run| - 1]);
      OtherKeepsShell(After(s, run[..|run| - 1]), run[|run| - 1]);
    }
  }

  lemma OtherKeepsShell(s: State, e: Event)
    requires !e.Shell?
    ensures NextState(s, e).shell == s.shell
  {
    hide NextWorker, NextReader, WorkerStatus, ReaderStatus;
  }

  lemma StopIsDispatched(s: State, tokens: seq<string>, depth: nat, input: Input)
    requires s.shell == Dispatch(tokens, depth) && depth <= MAX_DEPTH
    requires |tokens| == 2 && IsAcquisition(tokens[0]) && tokens[1] == "stop"
    ensures NextState(s, Shell(input)) == s.(shell := CheckStop(depth))
  {
    AcquisitionsAreSafe(tokens[0]);
    assert tokens[0] != "" && tokens[1] != "status" by {
      assert tokens[1][1] == 't' && tokens[1][2] == 'o';
    }
    assert OnDispatch(s.flags.active, tokens, depth, input) == CheckStop(depth);
  }

  lemma CheckingStop(s: State, depth: nat, input: Input)
    requires s.shell == CheckStop(depth)
    ensures NextState(s, Shell(input)) == s.(shell := if s.flags.active then StoreStop(depth) else Return(false, depth))
  {
  }

  lemma StoringStop(s: State, depth: nat, input: Input)
    requires s.shell == StoreStop(depth)
    ensures NextState(s, Shell(input)) == s.(flags := Stopping(s.flags), shell := Return(true, depth))
  {
  }

  /** `readout stop` and `pedcalib_readout stop`, typed or in a script and whatever the other threads do in
      between: if a job is active when the shell looks, the stop flag is set, even if the job has cleared
      the active flag by then; if none is, the command fails and changes nothing. */
  lemma StopCommandStops(s: State, tokens: seq<string>, depth: nat, before: seq<Event>, between: seq<Event>,
                         after: seq<Event>, a: Input, b: Input, c: Input)
    requires s.shell == Dispatch(tokens, depth) && depth <= MAX_DEPTH
    requires |tokens| == 2 && IsAcquisition(tokens[0]) && tokens[1] == "stop"
    requires Others(before) && Others(between) && Others(after)
    ensures var atCheck := After(NextState(After(s, before), Shell(a)), between);
            var atStore := After(NextState(atCheck, Shell(b)), after);
            && atCheck.shell == CheckStop(depth)
            && (if atCheck.flags.active then
                  NextState(atStore, Shell(c))
                  == atStore.(flags := Stopping(atStore.flags), shell := Return(true, depth))
                else
                  NextState(atCheck, Shell(b)) == atCheck.(shell := Return(false, depth)))
  {
    hide NextState, IsAcquisition;
    OthersKeepShell(s, before);
    StopIsDispatched(After(s, before), tokens, depth, a);
    var asked := NextState(After(s, before), Shell(a));
    OthersKeepShell(asked, between);
    var atCheck := After(asked, between);
    CheckingStop(atCheck, depth, b);
    if atCheck.flags.active {
      OthersKeepShell(NextState(atCheck, Shell(b)), after);
      StoringStop(After(NextState(atCheck, Shell(b)), after), depth, c);
    }
  }

  lemma AcquisitionsAreSafe(name: string)
    requires IsAcquisition(name)
    ensures Safe(name) && name != ""
  {
  }

  // ---------------------------------------------------------------------------------------------
  // Failing for no reason on record
  // ---------------------------------------------------------------------------------------------

  // The step of worker k's final check that finds a flag set.
  predicate HaltsAt(s: State, e: Event, k: nat) {
    && k < |s.workers| && !s.shell.Gone? && !s.shell.Terminated? && e.Work? && e.worker == k
    && Halts(s.workers[k], s.flags.stopRequested, s.flags.interrupted)
  }

  ghost predicate IsHalted(s: State, k: nat) {
    k < |s.workers| && s.workers[k].verdict.halted
  }

  lemma StepHalts(s: State, e: Event, k: nat)
    ensures IsHalted(NextState(s, e), k) <==> IsHalted(s, k) || HaltsAt(s, e, k)
  {
    hide NextWorker, NextReader, WorkerStatus, ReaderStatus, NextShell, NextSignal, Halts;
    match e
    case Work(j, answer) =>
      if j < |s.workers| {
        WorkerHalts(s.workers[j], s.flags.stopRequested, s.flags.interrupted, s.status.filePrefix, answer);
      }
    case Read(j, answer) =>
      if j < |s.workers| {
        ReaderLeavesWorker(s.workers[j], s.flags.stopRequested, s.flags.interrupted, answer);
      }
    case _ =>
      ShellHaltsNothing(s, e, k);
  }

  lemma ShellHaltsNothing(s: State, e: Event, k: nat)
    requires !e.Work? && !e.Read?
    ensures IsHalted(NextState(s, e), k) <==> IsHalted(s, k)
  {
    hide Turn;
  }

  lemma {:induction false} HaltsAreSteps(run: seq<Event>, k: nat)
    ensures IsHalted(Reached(run), k)
            <==> exists i | 0 <= i < |run| :: HaltsAt(Reached(run[..i]), run[i], k)
    decreases |run|
  {
    hide NextState, HaltsAt;
    if run == [] {
      assert Reached(run) == Init();
    } else {
      var n := |run| - 1;
      var before := run[..n];
      HaltsAreSteps(before, k);
      StepHalts(Reached(before), run[n], k);
      assert forall i | 0 <= i < n :: before[..i] == run[..i] && before[i] == run[i];
    }
  }

  // The final check of worker k finds the interrupt flag set.
  predicate InterruptHalts(s: State, e: Event, k: nat) {
    HaltsAt(s, e, k) && s.workers[k].pc.FinalInterrupted?
  }

  ghost predicate Interrupted(run: seq<Event>, k: nat) {
    exists i | 0 <= i < |run| :: InterruptHalts(Reached(run[..i]), run[i], k)
  }

  lemma {:induction false} AfterAppends(s: State, a: seq<Event>, b: seq<Event>)
    ensures After(s, a + b) == After(After(s, a), b)
    decreases |b|
  {
    hide NextState;
    if b == [] {
      assert a + b == a;
    } else {
      var n := |b| - 1;
      assert (a + b)[..|a| + n] == a + b[..n];
      AfterAppends(s, a, b[..n]);
    }
  }

  // A check that finds the stop flag set is reported.
  lemma HaltByStopIsSeen(run: seq<Event>, i: nat, k: nat)
    requires i < |run| && HaltsAt(Reached(run[..i]), run[i], k)
    requires Reached(run[..i]).workers[k].pc.FinalStop?
    ensures var s := Reached(run);
            k < |s.workers| && (HasResult(s.workers[k].pc) ==> s.workers[k].verdict.stopSeen)
  {
    hide NextState, After;
    StopIsHonoured(run[..i], run[i..], k);
    AfterAppends(Init(), run[..i], run[i..]);
    assert run[..i] + run[i..] == run;
  }

  /** A job halts without reporting a stop exactly if its final check found the interrupt flag, but not the
      stop flag, set, and no stop came before the report either. */
  lemma HaltedWithoutStop(run: seq<Event>, k: nat)
    ensures var s := Reached(run);
            k < |s.workers| && HasResult(s.workers[k].pc) && !s.workers[k].verdict.stopSeen ==>
              (s.workers[k].verdict.halted <==> Interrupted(run, k))
  {
    hide NextState, After, Reached, HasResult;
    var s := Reached(run);
    HaltsAreSteps(run, k);
    if k < |s.workers| && HasResult(s.workers[k].pc) && !s.workers[k].verdict.stopSeen && s.workers[k].verdict.halted {
      var i :| 0 <= i < |run| && HaltsAt(Reached(run[..i]), run[i], k);
      if Reached(run[..i]).workers[k].pc.FinalStop? {
        HaltByStopIsSeen(run, i, k);
      }
      assert InterruptHalts(Reached(run[..i]), run[i], k);
    }
  }

  // Nothing on record accounts for a failure of the job.
  ghost predicate Blameless(w: Worker) {
    && STREAM_CALLS <= w.calls && w.verdict.stopOk && w.failures == {} && !w.verdict.stopSeen
    && (IsCalibrated(w) ==> w.verdict.calibrated)
  }

  /** A job for whose failure nothing on record accounts failed exactly if it was interrupted at its final
      check: `readout status` then calls a job that was interrupted a failed one. */
  lemma FailureWithoutReason(run: seq<Event>, k: nat)
    ensures var s := Reached(run);
            k < |s.workers| && HasResult(s.workers[k].pc) && Blameless(s.workers[k]) ==>
              (!s.workers[k].verdict.success <==> Interrupted(run, k))
  {
    hide NextState, Interrupted, RecordFits, FreshRecord;
    var s := Reached(run);
    HaltedWithoutStop(run, k);
    ReachedFits(run);
    if k < |s.workers| && HasResult(s.workers[k].pc) && Blameless(s.workers[k]) {
      BlamelessMeansHalted(s.workers[k]);
    }
  }

  lemma BlamelessMeansHalted(w: Worker)
    requires WorkerInv(w) && HasResult(w.pc) && Blameless(w)
    ensures !w.verdict.success <==> w.verdict.halted
  {
    hide FilesFit, FilesAreTheStream;
  }

  // ---------------------------------------------------------------------------------------------
  // A stopped job ends
  // ---------------------------------------------------------------------------------------------

  // The most steps a worker takes to its end once the stop flag is set.
  function Left(pc: WorkerPc): nat {
    match pc
    case OpenFiles => 22
    case ShareOutputs => 21
    case WriteLog => 20
    case StartStream => 19
    case SpawnReader => 18
    case MarkStarted => 17
    case LoopInterrupted => 16
    case LoopReader => 15
    case Loop => 14
    case LoopStop => 13
    case StopStream => 12
    case CancelStream => 11
    case JoinReader => 10
    case FinalStop => 9
    case FinalInterrupted => 8
    case FinalResult => 7
    case AfterReadout => 6
    case Calibrating => 5
    case LoadStop => 4
    case FinishStatus => 3
    case ClearActive => 2
    case Exiting => 1
    case Exited => 0
  }

  predicate Waiting(w: Worker) {
    w.pc.Exited? || (w.pc.JoinReader? && !w.reader.ReaderDone?)
  }

  lemma SetupStepsDown(w: Worker, answer: Answer)
    requires InSetup(w.pc) && !Waiting(w)
    ensures Left(SetupStep(w, answer).pc) < Left(w.pc)
  {
  }

  lemma LoopStepsDown(w: Worker, stop: bool, intr: bool, answer: Answer)
    requires InLoop(w.pc) && !Waiting(w) && stop
    ensures Left(LoopStep(w, stop, intr, answer).pc) < Left(w.pc)
  {
  }

  lemma ShutdownStepsDown(w: Worker, answer: Answer)
    requires InShutdown(w.pc) && !Waiting(w)
    ensures Left(ShutdownStep(w, answer).pc) < Left(w.pc)
  {
  }

  lemma FinalStepsDown(w: Worker, stop: bool, intr: bool)
    requires InFinal(w.pc) && !Waiting(w)
    ensures Left(FinalStep(w, stop, intr).pc) < Left(w.pc)
  {
  }

  lemma EndStepsDown(w: Worker, stop: bool, prefix: string, answer: Answer)
    requires InEnd(w.pc) && !Waiting(w)
    ensures Left(EndStep(w, stop, prefix, answer).pc) < Left(w.pc)
  {
  }

  lemma WorkerStepsDown(w: Worker, stop: bool, intr: bool, prefix: string, answer: Answer)
    requires stop || HasResult(w.pc)
    ensures var v := NextWorker(w, stop, intr, prefix, answer);
            if Waiting(w) then v == w else Left(v.pc) < Left(w.pc)
  {
    hide SetupStep, LoopStep, FinalStep, Left;
    if Waiting(w) {
      WaitingWorkerRests(w, stop, intr, prefix, answer);
    } else if InSetup(w.pc) {
      SetupStepsDown(w, answer);
    } else if InLoop(w.pc) {
      LoopStepsDown(w, stop, intr, answer);
    } else if InShutdown(w.pc) {
      ShutdownStepsDown(w, answer);
    } else if InFinal(w.pc) {
      FinalStepsDown(w, stop, intr);
    } else {
      EndStepsDown(w, stop, prefix, answer);
    }
  }

  lemma WaitingWorkerRests(w: Worker, stop: bool, intr: bool, prefix: string, answer: Answer)
    requires Waiting(w)
    ensures NextWorker(w, stop, intr, prefix, answer) == w
  {
    hide SetupStep, LoopStep, FinalStep;
  }

  // The stop request is there for as long as worker k can use it.
  ghost predicate StopHeld(s: State, k: nat) {
    k < |s.workers| && (s.flags.stopRequested || Ended(s.workers[k].pc))
  }

  lemma HeldStep(s: State, e: Event, k: nat)
    requires Inv(s) && StopHeld(s, k)
    ensures var t := NextState(s, e);
            && StopHeld(t, k)
            && Left(t.workers[k].pc) <= Left(s.workers[k].pc)
            && (e.Work? && e.worker == k && !Waiting(s.workers[k]) ==> Left(t.workers[k].pc) < Left(s.workers[k].pc))
  {
    hide Inv, NextState, NextWorker, NextReader, Left, Waiting;
    var w, stop, intr := s.workers[k], s.flags.stopRequested, s.flags.interrupted;
    StepOnWorker(s, e, k);
    if stop && !Ended(w.pc) {
      RunningMeansActive(s, k);
      StopStays(s, e);
    }
    if e.Work? {
      WorkerMoves(w, stop, intr, s.status.filePrefix, e.answer);
      WorkerStepsDown(w, stop, intr, s.status.filePrefix, e.answer);
      if e.worker == k && !Waiting(w) {
        WorkIsDone(s, e.answer, k);
      }
    } else if e.Read? {
      ReaderLeavesWorker(w, stop, intr, e.answer);
    }
  }

  lemma WorkIsDone(s: State, answer: Answer, k: nat)
    requires Inv(s) && k < |s.workers| && !Waiting(s.workers[k])
    ensures NextState(s, Work(k, answer)).workers[k]
            == NextWorker(s.workers[k], s.flags.stopRequested, s.flags.interrupted, s.status.filePrefix, answer)
  {
    hide Inv, RecordFits, WorkerInv, FreshRecord, NextWorker, WorkerStatus;
    RecordIsTheWorkers(s, k);
    NotTerminated(s);
  }

  // The steps that worker k takes in the run, not counting those in which it waits for its reader.
  function Steps(s: State, run: seq<Event>, k: nat): nat {
    if run == [] then 0 else
      var n := |run| - 1;
      var t := After(s, run[..n]);
      Steps(s, run[..n], k)
      + if k < |t.workers| && run[n].Work? && run[n].worker == k && !Waiting(t.workers[k]) then 1 else 0
  }

  /** Once the stop flag is set a worker is at most 22 of its own steps away from its end, however the
      threads interleave and whatever the server answers; only its reader can keep it waiting. */
  lemma {:induction false} StoppedJobEnds(s: State, run: seq<Event>, k: nat)
    requires Inv(s) && StopHeld(s, k)
    ensures var t := After(s, run);
            StopHeld(t, k) && Steps(s, run, k) + Left(t.workers[k].pc) <= Left(s.workers[k].pc) <= 22
  {
    hide Inv, NextState, Waiting;
    if run != [] {
      var n := |run| - 1;
      StoppedJobEnds(s, run[..n], k);
      RunKeeps(s, run[..n]);
      HeldStep(After(s, run[..n]), run[n], k);
    }
  }

  // Exit waits only for a worker that was told to stop, or is past its work.
  ghost predicate QuitFits(s: State) {
    (s.shell.QuitMove? || s.shell.QuitJoin?) && s.workers != [] ==> StopHeld(s, |s.workers| - 1)
  }

  lemma QuitShellKeeps(s: State, input: Input)
    requires Inv(s) && QuitFits(s)
    ensures QuitFits(NextShell(s, input))
  {
    hide WorkerInv, RecordFits, FreshRecord, NextPhase, OnDispatch, QuietFits, DepthFits, JobsFit;
    if s.shell.Starting? {
      PhaseIsNoQuit(s, s.shell.phase, s.shell.tokens, s.shell.depth, input);
    } else if s.shell.Dispatch? {
      DispatchIsNoQuit(s.flags.active, s.shell.tokens, s.shell.depth, input);
    }
  }

  lemma PhaseIsNoQuit(s: State, phase: Phase, tokens: seq<string>, depth: nat, input: Input)
    requires s.shell == Starting(phase, tokens, depth)
    ensures var t := NextPhase(s, phase, tokens, depth, input); !t.shell.QuitMove? && !t.shell.QuitJoin?
  {
    hide ValidJob, WithOutputs, ResetTo;
  }

  lemma DispatchIsNoQuit(active: bool, tokens: seq<string>, depth: nat, input: Input)
    ensures var pc := OnDispatch(active, tokens, depth, input); !pc.QuitMove? && !pc.QuitJoin?
  {
    hide Safe, IsAcquisition;
  }

  lemma QuitStepKeeps(s: State, e: Event)
    requires Inv(s) && QuitFits(s)
    ensures QuitFits(NextState(s, e))
  {
    hide Inv, NextShell, NextWorker, NextReader, WorkerStatus, ReaderStatus;
    if e.Shell? {
      QuitShellKeeps(s, e.input);
    } else if QuitFits(s) && (s.shell.QuitMove? || s.shell.QuitJoin?) && s.workers != [] {
      HeldStep(s, e, |s.workers| - 1);
    }
  }

  lemma {:induction false} QuitRunsFit(run: seq<Event>)
    ensures QuitFits(Reached(run))
    decreases |run|
  {
    hide Inv, NextState, QuitFits;
    if run == [] {
      InitIsNoQuit();
    } else {
      QuitRunsFit(run[..|run| - 1]);
      ReachedFits(run[..|run| - 1]);
      QuitStepKeeps(Reached(run[..|run| - 1]), run[|run| - 1]);
    }
  }

  lemma InitIsNoQuit()
    ensures QuitFits(Init())
  {
  }

  /** The worker that exit, or the end of input, waits for was told to stop or is past its work, and takes at
      most 22 more steps of its own, in any run from there on; only its reader can keep it waiting. */
  lemma ExitEnds(run: seq<Event>, rest: seq<Event>, k: nat)
    requires Reached(run).shell == QuitJoin(k)
    ensures var s, t := Reached(run), After(Reached(run), rest);
            && StopHeld(s, k) && k < |t.workers|
            && Steps(s, rest, k) + Left(t.workers[k].pc) <= 22
            && (t.workers[k].pc.Exited? <==> Left(t.workers[k].pc) == 0)
  {
    hide Inv, NextState, QuitFits, Waiting;
    ReachedFits(run);
    QuitRunsFit(run);
    QuitJoinWaits(Reached(run), k);
    StoppedJobEnds(Reached(run), rest, k);
  }

  lemma QuitJoinWaits(s: State, k: nat)
    requires Inv(s) && QuitFits(s) && s.shell == QuitJoin(k)
    ensures StopHeld(s, k)
  {
    hide WorkerInv, RecordFits, FreshRecord, JobsFit;
  }
}
