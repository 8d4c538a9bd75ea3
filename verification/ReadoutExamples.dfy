/** Runs from the start of the shell that reach the situations the results on readouts warn of. */
module ReadoutExamples {
  import opened ReadoutStatus
  import opened Acquisition
  import opened Readout
  import opened ReadoutSafety
  import opened ReadoutResults
  import opened ReadoutStarts

  // ---------------------------------------------------------------------------------------------
  // The shell starts a job
  // ---------------------------------------------------------------------------------------------

  const COMMAND := ["readout", "10", "x"]

  function SomeJob(): Job {
    Job(Readout, 10, "x", {1})
  }

  // Between two commands, no job active, and no thread alive.
  ghost predicate Idle(s: State) {
    s.shell.Prompt? && !s.flags.active && (s.handle.Some? ==> Joinable(s, s.handle.value))
  }

  lemma PromptStep(s: State)
    requires s.shell.Prompt?
    ensures NextState(s, Shell(NotReady)) == s.(flags := s.flags.(interrupted := false), shell := ReadLine)
  {
  }

  lemma LineStep(s: State)
    requires s.shell.ReadLine?
    ensures NextState(s, Shell(Line(COMMAND))) == s.(shell := Dispatch(COMMAND, 0))
  {
  }

  lemma DispatchStep(s: State)
    requires s.shell == Dispatch(COMMAND, 0) && !s.flags.active
    ensures NextState(s, Shell(NotReady)) == s.(shell := Starting(CheckActive(Readout), COMMAND, 0))
  {
    CommandIsReadout();
  }

  lemma CommandIsReadout()
    ensures OnDispatch(false, COMMAND, 0, NotReady) == Starting(CheckActive(Readout), COMMAND, 0)
  {
    assert COMMAND[1][0] == '1';
  }

  lemma CheckStep(s: State)
    requires s.shell == Starting(CheckActive(Readout), COMMAND, 0) && !s.flags.active
    ensures NextState(s, Shell(NotReady)) == s.(shell := Starting(JoinCompleted(Readout), COMMAND, 0))
  {
  }

  lemma JoinStep(s: State)
    requires s.shell == Starting(JoinCompleted(Readout), COMMAND, 0) && !s.flags.active
    ensures NextState(s, Shell(NotReady))
            == s.(shell := Starting(if s.handle.Some? then JoinWait(Readout) else Prepare(Readout), COMMAND, 0))
  {
  }

  lemma JoinedStep(s: State)
    requires s.shell == Starting(JoinWait(Readout), COMMAND, 0) && s.handle.Some? && Joinable(s, s.handle.value)
    ensures NextState(s, Shell(NotReady)) == s.(handle := None, shell := Starting(Prepare(Readout), COMMAND, 0))
  {
  }

  lemma PrepareStep(s: State)
    requires s.shell == Starting(Prepare(Readout), COMMAND, 0)
    ensures NextState(s, Shell(Ready(SomeJob()))) == s.(shell := Starting(ResetRecord(SomeJob()), COMMAND, 0))
  {
  }

  lemma RecordStep(s: State)
    requires s.shell == Starting(ResetRecord(SomeJob()), COMMAND, 0)
    ensures var t := NextState(NextState(s, Shell(NotReady)), Shell(NotReady));
            t == s.(status := t.status, shell := Starting(ClearStop(SomeJob()), COMMAND, 0))
  {
    hide WithOutputs, ResetTo;
  }

  lemma SpawnSteps(s: State)
    requires s.shell == Starting(ClearStop(SomeJob()), COMMAND, 0) && s.handle.None?
    ensures var t := NextState(NextState(NextState(s, Shell(NotReady)), Shell(NotReady)), Shell(NotReady));
            t == s.(flags := s.flags.(active := true, stopRequested := false), handle := Some(|s.workers|),
                    workers := s.workers + [NewWorker(SomeJob())], shell := Return(true, 0))
  {
  }

  /** From an idle shell a readout command leads to the phase in which the job is prepared. */
  lemma CommandIsAsked(run: seq<Event>) returns (longer: seq<Event>)
    requires Idle(Reached(run))
    ensures var s := Reached(run);
            Reached(longer) == s.(flags := s.flags.(interrupted := false), handle := None,
                                  shell := Starting(Prepare(Readout), COMMAND, 0))
  {
    hide NextState;
    var s := Reached(run);
    OneMoreStep(Init(), run, Shell(NotReady));
    PromptStep(s);
    longer := run + [Shell(NotReady)];
    OneMoreStep(Init(), longer, Shell(Line(COMMAND)));
    LineStep(Reached(longer));
    longer := longer + [Shell(Line(COMMAND))];
    OneMoreStep(Init(), longer, Shell(NotReady));
    DispatchStep(Reached(longer));
    longer := longer + [Shell(NotReady)];
    OneMoreStep(Init(), longer, Shell(NotReady));
    CheckStep(Reached(longer));
    longer := longer + [Shell(NotReady)];
    OneMoreStep(Init(), longer, Shell(NotReady));
    JoinStep(Reached(longer));
    longer := longer + [Shell(NotReady)];
    if s.handle.Some? {
      OneMoreStep(Init(), longer, Shell(NotReady));
      JoinedStep(Reached(longer));
      longer := longer + [Shell(NotReady)];
    }
  }

  /** The prepared job comes to the phase that clears the stop flag. */
  lemma JobIsPrepared(run: seq<Event>) returns (longer: seq<Event>)
    requires Reached(run).shell == Starting(Prepare(Readout), COMMAND, 0)
    ensures var s, t := Reached(run), Reached(longer);
            t == s.(status := t.status, shell := Starting(ClearStop(SomeJob()), COMMAND, 0))
  {
    hide NextState, SomeJob;
    OneMoreStep(Init(), run, Shell(Ready(SomeJob())));
    PrepareStep(Reached(run));
    longer := run + [Shell(Ready(SomeJob()))];
    RecordStep(Reached(longer));
    OneMoreStep(Init(), longer, Shell(NotReady));
    longer := longer + [Shell(NotReady)];
    OneMoreStep(Init(), longer, Shell(NotReady));
    longer := longer + [Shell(NotReady)];
  }

  /** From there the job starts. */
  lemma JobIsStarted(run: seq<Event>) returns (longer: seq<Event>)
    requires Reached(run).shell == Starting(ClearStop(SomeJob()), COMMAND, 0) && Reached(run).handle.None?
    ensures var s := Reached(run);
            At(Reached(longer), Place(|s.workers|, s.flags.(active := true, stopRequested := false), s.storing, 0),
               NewWorker(SomeJob()))
  {
    hide NextState, SomeJob, NewWorker;
    SpawnSteps(Reached(run));
    OneMoreStep(Init(), run, Shell(NotReady));
    longer := run + [Shell(NotReady)];
    OneMoreStep(Init(), longer, Shell(NotReady));
    longer := longer + [Shell(NotReady)];
    OneMoreStep(Init(), longer, Shell(NotReady));
    longer := longer + [Shell(NotReady)];
  }

  const RUNNING := Shared(true, false, false)

  lemma FirstJob() returns (run: seq<Event>)
    ensures At(Reached(run), Place(0, RUNNING, 0, 0), NewWorker(SomeJob()))
  {
    hide NextState, SomeJob, NewWorker;
    assert Reached([]) == Init();
    run := CommandIsAsked([]);
    run := JobIsPrepared(run);
    run := JobIsStarted(run);
  }

  // An interrupt reaches its handler, which sees whether a job is active.
  lemma InterruptSteps(run: seq<Event>) returns (longer: seq<Event>)
    requires !Reached(run).shell.Gone? && !Reached(run).shell.Terminated?
    ensures var s := Reached(run);
            Reached(longer) == s.(flags := s.flags.(interrupted := true),
                                  storing := s.storing + if s.flags.active then 1 else 0)
  {
    OneMoreStep(Init(), run, Signal);
    longer := run + [Signal];
    OneMoreStep(Init(), longer, SignalLoad);
    longer := longer + [SignalLoad];
  }

  // ---------------------------------------------------------------------------------------------
  // An early close that is not noticed, and a stop beside success
  // ---------------------------------------------------------------------------------------------

  lemma ReaderLeads(pc: WorkerPc, calls: seq<Call>, intr: bool)
    ensures NextReader(Stage(SomeJob(), pc, Reading, calls, UNDECIDED), false, intr, EndOfStream)
            == Stage(SomeJob(), pc, FinishStream, calls, UNDECIDED)
    ensures NextReader(Stage(SomeJob(), pc, FinishStream, calls, UNDECIDED), false, intr, Good)
            == Stage(SomeJob(), pc, SetDone, calls, UNDECIDED)
    ensures NextReader(Stage(SomeJob(), pc, SetDone, calls, UNDECIDED), false, intr, Good)
            == Stage(SomeJob(), pc, ReaderDone, calls, UNDECIDED)
  {
  }

  // The reader is told that the stream is over.
  lemma ReaderEnds(s: State, run: seq<Event>, p: Place, pc: WorkerPc, calls: seq<Call>) returns (longer: seq<Event>)
    requires At(After(s, run), p, Stage(SomeJob(), pc, Reading, calls, UNDECIDED)) && !p.flags.stopRequested
    ensures At(After(s, longer), p, Stage(SomeJob(), pc, ReaderDone, calls, UNDECIDED))
    ensures Calm(s, run) ==> Calm(s, longer)
  {
    hide At, NextReader, SomeJob, Calm, After;
    ReaderLeads(pc, calls, p.flags.interrupted);
    longer := ReadStep(s, run, p, Stage(SomeJob(), pc, Reading, calls, UNDECIDED), EndOfStream);
    longer := ReadStep(s, longer, p, Stage(SomeJob(), pc, FinishStream, calls, UNDECIDED), Good);
    longer := ReadStep(s, longer, p, Stage(SomeJob(), pc, SetDone, calls, UNDECIDED), Good);
  }

  lemma ShutdownLeads(reader: ReaderPc, intr: bool)
    ensures NextWorker(Stage(SomeJob(), StopStream, reader, [StartCall], UNDECIDED), false, intr, "", Good)
            == Stage(SomeJob(), CancelStream, reader, [StartCall, StopCall], UNDECIDED)
    ensures NextWorker(Stage(SomeJob(), CancelStream, reader, [StartCall, StopCall], UNDECIDED), false, intr, "", Good)
            == Stage(SomeJob(), JoinReader, reader, [StartCall, StopCall, CancelCall], UNDECIDED)
  {
    hide SetupStep, LoopStep, FinalStep, EndStep;
  }

  lemma JoinLeads(intr: bool)
    ensures NextWorker(Stage(SomeJob(), JoinReader, ReaderDone, [StartCall, StopCall, CancelCall], UNDECIDED),
                       false, intr, "", Good)
            == Stage(SomeJob(), FinalStop, ReaderDone, STREAM_CALLS, UNDECIDED)
    ensures NextWorker(Stage(SomeJob(), FinalStop, ReaderDone, STREAM_CALLS, UNDECIDED), false, intr, "", Good)
            == Stage(SomeJob(), FinalInterrupted, ReaderDone, STREAM_CALLS, UNDECIDED)
  {
    hide SetupStep, LoopStep, EndStep;
  }

  // From the end of the loop to the second half of the final check.
  lemma StreamIsStopped(s: State, run: seq<Event>, p: Place, reader: ReaderPc) returns (longer: seq<Event>)
    requires At(After(s, run), p, Stage(SomeJob(), StopStream, reader, [StartCall], UNDECIDED))
    requires !p.flags.stopRequested && (reader == ReaderDone || reader == Reading)
    ensures At(After(s, longer), p, Ending(FinalInterrupted, UNDECIDED))
    ensures Calm(s, run) ==> Calm(s, longer)
  {
    hide At, NextWorker, SomeJob, Calm, After;
    ShutdownLeads(reader, p.flags.interrupted);
    JoinLeads(p.flags.interrupted);
    longer := WorkStep(s, run, p, Stage(SomeJob(), StopStream, reader, [StartCall], UNDECIDED), Good);
    longer := WorkStep(s, longer, p, Stage(SomeJob(), CancelStream, reader, [StartCall, StopCall], UNDECIDED), Good);
    if reader == Reading {
      longer := ReaderEnds(s, longer, p, JoinReader, [StartCall, StopCall, CancelCall]);
    }
    longer := WorkStep(s, longer, p,
                       Stage(SomeJob(), JoinReader, ReaderDone, [StartCall, StopCall, CancelCall], UNDECIDED), Good);
    longer := WorkStep(s, longer, p, Ending(FinalStop, UNDECIDED), Good);
  }

  function Ending(pc: WorkerPc, verdict: Verdict): Worker {
    Stage(SomeJob(), pc, ReaderDone, STREAM_CALLS, verdict)
  }

  const SUCCESS := UNDECIDED.(success := true)

  lemma SuccessLeads()
    ensures NextWorker(Ending(FinalInterrupted, UNDECIDED), false, false, "", Good) == Ending(FinalResult, UNDECIDED)
    ensures NextWorker(Ending(FinalResult, UNDECIDED), false, false, "", Good) == Ending(AfterReadout, SUCCESS)
    ensures NextWorker(Ending(AfterReadout, SUCCESS), false, false, "", Good) == Ending(LoadStop, SUCCESS)
  {
    hide SetupStep, LoopStep, ShutdownStep;
  }

  /** The server closes the stream, the duration passes before the worker looks for the reader again, and
      the job succeeds: no failure is recorded. */
  lemma EarlyCloseCanPassUnnoticed() returns (before: seq<Event>, after: seq<Event>)
    ensures var s, t := Reached(before), Reached(before + after);
            && |s.workers| == |t.workers| == 1
            && s.workers[0].calls == [StartCall] && s.workers[0].reader.ReaderDone? && s.workers[0].pc.Loop?
            && At(t, Place(0, RUNNING, 0, 0), Ending(LoadStop, SUCCESS))
  {
    hide At, NextWorker, SomeJob, After;
    var p := Place(0, RUNNING, 0, 0);
    before := FirstJob();
    before := ComesToLoop(Init(), before, p, SomeJob());
    before := ReaderEnds(Init(), before, p, Loop, [StartCall]);
    after := LoopIsLeft(Reached(before), p);
    AfterAppends(Init(), before, after);
    AtWorker(Reached(before), p, Stage(SomeJob(), Loop, ReaderDone, [StartCall], UNDECIDED));
    AtWorker(Reached(before + after), p, Ending(LoadStop, SUCCESS));
  }

  // The duration passes, and the job succeeds.
  lemma LoopIsLeft(s: State, p: Place) returns (run: seq<Event>)
    requires At(s, p, Stage(SomeJob(), Loop, ReaderDone, [StartCall], UNDECIDED)) && p.flags == RUNNING
    ensures At(After(s, run), p, Ending(LoadStop, SUCCESS))
  {
    hide At, NextWorker, SomeJob;
    assert After(s, []) == s;
    LoopLeads(SomeJob(), ReaderDone, false);
    SuccessLeads();
    run := WorkStep(s, [], p, Stage(SomeJob(), Loop, ReaderDone, [StartCall], UNDECIDED), Bad([]));
    run := StreamIsStopped(s, run, p, ReaderDone);
    run := WorkStep(s, run, p, Ending(FinalInterrupted, UNDECIDED), Good);
    run := WorkStep(s, run, p, Ending(FinalResult, UNDECIDED), Good);
    run := WorkStep(s, run, p, Ending(AfterReadout, SUCCESS), Good);
  }

  lemma AtWorker(s: State, p: Place, w: Worker)
    requires At(s, p, w) && p.k == 0
    ensures s.workers == [w]
  {
  }

  /** A run in which an interrupt after the final check leaves success and a recorded stop side by side. */
  lemma SuccessBesideStop() returns (run: seq<Event>)
    ensures var s := Reached(run);
            && |s.workers| == 1 && HasResult(s.workers[0].pc)
            && s.status.flags.hasResult && s.status.flags.succeeded && s.status.flags.stopRequested
  {
    hide NextWorker, SomeJob, Inv;
    var before, after := EarlyCloseCanPassUnnoticed();
    run := InterruptSteps(before + after);
    var p := Place(0, Shared(true, false, true), 1, 0);
    run := StoreStep(Init(), run, p, Ending(LoadStop, SUCCESS));
    p := Place(0, Shared(true, true, true), 0, 0);
    ReportLeads(SUCCESS, true);
    run := WorkStep(Init(), run, p, Ending(LoadStop, SUCCESS), Good);
    run := WorkStep(Init(), run, p, Ending(FinishStatus, SUCCESS.(stopSeen := true)), Good);
    ReachedFits(run);
    RecordOfLast(Reached(run));
  }

  lemma ReportLeads(verdict: Verdict, stop: bool)
    ensures NextWorker(Ending(LoadStop, verdict), stop, true, "", Good)
            == Ending(FinishStatus, verdict.(stopSeen := stop))
    ensures NextWorker(Ending(FinishStatus, verdict.(stopSeen := stop)), stop, true, "", Good)
            == Ending(ClearActive, verdict.(stopSeen := stop))
  {
    hide SetupStep, LoopStep, ShutdownStep, FinalStep;
  }

  lemma RecordOfLast(s: State)
    requires Inv(s) && s.workers != [] && s.workers[|s.workers| - 1].pc.ClearActive?
    ensures var v := s.workers[|s.workers| - 1].verdict;
            && s.status.flags.hasResult && s.status.flags.succeeded == v.success
            && s.status.flags.stopRequested == v.stopSeen
  {
    hide Inv, WorkerInv, CountersFit;
    RecordIsTheWorkers(s, |s.workers| - 1);
  }

  // ---------------------------------------------------------------------------------------------
  // An interrupt before the start ends the job
  // ---------------------------------------------------------------------------------------------

  const HALTED := UNDECIDED.(halted := true)

  lemma HaltLeads()
    ensures NextWorker(Ending(FinalInterrupted, UNDECIDED), false, true, "", Good) == Ending(AfterReadout, HALTED)
    ensures NextWorker(Ending(AfterReadout, HALTED), false, true, "", Good) == Ending(LoadStop, HALTED)
  {
    hide SetupStep, LoopStep, ShutdownStep;
  }

  lemma ClearingStep(s: State)
    requires s.shell == Starting(ClearStop(SomeJob()), COMMAND, 0)
    ensures NextState(s, Shell(NotReady))
            == s.(flags := s.flags.(stopRequested := false), shell := Starting(SetActive(SomeJob()), COMMAND, 0))
  {
  }

  // The handler of an interrupt has run while the command was preparing: it found no job active.
  lemma InterruptedWhilePreparing() returns (run: seq<Event>)
    ensures Reached(run) == State(Shared(false, false, true), 0, 0, None, Reached(run).status, [],
                                  Starting(ClearStop(SomeJob()), COMMAND, 0))
  {
    hide NextState, SomeJob;
    assert Reached([]) == Init();
    run := CommandIsAsked([]);
    run := InterruptSteps(run);
    run := JobIsPrepared(run);
  }

  /** A run in which a Ctrl-C before the start, whose handler has run and asked for nothing, ends the job: no
      request follows the start, the interrupt flag is not cleared in time, and the record shows neither
      success nor a stop, although nothing failed. */
  lemma OldInterruptEndsNewJob() returns (run: seq<Event>, rest: seq<Event>)
    ensures var s, t := Reached(run), After(Reached(run), rest);
            && s.shell.Starting? && s.shell.phase.ClearStop? && s.storing == 0 && s.loading == 0 && s.workers == []
            && Calm(s, rest)
            && |t.workers| == 1 && HasResult(t.workers[0].pc)
            && t.workers[0].failures == {} && t.workers[0].verdict.stopOk && t.workers[0].calls == STREAM_CALLS
            && t.status.flags.hasResult && !t.status.flags.succeeded && !t.status.flags.stopRequested
  {
    hide At, NextWorker, SomeJob, Calm, NextState, Inv;
    run := InterruptedWhilePreparing();
    var s := Reached(run);
    ReachedFits(run);
    NothingIsCalm(s);
    OneMoreStep(s, [], Shell(NotReady));
    ClearingStep(s);
    rest := [] + [Shell(NotReady)];
    rest := SpawnsOn(s, rest);
    var p := Place(0, Shared(true, false, true), 0, 0);
    rest := ComesToLoop(s, rest, p, SomeJob());
    LoopLeads(SomeJob(), Reading, true);
    rest := WorkStep(s, rest, p, Stage(SomeJob(), Loop, Reading, [StartCall], UNDECIDED), Good);
    rest := WorkStep(s, rest, p, Stage(SomeJob(), LoopStop, Reading, [StartCall], UNDECIDED), Good);
    rest := WorkStep(s, rest, p, Stage(SomeJob(), LoopInterrupted, Reading, [StartCall], UNDECIDED), Good);
    rest := StreamIsStopped(s, rest, p, Reading);
    HaltLeads();
    ReportLeads(HALTED, false);
    rest := WorkStep(s, rest, p, Ending(FinalInterrupted, UNDECIDED), Good);
    rest := WorkStep(s, rest, p, Ending(AfterReadout, HALTED), Good);
    rest := WorkStep(s, rest, p, Ending(LoadStop, HALTED), Good);
    rest := WorkStep(s, rest, p, Ending(FinishStatus, HALTED), Good);
    AtWorker(After(s, rest), p, Ending(ClearActive, HALTED));
    RunKeeps(s, rest);
    RecordOfLast(After(s, rest));
  }

  // The two steps that create the worker.
  lemma SpawnsAt(t: State)
    requires t.shell == Starting(SetActive(SomeJob()), COMMAND, 0) && t.handle.None? && t.workers == []
    ensures At(NextState(NextState(t, Shell(NotReady)), Shell(NotReady)),
               Place(0, t.flags.(active := true), t.storing, 0), NewWorker(SomeJob()))
  {
    hide NextState, NewWorker, SomeJob;
    SetActiveStep(t);
    SpawnStep(NextState(t, Shell(NotReady)));
  }

  lemma SpawnsOn(s: State, run: seq<Event>) returns (longer: seq<Event>)
    requires var t := After(s, run);
             t.shell == Starting(SetActive(SomeJob()), COMMAND, 0) && t.handle.None? && t.workers == []
    ensures At(After(s, longer),
               Place(0, After(s, run).flags.(active := true), After(s, run).storing, 0), NewWorker(SomeJob()))
    ensures Calm(s, run) ==> Calm(s, longer)
  {
    hide NextState, Calm, NewWorker, SomeJob, At, After;
    OneMoreStep(s, run, Shell(NotReady));
    SetActiveStep(After(s, run));
    longer := run + [Shell(NotReady)];
    OneMoreStep(s, longer, Shell(NotReady));
    longer := longer + [Shell(NotReady)];
    SpawnsAt(After(s, run));
  }

  // ---------------------------------------------------------------------------------------------
  // A handler of the first job stops the second
  // ---------------------------------------------------------------------------------------------

  // The worker that could not open its files.
  function Failed(pc: WorkerPc): Worker {
    NewWorker(SomeJob()).(pc := pc)
  }

  lemma OpeningFails()
    ensures NextWorker(NewWorker(SomeJob()), false, true, "", Bad([])) == Failed(AfterReadout)
  {
    hide LoopStep, ShutdownStep, FinalStep, EndStep;
  }

  lemma FailureLeads()
    ensures NextWorker(Failed(AfterReadout), false, true, "", Good) == Failed(LoadStop)
    ensures NextWorker(Failed(LoadStop), false, true, "", Good) == Failed(FinishStatus)
  {
    hide SetupStep, LoopStep, ShutdownStep, FinalStep;
  }

  lemma FailureEnds()
    ensures NextWorker(Failed(FinishStatus), false, true, "", Good) == Failed(ClearActive)
    ensures NextWorker(Failed(ClearActive), false, true, "", Good) == Failed(Exiting)
    ensures NextWorker(Failed(Exiting), false, true, "", Good) == Failed(Exited)
  {
    hide SetupStep, LoopStep, ShutdownStep, FinalStep;
  }

  lemma FirstJobEnds() returns (run: seq<Event>)
    ensures At(Reached(run), Place(0, Shared(false, false, true), 1, 0), Failed(Exited))
  {
    hide NextWorker, SomeJob, NextState;
    var p := Place(0, Shared(true, false, true), 1, 0);
    run := FirstJob();
    run := InterruptSteps(run);
    OpeningFails();
    FailureLeads();
    FailureEnds();
    run := WorkStep(Init(), run, p, NewWorker(SomeJob()), Bad([]));
    run := WorkStep(Init(), run, p, Failed(AfterReadout), Good);
    run := WorkStep(Init(), run, p, Failed(LoadStop), Good);
    run := WorkStep(Init(), run, p, Failed(FinishStatus), Good);
    run := WorkStep(Init(), run, p, Failed(ClearActive), Good);
    run := WorkStep(Init(), run, p.(flags := Shared(false, false, true)), Failed(Exiting), Good);
  }

  lemma ReturnStep(run: seq<Event>) returns (longer: seq<Event>)
    requires At(Reached(run), Place(0, Shared(false, false, true), 1, 0), Failed(Exited))
    ensures Idle(Reached(longer)) && Reached(longer).storing == 1 && Reached(longer).workers == [Failed(Exited)]
  {
    longer := run + [Shell(NotReady)];
    OneMoreStep(Init(), run, Shell(NotReady));
  }

  /** A run in which the handler of an interrupt during the first job, which has ended, stops the second:
      after the second is started nobody asked to stop it. */
  lemma OldHandlerStopsNewJob() returns (run: seq<Event>, rest: seq<Event>)
    ensures var s, t := Reached(run), After(Reached(run), rest);
            && |s.workers| == 1 && s.workers[0].pc.Exited? && !s.flags.stopRequested
            && s.shell.Starting? && s.shell.phase.SetActive?
            && NoRequest(s, rest)
            && t.flags.stopRequested && |t.workers| == 2 && t.workers[1].pc.OpenFiles?
  {
    hide NextState, Inv, NoRequest, After;
    run := FirstJobEnds();
    run := ReturnStep(run);
    run := CommandIsAsked(run);
    run := JobIsPrepared(run);
    ClearingStep(Reached(run));
    OneMoreStep(Init(), run, Shell(NotReady));
    run := run + [Shell(NotReady)];
    ReachedFits(run);
    LateStoreStops(Reached(run));
    rest := LATE_STORE;
  }
}
