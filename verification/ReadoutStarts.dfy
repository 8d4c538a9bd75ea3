/** Which flags can stop a job that is only just started, and the runs that show it. */
module ReadoutStarts {
  import opened ReadoutStatus
  import opened Acquisition
  import opened Readout
  import opened ReadoutSafety
  import opened ReadoutResults

  // ---------------------------------------------------------------------------------------------
  // Runs, step by step
  // ---------------------------------------------------------------------------------------------

  // No interrupt arrives, and nobody asks to stop the job there is.
  ghost predicate Calm(s: State, run: seq<Event>) {
    NoRequest(s, run) && forall i | 0 <= i < |run| :: !run[i].Signal?
  }

  lemma OneMoreStep(s: State, run: seq<Event>, e: Event)
    ensures After(s, run + [e]) == NextState(After(s, run), e)
    ensures Calm(s, run) && !e.Signal? && !Request(After(s, run), e) ==> Calm(s, run + [e])
  {
    hide NextState, Request;
    var longer := run + [e];
    assert longer[..|run|] == run;
    if Calm(s, run) && !e.Signal? && !Request(After(s, run), e) {
      forall i | 0 <= i < |longer| ensures !Request(After(s, longer[..i]), longer[i]) {
        if i < |run| {
          assert longer[..i] == run[..i];
        }
      }
    }
  }

  // Worker k, the last one, has the given state while the shell is between two commands.
  datatype Place = Place(k: nat, flags: Shared, storing: nat, depth: nat)

  ghost predicate At(s: State, p: Place, w: Worker) {
    && |s.workers| == p.k + 1 && s.workers[p.k] == w && s.flags == p.flags && s.storing == p.storing
    && s.handle == Some(p.k) && s.shell == Return(true, p.depth)
  }

  function Later(p: Place, w: Worker): Place {
    p.(flags := p.flags.(active := p.flags.active && !w.pc.ClearActive?))
  }

  lemma WorkAt(t: State, p: Place, w: Worker, answer: Answer)
    requires At(t, p, w) && !w.pc.Calibrating?
    ensures At(NextState(t, Work(p.k, answer)), Later(p, w),
               NextWorker(w, p.flags.stopRequested, p.flags.interrupted, "", answer))
  {
    hide NextWorker, WorkerStatus;
    PrefixUnused(w, p.flags.stopRequested, p.flags.interrupted, t.status.filePrefix, answer);
  }

  lemma WorkStep(s: State, run: seq<Event>, p: Place, w: Worker, answer: Answer) returns (longer: seq<Event>)
    requires At(After(s, run), p, w) && !w.pc.Calibrating?
    ensures longer == run + [Work(p.k, answer)] && (Calm(s, run) ==> Calm(s, longer))
    ensures At(After(s, longer), Later(p, w), NextWorker(w, p.flags.stopRequested, p.flags.interrupted, "", answer))
  {
    hide NextWorker, NextState, After, At, Calm;
    longer := run + [Work(p.k, answer)];
    OneMoreStep(s, run, Work(p.k, answer));
    WorkAt(After(s, run), p, w, answer);
  }

  lemma PrefixUnused(w: Worker, stop: bool, intr: bool, prefix: string, answer: Answer)
    requires !w.pc.Calibrating?
    ensures NextWorker(w, stop, intr, prefix, answer) == NextWorker(w, stop, intr, "", answer)
  {
    hide SetupStep, LoopStep, ShutdownStep, FinalStep;
  }

  lemma ReadStep(s: State, run: seq<Event>, p: Place, w: Worker, answer: Answer) returns (longer: seq<Event>)
    requires At(After(s, run), p, w)
    ensures longer == run + [Read(p.k, answer)] && (Calm(s, run) ==> Calm(s, longer))
    ensures At(After(s, longer), p, NextReader(w, p.flags.stopRequested, p.flags.interrupted, answer))
  {
    hide NextReader, ReaderStatus, Calm;
    longer := run + [Read(p.k, answer)];
    OneMoreStep(s, run, Read(p.k, answer));
  }

  // A handler that found a job active stores its request.
  lemma StoreStep(s: State, run: seq<Event>, p: Place, w: Worker) returns (longer: seq<Event>)
    requires At(After(s, run), p, w) && p.storing > 0
    ensures longer == run + [SignalStore] && (Calm(s, run) ==> Calm(s, longer))
    ensures At(After(s, longer), p.(flags := Stopping(p.flags), storing := p.storing - 1), w)
  {
    hide Calm;
    longer := run + [SignalStore];
    OneMoreStep(s, run, SignalStore);
  }

  // ---------------------------------------------------------------------------------------------
  // The way of a worker without replies and failures
  // ---------------------------------------------------------------------------------------------

  function Stage(job: Job, pc: WorkerPc, reader: ReaderPc, calls: seq<Call>, verdict: Verdict): Worker {
    Worker(job, pc, reader, map a | a in job.addresses :: [], map a | a in job.addresses :: 0, [], calls, {}, verdict)
  }

  const UNDECIDED := Verdict(true, false, false, false, false)

  lemma OpeningLeads(job: Job, stop: bool, intr: bool)
    ensures NextWorker(NewWorker(job), stop, intr, "", Good) == Stage(job, ShareOutputs, NotStarted, [], UNDECIDED)
  {
    hide LoopStep, ShutdownStep, FinalStep, EndStep;
  }

  lemma SetupLeads(job: Job, stop: bool, intr: bool)
    ensures NextWorker(Stage(job, ShareOutputs, NotStarted, [], UNDECIDED), stop, intr, "", Good)
            == Stage(job, WriteLog, NotStarted, [], UNDECIDED)
    ensures NextWorker(Stage(job, WriteLog, NotStarted, [], UNDECIDED), stop, intr, "", Good)
            == Stage(job, StartStream, NotStarted, [], UNDECIDED)
    ensures NextWorker(Stage(job, StartStream, NotStarted, [], UNDECIDED), stop, intr, "", Good)
            == Stage(job, SpawnReader, NotStarted, [StartCall], UNDECIDED)
  {
    hide LoopStep, ShutdownStep, FinalStep, EndStep;
  }

  lemma SpawningLeads(job: Job, stop: bool, intr: bool)
    ensures NextWorker(Stage(job, SpawnReader, NotStarted, [StartCall], UNDECIDED), stop, intr, "", Good)
            == Stage(job, MarkStarted, Reading, [StartCall], UNDECIDED)
    ensures NextWorker(Stage(job, MarkStarted, Reading, [StartCall], UNDECIDED), stop, intr, "", Good)
            == Stage(job, Loop, Reading, [StartCall], UNDECIDED)
  {
    hide SetupStep, ShutdownStep, FinalStep, EndStep;
  }

  /** A worker that finds everything in order comes to its loop. */
  lemma ComesToLoop(s: State, run: seq<Event>, p: Place, job: Job) returns (longer: seq<Event>)
    requires At(After(s, run), p, NewWorker(job))
    ensures At(After(s, longer), p, Stage(job, Loop, Reading, [StartCall], UNDECIDED))
    ensures Calm(s, run) ==> Calm(s, longer)
  {
    hide At, NextWorker, Calm, After;
    var stop, intr := p.flags.stopRequested, p.flags.interrupted;
    OpeningLeads(job, stop, intr);
    SetupLeads(job, stop, intr);
    SpawningLeads(job, stop, intr);
    longer := WorkStep(s, run, p, NewWorker(job), Good);
    longer := WorkStep(s, longer, p, Stage(job, ShareOutputs, NotStarted, [], UNDECIDED), Good);
    longer := WorkStep(s, longer, p, Stage(job, WriteLog, NotStarted, [], UNDECIDED), Good);
    longer := WorkStep(s, longer, p, Stage(job, StartStream, NotStarted, [], UNDECIDED), Good);
    longer := WorkStep(s, longer, p, Stage(job, SpawnReader, NotStarted, [StartCall], UNDECIDED), Good);
    longer := WorkStep(s, longer, p, Stage(job, MarkStarted, Reading, [StartCall], UNDECIDED), Good);
  }

  lemma LoopLeads(job: Job, reader: ReaderPc, intr: bool)
    ensures NextWorker(Stage(job, Loop, reader, [StartCall], UNDECIDED), false, intr, "", Good)
            == Stage(job, LoopStop, reader, [StartCall], UNDECIDED)
    ensures NextWorker(Stage(job, Loop, reader, [StartCall], UNDECIDED), true, intr, "", Good)
            == Stage(job, LoopStop, reader, [StartCall], UNDECIDED)
    ensures NextWorker(Stage(job, LoopStop, reader, [StartCall], UNDECIDED), false, intr, "", Good)
            == Stage(job, LoopInterrupted, reader, [StartCall], UNDECIDED)
    ensures NextWorker(Stage(job, Loop, reader, [StartCall], UNDECIDED), false, intr, "", Bad([]))
            == Stage(job, StopStream, reader, [StartCall], UNDECIDED)
    ensures NextWorker(Stage(job, LoopInterrupted, reader, [StartCall], UNDECIDED), false, true, "", Good)
            == Stage(job, StopStream, reader, [StartCall], UNDECIDED)
  {
    hide SetupStep, ShutdownStep, FinalStep, EndStep;
  }

  // ---------------------------------------------------------------------------------------------
  // The flags a job can start with
  // ---------------------------------------------------------------------------------------------

  // A test of worker k, or of its reader, finds its flag set.
  predicate FindsFlag(s: State, e: Event, k: nat) {
    && k < |s.workers| && !s.shell.Gone? && !s.shell.Terminated?
    && match e
       case Work(j, _) =>
         var pc := s.workers[k].pc;
         j == k && (((pc.LoopStop? || pc.FinalStop?) && s.flags.stopRequested)
                    || ((pc.LoopInterrupted? || pc.FinalInterrupted?) && s.flags.interrupted))
       case Read(j, _) =>
         var pc := s.workers[k].reader;
         j == k && ((pc.ReaderStop? && s.flags.stopRequested) || (pc.ReaderInterrupted? && s.flags.interrupted))
       case _ => false
  }

  ghost predicate EverFindsFlag(s: State, run: seq<Event>, k: nat) {
    exists i | 0 <= i < |run| :: FindsFlag(After(s, run[..i]), run[i], k)
  }

  predicate Clear(s: State) {
    !s.flags.stopRequested && !s.flags.interrupted && s.storing == 0
  }

  lemma StepStaysClear(s: State, e: Event)
    requires Clear(s) && !e.Signal? && !Request(s, e)
    ensures Clear(NextState(s, e))
  {
    hide Turn, WorkerStatus, ReaderStatus, NextWorker, NextReader;
  }

  lemma {:induction false} CalmStaysClear(s: State, run: seq<Event>)
    requires Clear(s) && Calm(s, run)
    ensures Clear(After(s, run))
    decreases |run|
  {
    hide NextState, Request, Clear;
    if run != [] {
      var n := |run| - 1;
      assert forall i | 0 <= i < n :: run[..n][..i] == run[..i];
      CalmStaysClear(s, run[..n]);
      StepStaysClear(After(s, run[..n]), run[n]);
    }
  }

  lemma CalmPrefix(s: State, run: seq<Event>, i: nat)
    requires Calm(s, run) && i <= |run|
    ensures Calm(s, run[..i])
  {
    hide Request, After;
    assert forall j | 0 <= j < i :: run[..i][..j] == run[..j];
  }

  lemma ClearFindsNothing(s: State, run: seq<Event>, k: nat)
    requires Clear(s) && Calm(s, run)
    ensures !EverFindsFlag(s, run, k)
  {
    hide Calm, After;
    forall i | 0 <= i < |run| ensures !FindsFlag(After(s, run[..i]), run[i], k) {
      CalmPrefix(s, run, i);
      CalmStaysClear(s, run[..i]);
    }
  }

  lemma SetActiveStep(t: State)
    requires t.shell.Starting? && t.shell.phase.SetActive?
    ensures var job := t.shell.phase.job;
            NextState(t, Shell(NotReady))
            == t.(flags := t.flags.(active := true), shell := Starting(SpawnWorker(job), t.shell.tokens, t.shell.depth))
  {
  }

  lemma SpawnStep(t: State)
    requires t.shell.Starting? && t.shell.phase.SpawnWorker? && t.handle.None?
    ensures NextState(t, Shell(NotReady))
            == t.(workers := t.workers + [NewWorker(t.shell.phase.job)], handle := Some(|t.workers|),
                  shell := Return(true, t.shell.depth))
  {
  }

  lemma StartingHasNoHandle(t: State)
    requires Inv(t) && t.shell.Starting? && t.shell.phase.SetActive?
    ensures t.handle.None?
  {
    hide WorkerInv, RecordFits, FreshRecord;
  }

  // The shell sets the active flag and creates the worker.
  lemma Spawns(t: State) returns (run: seq<Event>)
    requires Inv(t) && t.shell.Starting? && t.shell.phase.SetActive?
    ensures Calm(t, run)
    ensures At(After(t, run), Place(|t.workers|, t.flags.(active := true), t.storing, t.shell.depth),
               NewWorker(t.shell.phase.job))
  {
    hide Inv, Calm, NextState, NewWorker;
    StartingHasNoHandle(t);
    NothingIsCalm(t);
    OneMoreStep(t, [], Shell(NotReady));
    SetActiveStep(t);
    run := [] + [Shell(NotReady)];
    OneMoreStep(t, run, Shell(NotReady));
    SpawnStep(After(t, run));
    run := run + [Shell(NotReady)];
  }

  lemma NothingIsCalm(s: State)
    ensures Calm(s, [])
  {
  }

  // The worker's test of the stop flag, or of the interrupt flag, finds it set.
  lemma StopFound(s: State, run: seq<Event>, p: Place, job: Job) returns (longer: seq<Event>)
    requires At(After(s, run), p, Stage(job, Loop, Reading, [StartCall], UNDECIDED)) && Calm(s, run)
    requires p.flags.stopRequested
    ensures Calm(s, longer) && EverFindsFlag(s, longer, p.k)
  {
    hide Calm, NextWorker;
    LoopLeads(job, Reading, p.flags.interrupted);
    var toTest := WorkStep(s, run, p, Stage(job, Loop, Reading, [StartCall], UNDECIDED), Good);
    longer := WorkStep(s, toTest, p, Stage(job, LoopStop, Reading, [StartCall], UNDECIDED), Good);
    assert longer[..|toTest|] == toTest;
    assert FindsFlag(After(s, longer[..|toTest|]), longer[|toTest|], p.k);
  }

  lemma InterruptFound(s: State, run: seq<Event>, p: Place, job: Job) returns (longer: seq<Event>)
    requires At(After(s, run), p, Stage(job, Loop, Reading, [StartCall], UNDECIDED)) && Calm(s, run)
    requires !p.flags.stopRequested && p.flags.interrupted
    ensures Calm(s, longer) && EverFindsFlag(s, longer, p.k)
  {
    hide Calm, NextWorker;
    LoopLeads(job, Reading, true);
    var toTest := WorkStep(s, run, p, Stage(job, Loop, Reading, [StartCall], UNDECIDED), Good);
    toTest := WorkStep(s, toTest, p, Stage(job, LoopStop, Reading, [StartCall], UNDECIDED), Good);
    longer := WorkStep(s, toTest, p, Stage(job, LoopInterrupted, Reading, [StartCall], UNDECIDED), Good);
    assert longer[..|toTest|] == toTest;
    assert FindsFlag(After(s, longer[..|toTest|]), longer[|toTest|], p.k);
  }

  // From the clearing of the stop flag on, with a handler still to store or the interrupt flag set.
  lemma FlagIsFound(t: State) returns (run: seq<Event>)
    requires Inv(t) && t.shell.Starting? && t.shell.phase.SetActive?
    requires !t.flags.stopRequested && (t.storing > 0 || t.flags.interrupted)
    ensures Calm(t, run) && EverFindsFlag(t, run, |t.workers|)
  {
    hide Inv, Calm, EverFindsFlag, At, After;
    var job := t.shell.phase.job;
    var p := Place(|t.workers|, t.flags.(active := true), t.storing, t.shell.depth);
    run := Spawns(t);
    if t.storing > 0 {
      run := StoreStep(t, run, p, NewWorker(job));
      p := p.(flags := Stopping(p.flags), storing := p.storing - 1);
      run := ComesToLoop(t, run, p, job);
      run := StopFound(t, run, p, job);
    } else {
      run := ComesToLoop(t, run, p, job);
      run := InterruptFound(t, run, p, job);
    }
  }

  lemma ClearingKeepsOthers(s: State, input: Input)
    requires s.shell.Starting? && s.shell.phase.ClearStop?
    ensures var t := NextState(s, Shell(input));
            t.flags.interrupted == s.flags.interrupted && t.workers == s.workers
  {
  }

  /** When a job is started, no run without a new interrupt and without a new request lets a test of its worker
      or its reader find a flag set, exactly if at that moment the interrupt flag is clear and no handler has
      still to store the request of an earlier job. */
  lemma FlagsReachNewJobs(s: State, input: Input)
    requires Inv(s) && s.shell.Starting? && s.shell.phase.ClearStop?
    ensures var t := NextState(s, Shell(input));
            s.storing == 0 && !s.flags.interrupted
            <==> forall run | Calm(t, run) :: !EverFindsFlag(t, run, |s.workers|)
  {
    hide Inv, NextState, Calm, EverFindsFlag;
    var t := NextState(s, Shell(input));
    ClearingClears(s, input);
    ClearingKeepsHandlers(s, input);
    ClearingKeepsOthers(s, input);
    ClearingLeadsOn(s, input);
    StepKeeps(s, Shell(input));
    if s.storing == 0 && !s.flags.interrupted {
      forall run | Calm(t, run) ensures !EverFindsFlag(t, run, |s.workers|) {
        ClearFindsNothing(t, run, |s.workers|);
      }
    } else {
      var run := FlagIsFound(t);
      assert Calm(t, run) && EverFindsFlag(t, run, |s.workers|);
    }
  }
}
