/** What the shell does with the commands it is given, by their names, and what it starts. */
module ReadoutCommands {
  import opened ReadoutStatus
  import opened Acquisition
  import opened Readout
  import opened ReadoutSafety
  import opened ReadoutResults
  import opened ReadoutPolls

  // ---------------------------------------------------------------------------------------------
  // Commands by name
  // ---------------------------------------------------------------------------------------------

  lemma RunsBesideIsPlain(name: string)
    requires RunsBeside(name)
    ensures Safe(name) && !IsAcquisition(name) && name != "exit" && name != "quit"
    ensures name != "" && name[0] != '#' && name[0] != '@'
  {
  }

  /** The nine commands run whether or not an acquisition is active. */
  lemma NineAlwaysRun(s: State, tokens: seq<string>, depth: nat, input: Input)
    requires s.shell == Dispatch(tokens, depth) && depth <= 10 && tokens != [] && RunsBeside(tokens[0])
    ensures NextState(s, Shell(input)) == s.(shell := Running(tokens, depth))
  {
    hide RunsBeside, Safe, IsAcquisition;
    RunsBesideIsPlain(tokens[0]);
  }

  lemma SafeNames(name: string)
    ensures Safe(name) <==> RunsBeside(name) || name == "readout" || name == "pedcalib_readout" || name == "exit"
                            || name == "quit"
  {
  }

  /** Beside an acquisition every other command fails at once, scripts and comments included, but for readout,
      pedcalib_readout, exit and quit; so does every command nested deeper than ten. */
  lemma OthersAreRefused(s: State, tokens: seq<string>, depth: nat, input: Input)
    requires s.shell == Dispatch(tokens, depth) && tokens != [] && tokens[0] != ""
    requires depth > 10
             || (s.flags.active && !RunsBeside(tokens[0])
                 && tokens[0] !in {"readout", "pedcalib_readout", "exit", "quit"})
    ensures NextState(s, Shell(input)) == s.(shell := Return(false, depth))
  {
    hide RunsBeside, Safe;
    SafeNames(tokens[0]);
  }

  /** exit and quit leave the shell, active or not. */
  lemma ExitQuits(s: State, tokens: seq<string>, depth: nat, input: Input)
    requires s.shell == Dispatch(tokens, depth) && depth <= 10
    requires tokens != [] && (tokens[0] == "exit" || tokens[0] == "quit")
    ensures NextState(s, Shell(input)) == s.(shell := Quit)
  {
    SafeNames(tokens[0]);
  }

  /** `readout stop` and `pedcalib_readout stop` go to the check of the active flag. */
  lemma StopIsChecked(s: State, tokens: seq<string>, depth: nat, input: Input)
    requires s.shell == Dispatch(tokens, depth) && depth <= 10
    requires tokens == ["readout", "stop"] || tokens == ["pedcalib_readout", "stop"]
    ensures NextState(s, Shell(input)) == s.(shell := CheckStop(depth))
  {
    SafeNames(tokens[0]);
    StopIsDispatched(s, tokens, depth, input);
  }

  // ---------------------------------------------------------------------------------------------
  // What a failure does to nested scripts
  // ---------------------------------------------------------------------------------------------

  // The shell's own steps in the run.
  function ShellSteps(run: seq<Event>): nat {
    if run == [] then 0 else ShellSteps(run[..|run| - 1]) + if run[|run| - 1].Shell? then 1 else 0
  }

  /** A command that fails inside scripts ends all of them, one step each, and the shell is back at its prompt; no
      further line is read from any of them. */
  lemma {:induction false} FailureUnwinds(s: State, depth: nat, run: seq<Event>)
    requires s.shell == Return(false, depth) && ShellSteps(run) <= depth + 1
    ensures var n := ShellSteps(run);
            After(s, run).shell == if n <= depth then Return(false, depth - n) else Prompt
    decreases |run|
  {
    hide NextState;
    if run != [] {
      var before, e := run[..|run| - 1], run[|run| - 1];
      FailureUnwinds(s, depth, before);
      if e.Shell? {
        Unwinding(After(s, before), depth - ShellSteps(before), e.input);
      } else {
        OtherKeepsShell(After(s, before), e);
      }
    }
  }

  lemma Unwinding(s: State, depth: nat, input: Input)
    requires s.shell == Return(false, depth)
    ensures NextState(s, Shell(input)).shell == if depth == 0 then Prompt else Return(false, depth - 1)
  {
  }

  /** An interrupt that is seen before a script line ends the script, and is forgotten. */
  lemma InterruptEndsScript(s: State, tokens: seq<string>, depth: nat, a: Input, b: Input)
    requires s.shell == ScriptLine(tokens, depth) && s.flags.interrupted
    ensures NextState(NextState(s, Shell(a)), Shell(b))
            == s.(flags := s.flags.(interrupted := false), shell := Return(false, depth))
  {
  }

  // ---------------------------------------------------------------------------------------------
  // What is started
  // ---------------------------------------------------------------------------------------------

  // readout takes three tokens and pedcalib_readout four.
  predicate Asked(kind: JobKind, tokens: seq<string>) {
    && tokens != []
    && tokens[0] == (if kind.Readout? then "readout" else "pedcalib_readout")
    && (kind.Readout? ==> |tokens| == 3)
  }

  // A job has detectors with one-byte addresses; a pedestal readout has one.
  predicate IsJob(job: Job) {
    && job.addresses != {} && (forall a <- job.addresses :: a <= 255)
    && (job.kind.Pedcalib? ==> |job.addresses| == 1)
  }

  function KindOf(phase: Phase): JobKind {
    match phase
    case CheckActive(kind) => kind
    case JoinCompleted(kind) => kind
    case JoinWait(kind) => kind
    case Prepare(kind) => kind
    case _ => phase.job.kind
  }

  predicate HasJob(phase: Phase) {
    !phase.CheckActive? && !phase.JoinCompleted? && !phase.JoinWait? && !phase.Prepare?
  }

  ghost predicate StartsFit(s: State) {
    && (forall w <- s.workers :: IsJob(w.job))
    && (s.shell.Starting? ==>
          var phase, tokens := s.shell.phase, s.shell.tokens;
          && Asked(KindOf(phase), tokens)
          && (HasJob(phase) ==> IsJob(phase.job) && (phase.job.kind.Pedcalib? ==> |tokens| == 4)))
  }

  lemma AcquireFits(tokens: seq<string>, depth: nat)
    requires tokens != [] && IsAcquisition(tokens[0])
    ensures var pc := Acquire(tokens, depth);
            pc.Starting? ==> pc.phase.CheckActive? && pc.tokens == tokens && Asked(pc.phase.kind, tokens)
  {
  }

  lemma DispatchAsks(active: bool, tokens: seq<string>, depth: nat, input: Input)
    ensures var pc := OnDispatch(active, tokens, depth, input);
            pc.Starting? ==> pc.phase.CheckActive? && Asked(pc.phase.kind, pc.tokens)
  {
    hide Safe, IsAcquisition, Acquire, Asked;
    if tokens != [] && IsAcquisition(tokens[0]) {
      AcquireFits(tokens, depth);
    }
  }

  lemma PhaseStartsFit(s: State, phase: Phase, tokens: seq<string>, depth: nat, input: Input)
    requires StartsFit(s) && s.shell == Starting(phase, tokens, depth)
    ensures StartsFit(NextPhase(s, phase, tokens, depth, input))
  {
    hide IsJob, WithOutputs, ResetTo;
    JobsAreChecked();
  }

  lemma JobsAreChecked()
    ensures forall job: Job, kind: JobKind, tokens: seq<string> | ValidJob(job, kind, tokens) :: IsJob(job)
  {
  }

  lemma WorkerKeepsJob(w: Worker, stop: bool, intr: bool, prefix: string, answer: Answer)
    ensures NextWorker(w, stop, intr, prefix, answer).job == w.job
  {
    if InSetup(w.pc) {
      hide LoopStep, ShutdownStep, FinalStep, EndStep;
    } else if InLoop(w.pc) {
      hide SetupStep, ShutdownStep, FinalStep, EndStep;
    } else if InShutdown(w.pc) {
      hide SetupStep, LoopStep, FinalStep, EndStep;
    } else if InFinal(w.pc) {
      hide SetupStep, LoopStep, ShutdownStep, EndStep;
    } else {
      hide SetupStep, LoopStep, ShutdownStep, FinalStep;
    }
  }

  lemma StepKeepsJob(s: State, e: Event, k: nat)
    requires k < |s.workers|
    ensures k < |NextState(s, e).workers| && NextState(s, e).workers[k].job == s.workers[k].job
  {
    hide NextState, NextWorker, NextReader;
    StepIsWorkerAfter(s, e, k);
    if Takes(s, e, k) {
      IsTaken(s, e, k);
      WorkerKeepsJob(s.workers[k], s.flags.stopRequested, s.flags.interrupted, s.status.filePrefix, e.answer);
    } else {
      NotTaken(s, e, k);
    }
  }

  // Only the last phase of a start creates a worker.
  lemma OnlySpawningCreates(s: State, e: Event)
    ensures var t := NextState(s, e);
            t.workers == s.workers || |t.workers| == |s.workers|
            || (e.Shell? && Spawning(s.shell) && t.workers == s.workers + [NewWorker(s.shell.phase.job)])
  {
    hide Turn, NextWorker, NextReader, WithOutputs, ResetTo;
  }

  lemma ShellStartsFit(s: State, input: Input)
    requires StartsFit(s) && ShellFits(s)
    ensures StartsFit(NextShell(s, input))
  {
    hide IsJob, Asked, OnDispatch;
    match s.shell
    case Starting(phase, tokens, depth) => PhaseStartsFit(s, phase, tokens, depth, input);
    case Dispatch(tokens, depth) => DispatchAsks(s.flags.active, tokens, depth, input);
    case _ =>
  }

  lemma StepStartsFit(s: State, e: Event)
    requires StartsFit(s) && ShellFits(s)
    ensures StartsFit(NextState(s, e))
  {
    hide IsJob, Asked, NextShell, NextWorker, NextReader, ShellFits;
    var t := NextState(s, e);
    if e.Shell? {
      ShellStartsFit(s, e.input);
    } else {
      OtherKeepsShell(s, e);
      SameCount(s, e);
      forall w | w in t.workers ensures IsJob(w.job) {
        var k: nat :| k < |t.workers| && t.workers[k] == w;
        StepKeepsJob(s, e, k);
      }
    }
  }

  lemma SameCount(s: State, e: Event)
    requires !e.Shell?
    ensures |NextState(s, e).workers| == |s.workers|
  {
    hide NextWorker, NextReader;
  }

  lemma {:induction false} RunStartsFit(run: seq<Event>)
    ensures StartsFit(Reached(run))
    decreases |run|
  {
    hide NextState, StartsFit, Inv;
    if run == [] {
      NothingStarts();
    } else {
      RunStartsFit(run[..|run| - 1]);
      ReachedFits(run[..|run| - 1]);
      InvHasShellFits(Reached(run[..|run| - 1]));
      StepStartsFit(Reached(run[..|run| - 1]), run[|run| - 1]);
    }
  }

  lemma NothingStarts()
    ensures StartsFit(Init())
  {
  }

  lemma InvHasShellFits(s: State)
    requires Inv(s)
    ensures ShellFits(s) && QuietFits(s.shell, s.flags.active)
  {
    hide WorkerInv, RecordFits, FreshRecord;
  }

  // At step i, as part of the start of worker k, the stop flag was clear and no job active.
  ghost predicate Cleared(run: seq<Event>, i: nat, k: nat)
    requires i <= |run|
  {
    var s := Reached(run[..i]);
    s.shell.Starting? && |s.workers| == k && !s.flags.stopRequested && !s.flags.active
  }

  ghost predicate EverCleared(run: seq<Event>, k: nat) {
    exists i | 0 <= i <= |run| :: Cleared(run, i, k)
  }

  // The phases after the clearing of the flag.
  predicate AfterClearing(pc: ShellPc) {
    pc.Starting? && (pc.phase.SetActive? || pc.phase.SpawnWorker?)
  }

  lemma ClearedStays(run: seq<Event>, e: Event, k: nat)
    requires EverCleared(run, k)
    ensures EverCleared(run + [e], k)
  {
    hide Reached;
    var i :| 0 <= i <= |run| && Cleared(run, i, k);
    assert (run + [e])[..i] == run[..i];
    assert Cleared(run + [e], i, k);
  }

  lemma ClearedNow(run: seq<Event>, k: nat)
    requires var s := Reached(run);
             s.shell.Starting? && |s.workers| == k && !s.flags.stopRequested && !s.flags.active
    ensures EverCleared(run, k)
  {
    hide Reached;
    assert run[..|run|] == run;
    assert Cleared(run, |run|, k);
  }

  // How the shell comes to the last phases of a start.
  lemma PhasesFollow(s: State, e: Event)
    requires ShellFits(s) && QuietFits(s.shell, s.flags.active)
    ensures var t := NextState(s, e);
            AfterClearing(t.shell) ==>
              || (AfterClearing(s.shell) && |t.workers| == |s.workers|)
              || (t.shell.Starting? && |t.workers| == |s.workers| && !t.flags.stopRequested && !t.flags.active)
  {
    hide Turn, NextWorker, NextReader, WithOutputs, ResetTo, WorkerStatus, ReaderStatus;
    if e.Shell? && !s.shell.Starting? {
      TurnStartsNothing(s, e.input);
    }
  }

  lemma TurnStartsNothing(s: State, input: Input)
    requires !s.shell.Starting? && ShellFits(s)
    ensures !AfterClearing(Turn(s, input))
  {
  }

  lemma {:induction false} StartsAreCleared(run: seq<Event>)
    ensures var s := Reached(run); AfterClearing(s.shell) ==> EverCleared(run, |s.workers|)
    decreases |run|
  {
    hide NextState, EverCleared, AfterClearing, Inv;
    if run == [] {
      NothingIsCleared();
    } else {
      var n := |run| - 1;
      var before, e := run[..n], run[n];
      assert run == before + [e] && Reached(run) == NextState(Reached(before), e);
      StartsAreCleared(before);
      ReachedFits(before);
      InvHasShellFits(Reached(before));
      PhasesFollow(Reached(before), e);
      var s := Reached(run);
      if AfterClearing(s.shell) {
        if AfterClearing(Reached(before).shell) && |s.workers| == |Reached(before).workers| {
          ClearedStays(before, e, |s.workers|);
        } else {
          ClearedNow(run, |s.workers|);
        }
      }
    }
  }

  lemma NothingIsCleared()
    ensures !AfterClearing(Init().shell)
  {
  }

  /** A worker is created only by a readout or pedcalib_readout command with three or four tokens, for the kind of job
      the command names, with valid addresses; and at some moment of this start, no job being active, the stop flag
      was clear. */
  lemma WorkersAreStarted(run: seq<Event>, e: Event)
    requires |NextState(Reached(run), e).workers| > |Reached(run).workers|
    ensures var s, t := Reached(run), NextState(Reached(run), e);
            && s.shell.Starting? && EverCleared(run, |s.workers|)
            && |t.workers| == |s.workers| + 1
            && var job, tokens := t.workers[|s.workers|].job, s.shell.tokens;
               && IsJob(job)
               && (job.kind.Readout? ==> |tokens| == 3 && tokens[0] == "readout")
               && (job.kind.Pedcalib? ==> |tokens| == 4 && tokens[0] == "pedcalib_readout")
  {
    hide NextState, EverCleared, Inv, IsJob;
    StartsAreCleared(run);
    RunStartsFit(run);
    OnlySpawningCreates(Reached(run), e);
  }
}
