/** What every interleaving of the shell, the acquisition workers, their readers and the SIGINT handler
    keeps. */
module ReadoutSafety {
  import opened ReadoutStatus
  import opened Acquisition
  import opened Readout

  // ---------------------------------------------------------------------------------------------
  // The invariant
  // ---------------------------------------------------------------------------------------------

  ghost predicate AllExited(workers: seq<Worker>) {
    forall k | 0 <= k < |workers| :: workers[k].pc.Exited?
  }

  ghost predicate OthersExited(workers: seq<Worker>) {
    forall k | 0 <= k < |workers| - 1 :: workers[k].pc.Exited?
  }

  // Only the thread created last can be alive, and it is the one that can be joined.
  ghost predicate ThreadsFit(s: State) {
    && OthersExited(s.workers)
    && (s.handle.Some? ==> s.handle.value == |s.workers| - 1)
    && (s.handle.None? ==> AllExited(s.workers) || s.shell == QuitJoin(|s.workers| - 1))
  }

  // The phases after the previous thread was joined.
  predicate Joined(p: Phase) {
    !p.CheckActive? && !p.JoinCompleted? && !p.JoinWait?
  }

  // Where the shell stands decides what it knows about the handle.
  ghost predicate ShellFits(s: State) {
    match s.shell
    case Starting(phase, _, _) => (phase.JoinWait? ==> s.handle.Some?) && (Joined(phase) ==> s.handle.None?)
    case QuitStop | QuitMove => s.handle.Some?
    case QuitJoin(k) => s.handle.None? && k == |s.workers| - 1
    case Gone => s.handle.None? && AllExited(s.workers)
    case ClearInterrupted(next) => next.Prompt? || next.Return?
    case Terminated => false
    case _ => true
  }

  predicate Spawning(pc: ShellPc) {
    pc.Starting? && pc.phase.SpawnWorker?
  }

  ghost predicate Alive(workers: seq<Worker>) {
    workers != [] && !Ended(workers[|workers| - 1].pc)
  }

  ghost predicate ActiveFits(s: State) {
    s.flags.active <==> Spawning(s.shell) || Alive(s.workers)
  }

  // The steps of the shell that rely on no job being active.
  ghost predicate QuietFits(pc: ShellPc, active: bool) {
    match pc
    case Starting(phase, _, _) => phase.CheckActive? || phase.SpawnWorker? || !active
    case Running(tokens, _) => tokens != [] && IsLeaf(tokens[0]) && (active ==> Safe(tokens[0]))
    case _ => true
  }

  ghost predicate DepthFits(pc: ShellPc) {
    match pc
    case Dispatch(_, depth) => depth <= MAX_DEPTH + 1
    case Return(_, depth) => depth <= MAX_DEPTH + 1
    case Running(_, depth) => depth <= MAX_DEPTH
    case Script(depth) => depth <= MAX_DEPTH
    case ScriptLine(_, depth) => depth <= MAX_DEPTH
    case CheckStop(depth) => depth <= MAX_DEPTH
    case StoreStop(depth) => depth <= MAX_DEPTH
    case Starting(_, _, depth) => depth <= MAX_DEPTH
    case ClearInterrupted(next) => next.Return? ==> next.depth <= MAX_DEPTH
    case _ => true
  }

  // From its reset until the new worker is there the record belongs to no worker.
  predicate Taken(pc: ShellPc) {
    && pc.Starting?
    && (|| pc.phase.SetRecord? || pc.phase.SetRegister? || pc.phase.ClearStop? || pc.phase.SetActive?
        || pc.phase.SpawnWorker?)
  }

  ghost predicate RecordIsRight(s: State) {
    if Taken(s.shell) then
      var job := s.shell.phase.job;
      if s.shell.phase.SetRecord? then s.status == ResetTo(job.duration, JobName(job.kind))
      else FreshRecord(job, s.status)
    else s.workers != [] ==> RecordFits(s.workers[|s.workers| - 1], s.status)
  }

  ghost predicate JobsFit(s: State) {
    && (forall k | 0 <= k < |s.workers| :: WorkerInv(s.workers[k]))
    && (Taken(s.shell) || (s.shell.Starting? && s.shell.phase.ResetRecord?) ==>
          forall a <- s.shell.phase.job.addresses :: a <= 255)
  }

  ghost predicate Inv(s: State) {
    && ThreadsFit(s) && ShellFits(s) && ActiveFits(s) && QuietFits(s.shell, s.flags.active)
    && DepthFits(s.shell) && JobsFit(s) && RecordIsRight(s)
  }

  lemma InitFits()
    ensures Inv(Init())
  {
  }

  // ---------------------------------------------------------------------------------------------
  // Every step keeps it
  // ---------------------------------------------------------------------------------------------

  lemma SignalKeeps(s: State, e: Event)
    requires Inv(s)
    ensures Inv(NextSignal(s, e))
  {
    hide RecordFits, WorkerInv, FreshRecord, Safe, IsLeaf;
  }

  // A shell step that only moves the shell to a place where it relies on little.
  predicate Plain(pc: ShellPc) {
    !pc.Starting? && !pc.QuitStop? && !pc.QuitMove? && !pc.QuitJoin? && !pc.Gone? && !pc.Terminated?
    && (pc.ClearInterrupted? ==> pc.next.Prompt? || pc.next.Return?)
  }

  lemma LaunchFits(active: bool, tokens: seq<string>, depth: nat, input: Input)
    requires tokens != [] && tokens[0] != "" && (active ==> Safe(tokens[0])) && depth <= MAX_DEPTH
    ensures var pc := Launch(tokens, depth, input);
            (Plain(pc) || (pc.Starting? && pc.phase.CheckActive?)) && QuietFits(pc, active) && DepthFits(pc)
  {
    hide Safe;
  }

  lemma DispatchFits(active: bool, tokens: seq<string>, depth: nat, input: Input)
    requires depth <= MAX_DEPTH + 1
    ensures var pc := OnDispatch(active, tokens, depth, input);
            (Plain(pc) || (pc.Starting? && pc.phase.CheckActive?)) && QuietFits(pc, active) && DepthFits(pc)
  {
    hide Safe, Launch, QuietFits;
    if depth <= MAX_DEPTH && tokens != [] && tokens[0] != "" && (active ==> Safe(tokens[0])) {
      LaunchFits(active, tokens, depth, input);
    } else {
      ReturnFits(OnDispatch(active, tokens, depth, input), active);
    }
  }

  lemma ReturnFits(pc: ShellPc, active: bool)
    requires pc.Return?
    ensures QuietFits(pc, active)
  {
  }

  // Where Turn can lead.
  ghost predicate TurnFits(s: State, pc: ShellPc) {
    && (|| Plain(pc) || (pc.Starting? && pc.phase.CheckActive?)
        || (pc.Gone? && s.handle.None?) || ((pc.QuitStop? || pc.QuitMove?) && s.handle.Some?))
    && QuietFits(pc, s.flags.active) && DepthFits(pc)
  }

  predicate Turning(pc: ShellPc) {
    Plain(pc) && !pc.Prompt? && !pc.ClearInterrupted? && !pc.StoreStop?
  }

  lemma TurnIsFit(s: State, input: Input)
    requires Turning(s.shell) && QuietFits(s.shell, s.flags.active) && DepthFits(s.shell)
    ensures TurnFits(s, Turn(s, input))
  {
    hide Safe, IsLeaf, OnDispatch;
    if s.shell.Dispatch? {
      DispatchFits(s.flags.active, s.shell.tokens, s.shell.depth, input);
    }
  }

  lemma TurnKeeps(s: State, input: Input)
    requires Inv(s) && Turning(s.shell)
    ensures Inv(NextShell(s, input))
  {
    hide Turn, QuietFits, DepthFits, RecordFits, WorkerInv, FreshRecord;
    TurnIsFit(s, input);
  }

  lemma StoreKeeps(s: State, input: Input)
    requires Inv(s) && (s.shell.Prompt? || s.shell.ClearInterrupted? || s.shell.StoreStop?)
    ensures Inv(NextShell(s, input))
  {
    hide Safe, IsLeaf, RecordFits, WorkerInv, FreshRecord;
  }

  lemma QuitKeeps(s: State, input: Input)
    requires Inv(s)
    requires s.shell.QuitStop? || s.shell.QuitMove? || s.shell.QuitJoin? || s.shell.Gone?
    ensures Inv(NextShell(s, input))
  {
    hide Safe, IsLeaf, RecordFits, WorkerInv, FreshRecord;
  }

  // The phases up to the check of the arguments.
  lemma EarlyPhaseKeeps(s: State, phase: Phase, tokens: seq<string>, depth: nat, input: Input)
    requires Inv(s) && s.shell == Starting(phase, tokens, depth)
    requires phase.CheckActive? || phase.JoinCompleted? || phase.JoinWait? || phase.Prepare?
    ensures Inv(NextPhase(s, phase, tokens, depth, input))
  {
    hide RecordFits, WorkerInv, FreshRecord;
  }

  lemma RecordPhaseKeeps(s: State, phase: Phase, tokens: seq<string>, depth: nat, input: Input)
    requires Inv(s) && s.shell == Starting(phase, tokens, depth)
    requires phase.ResetRecord? || phase.SetRecord? || phase.SetRegister?
    ensures Inv(NextPhase(s, phase, tokens, depth, input))
  {
    hide RecordFits, WorkerInv;
  }

  lemma FlagPhaseKeeps(s: State, phase: Phase, tokens: seq<string>, depth: nat, input: Input)
    requires Inv(s) && s.shell == Starting(phase, tokens, depth)
    requires phase.ClearStop? || phase.SetActive?
    ensures Inv(NextPhase(s, phase, tokens, depth, input))
  {
    hide RecordFits, WorkerInv, FreshRecord;
  }

  lemma SpawnKeeps(s: State, phase: Phase, tokens: seq<string>, depth: nat, input: Input)
    requires Inv(s) && s.shell == Starting(phase, tokens, depth) && phase.SpawnWorker?
    ensures Inv(NextPhase(s, phase, tokens, depth, input))
  {
    hide RecordFits, WorkerInv, FreshRecord;
    FreshRecordFits(phase.job, s.status);
    NewWorkerFits(phase.job);
  }

  lemma ShellKeeps(s: State, input: Input)
    requires Inv(s)
    ensures Inv(NextShell(s, input))
  {
    hide Inv, Turn, NextPhase;
    if Turning(s.shell) {
      TurnKeeps(s, input);
    } else {
      match s.shell
      case Starting(phase, tokens, depth) =>
        if phase.CheckActive? || phase.JoinCompleted? || phase.JoinWait? || phase.Prepare? {
          EarlyPhaseKeeps(s, phase, tokens, depth, input);
        } else if phase.ResetRecord? || phase.SetRecord? || phase.SetRegister? {
          RecordPhaseKeeps(s, phase, tokens, depth, input);
        } else if phase.SpawnWorker? {
          SpawnKeeps(s, phase, tokens, depth, input);
        } else {
          FlagPhaseKeeps(s, phase, tokens, depth, input);
        }
      case QuitStop | QuitMove | QuitJoin(_) | Gone => QuitKeeps(s, input);
      case Terminated => NotTerminated(s);
      case ClearInterrupted(_) =>
        StoreKeeps(s, input);
      case _ =>
        StoreKeeps(s, input);
    }
  }

  lemma NotTerminated(s: State)
    requires Inv(s)
    ensures !s.shell.Terminated?
  {
  }

  lemma ExitedWorkerRests(w: Worker, stop: bool, intr: bool, prefix: string, answer: Answer)
    requires WorkerInv(w) && w.pc.Exited?
    ensures NextWorker(w, stop, intr, prefix, answer) == w && NextReader(w, stop, intr, answer) == w
  {
  }

  lemma OnlyTheLastRuns(s: State, k: nat)
    requires Inv(s) && k < |s.workers| && !s.workers[k].pc.Exited?
    ensures k == |s.workers| - 1 && WorkerInv(s.workers[k])
  {
    hide WorkerInv, RecordFits, FreshRecord;
  }

  lemma TakenMeansExited(s: State)
    requires Inv(s) && Taken(s.shell)
    ensures AllExited(s.workers)
  {
    hide WorkerInv, RecordFits, FreshRecord;
  }

  // Replacing the last worker, with the record and the active flag that go with it.
  lemma ReplacingKeeps(s: State, v: Worker, status: Status, active: bool)
    requires Inv(s) && s.workers != [] && !s.workers[|s.workers| - 1].pc.Exited? && !s.shell.Gone?
    requires WorkerInv(v) && RecordFits(v, status)
    requires active == (s.flags.active && !Ended(v.pc))
    requires Ended(s.workers[|s.workers| - 1].pc) ==> Ended(v.pc)
    ensures Inv(s.(workers := s.workers[|s.workers| - 1 := v], status := status, flags := s.flags.(active := active)))
  {
    hide WorkerInv, RecordFits, FreshRecord, Safe, IsLeaf;
    if Taken(s.shell) {
      TakenMeansExited(s);
    }
  }

  lemma ExitedStepsRest(s: State, k: nat, answer: Answer)
    requires Inv(s) && k < |s.workers| && s.workers[k].pc.Exited?
    ensures NextWork(s, k, answer) == s && NextRead(s, k, answer) == s
  {
    hide RecordFits, FreshRecord, NextWorker, NextReader;
    var w := s.workers[k];
    assert WorkerInv(w);
    ExitedWorkerRests(w, s.flags.stopRequested, s.flags.interrupted, s.status.filePrefix, answer);
    assert w.reader.NotStarted? || w.reader.ReaderDone?;
    assert s.workers[k := w] == s.workers;
  }

  // While a worker is alive the record is its own.
  lemma RecordIsTheWorkers(s: State, k: nat)
    requires Inv(s) && k < |s.workers| && !s.workers[k].pc.Exited?
    ensures RecordFits(s.workers[k], s.status) && s.status.filePrefix == s.workers[k].job.prefix
    ensures s.flags.active <==> !Ended(s.workers[k].pc)
    ensures !s.shell.Gone? && !Taken(s.shell)
  {
    hide FreshRecord, WorkerInv, CountersFit;
    OnlyTheLastRuns(s, k);
    if Taken(s.shell) {
      TakenMeansExited(s);
    }
  }

  lemma WorkKeeps(s: State, k: nat, answer: Answer)
    requires Inv(s) && k < |s.workers|
    ensures Inv(NextWork(s, k, answer))
  {
    hide Inv, WorkerInv, RecordFits, FreshRecord, NextWorker, WorkerStatus;
    var w := s.workers[k];
    if w.pc.Exited? {
      ExitedStepsRest(s, k, answer);
    } else {
      OnlyTheLastRuns(s, k);
      RecordIsTheWorkers(s, k);
      var stop, intr, prefix := s.flags.stopRequested, s.flags.interrupted, s.status.filePrefix;
      WorkerKeeps(w, stop, intr, prefix, answer);
      WorkerKeepsRecord(w, s.status, stop, intr, answer);
      WorkerMoves(w, stop, intr, prefix, answer);
      ReplacingKeeps(s, NextWorker(w, stop, intr, prefix, answer), WorkerStatus(w, s.status),
                     s.flags.active && !w.pc.ClearActive?);
    }
  }

  lemma ReadKeeps(s: State, k: nat, answer: Answer)
    requires Inv(s) && k < |s.workers|
    ensures Inv(NextRead(s, k, answer))
  {
    hide Inv, WorkerInv, RecordFits, FreshRecord, NextReader, ReaderStatus;
    var w := s.workers[k];
    if w.pc.Exited? {
      ExitedStepsRest(s, k, answer);
    } else {
      OnlyTheLastRuns(s, k);
      RecordIsTheWorkers(s, k);
      var stop, intr := s.flags.stopRequested, s.flags.interrupted;
      ReaderKeeps(w, stop, intr, answer);
      ReaderKeepsRecord(w, s.status, stop, intr, answer);
      ReaderLeavesWorker(w, stop, intr, answer);
      ReplacingKeeps(s, NextReader(w, stop, intr, answer), ReaderStatus(w, s.status), s.flags.active);
    }
  }

  lemma StepKeeps(s: State, e: Event)
    requires Inv(s)
    ensures Inv(NextState(s, e))
  {
    hide Inv, NextShell, NextWork, NextRead, NextSignal;
    match e
    case Shell(input) => ShellKeeps(s, input);
    case Work(k, answer) => if k < |s.workers| { WorkKeeps(s, k, answer); }
    case Read(k, answer) => if k < |s.workers| { ReadKeeps(s, k, answer); }
    case _ => SignalKeeps(s, e);
  }

  /** The invariant holds in every state of every run. */
  lemma {:induction false} RunKeeps(s: State, run: seq<Event>)
    requires Inv(s)
    ensures Inv(After(s, run))
    decreases |run|
  {
    hide Inv, NextState;
    if run != [] {
      RunKeeps(s, run[..|run| - 1]);
      StepKeeps(After(s, run[..|run| - 1]), run[|run| - 1]);
    }
  }
}
