/** The interactive shell of src/hero_shell.cc with its background acquisitions (src/commands.cc) and its
    SIGINT handler, as a transition system: every access to shared state is one step, and the steps of
    the threads interleave in any order. */
module Readout {
  import opened ReadoutStatus
  import opened Acquisition

  const MAX_DEPTH := 10

  datatype Option<T> = None | Some(value: T)

  // The atomic flags.
  datatype Shared = Shared(active: bool, stopRequested: bool, interrupted: bool)

  // do_readout and do_pedcalib_readout once they are asked to start a job.
  datatype Phase =
    | CheckActive(kind: JobKind) | JoinCompleted(kind: JobKind) | JoinWait(kind: JobKind) | Prepare(kind: JobKind)
    | ResetRecord(job: Job) | SetRecord(job: Job) | SetRegister(job: Job)
    | ClearStop(job: Job) | SetActive(job: Job) | SpawnWorker(job: Job)

  datatype ShellPc =
    | Prompt | ReadLine | LineLost(eof: bool)
    | Dispatch(tokens: seq<string>, depth: nat) | Running(tokens: seq<string>, depth: nat)
    | Script(depth: nat) | ScriptLine(tokens: seq<string>, depth: nat)
    | ClearInterrupted(next: ShellPc) | Return(ok: bool, depth: nat)
    | CheckStop(depth: nat) | StoreStop(depth: nat)
    | Starting(phase: Phase, tokens: seq<string>, depth: nat)
    | Quit | QuitStop | QuitMove | QuitJoin(worker: nat)
    | Gone | Terminated

  // loading and storing count the SIGINT handlers that are about to load the active flag, and those
  // that found it set and are about to store the stop request. handle is the joinable thread, if any.
  datatype State = State(
    flags: Shared,
    loading: nat,
    storing: nat,
    handle: Option<nat>,
    status: Status,
    workers: seq<Worker>,
    shell: ShellPc)

  function Init(): State {
    State(Shared(false, false, false), 0, 0, None, BLANK, [], Prompt)
  }

  // What the user, the script files and the server give the shell in one step.
  datatype Input =
    | Line(tokens: seq<string>) | Lost(eof: bool) | Result(ok: bool) | Cut | Ready(job: Job) | NotReady

  datatype Event =
    | Signal | SignalLoad | SignalStore
    | Shell(input: Input)
    | Work(worker: nat, answer: Answer)
    | Read(worker: nat, answer: Answer)

  // ---------------------------------------------------------------------------------------------
  // The shell
  // ---------------------------------------------------------------------------------------------

  // kReadoutSafeCommands.
  predicate Safe(name: string) {
    name in {"help", "sleep", "set", "get", "show", "list_devices", "list_detectors", "list_routers",
             "reconnect_device", "readout", "pedcalib_readout", "exit", "quit"}
  }

  predicate IsAcquisition(name: string) {
    name == "readout" || name == "pedcalib_readout"
  }

  // Commands that run in one function, away from scripts, acquisitions and exit.
  predicate IsLeaf(name: string) {
    && name != "" && name[0] != '@' && name[0] != '#'
    && !IsAcquisition(name) && name != "exit" && name != "quit"
  }

  function Acquire(tokens: seq<string>, depth: nat): ShellPc
    requires tokens != []
  {
    if |tokens| == 2 && tokens[1] == "status" then Return(true, depth)
    else if |tokens| == 2 && tokens[1] == "stop" then CheckStop(depth)
    else if tokens[0] == "pedcalib_readout" then Starting(CheckActive(Pedcalib), tokens, depth)
    else if |tokens| != 3 then Return(false, depth)
    else Starting(CheckActive(Readout), tokens, depth)
  }

  // The dispatch of execute_command; a script file that cannot be opened fails.
  function Launch(tokens: seq<string>, depth: nat, input: Input): ShellPc
    requires tokens != [] && tokens[0] != ""
  {
    var name := tokens[0];
    if IsAcquisition(name) then Acquire(tokens, depth)
    else if name == "exit" || name == "quit" then Quit
    else if name[0] == '#' then Return(true, depth)
    else if name[0] == '@' then if input.NotReady? then Return(false, depth) else Script(depth)
    else Running(tokens, depth)
  }

  function OnDispatch(active: bool, tokens: seq<string>, depth: nat, input: Input): ShellPc {
    if depth > MAX_DEPTH then Return(false, depth)
    else if tokens == [] || tokens[0] == "" then Return(true, depth)
    else if active && !Safe(tokens[0]) then Return(false, depth)
    else Launch(tokens, depth, input)
  }

  // Only sleep and connect look at the interrupt flag themselves; seeing it cuts them short.
  function OnRunning(s: State, tokens: seq<string>, depth: nat, input: Input): ShellPc {
    match input
    case Result(ok) => Return(ok, depth)
    case Cut =>
      if s.flags.interrupted && tokens != [] && (tokens[..1] == ["sleep"] || tokens[..1] == ["connect"])
      then ClearInterrupted(Return(false, depth)) else s.shell
    case _ => s.shell
  }

  // The steps that change nothing but the shell's own position.
  function Turn(s: State, input: Input): ShellPc {
    match s.shell
    case ReadLine => (match input case Line(t) => Dispatch(t, 0) case Lost(eof) => LineLost(eof) case _ => ReadLine)
    case LineLost(eof) =>
      if s.flags.interrupted then ClearInterrupted(Prompt) else if eof then Quit else Prompt
    case Dispatch(tokens, depth) => OnDispatch(s.flags.active, tokens, depth, input)
    case Running(tokens, depth) => OnRunning(s, tokens, depth, input)
    case Script(depth) =>
      (match input case Line(t) => ScriptLine(t, depth) case Lost(_) => Return(true, depth) case _ => s.shell)
    case ScriptLine(tokens, depth) =>
      if s.flags.interrupted then ClearInterrupted(Return(false, depth))
      else if tokens == [] || tokens[0] == "" || tokens[0][0] == '#' then Script(depth)
      else Dispatch(tokens, depth + 1)
    case Return(ok, depth) =>
      if depth == 0 then Prompt else if ok then Script(depth - 1) else Return(false, depth - 1)
    case CheckStop(depth) => if s.flags.active then StoreStop(depth) else Return(false, depth)
    case Quit => if s.handle.None? then Gone else if s.flags.active then QuitStop else QuitMove
    case _ => s.shell
  }

  function Stopping(flags: Shared): Shared {
    flags.(stopRequested := true)
  }

  function NextShell(s: State, input: Input): State {
    match s.shell
    case Prompt => s.(flags := s.flags.(interrupted := false), shell := ReadLine)
    case ClearInterrupted(next) => s.(flags := s.flags.(interrupted := false), shell := next)
    case StoreStop(depth) => s.(flags := Stopping(s.flags), shell := Return(true, depth))
    case Starting(phase, tokens, depth) => NextPhase(s, phase, tokens, depth, input)
    case QuitStop => s.(flags := Stopping(s.flags), shell := QuitMove)
    case QuitMove => if s.handle.Some? then s.(handle := None, shell := QuitJoin(s.handle.value)) else s
    case QuitJoin(k) => if Joinable(s, k) then s.(shell := if s.handle.Some? then Terminated else Gone) else s
    case _ => s.(shell := Turn(s, input))
  }

  // join returns when the thread has ended.
  predicate Joinable(s: State, k: nat) {
    k < |s.workers| && s.workers[k].pc.Exited?
  }

  // What prepare_readout and prepare_pedcalib let through.
  predicate ValidJob(job: Job, kind: JobKind, tokens: seq<string>) {
    && job.kind == kind && job.addresses != {} && (forall a <- job.addresses :: a <= 255)
    && |tokens| == (if kind.Readout? then 3 else 4)
    && (kind.Pedcalib? ==> |job.addresses| == 1)
  }

  function NextPhase(s: State, phase: Phase, tokens: seq<string>, depth: nat, input: Input): State {
    match phase
    case CheckActive(kind) =>
      s.(shell := if s.flags.active then Return(false, depth) else Starting(JoinCompleted(kind), tokens, depth))
    case JoinCompleted(kind) =>
      s.(shell := Starting(if !s.flags.active && s.handle.Some? then JoinWait(kind) else Prepare(kind), tokens, depth))
    case JoinWait(kind) =>
      if s.handle.Some? && Joinable(s, s.handle.value) then
        s.(handle := None, shell := Starting(Prepare(kind), tokens, depth))
      else s
    case Prepare(kind) =>
      if input.Ready? && ValidJob(input.job, kind, tokens) then
        s.(shell := Starting(ResetRecord(input.job), tokens, depth))
      else s.(shell := Return(false, depth))
    case ResetRecord(job) =>
      s.(status := ResetTo(job.duration, JobName(job.kind)), shell := Starting(SetRecord(job), tokens, depth))
    case SetRecord(job) =>
      s.(status := WithOutputs(s.status, job.prefix, job.prefix + "_hk", job.addresses),
         shell := Starting(if job.kind.Pedcalib? then SetRegister(job) else ClearStop(job), tokens, depth))
    case SetRegister(job) =>
      s.(status := s.status.(registerFilename := if |tokens| > 3 then tokens[3] else ""),
         shell := Starting(ClearStop(job), tokens, depth))
    case ClearStop(job) =>
      s.(flags := s.flags.(stopRequested := false), shell := Starting(SetActive(job), tokens, depth))
    case SetActive(job) =>
      s.(flags := s.flags.(active := true), shell := Starting(SpawnWorker(job), tokens, depth))
    // Assigning to a joinable thread handle ends the process.
    case SpawnWorker(job) =>
      if s.handle.Some? then s.(shell := Terminated)
      else s.(workers := s.workers + [NewWorker(job)], handle := Some(|s.workers|), shell := Return(true, depth))
  }

  // ---------------------------------------------------------------------------------------------
  // The whole system
  // ---------------------------------------------------------------------------------------------

  function NextWork(s: State, k: nat, answer: Answer): State
    requires k < |s.workers|
  {
    var w, flags := s.workers[k], s.flags;
    s.(workers := s.workers[k := NextWorker(w, flags.stopRequested, flags.interrupted, s.status.filePrefix, answer)],
       status := WorkerStatus(w, s.status),
       flags := s.flags.(active := s.flags.active && !w.pc.ClearActive?))
  }

  function NextRead(s: State, k: nat, answer: Answer): State
    requires k < |s.workers|
  {
    var w := s.workers[k];
    s.(workers := s.workers[k := NextReader(w, s.flags.stopRequested, s.flags.interrupted, answer)],
       status := ReaderStatus(w, s.status))
  }

  function NextSignal(s: State, e: Event): State {
    match e
    case Signal => s.(flags := s.flags.(interrupted := true), loading := s.loading + 1)
    case SignalLoad =>
      if s.loading == 0 then s
      else s.(loading := s.loading - 1, storing := s.storing + if s.flags.active then 1 else 0)
    case SignalStore => if s.storing == 0 then s else s.(storing := s.storing - 1, flags := Stopping(s.flags))
    case _ => s
  }

  // A step that is not possible leaves the state as it is; so does every step after the process ended.
  function NextState(s: State, e: Event): State {
    if s.shell.Gone? || s.shell.Terminated? then s
    else
      match e
      case Shell(input) => NextShell(s, input)
      case Work(k, answer) => if k < |s.workers| then NextWork(s, k, answer) else s
      case Read(k, answer) => if k < |s.workers| then NextRead(s, k, answer) else s
      case _ => NextSignal(s, e)
  }

  // The state after a run of events, in any interleaving.
  function After(s: State, run: seq<Event>): State {
    if run == [] then s else NextState(After(s, run[..|run| - 1]), run[|run| - 1])
  }
}
