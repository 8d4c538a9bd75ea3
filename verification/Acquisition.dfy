/** One acquisition job of src/commands.cc: the worker thread's function and its stream reader, one step
    per access to shared state, with the answers of the outside world as arguments. */
module Acquisition {
  import opened ReadoutStatus

  const FRAME_BYTES := 32768
  const HK_BYTES := 1024

  datatype JobKind = Readout | Pedcalib

  datatype Job = Job(kind: JobKind, duration: int, prefix: string, addresses: set<nat>)

  datatype ReplyKind = FrameData | HkData | OtherData

  datatype Reply = Reply(address: nat, kind: ReplyKind, value: seq<bv8>)

  // What the outside world answers to one step.
  datatype Answer = Good | Bad(partial: seq<bv8>) | Next(reply: Reply) | EndOfStream

  datatype WorkerPc =
    | OpenFiles | ShareOutputs | WriteLog | StartStream | SpawnReader | MarkStarted
    | Loop | LoopStop | LoopInterrupted | LoopReader
    | StopStream | CancelStream | JoinReader
    | FinalStop | FinalInterrupted | FinalResult
    | AfterReadout | Calibrating | LoadStop | FinishStatus | ClearActive | Exiting | Exited

  datatype ReaderPc =
    | NotStarted | Reading | WriteFrame(address: nat, data: seq<bv8>) | CountLocal(address: nat)
    | CountShared(address: nat) | WriteHk(hk: seq<bv8>) | ReaderStop | ReaderInterrupted
    | FinishStream | SetDone | ReaderDone

  // The calls whose order matters; a calibration is recorded with the prefix of the files it reads.
  datatype Call = StartCall | StopCall | CancelCall | JoinCall | CalibrateCall(prefix: string)

  datatype Failure = DataWrite(file: nat) | HkWrite | StreamError | EarlyClose

  // What the worker finds out: whether the server accepted the stop, whether its final check saw a stop,
  // whether the calibration ended well, its result, and the stop flag as it is reported.
  datatype Verdict = Verdict(stopOk: bool, halted: bool, calibrated: bool, success: bool, stopSeen: bool)

  // received, calls and failures are the history of the job. readout_failed is set exactly when a failure
  // is added, reader_done when the reader gets to ReaderDone.
  datatype Worker = Worker(
    job: Job,
    pc: WorkerPc,
    reader: ReaderPc,
    files: map<nat, seq<bv8>>,
    counters: map<nat, nat>,
    received: seq<Reply>,
    calls: seq<Call>,
    failures: set<Failure>,
    verdict: Verdict)

  function NewWorker(job: Job): Worker {
    Worker(job, OpenFiles, NotStarted, map[], map[], [], [], {}, Verdict(true, false, false, false, false))
  }

  function Failing(w: Worker, f: Failure): Worker {
    w.(failures := w.failures + {f})
  }

  function Calling(w: Worker, c: Call, pc: WorkerPc): Worker {
    w.(calls := w.calls + [c], pc := pc)
  }

  // Files, log and the start of the stream; every failure ends the readout.
  function SetupStep(w: Worker, answer: Answer): Worker
    requires InSetup(w.pc)
  {
    if !answer.Good? && !w.pc.ShareOutputs? then w.(pc := AfterReadout)
    else
      match w.pc
      case OpenFiles =>
        w.(pc := ShareOutputs, files := map a | a in w.job.addresses :: [],
           counters := map a | a in w.job.addresses :: 0)
      case ShareOutputs => w.(pc := WriteLog)
      case WriteLog => w.(pc := StartStream)
      case StartStream => Calling(w, StartCall, SpawnReader)
  }

  predicate InSetup(pc: WorkerPc) {
    pc.OpenFiles? || pc.ShareOutputs? || pc.WriteLog? || pc.StartStream?
  }

  // The reader is started; once a second the worker looks for a reason to stop.
  function LoopStep(w: Worker, stopRequested: bool, interrupted: bool, answer: Answer): Worker
    requires InLoop(w.pc)
  {
    match w.pc
    case SpawnReader => w.(pc := MarkStarted, reader := Reading)
    case MarkStarted => w.(pc := Loop)
    // A bad answer here means that the duration has passed.
    case Loop => w.(pc := if answer.Good? then LoopStop else StopStream)
    case LoopStop => w.(pc := if stopRequested then StopStream else LoopInterrupted)
    case LoopInterrupted => w.(pc := if interrupted then StopStream else LoopReader)
    case LoopReader => if w.reader.ReaderDone? then Failing(w, EarlyClose).(pc := StopStream) else w.(pc := Loop)
  }

  predicate InLoop(pc: WorkerPc) {
    pc.SpawnReader? || pc.MarkStarted? || pc.Loop? || pc.LoopStop? || pc.LoopInterrupted? || pc.LoopReader?
  }

  function ShutdownStep(w: Worker, answer: Answer): Worker
    requires InShutdown(w.pc)
  {
    match w.pc
    case StopStream => Calling(w, StopCall, CancelStream).(verdict := w.verdict.(stopOk := answer.Good?))
    case CancelStream => Calling(w, CancelCall, JoinReader)
    case JoinReader => if w.reader.ReaderDone? then Calling(w, JoinCall, FinalStop) else w
  }

  predicate InShutdown(pc: WorkerPc) {
    pc.StopStream? || pc.CancelStream? || pc.JoinReader?
  }

  function Halted(w: Worker): Worker {
    w.(verdict := w.verdict.(halted := true), pc := AfterReadout)
  }

  function FinalStep(w: Worker, stopRequested: bool, interrupted: bool): Worker
    requires InFinal(w.pc)
  {
    match w.pc
    case FinalStop => if stopRequested then Halted(w) else w.(pc := FinalInterrupted)
    case FinalInterrupted => if interrupted then Halted(w) else w.(pc := FinalResult)
    case FinalResult => w.(verdict := w.verdict.(success := w.verdict.stopOk && w.failures == {}), pc := AfterReadout)
  }

  predicate InFinal(pc: WorkerPc) {
    pc.FinalStop? || pc.FinalInterrupted? || pc.FinalResult?
  }

  // From the return of do_readout_foreground to the end of the thread.
  function EndStep(w: Worker, stopRequested: bool, prefix: string, answer: Answer): Worker
    requires InEnd(w.pc)
  {
    match w.pc
    case AfterReadout => w.(pc := if w.verdict.success && w.job.kind.Pedcalib? then Calibrating else LoadStop)
    case Calibrating =>
      Calling(w, CalibrateCall(prefix), LoadStop)
      .(verdict := w.verdict.(calibrated := answer.Good?, success := answer.Good?))
    case LoadStop => w.(verdict := w.verdict.(stopSeen := stopRequested), pc := FinishStatus)
    case FinishStatus => w.(pc := ClearActive)
    case ClearActive => w.(pc := Exiting)
    case Exiting => w.(pc := Exited)
    case Exited => w
  }

  predicate InEnd(pc: WorkerPc) {
    pc.AfterReadout? || pc.Calibrating? || pc.LoadStop? || pc.FinishStatus? || pc.ClearActive? || Ended(pc)
  }

  // The thread has cleared the active flag.
  predicate Ended(pc: WorkerPc) {
    pc.Exiting? || pc.Exited?
  }

  /** The worker thread, from do_readout_foreground to the end of the thread function. */
  function NextWorker(w: Worker, stopRequested: bool, interrupted: bool, prefix: string, answer: Answer): Worker {
    if InSetup(w.pc) then SetupStep(w, answer)
    else if InLoop(w.pc) then LoopStep(w, stopRequested, interrupted, answer)
    else if InShutdown(w.pc) then ShutdownStep(w, answer)
    else if InFinal(w.pc) then FinalStep(w, stopRequested, interrupted)
    else EndStep(w, stopRequested, prefix, answer)
  }

  // What the worker's step does to the status record.
  function WorkerStatus(w: Worker, s: Status): Status {
    match w.pc
    case ShareOutputs => WithOutputs(s, w.job.prefix, w.job.prefix + "_hk", w.job.addresses)
    case MarkStarted => Started(s)
    case FinishStatus => Finished(s, w.verdict.success, w.verdict.stopSeen)
    case _ => s
  }

  // The frames that are not dropped.
  predicate Kept(addresses: set<nat>, r: Reply) {
    r.address <= 255 && r.kind.FrameData? && |r.value| == 32768 && r.address in addresses
  }

  // What the reader does with a reply. Dropped ones go on without looking at the stop flags.
  function OnReply(w: Worker, r: Reply): ReaderPc {
    if r.address > 255 then Reading
    else
      match r.kind
      case FrameData =>
        if |r.value| != FRAME_BYTES || r.address !in w.counters || r.address !in w.files then Reading
        else WriteFrame(r.address, r.value)
      case HkData => if |r.value| != HK_BYTES then Reading else WriteHk(r.value)
      case OtherData => Reading
  }

  function ReceiveStep(w: Worker, answer: Answer): Worker {
    match answer
    case EndOfStream => w.(reader := FinishStream)
    case Next(r) => w.(received := w.received + [r], reader := OnReply(w, r))
    case _ => w
  }

  // A frame that could not be written is not counted, and reading goes on without a look at the flags.
  function WriteStep(w: Worker, address: nat, data: seq<bv8>, answer: Answer): Worker {
    var file := if address in w.files then w.files[address] else [];
    if answer.Bad? then
      Failing(w, DataWrite(address)).(files := w.files[address := file + answer.partial], reader := Reading)
    else w.(files := w.files[address := file + data], reader := CountLocal(address))
  }

  // The steps that touch neither frame files nor local counters.
  function TurnStep(w: Worker, stopRequested: bool, interrupted: bool, answer: Answer): Worker {
    match w.reader
    case CountShared(address) => w.(reader := ReaderStop)
    case WriteHk(_) => (if answer.Bad? then Failing(w, HkWrite) else w).(reader := ReaderStop)
    case ReaderStop => w.(reader := if stopRequested then FinishStream else ReaderInterrupted)
    case ReaderInterrupted => w.(reader := if interrupted then FinishStream else Reading)
    case FinishStream => (if answer.Bad? then Failing(w, StreamError) else w).(reader := SetDone)
    case SetDone => w.(reader := ReaderDone)
    case _ => w
  }

  function CountStep(w: Worker, address: nat): Worker {
    w.(counters := Incremented(w.counters, address), reader := CountShared(address))
  }

  /** The reader thread. */
  function NextReader(w: Worker, stopRequested: bool, interrupted: bool, answer: Answer): Worker {
    match w.reader
    case Reading => ReceiveStep(w, answer)
    case WriteFrame(address, data) => WriteStep(w, address, data, answer)
    case CountLocal(address) => CountStep(w, address)
    case _ => TurnStep(w, stopRequested, interrupted, answer)
  }

  function ReaderStatus(w: Worker, s: Status): Status {
    match w.reader
    case CountShared(address) => s.(counters := Incremented(s.counters, address))
    case _ => s
  }

  // ---------------------------------------------------------------------------------------------
  // What every job keeps
  // ---------------------------------------------------------------------------------------------

  const STREAM_CALLS := [StartCall, StopCall, CancelCall, JoinCall]

  // The readout itself succeeded: only then is a calibration started.
  ghost predicate ReadoutSucceeded(w: Worker) {
    StreamEnded(w) && w.verdict.stopOk && w.failures == {} && !w.verdict.halted
  }

  // The stream was started, stopped, cancelled and joined, each once and in this order.
  ghost predicate StreamEnded(w: Worker) {
    w.calls == STREAM_CALLS || IsCalibrated(w)
  }

  // One more call followed: the calibration on the files of this job.
  ghost predicate IsCalibrated(w: Worker) {
    w.calls == STREAM_CALLS + [CalibrateCall(w.job.prefix)]
  }

  ghost predicate CallsInOrder(w: Worker) {
    && (InSetup(w.pc) ==> w.calls == [])
    && (InLoop(w.pc) || w.pc.StopStream? ==> w.calls == [StartCall])
    && (w.pc.CancelStream? ==> w.calls == [StartCall, StopCall])
    && (w.pc.JoinReader? ==> w.calls == [StartCall, StopCall, CancelCall])
    && (InFinal(w.pc) || w.pc.Calibrating? ==> w.calls == STREAM_CALLS)
    && (w.pc.AfterReadout? ==> w.calls == [] || w.calls == STREAM_CALLS)
    && (InEnd(w.pc) ==> w.calls == [] || StreamEnded(w))
  }

  ghost predicate ReaderFits(w: Worker) {
    && (w.reader.NotStarted? <==> w.calls == [] || w.pc.SpawnReader?)
    && (InFinal(w.pc) || InEnd(w.pc) ==> w.reader.NotStarted? || w.reader.ReaderDone?)
  }

  ghost predicate FailuresFit(w: Worker) {
    w.reader.NotStarted? ==> w.failures == {} && w.received == []
  }

  ghost predicate ResultFits(w: Worker) {
    && (!InEnd(w.pc) ==> !w.verdict.halted && !w.verdict.success && !w.verdict.calibrated)
    && (w.pc.AfterReadout? || w.pc.Calibrating? ==>
          !w.verdict.calibrated && (w.verdict.success <==> ReadoutSucceeded(w)))
    && (w.pc.Calibrating? ==> w.verdict.success && w.job.kind.Pedcalib?)
    && (InEnd(w.pc) && !w.pc.AfterReadout? && !w.pc.Calibrating? ==>
          && (w.verdict.success <==> ReadoutSucceeded(w) && (w.job.kind.Pedcalib? ==> w.verdict.calibrated))
          && (IsCalibrated(w) <==> ReadoutSucceeded(w) && w.job.kind.Pedcalib?))
  }

  function FramesFor(addresses: set<nat>, received: seq<Reply>, a: nat): seq<bv8> {
    if received == [] then [] else
      var n := |received| - 1;
      FramesFor(addresses, received[..n], a)
      + if Kept(addresses, received[n]) && received[n].address == a then received[n].value else []
  }

  // The frame the reader holds but has not written yet.
  function InHand(r: ReaderPc, a: nat): seq<bv8> {
    if r.WriteFrame? && r.address == a then r.data else []
  }

  ghost predicate FilesFit(w: Worker) {
    && (!w.pc.OpenFiles? && !InEnd(w.pc) ==> w.files.Keys == w.counters.Keys == w.job.addresses)
    && (!w.reader.NotStarted? ==> w.files.Keys == w.counters.Keys == w.job.addresses)
    && (w.reader.WriteFrame? || w.reader.CountLocal? || w.reader.CountShared? ==> w.reader.address in w.job.addresses)
    && (w.reader.WriteFrame? ==> |w.reader.data| == FRAME_BYTES)
    && (w.reader.NotStarted? ==>
          (forall a <- w.files.Keys :: w.files[a] == []) && (forall a <- w.counters.Keys :: w.counters[a] == 0))
  }

  // Every file that was written without failure holds the frames received for its address, in order; the
  // local counter counts them.
  ghost predicate FilesAreTheStream(w: Worker) {
    !w.reader.NotStarted? ==>
      forall a <- w.job.addresses | DataWrite(a) !in w.failures :: FileIsTheStream(w, a)
  }

  ghost predicate FileIsTheStream(w: Worker, a: nat) {
    && a in w.files && a in w.counters
    && w.files[a] + InHand(w.reader, a) == FramesFor(w.job.addresses, w.received, a)
    && |w.files[a]| == FRAME_BYTES * (w.counters[a] + if w.reader == CountLocal(a) then 1 else 0)
  }

  ghost predicate Controlled(w: Worker) {
    CallsInOrder(w) && ReaderFits(w) && FailuresFit(w) && ResultFits(w)
  }

  ghost predicate WorkerInv(w: Worker) {
    && (forall a <- w.job.addresses :: a <= 255)
    && Controlled(w) && FilesFit(w) && FilesAreTheStream(w)
  }

  // ---------------------------------------------------------------------------------------------
  // Every step keeps it
  // ---------------------------------------------------------------------------------------------

  lemma NewWorkerFits(job: Job)
    requires forall a <- job.addresses :: a <= 255
    ensures WorkerInv(NewWorker(job))
  {
  }

  lemma SetupKeeps(w: Worker, answer: Answer)
    requires InSetup(w.pc) && Controlled(w)
    ensures Controlled(SetupStep(w, answer))
  {
  }

  lemma SetupKeepsFiles(w: Worker, answer: Answer)
    requires InSetup(w.pc) && WorkerInv(w)
    ensures FilesFit(SetupStep(w, answer)) && FilesAreTheStream(SetupStep(w, answer))
    ensures SetupStep(w, answer).job == w.job
  {
  }

  lemma LoopKeeps(w: Worker, stop: bool, intr: bool, answer: Answer)
    requires InLoop(w.pc) && Controlled(w)
    ensures Controlled(LoopStep(w, stop, intr, answer))
  {
  }

  lemma LoopKeepsFiles(w: Worker, stop: bool, intr: bool, answer: Answer)
    requires InLoop(w.pc) && WorkerInv(w)
    ensures FilesFit(LoopStep(w, stop, intr, answer)) && FilesAreTheStream(LoopStep(w, stop, intr, answer))
    ensures LoopStep(w, stop, intr, answer).job == w.job
  {
  }

  lemma ShutdownKeeps(w: Worker, answer: Answer)
    requires InShutdown(w.pc) && Controlled(w)
    ensures Controlled(ShutdownStep(w, answer))
  {
  }

  lemma ShutdownKeepsFiles(w: Worker, answer: Answer)
    requires InShutdown(w.pc) && WorkerInv(w)
    ensures FilesFit(ShutdownStep(w, answer)) && FilesAreTheStream(ShutdownStep(w, answer))
    ensures ShutdownStep(w, answer).job == w.job
  {
  }

  lemma FinalKeeps(w: Worker, stop: bool, intr: bool)
    requires InFinal(w.pc) && Controlled(w)
    ensures Controlled(FinalStep(w, stop, intr))
  {
  }

  lemma FinalKeepsFiles(w: Worker, stop: bool, intr: bool)
    requires InFinal(w.pc) && WorkerInv(w)
    ensures FilesFit(FinalStep(w, stop, intr)) && FilesAreTheStream(FinalStep(w, stop, intr))
    ensures FinalStep(w, stop, intr).job == w.job
  {
  }

  lemma EndKeeps(w: Worker, stop: bool, prefix: string, answer: Answer)
    requires InEnd(w.pc) && Controlled(w) && (w.pc.Calibrating? ==> prefix == w.job.prefix)
    ensures Controlled(EndStep(w, stop, prefix, answer))
  {
  }

  lemma EndKeepsFiles(w: Worker, stop: bool, prefix: string, answer: Answer)
    requires InEnd(w.pc) && WorkerInv(w)
    ensures FilesFit(EndStep(w, stop, prefix, answer)) && FilesAreTheStream(EndStep(w, stop, prefix, answer))
    ensures EndStep(w, stop, prefix, answer).job == w.job
  {
  }

  lemma WorkerKeeps(w: Worker, stop: bool, intr: bool, prefix: string, answer: Answer)
    requires WorkerInv(w) && (w.pc.Calibrating? ==> prefix == w.job.prefix)
    ensures WorkerInv(NextWorker(w, stop, intr, prefix, answer))
  {
    hide Controlled, FilesFit, FilesAreTheStream, SetupStep, LoopStep, ShutdownStep, FinalStep, EndStep;
    if InSetup(w.pc) {
      SetupKeeps(w, answer);
      SetupKeepsFiles(w, answer);
    } else if InLoop(w.pc) {
      LoopKeeps(w, stop, intr, answer);
      LoopKeepsFiles(w, stop, intr, answer);
    } else if InShutdown(w.pc) {
      ShutdownKeeps(w, answer);
      ShutdownKeepsFiles(w, answer);
    } else if InFinal(w.pc) {
      FinalKeeps(w, stop, intr);
      FinalKeepsFiles(w, stop, intr);
    } else {
      EndKeeps(w, stop, prefix, answer);
      EndKeepsFiles(w, stop, prefix, answer);
    }
  }

  // The reader changes nothing that belongs to the worker.
  ghost predicate ReaderFrame(w: Worker, v: Worker) {
    && v.job == w.job && v.pc == w.pc && v.calls == w.calls && v.verdict == w.verdict
    && !w.reader.NotStarted? && !w.reader.ReaderDone? && !v.reader.NotStarted?
  }

  lemma FrameKeeps(w: Worker, v: Worker)
    requires Controlled(w) && ReaderFrame(w, v)
    ensures Controlled(v)
  {
  }

  lemma ReceivingKeeps(w: Worker, answer: Answer)
    requires WorkerInv(w) && w.reader.Reading?
    ensures var v := ReceiveStep(w, answer); ReaderFrame(w, v) && FilesFit(v) && FilesAreTheStream(v)
  {
    hide Controlled, FramesFor, FileIsTheStream, FilesAreTheStream;
    ReceivingKeepsStream(w, answer);
  }

  lemma ReceivingKeepsStream(w: Worker, answer: Answer)
    requires (forall a <- w.job.addresses :: a <= 255) && FilesFit(w) && FilesAreTheStream(w) && w.reader.Reading?
    ensures FilesAreTheStream(ReceiveStep(w, answer))
  {
    hide FilesFit, FileIsTheStream, ReceiveStep;
    var v := ReceiveStep(w, answer);
    ReceivingFrame(w, answer);
    forall a | a in w.job.addresses && DataWrite(a) !in w.failures ensures FileIsTheStream(v, a) {
      ReceivingKeepsFile(w, answer, a);
    }
  }

  lemma ReceivingFrame(w: Worker, answer: Answer)
    ensures var v := ReceiveStep(w, answer); v.job == w.job && v.failures == w.failures
  {
  }

  lemma ReceivingKeepsFile(w: Worker, answer: Answer, a: nat)
    requires (forall b <- w.job.addresses :: b <= 255) && FilesFit(w) && a in w.job.addresses && w.reader.Reading?
    requires FileIsTheStream(w, a)
    ensures FileIsTheStream(ReceiveStep(w, answer), a)
  {
    hide FilesFit, FramesFor, OnReply;
    if answer.Next? {
      OneMoreReply(w, answer.reply, a);
      ReplyIsNotCounted(w, answer.reply);
    }
  }

  lemma ReplyIsNotCounted(w: Worker, r: Reply)
    ensures !OnReply(w, r).CountLocal?
  {
  }

  lemma OneMoreReply(w: Worker, r: Reply, a: nat)
    requires (forall b <- w.job.addresses :: b <= 255) && FilesFit(w) && a in w.job.addresses && w.reader.Reading?
    ensures FramesFor(w.job.addresses, w.received + [r], a)
            == FramesFor(w.job.addresses, w.received, a) + InHand(OnReply(w, r), a)
  {
    assert (w.received + [r])[..|w.received|] == w.received;
  }

  lemma WritingKeeps(w: Worker, answer: Answer)
    requires WorkerInv(w) && w.reader.WriteFrame?
    ensures var v := WriteStep(w, w.reader.address, w.reader.data, answer);
            ReaderFrame(w, v) && FilesFit(v) && FilesAreTheStream(v)
  {
  }

  lemma CountingKeeps(w: Worker)
    requires WorkerInv(w) && w.reader.CountLocal?
    ensures var v := CountStep(w, w.reader.address); ReaderFrame(w, v) && FilesFit(v) && FilesAreTheStream(v)
  {
  }

  lemma TurnFrame(w: Worker, stop: bool, intr: bool, answer: Answer)
    requires !w.reader.Reading? && !w.reader.WriteFrame? && !w.reader.CountLocal?
    ensures var v := TurnStep(w, stop, intr, answer);
            && (w.reader.NotStarted? || w.reader.ReaderDone? ==> v == w)
            && (!w.reader.NotStarted? && !w.reader.ReaderDone? ==> ReaderFrame(w, v))
            && v.files == w.files && v.counters == w.counters && v.received == w.received
            && w.failures <= v.failures
            && !v.reader.WriteFrame? && !v.reader.CountLocal? && !v.reader.CountShared?
  {
  }

  lemma TurningKeeps(w: Worker, stop: bool, intr: bool, answer: Answer)
    requires WorkerInv(w) && !w.reader.Reading? && !w.reader.WriteFrame? && !w.reader.CountLocal?
    ensures var v := TurnStep(w, stop, intr, answer); FilesFit(v) && FilesAreTheStream(v)
  {
    hide TurnStep, Controlled, FramesFor;
    TurnFrame(w, stop, intr, answer);
  }

  lemma ReaderKeeps(w: Worker, stop: bool, intr: bool, answer: Answer)
    requires WorkerInv(w)
    ensures WorkerInv(NextReader(w, stop, intr, answer))
  {
    hide Controlled, FilesFit, FilesAreTheStream, ReceiveStep, WriteStep, CountStep, TurnStep;
    match w.reader
    case Reading =>
      ReceivingKeeps(w, answer);
      FrameKeeps(w, ReceiveStep(w, answer));
    case WriteFrame(address, data) =>
      WritingKeeps(w, answer);
      FrameKeeps(w, WriteStep(w, address, data, answer));
    case CountLocal(address) =>
      CountingKeeps(w);
      FrameKeeps(w, CountStep(w, address));
    case _ =>
      TurningKeeps(w, stop, intr, answer);
      TurnFrame(w, stop, intr, answer);
      if TurnStep(w, stop, intr, answer) != w {
        FrameKeeps(w, TurnStep(w, stop, intr, answer));
      }
  }

  // ---------------------------------------------------------------------------------------------
  // When a failure is recorded
  // ---------------------------------------------------------------------------------------------

  lemma SetupRecordsNoFailure(w: Worker, answer: Answer)
    requires InSetup(w.pc)
    ensures SetupStep(w, answer).failures == w.failures
  {
  }

  lemma ShutdownRecordsNoFailure(w: Worker, answer: Answer)
    requires InShutdown(w.pc)
    ensures ShutdownStep(w, answer).failures == w.failures
  {
  }

  lemma FinalRecordsNoFailure(w: Worker, stop: bool, intr: bool)
    requires InFinal(w.pc)
    ensures FinalStep(w, stop, intr).failures == w.failures
  {
  }

  lemma EndRecordsNoFailure(w: Worker, stop: bool, prefix: string, answer: Answer)
    requires InEnd(w.pc)
    ensures EndStep(w, stop, prefix, answer).failures == w.failures
  {
  }

  // The worker finds the reader done while it still waits for the end of the duration.
  predicate NoticesClose(w: Worker) {
    w.pc.LoopReader? && w.reader.ReaderDone?
  }

  lemma LoopRecordsClose(w: Worker, stop: bool, intr: bool, answer: Answer, f: Failure)
    requires InLoop(w.pc)
    ensures f in LoopStep(w, stop, intr, answer).failures <==> f in w.failures || (f.EarlyClose? && NoticesClose(w))
  {
  }

  lemma WorkerFailures(w: Worker, stop: bool, intr: bool, prefix: string, answer: Answer, f: Failure)
    ensures f in NextWorker(w, stop, intr, prefix, answer).failures
            <==> f in w.failures || (f.EarlyClose? && NoticesClose(w))
  {
    hide SetupStep, LoopStep, ShutdownStep, FinalStep, EndStep;
    if InSetup(w.pc) {
      SetupRecordsNoFailure(w, answer);
    } else if InLoop(w.pc) {
      LoopRecordsClose(w, stop, intr, answer, f);
    } else if InShutdown(w.pc) {
      ShutdownRecordsNoFailure(w, answer);
    } else if InFinal(w.pc) {
      FinalRecordsNoFailure(w, stop, intr);
    } else {
      EndRecordsNoFailure(w, stop, prefix, answer);
    }
  }

  // The step of the reader that fails in the given way.
  predicate ReaderFails(w: Worker, answer: Answer, f: Failure) {
    && answer.Bad?
    && match f
       case DataWrite(a) => w.reader.WriteFrame? && w.reader.address == a
       case HkWrite => w.reader.WriteHk?
       case StreamError => w.reader.FinishStream?
       case EarlyClose => false
  }

  lemma TurnFailures(w: Worker, stop: bool, intr: bool, answer: Answer, f: Failure)
    requires !w.reader.WriteFrame?
    ensures f in TurnStep(w, stop, intr, answer).failures <==> f in w.failures || ReaderFails(w, answer, f)
  {
  }

  lemma WriteFailures(w: Worker, address: nat, data: seq<bv8>, answer: Answer, f: Failure)
    ensures f in WriteStep(w, address, data, answer).failures
            <==> f in w.failures || (answer.Bad? && f == DataWrite(address))
  {
  }

  lemma ReaderFailures(w: Worker, stop: bool, intr: bool, answer: Answer, f: Failure)
    ensures f in NextReader(w, stop, intr, answer).failures <==> f in w.failures || ReaderFails(w, answer, f)
  {
    hide TurnStep, WriteStep;
    match w.reader
    case Reading =>
    case WriteFrame(address, data) => WriteFailures(w, address, data, answer, f);
    case CountLocal(_) =>
    case _ => TurnFailures(w, stop, intr, answer, f);
  }

  lemma SetupHaltsNothing(w: Worker, answer: Answer)
    requires InSetup(w.pc)
    ensures SetupStep(w, answer).verdict.halted == w.verdict.halted
  {
  }

  lemma LoopHaltsNothing(w: Worker, stop: bool, intr: bool, answer: Answer)
    requires InLoop(w.pc)
    ensures LoopStep(w, stop, intr, answer).verdict.halted == w.verdict.halted
  {
  }

  lemma ShutdownHaltsNothing(w: Worker, answer: Answer)
    requires InShutdown(w.pc)
    ensures ShutdownStep(w, answer).verdict.halted == w.verdict.halted
  {
  }

  lemma EndHaltsNothing(w: Worker, stop: bool, prefix: string, answer: Answer)
    requires InEnd(w.pc)
    ensures EndStep(w, stop, prefix, answer).verdict.halted == w.verdict.halted
  {
  }

  // The final check finds a flag set.
  predicate Halts(w: Worker, stop: bool, intr: bool) {
    (w.pc.FinalStop? && stop) || (w.pc.FinalInterrupted? && intr)
  }

  lemma FinalHalts(w: Worker, stop: bool, intr: bool)
    requires InFinal(w.pc)
    ensures FinalStep(w, stop, intr).verdict.halted <==> w.verdict.halted || Halts(w, stop, intr)
  {
  }

  lemma WorkerHalts(w: Worker, stop: bool, intr: bool, prefix: string, answer: Answer)
    ensures NextWorker(w, stop, intr, prefix, answer).verdict.halted <==> w.verdict.halted || Halts(w, stop, intr)
  {
    hide SetupStep, LoopStep, ShutdownStep, FinalStep, EndStep;
    if InSetup(w.pc) {
      SetupHaltsNothing(w, answer);
    } else if InLoop(w.pc) {
      LoopHaltsNothing(w, stop, intr, answer);
    } else if InShutdown(w.pc) {
      ShutdownHaltsNothing(w, answer);
    } else if InFinal(w.pc) {
      FinalHalts(w, stop, intr);
    } else {
      EndHaltsNothing(w, stop, prefix, answer);
    }
  }

  // ---------------------------------------------------------------------------------------------
  // The status record of the job
  // ---------------------------------------------------------------------------------------------

  function JobName(kind: JobKind): string {
    if kind.Readout? then "readout" else "pedcalib_readout"
  }

  // The record as the shell leaves it for a new job.
  ghost predicate FreshRecord(job: Job, s: Status) {
    && s.jobName == JobName(job.kind) && s.duration == job.duration
    && s.filePrefix == job.prefix && s.hkFilename == job.prefix + "_hk"
    && s.flags == Flags(false, false, false, false)
    && s.counters.Keys == job.addresses && forall a <- job.addresses :: s.counters[a] == 0
  }

  predicate HasResult(pc: WorkerPc) {
    pc.ClearActive? || Ended(pc)
  }

  // While the record belongs to the job it names the job's files, has a result as soon as the worker is
  // about to clear the active flag, and counts the frames written, with at most one to be added.
  ghost predicate RecordFits(w: Worker, s: Status) {
    && s.jobName == JobName(w.job.kind) && s.filePrefix == w.job.prefix && s.hkFilename == w.job.prefix + "_hk"
    && (s.flags.hasResult <==> HasResult(w.pc))
    && (HasResult(w.pc) ==>
          s.flags.succeeded == w.verdict.success && s.flags.stopRequested == w.verdict.stopSeen)
    && CountersFit(w, s.counters)
  }

  ghost predicate CountersFit(w: Worker, shared: map<nat, nat>) {
    && shared.Keys == w.job.addresses
    && forall a <- w.job.addresses ::
         if w.reader.NotStarted? then shared[a] == 0
         else a in w.counters && w.counters[a] == shared[a] + if w.reader == CountShared(a) then 1 else 0
  }

  lemma SetupMoves(w: Worker, answer: Answer)
    requires InSetup(w.pc)
    ensures !Ended(SetupStep(w, answer).pc)
  {
  }

  lemma LoopMoves(w: Worker, stop: bool, intr: bool, answer: Answer)
    requires InLoop(w.pc)
    ensures !Ended(LoopStep(w, stop, intr, answer).pc)
  {
  }

  lemma ShutdownMoves(w: Worker, answer: Answer)
    requires InShutdown(w.pc)
    ensures !Ended(ShutdownStep(w, answer).pc)
  {
  }

  lemma FinalMoves(w: Worker, stop: bool, intr: bool)
    requires InFinal(w.pc)
    ensures !Ended(FinalStep(w, stop, intr).pc)
  {
  }

  lemma EndMoves(w: Worker, stop: bool, prefix: string, answer: Answer)
    requires InEnd(w.pc)
    ensures Ended(EndStep(w, stop, prefix, answer).pc) <==> HasResult(w.pc)
  {
  }

  // What the rest of the system sees of a worker's step.
  lemma WorkerMoves(w: Worker, stop: bool, intr: bool, prefix: string, answer: Answer)
    ensures Ended(NextWorker(w, stop, intr, prefix, answer).pc) <==> HasResult(w.pc)
  {
    hide SetupStep, LoopStep, ShutdownStep, FinalStep, EndStep;
    if InSetup(w.pc) {
      SetupMoves(w, answer);
    } else if InLoop(w.pc) {
      LoopMoves(w, stop, intr, answer);
    } else if InShutdown(w.pc) {
      ShutdownMoves(w, answer);
    } else if InFinal(w.pc) {
      FinalMoves(w, stop, intr);
    } else {
      EndMoves(w, stop, prefix, answer);
    }
  }

  lemma ReaderLeavesWorker(w: Worker, stop: bool, intr: bool, answer: Answer)
    ensures var v := NextReader(w, stop, intr, answer); v.pc == w.pc && v.job == w.job && v.verdict == w.verdict
  {
    hide TurnStep;
    if !w.reader.Reading? && !w.reader.WriteFrame? && !w.reader.CountLocal? {
      TurnFrame(w, stop, intr, answer);
    }
  }

  lemma FreshRecordFits(job: Job, s: Status)
    requires FreshRecord(job, s)
    ensures RecordFits(NewWorker(job), s)
  {
  }

  lemma OutputsAreThere(w: Worker, s: Status)
    requires RecordFits(w, s)
    ensures WithOutputs(s, w.job.prefix, w.job.prefix + "_hk", w.job.addresses) == s
  {
  }

  lemma SetupKeepsRecord(w: Worker, s: Status, answer: Answer)
    requires InSetup(w.pc) && WorkerInv(w) && RecordFits(w, s)
    ensures RecordFits(SetupStep(w, answer), WorkerStatus(w, s))
  {
    OutputsAreThere(w, s);
    hide WithOutputs;
  }

  lemma LoopKeepsRecord(w: Worker, s: Status, stop: bool, intr: bool, answer: Answer)
    requires InLoop(w.pc) && WorkerInv(w) && RecordFits(w, s)
    ensures RecordFits(LoopStep(w, stop, intr, answer), WorkerStatus(w, s))
  {
    hide WithOutputs, CountersFit, Controlled, FilesFit, FilesAreTheStream;
    LoopKeepsCounters(w, s.counters, stop, intr, answer);
  }

  lemma LoopKeepsCounters(w: Worker, shared: map<nat, nat>, stop: bool, intr: bool, answer: Answer)
    requires InLoop(w.pc) && WorkerInv(w) && CountersFit(w, shared)
    ensures CountersFit(LoopStep(w, stop, intr, answer), shared)
  {
    hide FilesAreTheStream, ResultFits;
  }

  lemma ShutdownKeepsRecord(w: Worker, s: Status, answer: Answer)
    requires InShutdown(w.pc) && RecordFits(w, s)
    ensures RecordFits(ShutdownStep(w, answer), WorkerStatus(w, s))
  {
    hide WithOutputs;
  }

  lemma FinalKeepsRecord(w: Worker, s: Status, stop: bool, intr: bool)
    requires InFinal(w.pc) && RecordFits(w, s)
    ensures RecordFits(FinalStep(w, stop, intr), WorkerStatus(w, s))
  {
    hide WithOutputs;
  }

  lemma EndKeepsRecord(w: Worker, s: Status, stop: bool, answer: Answer)
    requires InEnd(w.pc) && RecordFits(w, s)
    ensures RecordFits(EndStep(w, stop, s.filePrefix, answer), WorkerStatus(w, s))
  {
    hide WithOutputs;
  }

  lemma WorkerKeepsRecord(w: Worker, s: Status, stop: bool, intr: bool, answer: Answer)
    requires WorkerInv(w) && RecordFits(w, s)
    ensures RecordFits(NextWorker(w, stop, intr, s.filePrefix, answer), WorkerStatus(w, s))
  {
    hide WorkerInv, RecordFits, WorkerStatus, SetupStep, LoopStep, ShutdownStep, FinalStep, EndStep;
    if InSetup(w.pc) {
      SetupKeepsRecord(w, s, answer);
    } else if InLoop(w.pc) {
      LoopKeepsRecord(w, s, stop, intr, answer);
    } else if InShutdown(w.pc) {
      ShutdownKeepsRecord(w, s, answer);
    } else if InFinal(w.pc) {
      FinalKeepsRecord(w, s, stop, intr);
    } else {
      EndKeepsRecord(w, s, stop, answer);
    }
  }

  lemma ReceivingKeepsRecord(w: Worker, s: Status, answer: Answer)
    requires w.reader.Reading? && RecordFits(w, s)
    ensures RecordFits(ReceiveStep(w, answer), s)
  {
  }

  lemma WritingKeepsRecord(w: Worker, s: Status, answer: Answer)
    requires w.reader.WriteFrame? && RecordFits(w, s)
    ensures RecordFits(WriteStep(w, w.reader.address, w.reader.data, answer), s)
  {
  }

  lemma CountingKeepsRecord(w: Worker, s: Status)
    requires w.reader.CountLocal? && WorkerInv(w) && RecordFits(w, s)
    ensures RecordFits(CountStep(w, w.reader.address), s)
  {
  }

  lemma SharingKeepsRecord(w: Worker, s: Status, stop: bool, intr: bool, answer: Answer)
    requires w.reader.CountShared? && WorkerInv(w) && RecordFits(w, s)
    ensures RecordFits(TurnStep(w, stop, intr, answer), ReaderStatus(w, s))
  {
  }

  lemma TurningKeepsRecord(w: Worker, s: Status, stop: bool, intr: bool, answer: Answer)
    requires !w.reader.Reading? && !w.reader.WriteFrame? && !w.reader.CountLocal? && !w.reader.CountShared?
    requires RecordFits(w, s)
    ensures RecordFits(TurnStep(w, stop, intr, answer), s)
  {
    hide TurnStep;
    TurnFrame(w, stop, intr, answer);
  }

  lemma ReaderKeepsRecord(w: Worker, s: Status, stop: bool, intr: bool, answer: Answer)
    requires WorkerInv(w) && RecordFits(w, s)
    ensures RecordFits(NextReader(w, stop, intr, answer), ReaderStatus(w, s))
  {
    hide WorkerInv, RecordFits, ReceiveStep, WriteStep, CountStep, TurnStep;
    match w.reader
    case Reading => ReceivingKeepsRecord(w, s, answer);
    case WriteFrame(_, _) => WritingKeepsRecord(w, s, answer);
    case CountLocal(_) => CountingKeepsRecord(w, s);
    case CountShared(_) => SharingKeepsRecord(w, s, stop, intr, answer);
    case _ => TurningKeepsRecord(w, s, stop, intr, answer);
  }
}
