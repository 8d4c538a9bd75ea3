/** When a worker looks for a reason to stop, and what it makes of the answers it gets, told from the steps of a run. */
module ReadoutPolls {
  import opened Acquisition
  import opened Readout
  import opened ReadoutResults
  import opened ReadoutStarts

  // ---------------------------------------------------------------------------------------------
  // What a step does to one worker
  // ---------------------------------------------------------------------------------------------

  predicate Ongoing(s: State) {
    !s.shell.Gone? && !s.shell.Terminated?
  }

  function WorkerAfter(s: State, e: Event, k: nat): Worker
    requires k < |s.workers|
  {
    var w, stop, intr := s.workers[k], s.flags.stopRequested, s.flags.interrupted;
    if !Ongoing(s) then w
    else
      match e
      case Work(j, answer) => if j == k then NextWorker(w, stop, intr, s.status.filePrefix, answer) else w
      case Read(j, answer) => if j == k then NextReader(w, stop, intr, answer) else w
      case _ => w
  }

  lemma StepIsWorkerAfter(s: State, e: Event, k: nat)
    requires k < |s.workers|
    ensures k < |NextState(s, e).workers| && NextState(s, e).workers[k] == WorkerAfter(s, e, k)
  {
    hide NextWorker, NextReader, WorkerStatus, ReaderStatus, Turn;
  }

  // Worker k takes this step.
  predicate Takes(s: State, e: Event, k: nat) {
    k < |s.workers| && Ongoing(s) && e.Work? && e.worker == k
  }

  // The reader of worker k takes this step.
  predicate ReaderTakes(s: State, e: Event, k: nat) {
    k < |s.workers| && Ongoing(s) && e.Read? && e.worker == k
  }

  predicate IsPast(pc: WorkerPc) {
    !InSetup(pc) && !InLoop(pc)
  }

  lemma ShutdownIsPast(w: Worker, answer: Answer)
    requires InShutdown(w.pc)
    ensures IsPast(ShutdownStep(w, answer).pc) && ShutdownStep(w, answer).reader == w.reader
  {
  }

  lemma FinalIsPast(w: Worker, stop: bool, intr: bool)
    requires InFinal(w.pc)
    ensures IsPast(FinalStep(w, stop, intr).pc) && FinalStep(w, stop, intr).reader == w.reader
  {
  }

  lemma EndIsPast(w: Worker, stop: bool, prefix: string, answer: Answer)
    requires InEnd(w.pc)
    ensures IsPast(EndStep(w, stop, prefix, answer).pc) && EndStep(w, stop, prefix, answer).reader == w.reader
  {
  }

  lemma PastStaysPast(w: Worker, stop: bool, intr: bool, prefix: string, answer: Answer)
    requires IsPast(w.pc)
    ensures var v := NextWorker(w, stop, intr, prefix, answer); IsPast(v.pc) && v.reader == w.reader
  {
    hide SetupStep, LoopStep, ShutdownStep, FinalStep, EndStep;
    if InShutdown(w.pc) {
      ShutdownIsPast(w, answer);
    } else if InFinal(w.pc) {
      FinalIsPast(w, stop, intr);
    } else {
      EndIsPast(w, stop, prefix, answer);
    }
  }

  // ---------------------------------------------------------------------------------------------
  // A worker that comes to its loop when its reader is done
  // ---------------------------------------------------------------------------------------------

  // The worker is about to notice that its reader is done, or left its loop for a reason on record.
  ghost predicate Polled(w: Worker, found: bool) {
    && w.reader.ReaderDone?
    && (|| w.pc.LoopStop? || w.pc.LoopInterrupted? || w.pc.LoopReader?
        || (IsPast(w.pc) && (EarlyClose in w.failures || found)))
  }

  predicate Finds(w: Worker, stop: bool, intr: bool) {
    || ((w.pc.LoopStop? || w.pc.FinalStop?) && stop)
    || ((w.pc.LoopInterrupted? || w.pc.FinalInterrupted?) && intr)
  }

  lemma WorkerStaysPolled(w: Worker, stop: bool, intr: bool, prefix: string, answer: Answer, found: bool)
    requires Polled(w, found)
    ensures Polled(NextWorker(w, stop, intr, prefix, answer), found || Finds(w, stop, intr))
  {
    if InLoop(w.pc) {
      hide SetupStep, ShutdownStep, FinalStep, EndStep;
    } else {
      hide NextWorker;
      PastStaysPast(w, stop, intr, prefix, answer);
      WorkerFailures(w, stop, intr, prefix, answer, EarlyClose);
    }
  }

  lemma DoneReaderRests(w: Worker, stop: bool, intr: bool, answer: Answer)
    requires w.reader.ReaderDone?
    ensures NextReader(w, stop, intr, answer) == w
  {
  }

  lemma FindsIsFindsFlag(s: State, e: Event, k: nat)
    requires Takes(s, e, k)
    ensures FindsFlag(s, e, k) <==> Finds(s.workers[k], s.flags.stopRequested, s.flags.interrupted)
  {
  }

  lemma StepStaysPolled(s: State, e: Event, k: nat, found: bool)
    requires k < |s.workers| && Polled(s.workers[k], found)
    ensures var t := NextState(s, e);
            k < |t.workers| && Polled(t.workers[k], found || FindsFlag(s, e, k))
  {
    hide NextState, NextWorker, NextReader, Polled, FindsFlag;
    var w, stop, intr := s.workers[k], s.flags.stopRequested, s.flags.interrupted;
    StepIsWorkerAfter(s, e, k);
    if Takes(s, e, k) {
      WorkerStaysPolled(w, stop, intr, s.status.filePrefix, e.answer, found);
      FindsIsFindsFlag(s, e, k);
    } else {
      PolledReaderIsDone(w, found);
      if e.Read? {
        DoneReaderRests(w, stop, intr, e.answer);
      }
      MorePolled(w, found, FindsFlag(s, e, k));
    }
  }

  lemma PolledReaderIsDone(w: Worker, found: bool)
    requires Polled(w, found)
    ensures w.reader.ReaderDone?
  {
  }

  lemma MorePolled(w: Worker, found: bool, more: bool)
    requires Polled(w, found)
    ensures Polled(w, found || more)
  {
  }

  lemma EverFindsMore(s: State, run: seq<Event>, k: nat)
    requires run != []
    ensures var n := |run| - 1;
            EverFindsFlag(s, run, k) <==> EverFindsFlag(s, run[..n], k) || FindsFlag(After(s, run[..n]), run[n], k)
  {
    hide FindsFlag, After;
    var n := |run| - 1;
    assert forall i | 0 <= i < n :: run[..n][..i] == run[..i] && run[..n][i] == run[i];
  }

  lemma {:induction false} RunStaysPolled(s: State, run: seq<Event>, k: nat)
    requires k < |s.workers| && Polled(s.workers[k], false)
    ensures var t := After(s, run);
            k < |t.workers| && Polled(t.workers[k], EverFindsFlag(s, run, k))
    decreases |run|
  {
    hide NextState, Polled, FindsFlag;
    if run == [] {
      MorePolled(s.workers[k], false, EverFindsFlag(s, run, k));
    } else {
      var n := |run| - 1;
      RunStaysPolled(s, run[..n], k);
      StepStaysPolled(After(s, run[..n]), run[n], k, EverFindsFlag(s, run[..n], k));
      EverFindsMore(s, run, k);
    }
  }

  /** A worker that starts another turn of its loop, the duration not over, when its reader is done never starts
      one more; and when it has a result, the early close is among its failures, or one of its tests found the
      stop or the interrupt flag set. */
  lemma DoneReaderIsNoticed(run: seq<Event>, k: nat, rest: seq<Event>)
    requires var s := Reached(run);
             Ongoing(s) && k < |s.workers| && s.workers[k].pc.Loop? && s.workers[k].reader.ReaderDone?
    ensures var t := NextState(Reached(run), Work(k, Good));
            var u := After(t, rest);
            && k < |u.workers| && !u.workers[k].pc.Loop?
            && (HasResult(u.workers[k].pc) ==> EarlyClose in u.workers[k].failures || EverFindsFlag(t, rest, k))
  {
    hide NextState, SetupStep, ShutdownStep, FinalStep, EndStep;
    var s := Reached(run);
    StepIsWorkerAfter(s, Work(k, Good), k);
    RunStaysPolled(NextState(s, Work(k, Good)), rest, k);
  }

  // ---------------------------------------------------------------------------------------------
  // Another turn of the loop
  // ---------------------------------------------------------------------------------------------

  // Between steps i and j of the run the worker took a step at which the stop flag was clear; then one at which the
  // interrupt flag was clear; then one at which its reader was not done.
  ghost predicate SawStopClear(run: seq<Event>, i: nat, j: nat, k: nat)
    requires j <= |run|
  {
    exists a | i < a < j :: Takes(Reached(run[..a]), run[a], k) && !Reached(run[..a]).flags.stopRequested
  }

  ghost predicate SawBothClear(run: seq<Event>, i: nat, j: nat, k: nat)
    requires j <= |run|
  {
    exists b: nat | i < b < j ::
      Takes(Reached(run[..b]), run[b], k) && !Reached(run[..b]).flags.interrupted && SawStopClear(run, i, b, k)
  }

  ghost predicate SawReaderAlive(run: seq<Event>, i: nat, j: nat, k: nat)
    requires j <= |run|
  {
    exists c: nat | i < c < j ::
      && Takes(Reached(run[..c]), run[c], k) && !Reached(run[..c]).workers[k].reader.ReaderDone?
      && SawBothClear(run, i, c, k)
  }

  // How far the tests of the turn that began at step i have come.
  ghost predicate InTurn(run: seq<Event>, i: nat, j: nat, k: nat)
    requires j <= |run|
  {
    var s := Reached(run[..j]);
    && k < |s.workers|
    && var pc := s.workers[k].pc;
       && (|| pc.LoopStop? || pc.LoopInterrupted? || pc.LoopReader? || pc.Loop? || IsPast(pc))
       && (pc.LoopInterrupted? ==> SawStopClear(run, i, j, k))
       && (pc.LoopReader? ==> SawBothClear(run, i, j, k))
       && (pc.Loop? ==> SawReaderAlive(run, i, j, k))
  }

  lemma ReachedNext(run: seq<Event>, j: nat)
    requires j < |run|
    ensures Reached(run[..j + 1]) == NextState(Reached(run[..j]), run[j])
  {
    hide NextState;
    assert run[..j + 1][..j] == run[..j];
  }

  lemma SawMore(run: seq<Event>, i: nat, j: nat, k: nat)
    requires j < |run|
    ensures SawStopClear(run, i, j, k) ==> SawStopClear(run, i, j + 1, k)
    ensures SawBothClear(run, i, j, k) ==> SawBothClear(run, i, j + 1, k)
    ensures SawReaderAlive(run, i, j, k) ==> SawReaderAlive(run, i, j + 1, k)
  {
    hide Reached, Takes;
  }

  // What the tests of the loop decide.
  lemma TestsMove(w: Worker, stop: bool, intr: bool, prefix: string, answer: Answer)
    requires w.pc.Loop? || w.pc.LoopStop? || w.pc.LoopInterrupted? || w.pc.LoopReader?
    ensures var pc := NextWorker(w, stop, intr, prefix, answer).pc;
            || pc.StopStream?
            || (w.pc.Loop? && pc.LoopStop?)
            || (w.pc.LoopStop? && pc.LoopInterrupted? && !stop)
            || (w.pc.LoopInterrupted? && pc.LoopReader? && !intr)
            || (w.pc.LoopReader? && pc.Loop? && !w.reader.ReaderDone?)
  {
    hide SetupStep, ShutdownStep, FinalStep, EndStep;
  }

  lemma TurnGoesOn(run: seq<Event>, i: nat, j: nat, k: nat)
    requires i < j < |run| && InTurn(run, i, j, k)
    ensures InTurn(run, i, j + 1, k)
  {
    hide Reached, NextState, NextWorker, NextReader, SawStopClear, SawBothClear, SawReaderAlive, Takes, IsPast;
    var s, e := Reached(run[..j]), run[j];
    var w, stop, intr := s.workers[k], s.flags.stopRequested, s.flags.interrupted;
    ReachedNext(run, j);
    StepIsWorkerAfter(s, e, k);
    SawMore(run, i, j, k);
    if Takes(s, e, k) {
      TestIsSeen(run, i, j, k);
      IsTaken(s, e, k);
      if IsPast(w.pc) {
        PastStaysPast(w, stop, intr, s.status.filePrefix, e.answer);
      } else {
        TestsMove(w, stop, intr, s.status.filePrefix, e.answer);
        StopStreamIsPast();
      }
      PastIsNoLoop(NextState(s, e).workers[k].pc);
    } else {
      NotTaken(s, e, k);
    }
  }

  lemma IsTaken(s: State, e: Event, k: nat)
    requires Takes(s, e, k)
    ensures k < |s.workers| && e.Work?
    ensures WorkerAfter(s, e, k)
            == NextWorker(s.workers[k], s.flags.stopRequested, s.flags.interrupted, s.status.filePrefix, e.answer)
  {
    hide NextWorker, NextReader;
  }

  // Only its own steps move the worker.
  lemma NotTaken(s: State, e: Event, k: nat)
    requires k < |s.workers| && !Takes(s, e, k)
    ensures var v := WorkerAfter(s, e, k);
            v.pc == s.workers[k].pc && v.job == s.workers[k].job && v.verdict == s.workers[k].verdict
  {
    hide NextWorker, NextReader;
    if e.Read? {
      ReaderLeavesWorker(s.workers[k], s.flags.stopRequested, s.flags.interrupted, e.answer);
    }
  }

  lemma StopStreamIsPast()
    ensures IsPast(StopStream)
  {
  }

  lemma PastIsNoLoop(pc: WorkerPc)
    ensures IsPast(pc) ==> !pc.LoopStop? && !pc.LoopInterrupted? && !pc.LoopReader? && !pc.Loop?
  {
  }

  lemma TestIsSeen(run: seq<Event>, i: nat, j: nat, k: nat)
    requires i < j < |run| && Takes(Reached(run[..j]), run[j], k)
    ensures var s := Reached(run[..j]);
            && (!s.flags.stopRequested ==> SawStopClear(run, i, j + 1, k))
            && (!s.flags.interrupted && SawStopClear(run, i, j, k) ==> SawBothClear(run, i, j + 1, k))
            && (k < |s.workers| && !s.workers[k].reader.ReaderDone? && SawBothClear(run, i, j, k) ==>
                  SawReaderAlive(run, i, j + 1, k))
  {
    hide Reached, Takes;
  }

  lemma TurnBegins(run: seq<Event>, i: nat, k: nat)
    requires i < |run| && Takes(Reached(run[..i]), run[i], k) && Reached(run[..i]).workers[k].pc.Loop?
    ensures InTurn(run, i, i + 1, k)
  {
    hide Reached, NextState, NextWorker, SawStopClear, SawBothClear, SawReaderAlive, Takes, IsPast;
    var s, e := Reached(run[..i]), run[i];
    ReachedNext(run, i);
    IsTaken(s, e, k);
    StepIsWorkerAfter(s, e, k);
    TestsMove(s.workers[k], s.flags.stopRequested, s.flags.interrupted, s.status.filePrefix, e.answer);
    StopStreamIsPast();
  }

  lemma {:induction false} TurnsAreTests(run: seq<Event>, i: nat, j: nat, k: nat)
    requires i < j <= |run| && Takes(Reached(run[..i]), run[i], k) && Reached(run[..i]).workers[k].pc.Loop?
    ensures InTurn(run, i, j, k)
    decreases j
  {
    hide Reached, InTurn, Takes;
    if j == i + 1 {
      TurnBegins(run, i, k);
    } else {
      TurnsAreTests(run, i, j - 1, k);
      TurnGoesOn(run, i, j - 1, k);
    }
  }

  /** A worker comes back to the start of its loop only after it has seen, in this order, the stop flag clear, the
      interrupt flag clear and its reader at work. */
  lemma EveryTurnTests(run: seq<Event>, i: nat, j: nat, k: nat)
    requires i < j <= |run| && Takes(Reached(run[..i]), run[i], k) && Reached(run[..i]).workers[k].pc.Loop?
    requires k < |Reached(run[..j]).workers| && Reached(run[..j]).workers[k].pc.Loop?
    ensures SawReaderAlive(run, i, j, k)
  {
    hide Reached, Takes, SawReaderAlive;
    TurnsAreTests(run, i, j, k);
  }

  // ---------------------------------------------------------------------------------------------
  // The end of the loop
  // ---------------------------------------------------------------------------------------------

  // The duration of job k was over when its worker looked.
  ghost predicate DurationPassed(run: seq<Event>, k: nat) {
    exists i | 0 <= i < |run| ::
      Takes(Reached(run[..i]), run[i], k) && Reached(run[..i]).workers[k].pc.Loop? && !run[i].answer.Good?
  }

  ghost predicate HasReason(run: seq<Event>, k: nat) {
    || (k < |Reached(run).workers| && EarlyClose in Reached(run).workers[k].failures)
    || EverFindsFlag(Init(), run, k) || DurationPassed(run, k)
  }

  // Stopping the stream, or done with it.
  ghost predicate IsStopping(w: Worker) {
    IsPast(w.pc) && w.calls != []
  }

  lemma StoppingHasACause(w: Worker, stop: bool, intr: bool, prefix: string, answer: Answer)
    requires Controlled(w)
    ensures var v := NextWorker(w, stop, intr, prefix, answer);
            IsStopping(v) ==>
              || IsStopping(w) || EarlyClose in v.failures || Finds(w, stop, intr)
              || (w.pc.Loop? && !answer.Good?)
  {
    if InSetup(w.pc) {
      hide LoopStep, ShutdownStep, FinalStep, EndStep;
    } else if InLoop(w.pc) {
      hide SetupStep, ShutdownStep, FinalStep, EndStep;
    } else if w.calls == [] {
      hide SetupStep, LoopStep, ShutdownStep, FinalStep;
    }
  }

  lemma ReasonStays(run: seq<Event>, e: Event, k: nat)
    requires HasReason(run, k)
    ensures HasReason(run + [e], k)
  {
    hide NextState, FindsFlag, Takes;
    var longer, n := run + [e], |run|;
    assert longer[..n] == run && longer[n] == e;
    assert forall i | 0 <= i < n :: longer[..i] == run[..i] && longer[i] == run[i];
    EverFindsMore(Init(), longer, k);
    StepRecords(Reached(run), e, k, EarlyClose);
    assert Reached(longer) == NextState(Reached(run), e);
  }

  lemma StepGivesReason(run: seq<Event>, e: Event, k: nat)
    requires k < |Reached(run).workers| && Controlled(Reached(run).workers[k])
    requires var w := NextState(Reached(run), e).workers;
             k < |w| && IsStopping(w[k]) && !IsStopping(Reached(run).workers[k])
    ensures HasReason(run + [e], k)
  {
    hide NextState, NextWorker, NextReader, FindsFlag, Takes, Controlled, Finds;
    var longer, n, s := run + [e], |run|, Reached(run);
    var w, stop, intr := s.workers[k], s.flags.stopRequested, s.flags.interrupted;
    assert longer[..n] == run && longer[n] == e;
    assert Reached(longer) == NextState(s, e);
    EverFindsMore(Init(), longer, k);
    StepIsWorkerAfter(s, e, k);
    if Takes(s, e, k) {
      IsTaken(s, e, k);
      StoppingHasACause(w, stop, intr, s.status.filePrefix, e.answer);
      FindsIsFindsFlag(s, e, k);
    } else {
      NotTakenCalls(s, e, k);
    }
  }

  lemma NotTakenCalls(s: State, e: Event, k: nat)
    requires k < |s.workers| && !Takes(s, e, k)
    ensures WorkerAfter(s, e, k).pc == s.workers[k].pc && WorkerAfter(s, e, k).calls == s.workers[k].calls
  {
    hide NextWorker, TurnStep;
    NotTaken(s, e, k);
    var r := s.workers[k].reader;
    if ReaderTakes(s, e, k) && !r.Reading? && !r.WriteFrame? && !r.CountLocal? {
      TurnFrame(s.workers[k], s.flags.stopRequested, s.flags.interrupted, e.answer);
    }
  }

  lemma {:induction false} StoppingHasAReason(run: seq<Event>, k: nat)
    ensures k < |Reached(run).workers| && IsStopping(Reached(run).workers[k]) ==> HasReason(run, k)
    decreases |run|
  {
    hide NextState, HasReason, IsStopping;
    if run == [] {
      assert Reached(run) == Init();
    } else {
      var n := |run| - 1;
      var before, e := run[..n], run[n];
      assert run == before + [e] && Reached(run) == NextState(Reached(before), e);
      StoppingHasAReason(before, k);
      ReachedFits(before);
      if k < |Reached(before).workers| {
        if IsStopping(Reached(before).workers[k]) {
          ReasonStays(before, e, k);
        } else if k < |Reached(run).workers| && IsStopping(Reached(run).workers[k]) {
          ReachedIsControlled(before, k);
          StepGivesReason(before, e, k);
        }
      } else {
        NewWorkersDoNotStop(Reached(before), e, k);
      }
    }
  }

  lemma ReachedIsControlled(run: seq<Event>, k: nat)
    requires k < |Reached(run).workers|
    ensures WorkerInv(Reached(run).workers[k])
  {
    hide Reached, WorkerInv, RecordFits, FreshRecord;
    ReachedFits(run);
  }

  lemma NewWorkersDoNotStop(s: State, e: Event, k: nat)
    requires k >= |s.workers|
    ensures k < |NextState(s, e).workers| ==> !IsStopping(NextState(s, e).workers[k])
  {
    hide Turn, NextWorker, NextReader;
  }

  /** A stream is stopped for a reason: the early close is a failure of the job, a test of its worker or reader found
      the stop or the interrupt flag set, or its duration was over. */
  lemma StopHasAReason(run: seq<Event>, k: nat)
    ensures k < |Reached(run).workers| && StopCall in Reached(run).workers[k].calls ==> HasReason(run, k)
  {
    hide Reached, HasReason;
    StoppingHasAReason(run, k);
    if k < |Reached(run).workers| {
      ReachedIsControlled(run, k);
    }
  }

  // ---------------------------------------------------------------------------------------------
  // What the server answered
  // ---------------------------------------------------------------------------------------------

  // Step i of the run makes this call for worker k.
  predicate Makes(run: seq<Event>, i: nat, k: nat, c: Call)
    requires i < |run|
  {
    var s, t := Reached(run[..i]), Reached(run[..i + 1]);
    && Takes(s, run[i], k) && c !in s.workers[k].calls && k < |t.workers| && c in t.workers[k].calls
  }

  // What the worker keeps of the answer to a call: an accepted start is the only one that is recorded.
  predicate Keeps(v: Verdict, c: Call, answer: Answer) {
    match c
    case StartCall => answer.Good?
    case StopCall => v.stopOk <==> answer.Good?
    case CalibrateCall(_) => v.calibrated <==> answer.Good?
    case _ => true
  }

  ghost predicate IsAnswered(run: seq<Event>, k: nat, c: Call, v: Verdict) {
    exists i | 0 <= i < |run| :: Makes(run, i, k, c) && Keeps(v, c, run[i].answer)
  }

  // From w to v calls are only added, and what was kept of an answer stays.
  ghost predicate AddsCalls(w: Worker, v: Worker, c: Call, answer: Answer) {
    && (c in w.calls ==> c in v.calls && forall a: Answer :: Keeps(w.verdict, c, a) ==> Keeps(v.verdict, c, a))
    && (c !in w.calls && c in v.calls ==> Keeps(v.verdict, c, answer))
  }

  lemma SetupAddsCalls(w: Worker, answer: Answer, c: Call)
    requires InSetup(w.pc)
    ensures AddsCalls(w, SetupStep(w, answer), c, answer)
  {
  }

  lemma LoopAddsCalls(w: Worker, stop: bool, intr: bool, answer: Answer, c: Call)
    requires InLoop(w.pc)
    ensures AddsCalls(w, LoopStep(w, stop, intr, answer), c, answer)
  {
  }

  lemma ShutdownAddsCalls(w: Worker, answer: Answer, c: Call)
    requires InShutdown(w.pc) && CallsInOrder(w)
    ensures AddsCalls(w, ShutdownStep(w, answer), c, answer)
  {
  }

  lemma FinalAddsCalls(w: Worker, stop: bool, intr: bool, answer: Answer, c: Call)
    requires InFinal(w.pc)
    ensures AddsCalls(w, FinalStep(w, stop, intr), c, answer)
  {
  }

  lemma EndAddsCalls(w: Worker, stop: bool, prefix: string, answer: Answer, c: Call)
    requires InEnd(w.pc) && CallsInOrder(w)
    ensures AddsCalls(w, EndStep(w, stop, prefix, answer), c, answer)
  {
  }

  lemma WorkerAddsCalls(w: Worker, stop: bool, intr: bool, prefix: string, answer: Answer, c: Call)
    requires CallsInOrder(w)
    ensures AddsCalls(w, NextWorker(w, stop, intr, prefix, answer), c, answer)
  {
    hide AddsCalls, CallsInOrder, SetupStep, LoopStep, ShutdownStep, FinalStep, EndStep;
    if InSetup(w.pc) {
      SetupAddsCalls(w, answer, c);
    } else if InLoop(w.pc) {
      LoopAddsCalls(w, stop, intr, answer, c);
    } else if InShutdown(w.pc) {
      ShutdownAddsCalls(w, answer, c);
    } else if InFinal(w.pc) {
      FinalAddsCalls(w, stop, intr, answer, c);
    } else {
      EndAddsCalls(w, stop, prefix, answer, c);
    }
  }

  lemma AnswerStays(run: seq<Event>, e: Event, k: nat, c: Call, v: Verdict, w: Verdict)
    requires IsAnswered(run, k, c, v) && forall a: Answer :: Keeps(v, c, a) ==> Keeps(w, c, a)
    ensures IsAnswered(run + [e], k, c, w)
  {
    hide Reached, Keeps;
    var longer := run + [e];
    var i :| 0 <= i < |run| && Makes(run, i, k, c) && Keeps(v, c, run[i].answer);
    assert Keeps(w, c, run[i].answer);
    assert longer[..i] == run[..i] && longer[..i + 1] == run[..i + 1];
    assert Makes(longer, i, k, c);
  }

  lemma StepAnswers(run: seq<Event>, e: Event, k: nat, c: Call)
    requires k < |Reached(run).workers| && CallsInOrder(Reached(run).workers[k])
    requires c in Reached(run).workers[k].calls ==> IsAnswered(run, k, c, Reached(run).workers[k].verdict)
    ensures var w := Reached(run + [e]).workers;
            k < |w| && (c in w[k].calls ==> IsAnswered(run + [e], k, c, w[k].verdict))
  {
    hide NextState, NextWorker, NextReader, CallsInOrder, Keeps, IsAnswered, Takes;
    var longer, n, s := run + [e], |run|, Reached(run);
    assert longer[..n] == run && longer[n] == e && longer[..n + 1] == longer;
    assert Reached(longer) == NextState(s, e);
    StepIsWorkerAfter(s, e, k);
    if Takes(s, e, k) {
      IsTaken(s, e, k);
      var w, stop, intr := s.workers[k], s.flags.stopRequested, s.flags.interrupted;
      WorkerAddsCalls(w, stop, intr, s.status.filePrefix, e.answer, c);
      if c in w.calls {
        AnswerStays(run, e, k, c, w.verdict, Reached(longer).workers[k].verdict);
      } else if c in Reached(longer).workers[k].calls {
        assert Makes(longer, n, k, c);
        IsAnsweredNow(longer, n, k, c, Reached(longer).workers[k].verdict);
      }
    } else {
      NotTaken(s, e, k);
      NotTakenCalls(s, e, k);
      if c in s.workers[k].calls {
        AnswerStays(run, e, k, c, s.workers[k].verdict, s.workers[k].verdict);
      }
    }
  }

  lemma IsAnsweredNow(run: seq<Event>, i: nat, k: nat, c: Call, v: Verdict)
    requires i < |run| && Makes(run, i, k, c) && Keeps(v, c, run[i].answer)
    ensures IsAnswered(run, k, c, v)
  {
    hide Reached, Keeps, Takes;
  }

  /** Every call on record was made by a step of the worker: the start was accepted; the server accepted the stop
      exactly if the verdict says so; and so did the calibration end well. */
  lemma {:induction false} CallsHaveAnswers(run: seq<Event>, k: nat, c: Call)
    ensures var s := Reached(run);
            k < |s.workers| && c in s.workers[k].calls ==> IsAnswered(run, k, c, s.workers[k].verdict)
    decreases |run|
  {
    hide NextState, IsAnswered;
    if run == [] {
      assert Reached(run) == Init();
    } else {
      var n := |run| - 1;
      var before, e := run[..n], run[n];
      assert run == before + [e] && Reached(run) == NextState(Reached(before), e);
      CallsHaveAnswers(before, k, c);
      if k < |Reached(before).workers| {
        ReachedIsControlled(before, k);
        StepAnswers(before, e, k, c);
      } else {
        NewWorkersCallNothing(Reached(before), e, k);
      }
    }
  }

  lemma NewWorkersCallNothing(s: State, e: Event, k: nat)
    requires k >= |s.workers|
    ensures k < |NextState(s, e).workers| ==> NextState(s, e).workers[k].calls == []
  {
    hide Turn, NextWorker, NextReader;
  }

  // ---------------------------------------------------------------------------------------------
  // A setup that fails
  // ---------------------------------------------------------------------------------------------

  ghost predicate CalledNothing(w: Worker) {
    InEnd(w.pc) && !w.pc.Calibrating? && w.calls == [] && !w.verdict.success
  }

  lemma NothingIsCalled(s: State, e: Event, k: nat)
    requires k < |s.workers| && CalledNothing(s.workers[k])
    ensures k < |NextState(s, e).workers| && CalledNothing(NextState(s, e).workers[k])
  {
    hide NextState, NextReader, SetupStep, LoopStep, ShutdownStep, FinalStep;
    StepIsWorkerAfter(s, e, k);
    if !Takes(s, e, k) {
      NotTaken(s, e, k);
      NotTakenCalls(s, e, k);
    }
  }

  lemma {:induction false} NothingIsEverCalled(s: State, run: seq<Event>, k: nat)
    requires k < |s.workers| && CalledNothing(s.workers[k])
    ensures k < |After(s, run).workers| && CalledNothing(After(s, run).workers[k])
    decreases |run|
  {
    hide NextState, CalledNothing;
    if run != [] {
      NothingIsEverCalled(s, run[..|run| - 1], k);
      NothingIsCalled(After(s, run[..|run| - 1]), run[|run| - 1], k);
    }
  }

  /** A worker that cannot open its files or its log, or whose start the server does not accept, never calls the
      server to stop, never calibrates, and fails. */
  lemma FailedSetupEnds(run: seq<Event>, k: nat, answer: Answer, rest: seq<Event>)
    requires var s := Reached(run);
             && Ongoing(s) && k < |s.workers| && !answer.Good?
             && (s.workers[k].pc.OpenFiles? || s.workers[k].pc.WriteLog? || s.workers[k].pc.StartStream?)
    ensures var t := After(NextState(Reached(run), Work(k, answer)), rest);
            k < |t.workers| && InEnd(t.workers[k].pc) && t.workers[k].calls == [] && !t.workers[k].verdict.success
  {
    hide NextState, LoopStep, ShutdownStep, FinalStep, EndStep, Reached;
    var s := Reached(run);
    StepIsWorkerAfter(s, Work(k, answer), k);
    ReachedIsControlled(run, k);
    NothingIsEverCalled(NextState(s, Work(k, answer)), rest, k);
  }
}
