/** What a reported success rests on, told from the steps of a run. */
module ReadoutVerdicts {
  import opened Acquisition
  import opened Readout
  import opened ReadoutResults
  import opened ReadoutPolls

  // ---------------------------------------------------------------------------------------------
  // Failed writes and a failed stream
  // ---------------------------------------------------------------------------------------------

  ghost predicate HasFailure(s: State, k: nat) {
    k < |s.workers| && s.workers[k].failures != {}
  }

  lemma FailuresStay(s: State, e: Event, k: nat)
    requires HasFailure(s, k)
    ensures HasFailure(NextState(s, e), k)
  {
    hide NextState, Records;
    var f :| f in s.workers[k].failures;
    StepRecords(s, e, k, f);
  }

  lemma {:induction false} FailuresRemain(s: State, run: seq<Event>, k: nat)
    requires HasFailure(s, k)
    ensures HasFailure(After(s, run), k)
    decreases |run|
  {
    hide NextState, HasFailure;
    if run != [] {
      FailuresRemain(s, run[..|run| - 1], k);
      FailuresStay(After(s, run[..|run| - 1]), run[|run| - 1], k);
    }
  }

  /** A job of which a frame or a housekeeping frame was not written, or whose stream ended with an error, does not
      succeed. */
  lemma BadAnswersFail(run: seq<Event>, e: Event, k: nat, rest: seq<Event>)
    requires ReaderTakes(Reached(run), e, k) && e.answer.Bad?
    requires var r := Reached(run).workers[k].reader; r.WriteFrame? || r.WriteHk? || r.FinishStream?
    ensures var t := After(Reached(run), [e] + rest);
            && k < |t.workers| && t.workers[k].failures != {}
            && (HasResult(t.workers[k].pc) ==> !t.workers[k].verdict.success)
  {
    hide NextState, Reached;
    var s := Reached(run);
    var r := s.workers[k].reader;
    var f := if r.WriteFrame? then DataWrite(r.address) else if r.WriteHk? then HkWrite else StreamError;
    StepRecords(s, e, k, f);
    FailuresRemain(NextState(s, e), rest, k);
    assert [e][..0] == [] && After(s, [e]) == NextState(After(s, []), e);
    AfterAppends(s, [e], rest);
    RunIsReached(run, [e] + rest);
    SuccessMeans(run + ([e] + rest), k);
  }

  lemma RunIsReached(run: seq<Event>, rest: seq<Event>)
    ensures After(Reached(run), rest) == Reached(run + rest)
  {
    hide NextState;
    AfterAppends(Init(), run, rest);
  }

  // ---------------------------------------------------------------------------------------------
  // The final check
  // ---------------------------------------------------------------------------------------------

  // After the join the worker took a step at which the stop flag was clear.
  ghost predicate CheckedStop(run: seq<Event>, n: nat, k: nat)
    requires n <= |run|
  {
    exists a | 0 <= a < n ::
      && Takes(Reached(run[..a]), run[a], k) && JoinCall in Reached(run[..a]).workers[k].calls
      && !Reached(run[..a]).flags.stopRequested
  }

  // And then one at which the interrupt flag was clear.
  ghost predicate CheckedBoth(run: seq<Event>, n: nat, k: nat)
    requires n <= |run|
  {
    exists b: nat | 0 <= b < n ::
      Takes(Reached(run[..b]), run[b], k) && !Reached(run[..b]).flags.interrupted && CheckedStop(run, b, k)
  }

  lemma CheckedMore(run: seq<Event>, n: nat, k: nat)
    requires n < |run|
    ensures CheckedStop(run, n, k) ==> CheckedStop(run, n + 1, k)
    ensures CheckedBoth(run, n, k) ==> CheckedBoth(run, n + 1, k)
  {
    hide Reached, Takes;
  }

  lemma CheckIsSeen(run: seq<Event>, n: nat, k: nat)
    requires n < |run| && Takes(Reached(run[..n]), run[n], k)
    ensures var s := Reached(run[..n]);
            && (JoinCall in s.workers[k].calls && !s.flags.stopRequested ==> CheckedStop(run, n + 1, k))
            && (!s.flags.interrupted && CheckedStop(run, n, k) ==> CheckedBoth(run, n + 1, k))
  {
    hide Reached;
  }

  // Where the worker stands, and what it claims, decides what it has checked.
  ghost predicate Checks(w: Worker, stop: bool, both: bool) {
    && (w.pc.FinalInterrupted? ==> stop)
    && (w.pc.FinalResult? || w.pc.Calibrating? || w.verdict.success ==> both)
  }

  lemma SetupChecks(w: Worker, answer: Answer, one: bool, both: bool)
    requires InSetup(w.pc) && Checks(w, one, both)
    ensures Checks(SetupStep(w, answer), one, both)
  {
  }

  lemma LoopChecks(w: Worker, stop: bool, intr: bool, answer: Answer, one: bool, both: bool)
    requires InLoop(w.pc) && Checks(w, one, both)
    ensures Checks(LoopStep(w, stop, intr, answer), one, both)
  {
  }

  lemma ShutdownChecks(w: Worker, answer: Answer, one: bool, both: bool)
    requires InShutdown(w.pc) && Checks(w, one, both)
    ensures Checks(ShutdownStep(w, answer), one, both)
  {
  }

  lemma FinalChecks(w: Worker, stop: bool, intr: bool, one: bool, both: bool)
    requires InFinal(w.pc) && Checks(w, one, both)
    ensures Checks(FinalStep(w, stop, intr), one || (w.pc.FinalStop? && !stop),
                   both || (w.pc.FinalInterrupted? && !intr))
  {
  }

  lemma EndChecks(w: Worker, stop: bool, prefix: string, answer: Answer, one: bool, both: bool)
    requires InEnd(w.pc) && Checks(w, one, both)
    ensures Checks(EndStep(w, stop, prefix, answer), one, both)
  {
  }

  lemma WorkerChecks(w: Worker, stop: bool, intr: bool, prefix: string, answer: Answer, one: bool, both: bool)
    requires Checks(w, one, both)
    ensures Checks(NextWorker(w, stop, intr, prefix, answer), one || (w.pc.FinalStop? && !stop),
                   both || (w.pc.FinalInterrupted? && !intr))
  {
    hide Checks, SetupStep, LoopStep, ShutdownStep, FinalStep, EndStep;
    if InSetup(w.pc) {
      SetupChecks(w, answer, one, both);
    } else if InLoop(w.pc) {
      LoopChecks(w, stop, intr, answer, one, both);
    } else if InShutdown(w.pc) {
      ShutdownChecks(w, answer, one, both);
    } else if InFinal(w.pc) {
      FinalChecks(w, stop, intr, one, both);
    } else {
      EndChecks(w, stop, prefix, answer, one, both);
    }
  }

  lemma JoinedAtCheck(w: Worker)
    requires Controlled(w) && w.pc.FinalStop?
    ensures JoinCall in w.calls
  {
  }

  lemma MoreChecks(w: Worker, v: Worker, one: bool, both: bool, one': bool, both': bool)
    requires Checks(w, one, both) && (one ==> one') && (both ==> both')
    requires v.pc == w.pc && v.verdict == w.verdict
    ensures Checks(v, one', both')
  {
  }

  lemma StepChecks(run: seq<Event>, n: nat, k: nat)
    requires n < |run| && k < |Reached(run[..n]).workers| && Controlled(Reached(run[..n]).workers[k])
    requires Checks(Reached(run[..n]).workers[k], CheckedStop(run, n, k), CheckedBoth(run, n, k))
    ensures var w := Reached(run[..n + 1]).workers;
            k < |w| && Checks(w[k], CheckedStop(run, n + 1, k), CheckedBoth(run, n + 1, k))
  {
    hide Reached, NextState, NextWorker, NextReader, Controlled, Checks, CheckedStop, CheckedBoth, Takes;
    var s, e := Reached(run[..n]), run[n];
    var w, stop, intr := s.workers[k], s.flags.stopRequested, s.flags.interrupted;
    ReachedNext(run, n);
    StepIsWorkerAfter(s, e, k);
    CheckedMore(run, n, k);
    var one, both := CheckedStop(run, n, k), CheckedBoth(run, n, k);
    if Takes(s, e, k) {
      IsTaken(s, e, k);
      CheckIsSeen(run, n, k);
      WorkerChecks(w, stop, intr, s.status.filePrefix, e.answer, one, both);
      if w.pc.FinalStop? {
        JoinedAtCheck(w);
      }
      var v := WorkerAfter(s, e, k);
      if w.pc.FinalInterrupted? {
        ChecksAtInterrupt(w, one, both);
      }
      MoreChecks(v, v, one || (w.pc.FinalStop? && !stop), both || (w.pc.FinalInterrupted? && !intr),
                 CheckedStop(run, n + 1, k), CheckedBoth(run, n + 1, k));
    } else {
      NotTaken(s, e, k);
      MoreChecks(w, WorkerAfter(s, e, k), one, both, CheckedStop(run, n + 1, k), CheckedBoth(run, n + 1, k));
    }
  }

  lemma ChecksAtInterrupt(w: Worker, one: bool, both: bool)
    requires Checks(w, one, both) && w.pc.FinalInterrupted?
    ensures one
  {
  }

  lemma {:induction false} RunChecks(run: seq<Event>, n: nat, k: nat)
    requires n <= |run| && k < |Reached(run[..n]).workers|
    ensures Checks(Reached(run[..n]).workers[k], CheckedStop(run, n, k), CheckedBoth(run, n, k))
    decreases n
  {
    hide Reached, NextState, Checks, CheckedStop, CheckedBoth;
    if n == 0 {
      assert run[..0] == [];
      NobodyAtFirst();
    } else if k < |Reached(run[..n - 1]).workers| {
      RunChecks(run, n - 1, k);
      ReachedIsControlled(run[..n - 1], k);
      StepChecks(run, n - 1, k);
    } else {
      ReachedNext(run, n - 1);
      NewWorkersClaimNothing(Reached(run[..n - 1]), run[n - 1], k);
      ClaimsNothing(Reached(run[..n]).workers[k], CheckedStop(run, n, k), CheckedBoth(run, n, k));
    }
  }

  lemma NobodyAtFirst()
    ensures Reached([]).workers == []
  {
  }

  lemma NewWorkersClaimNothing(s: State, e: Event, k: nat)
    requires k >= |s.workers|
    ensures k < |NextState(s, e).workers| ==>
              var w := NextState(s, e).workers[k]; w.pc.OpenFiles? && !w.verdict.success
  {
    hide Turn, NextWorker, NextReader;
  }

  lemma ClaimsNothing(w: Worker, one: bool, both: bool)
    requires w.pc.OpenFiles? && !w.verdict.success
    ensures Checks(w, one, both)
  {
  }

  /** A job that succeeds, or calibrates, saw the stop flag clear and then the interrupt flag clear after its reader had
      been joined. */
  lemma SuccessWasChecked(run: seq<Event>, k: nat)
    ensures var s := Reached(run);
            k < |s.workers| && (s.workers[k].verdict.success || s.workers[k].pc.Calibrating?) ==>
              CheckedBoth(run, |run|, k)
  {
    hide Reached, CheckedStop, CheckedBoth;
    assert run[..|run|] == run;
    if k < |Reached(run).workers| {
      RunChecks(run, |run|, k);
    }
  }
}
