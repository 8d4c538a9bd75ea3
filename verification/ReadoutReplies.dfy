/** What the stream reader of a job does with the replies of the server, told from the steps of a run. */
module ReadoutReplies {
  import opened Acquisition
  import opened Readout
  import opened ReadoutSafety
  import opened ReadoutResults
  import opened ReadoutStarts
  import opened ReadoutPolls

  // ---------------------------------------------------------------------------------------------
  // From one reply to the next
  // ---------------------------------------------------------------------------------------------

  // The replies that are not dropped: whole frames for a detector of the job, and whole housekeeping frames.
  predicate IsWanted(addresses: set<nat>, r: Reply) {
    && r.address <= 255
    && ((r.kind.FrameData? && |r.value| == 32768 && r.address in addresses)
        || (r.kind.HkData? && |r.value| == 1024))
  }

  // Between steps i and j of the run the reader took a step at which the stop flag was clear, then one at which the
  // interrupt flag was.
  ghost predicate ReaderSawStopClear(run: seq<Event>, i: nat, j: nat, k: nat)
    requires j <= |run|
  {
    exists a | i < a < j :: ReaderTakes(Reached(run[..a]), run[a], k) && !Reached(run[..a]).flags.stopRequested
  }

  ghost predicate ReaderSawBothClear(run: seq<Event>, i: nat, j: nat, k: nat)
    requires j <= |run|
  {
    exists b: nat | i < b < j ::
      && ReaderTakes(Reached(run[..b]), run[b], k) && !Reached(run[..b]).flags.interrupted
      && ReaderSawStopClear(run, i, b, k)
  }

  // A frame was not written between steps i and j.
  ghost predicate WriteFailed(run: seq<Event>, i: nat, j: nat, k: nat)
    requires j <= |run|
  {
    exists d | i < d < j ::
      ReaderTakes(Reached(run[..d]), run[d], k) && Reached(run[..d]).workers[k].reader.WriteFrame? && run[d].answer.Bad?
  }

  predicate IsHandling(r: ReaderPc) {
    r.WriteFrame? || r.CountLocal? || r.CountShared? || r.WriteHk? || r.ReaderStop?
  }

  predicate IsEnding(r: ReaderPc) {
    r.FinishStream? || r.SetDone? || r.ReaderDone?
  }

  // How far the handling of the reply of step i has come.
  ghost predicate Handles(run: seq<Event>, i: nat, j: nat, k: nat)
    requires j <= |run|
  {
    var s := Reached(run[..j]);
    && k < |s.workers|
    && (|| ReaderSawBothClear(run, i, j, k) || WriteFailed(run, i, j, k)
        || IsHandling(s.workers[k].reader) || IsEnding(s.workers[k].reader)
        || (s.workers[k].reader.ReaderInterrupted? && ReaderSawStopClear(run, i, j, k)))
  }

  lemma ReaderSawMore(run: seq<Event>, i: nat, j: nat, k: nat)
    requires j < |run|
    ensures ReaderSawStopClear(run, i, j, k) ==> ReaderSawStopClear(run, i, j + 1, k)
    ensures ReaderSawBothClear(run, i, j, k) ==> ReaderSawBothClear(run, i, j + 1, k)
    ensures WriteFailed(run, i, j, k) ==> WriteFailed(run, i, j + 1, k)
  {
    hide Reached;
  }

  lemma ReaderTestIsSeen(run: seq<Event>, i: nat, j: nat, k: nat)
    requires i < j < |run| && ReaderTakes(Reached(run[..j]), run[j], k)
    ensures var s := Reached(run[..j]);
            && (!s.flags.stopRequested ==> ReaderSawStopClear(run, i, j + 1, k))
            && (!s.flags.interrupted && ReaderSawStopClear(run, i, j, k) ==> ReaderSawBothClear(run, i, j + 1, k))
            && (s.workers[k].reader.WriteFrame? && run[j].answer.Bad? ==> WriteFailed(run, i, j + 1, k))
  {
    hide Reached;
  }

  // What the reader does between two replies.
  lemma ReaderMoves(w: Worker, stop: bool, intr: bool, answer: Answer)
    ensures var r := NextReader(w, stop, intr, answer).reader;
            && (IsHandling(w.reader) ==>
                  || IsHandling(r) || IsEnding(r) || (w.reader.WriteFrame? && answer.Bad?)
                  || (r.ReaderInterrupted? && !stop))
            && (w.reader.ReaderInterrupted? ==> IsEnding(r) || !intr)
            && (IsEnding(w.reader) ==> IsEnding(r))
  {
  }

  // The worker starts its reader once.
  lemma WorkerLeavesReader(w: Worker, stop: bool, intr: bool, prefix: string, answer: Answer)
    requires ReaderFits(w) && !w.reader.NotStarted?
    ensures NextWorker(w, stop, intr, prefix, answer).reader == w.reader
  {
    if InSetup(w.pc) {
      hide LoopStep, ShutdownStep, FinalStep, EndStep;
    } else if InLoop(w.pc) {
      hide SetupStep, ShutdownStep, FinalStep, EndStep;
    } else {
      hide NextWorker;
      PastStaysPast(w, stop, intr, prefix, answer);
    }
  }

  lemma ReaderIsTaken(s: State, e: Event, k: nat)
    requires ReaderTakes(s, e, k)
    ensures k < |s.workers| && e.Read?
    ensures WorkerAfter(s, e, k) == NextReader(s.workers[k], s.flags.stopRequested, s.flags.interrupted, e.answer)
  {
    hide NextWorker, NextReader;
  }

  lemma ReaderNotTaken(s: State, e: Event, k: nat)
    requires k < |s.workers| && !ReaderTakes(s, e, k)
    requires ReaderFits(s.workers[k]) && !s.workers[k].reader.NotStarted?
    ensures WorkerAfter(s, e, k).reader == s.workers[k].reader
  {
    hide NextWorker, NextReader, ReaderFits;
    if Takes(s, e, k) {
      WorkerLeavesReader(s.workers[k], s.flags.stopRequested, s.flags.interrupted, s.status.filePrefix, e.answer);
    }
  }

  lemma HandlingGoesOn(run: seq<Event>, i: nat, j: nat, k: nat)
    requires i < j < |run| && Handles(run, i, j, k)
    ensures Handles(run, i, j + 1, k)
  {
    hide Reached, NextState, NextWorker, NextReader, ReaderSawStopClear, ReaderSawBothClear, WriteFailed, ReaderTakes;
    hide WorkerInv;
    var s, e := Reached(run[..j]), run[j];
    ReachedNext(run, j);
    StepIsWorkerAfter(s, e, k);
    ReaderSawMore(run, i, j, k);
    if ReaderTakes(s, e, k) {
      ReaderTestIsSeen(run, i, j, k);
      ReaderIsTaken(s, e, k);
      ReaderMoves(s.workers[k], s.flags.stopRequested, s.flags.interrupted, e.answer);
    } else if !s.workers[k].reader.NotStarted? {
      ReachedReaderFits(run[..j], k);
      ReaderNotTaken(s, e, k);
    }
  }

  lemma ReachedReaderFits(run: seq<Event>, k: nat)
    requires k < |Reached(run).workers|
    ensures ReaderFits(Reached(run).workers[k]) && FilesFit(Reached(run).workers[k])
  {
    hide Reached, FilesAreTheStream, ReaderFits, FilesFit;
    ReachedIsControlled(run, k);
  }

  lemma HandlingBegins(run: seq<Event>, i: nat, k: nat, r: Reply)
    requires i < |run| && ReaderTakes(Reached(run[..i]), run[i], k)
    requires var w := Reached(run[..i]).workers[k];
             w.reader.Reading? && run[i].answer == Next(r) && IsWanted(w.job.addresses, r)
    ensures Handles(run, i, i + 1, k)
  {
    hide Reached, NextState, ReaderSawStopClear, ReaderSawBothClear, WriteFailed, NextWorker;
    var s, e := Reached(run[..i]), run[i];
    ReachedNext(run, i);
    ReaderIsTaken(s, e, k);
    StepIsWorkerAfter(s, e, k);
    ReachedReaderFits(run[..i], k);
  }

  lemma {:induction false} RepliesAreHandled(run: seq<Event>, i: nat, j: nat, k: nat, r: Reply)
    requires i < j <= |run| && ReaderTakes(Reached(run[..i]), run[i], k)
    requires var w := Reached(run[..i]).workers[k];
             w.reader.Reading? && run[i].answer == Next(r) && IsWanted(w.job.addresses, r)
    ensures Handles(run, i, j, k)
    decreases j
  {
    hide Reached, Handles, ReaderTakes, IsWanted;
    if j == i + 1 {
      HandlingBegins(run, i, k, r);
    } else {
      RepliesAreHandled(run, i, j - 1, k, r);
      HandlingGoesOn(run, i, j - 1, k);
    }
  }

  /** After a frame or housekeeping frame that is not dropped the reader asks for the next reply only when it has
      seen the stop flag clear and then the interrupt flag clear, or when a frame could not be written. */
  lemma EveryReplyTests(run: seq<Event>, i: nat, j: nat, k: nat, r: Reply)
    requires i < j <= |run| && ReaderTakes(Reached(run[..i]), run[i], k)
    requires var w := Reached(run[..i]).workers[k];
             w.reader.Reading? && run[i].answer == Next(r) && IsWanted(w.job.addresses, r)
    requires k < |Reached(run[..j]).workers| && Reached(run[..j]).workers[k].reader.Reading?
    ensures ReaderSawBothClear(run, i, j, k) || WriteFailed(run, i, j, k)
  {
    hide Reached, ReaderTakes, IsWanted, ReaderSawBothClear, WriteFailed;
    RepliesAreHandled(run, i, j, k, r);
  }

  // ---------------------------------------------------------------------------------------------
  // The end of the reader
  // ---------------------------------------------------------------------------------------------

  // The server ended the stream of worker k.
  ghost predicate ServerEnded(run: seq<Event>, k: nat) {
    exists i | 0 <= i < |run| ::
      && ReaderTakes(Reached(run[..i]), run[i], k) && Reached(run[..i]).workers[k].reader.Reading?
      && run[i].answer.EndOfStream?
  }

  ghost predicate EndHasReason(run: seq<Event>, k: nat) {
    EverFindsFlag(Init(), run, k) || ServerEnded(run, k)
  }

  lemma EndingHasACause(w: Worker, stop: bool, intr: bool, answer: Answer)
    ensures IsEnding(NextReader(w, stop, intr, answer).reader) ==>
              || IsEnding(w.reader) || (w.reader.ReaderStop? && stop) || (w.reader.ReaderInterrupted? && intr)
              || (w.reader.Reading? && answer.EndOfStream?)
  {
  }

  lemma EndReasonStays(run: seq<Event>, e: Event, k: nat)
    requires EndHasReason(run, k)
    ensures EndHasReason(run + [e], k)
  {
    hide NextState, FindsFlag, ReaderTakes;
    var longer, n := run + [e], |run|;
    assert longer[..n] == run && longer[n] == e;
    assert forall i | 0 <= i < n :: longer[..i] == run[..i] && longer[i] == run[i];
    EverFindsMore(Init(), longer, k);
  }

  lemma StepEndsReader(run: seq<Event>, e: Event, k: nat)
    requires k < |Reached(run).workers| && ReaderFits(Reached(run).workers[k])
    requires !IsEnding(Reached(run).workers[k].reader)
    requires k < |Reached(run + [e]).workers| && IsEnding(Reached(run + [e]).workers[k].reader)
    ensures EndHasReason(run + [e], k)
  {
    hide NextState, NextWorker, NextReader, ReaderFits;
    var longer, n, s := run + [e], |run|, Reached(run);
    assert longer[..n] == run && longer[n] == e;
    assert Reached(longer) == NextState(s, e);
    EverFindsMore(Init(), longer, k);
    StepIsWorkerAfter(s, e, k);
    if ReaderTakes(s, e, k) {
      ReaderIsTaken(s, e, k);
      EndingHasACause(s.workers[k], s.flags.stopRequested, s.flags.interrupted, e.answer);
    } else if s.workers[k].reader.NotStarted? {
      FreshReaderStays(s, e, k);
    } else {
      ReaderNotTaken(s, e, k);
    }
  }

  lemma FreshReaderStays(s: State, e: Event, k: nat)
    requires k < |s.workers| && s.workers[k].reader.NotStarted? && !ReaderTakes(s, e, k)
    ensures !IsEnding(WorkerAfter(s, e, k).reader)
  {
    var w := s.workers[k];
    if InSetup(w.pc) {
      hide LoopStep, ShutdownStep, FinalStep, EndStep;
    } else if InLoop(w.pc) {
      hide SetupStep, ShutdownStep, FinalStep, EndStep;
    } else {
      hide NextWorker;
      if Takes(s, e, k) {
        PastStaysPast(w, s.flags.stopRequested, s.flags.interrupted, s.status.filePrefix, e.answer);
      }
    }
  }

  /** A reader ends for a reason: the server ended the stream, or a test of the worker or the reader found the stop
      or the interrupt flag set. */
  lemma {:induction false} ReaderEndsForAReason(run: seq<Event>, k: nat)
    ensures k < |Reached(run).workers| && IsEnding(Reached(run).workers[k].reader) ==> EndHasReason(run, k)
    decreases |run|
  {
    hide NextState, EndHasReason;
    if run == [] {
      assert Reached(run) == Init();
    } else {
      var n := |run| - 1;
      var before, e := run[..n], run[n];
      assert run == before + [e] && Reached(run) == NextState(Reached(before), e);
      ReaderEndsForAReason(before, k);
      if k < |Reached(before).workers| {
        if IsEnding(Reached(before).workers[k].reader) {
          EndReasonStays(before, e, k);
        } else if k < |Reached(run).workers| && IsEnding(Reached(run).workers[k].reader) {
          ReachedReaderFits(before, k);
          StepEndsReader(before, e, k);
        }
      } else {
        NewReadersDoNotEnd(Reached(before), e, k);
      }
    }
  }

  lemma NewReadersDoNotEnd(s: State, e: Event, k: nat)
    requires k >= |s.workers|
    ensures k < |NextState(s, e).workers| ==> !IsEnding(NextState(s, e).workers[k].reader)
  {
    hide Turn, NextWorker, NextReader;
  }

  // The reader's own steps in the run.
  function ReaderSteps(s: State, run: seq<Event>, k: nat): nat {
    if run == [] then 0 else
      var n := |run| - 1;
      ReaderSteps(s, run[..n], k) + if ReaderTakes(After(s, run[..n]), run[n], k) then 1 else 0
  }

  function ReaderLeft(r: ReaderPc): nat {
    if r.ReaderDone? then 0 else if r.SetDone? then 1 else 2
  }

  lemma EndingGoesOn(s: State, e: Event, k: nat)
    requires Inv(s) && k < |s.workers| && IsEnding(s.workers[k].reader)
    ensures var t, left := NextState(s, e), ReaderLeft(s.workers[k].reader);
            && k < |t.workers| && IsEnding(t.workers[k].reader)
            && ReaderLeft(t.workers[k].reader) <= if ReaderTakes(s, e, k) && left > 0 then left - 1 else left
  {
    hide Inv, NextState, NextWorker, ReaderFits;
    StepIsWorkerAfter(s, e, k);
    if ReaderTakes(s, e, k) {
      ReaderIsTaken(s, e, k);
    } else {
      WorkersFit(s, k);
      ReaderNotTaken(s, e, k);
    }
  }

  lemma WorkersFit(s: State, k: nat)
    requires Inv(s) && k < |s.workers|
    ensures ReaderFits(s.workers[k])
  {
    hide RecordFits, FreshRecord, FilesFit, FilesAreTheStream;
    assert WorkerInv(s.workers[k]);
  }

  /** Two of its own steps after the end of the stream, or after a test that found a flag set, the reader is done. */
  lemma {:induction false} EndedReaderIsDone(s: State, run: seq<Event>, k: nat)
    requires Inv(s) && k < |s.workers| && IsEnding(s.workers[k].reader)
    ensures var t := After(s, run);
            && k < |t.workers| && IsEnding(t.workers[k].reader)
            && (ReaderSteps(s, run, k) >= 2 ==> t.workers[k].reader.ReaderDone?)
            && ReaderLeft(t.workers[k].reader) + Least(ReaderSteps(s, run, k), 2) <= 2
    decreases |run|
  {
    hide Inv, NextState, ReaderTakes;
    if run != [] {
      EndedReaderIsDone(s, run[..|run| - 1], k);
      RunKeeps(s, run[..|run| - 1]);
      EndingGoesOn(After(s, run[..|run| - 1]), run[|run| - 1], k);
    }
  }

  function Least(a: nat, b: nat): nat {
    if a < b then a else b
  }

  /** When the server ends the stream, or a test of the reader finds a flag set, two more steps of the reader make it
      done, whatever happens meanwhile. */
  lemma StreamEndIsFinal(run: seq<Event>, e: Event, k: nat, rest: seq<Event>)
    requires ReaderTakes(Reached(run), e, k)
    requires FindsFlag(Reached(run), e, k)
             || (Reached(run).workers[k].reader.Reading? && e.answer.EndOfStream?)
    ensures var t := NextState(Reached(run), e);
            var u := After(t, rest);
            && k < |u.workers| && !u.workers[k].reader.Reading?
            && (ReaderSteps(t, rest, k) >= 2 ==> u.workers[k].reader.ReaderDone?)
  {
    hide Inv, NextState, NextWorker, Reached;
    var s := Reached(run);
    ReachedFits(run);
    StepKeeps(s, e);
    StepIsWorkerAfter(s, e, k);
    ReaderIsTaken(s, e, k);
    EndedReaderIsDone(NextState(s, e), rest, k);
  }

  // ---------------------------------------------------------------------------------------------
  // What was received
  // ---------------------------------------------------------------------------------------------

  // The replies that the reader of worker k was given in the run, in order.
  function Replies(run: seq<Event>, k: nat): seq<Reply> {
    if run == [] then [] else
      var before, e := run[..|run| - 1], run[|run| - 1];
      var s := Reached(before);
      Replies(before, k)
      + if ReaderTakes(s, e, k) && s.workers[k].reader.Reading? && e.answer.Next? then [e.answer.reply] else []
  }

  lemma ReaderReceives(w: Worker, stop: bool, intr: bool, answer: Answer)
    ensures NextReader(w, stop, intr, answer).received
            == w.received + if w.reader.Reading? && answer.Next? then [answer.reply] else []
  {
    hide TurnStep;
    assert w.received + [] == w.received;
    if !w.reader.Reading? && !w.reader.WriteFrame? && !w.reader.CountLocal? {
      TurnFrame(w, stop, intr, answer);
    }
  }

  lemma WorkerReceivesNothing(w: Worker, stop: bool, intr: bool, prefix: string, answer: Answer)
    ensures NextWorker(w, stop, intr, prefix, answer).received == w.received
  {
    if InSetup(w.pc) {
      hide LoopStep, ShutdownStep, FinalStep, EndStep;
    } else if InLoop(w.pc) {
      hide SetupStep, ShutdownStep, FinalStep, EndStep;
    } else if InShutdown(w.pc) {
      hide SetupStep, LoopStep, FinalStep, EndStep;
    } else if InFinal(w.pc) {
      hide SetupStep, LoopStep, ShutdownStep, EndStep;
    } else {
      hide SetupStep, LoopStep, ShutdownStep, FinalStep;
    }
  }

  lemma StepReceives(s: State, e: Event, k: nat)
    requires k < |s.workers|
    ensures WorkerAfter(s, e, k).received
            == s.workers[k].received
               + if ReaderTakes(s, e, k) && s.workers[k].reader.Reading? && e.answer.Next? then [e.answer.reply] else []
  {
    hide NextWorker, NextReader;
    var w := s.workers[k];
    assert w.received + [] == w.received;
    if Takes(s, e, k) {
      WorkerReceivesNothing(w, s.flags.stopRequested, s.flags.interrupted, s.status.filePrefix, e.answer);
    } else if ReaderTakes(s, e, k) {
      ReaderReceives(w, s.flags.stopRequested, s.flags.interrupted, e.answer);
    }
  }

  lemma NobodyReads(run: seq<Event>, e: Event, k: nat)
    requires k >= |Reached(run).workers|
    ensures k < |NextState(Reached(run), e).workers| ==> NextState(Reached(run), e).workers[k].received == []
    ensures !ReaderTakes(Reached(run), e, k)
  {
    hide Turn, NextWorker, NextReader;
  }

  lemma {:induction false} NoRepliesYet(run: seq<Event>, k: nat)
    requires k >= |Reached(run).workers|
    ensures Replies(run, k) == []
    decreases |run|
  {
    hide NextState;
    if run != [] {
      var before, e := run[..|run| - 1], run[|run| - 1];
      WorkersStay(Reached(before), e);
      NoRepliesYet(before, k);
      NobodyReads(before, e, k);
    }
  }

  lemma WorkersStay(s: State, e: Event)
    ensures |NextState(s, e).workers| >= |s.workers|
  {
    hide Turn, NextWorker, NextReader;
  }

  /** The history of a job is what its reader was given: what FilesHoldTheStream says of it is said of the replies of
      the server. */
  lemma {:induction false} ReceivedAreReplies(run: seq<Event>, k: nat)
    requires k < |Reached(run).workers|
    ensures Reached(run).workers[k].received == Replies(run, k)
    decreases |run|
  {
    hide NextState, ReaderTakes;
    if run != [] {
      var before, e := run[..|run| - 1], run[|run| - 1];
      if k < |Reached(before).workers| {
        ReceivedAreReplies(before, k);
        StepIsWorkerAfter(Reached(before), e, k);
        StepReceives(Reached(before), e, k);
      } else {
        NoRepliesYet(before, k);
        NobodyReads(before, e, k);
      }
    }
  }
}
