/** The status record of the acquisition in src/commands.cc, as a value and as the guarded global. */
module ReadoutStatus {

  const MAX_MESSAGES := 20

  datatype Status = Status(
    duration: int,
    startTime: int,
    counters: map<nat, nat>,
    messages: seq<string>,
    jobName: string,
    filePrefix: string,
    hkFilename: string,
    registerFilename: string,
    suppressed: nat,
    flags: Flags)

  datatype Flags = Flags(started: bool, hasResult: bool, succeeded: bool, stopRequested: bool)

  function ResetTo(duration: int, jobName: string): Status {
    Status(duration, 0, map[], [], jobName, "", "", "", 0, Flags(false, false, false, false))
  }

  const BLANK := ResetTo(0, "readout")

  // Counters that exist keep their count.
  function WithOutputs(s: Status, filePrefix: string, hkFilename: string, addresses: set<nat>): Status {
    s.(filePrefix := filePrefix, hkFilename := hkFilename,
       counters := map a | a in s.counters.Keys + addresses :: if a in s.counters then s.counters[a] else 0)
  }

  function Members(list: seq<nat>): set<nat> {
    set a: nat | a in list
  }

  lemma NoneYet(s: Status, filePrefix: string, hkFilename: string)
    ensures WithOutputs(s, filePrefix, hkFilename, Members([]))
            == s.(filePrefix := filePrefix, hkFilename := hkFilename)
  {
  }

  lemma OneMore(s: Status, filePrefix: string, hkFilename: string, list: seq<nat>, i: nat)
    requires i < |list|
    ensures var done := WithOutputs(s, filePrefix, hkFilename, Members(list[..i]));
            var counters := if list[i] in done.counters then done.counters else done.counters[list[i] := 0];
            WithOutputs(s, filePrefix, hkFilename, Members(list[..i + 1])) == done.(counters := counters)
  {
    assert Members(list[..i + 1]) == Members(list[..i]) + {list[i]};
  }

  lemma OutputCounters(s: Status, filePrefix: string, hkFilename: string, list: seq<nat>)
    ensures var r := WithOutputs(s, filePrefix, hkFilename, Members(list));
            && r.filePrefix == filePrefix && r.hkFilename == hkFilename
            && (forall a: nat :: a in r.counters <==> a in s.counters || a in list)
            && forall a <- r.counters.Keys :: r.counters[a] == if a in s.counters then s.counters[a] else 0
  {
  }

  function Incremented(counters: map<nat, nat>, address: nat): map<nat, nat> {
    counters[address := (if address in counters then counters[address] else 0) + 1]
  }

  function Finished(s: Status, succeeded: bool, stopRequested: bool): Status {
    s.(flags := Flags(s.flags.started, true, succeeded, stopRequested))
  }

  function Started(s: Status): Status {
    s.(flags := s.flags.(started := true))
  }

  // The first messages are kept, the others counted.
  function WithMessage(s: Status, message: string): Status {
    if |s.messages| < MAX_MESSAGES then s.(messages := s.messages + [message])
    else s.(suppressed := s.suppressed + 1)
  }

  function WithMessages(s: Status, messages: seq<string>): Status {
    if messages == [] then s
    else WithMessage(WithMessages(s, messages[..|messages| - 1]), messages[|messages| - 1])
  }

  /** Of the messages since a reset the record holds the first twenty in order and the number of others. */
  lemma {:induction false} FirstMessagesAreKept(s: Status, messages: seq<string>)
    requires s.messages == [] && s.suppressed == 0
    ensures var r := WithMessages(s, messages);
            var n := if |messages| < 20 then |messages| else 20;
            r == s.(messages := messages[..n], suppressed := |messages| - n)
    decreases |messages|
  {
    if messages != [] {
      FirstMessagesAreKept(s, messages[..|messages| - 1]);
    }
  }

  class Record {
    var status: Status

    constructor ()
      ensures status == BLANK
    {
      status := BLANK;
    }

    method ResetStatus(duration: int, jobName: string)
      modifies this
      ensures status == ResetTo(duration, jobName)
    {
      status := BLANK;
      status := status.(duration := duration);
      status := status.(jobName := jobName);
    }

    method MarkStarted(now: int)
      modifies this
      ensures status == Started(old(status).(startTime := now))
    {
      status := status.(startTime := now);
      status := status.(flags := status.flags.(started := true));
    }

    method SetOutputs(filePrefix: string, hkFilename: string, detectorAddresses: seq<nat>)
      modifies this
      ensures status == WithOutputs(old(status), filePrefix, hkFilename, Members(detectorAddresses))
      ensures status.filePrefix == filePrefix && status.hkFilename == hkFilename
      ensures forall a: nat :: a in status.counters <==> a in old(status).counters || a in detectorAddresses
      ensures forall a <- status.counters.Keys ::
                status.counters[a] == if a in old(status).counters then old(status).counters[a] else 0
    {
      hide WithOutputs, Members;
      status := status.(filePrefix := filePrefix);
      status := status.(hkFilename := hkFilename);
      NoneYet(old(status), filePrefix, hkFilename);
      for i := 0 to |detectorAddresses|
        invariant status == WithOutputs(old(status), filePrefix, hkFilename, Members(detectorAddresses[..i]))
      {
        var address := detectorAddresses[i];
        OneMore(old(status), filePrefix, hkFilename, detectorAddresses, i);
        if address !in status.counters {
          status := status.(counters := status.counters[address := 0]);
        }
      }
      assert detectorAddresses[..|detectorAddresses|] == detectorAddresses;
      OutputCounters(old(status), filePrefix, hkFilename, detectorAddresses);
    }

    method SetRegisterOutput(registerFilename: string)
      modifies this
      ensures status == old(status).(registerFilename := registerFilename)
    {
      status := status.(registerFilename := registerFilename);
    }

    method RecordMessage(message: string)
      modifies this
      ensures status == WithMessage(old(status), message)
    {
      if |status.messages| < MAX_MESSAGES {
        status := status.(messages := status.messages + [message]);
      } else {
        status := status.(suppressed := status.suppressed + 1);
      }
    }

    method IncrementFrameCount(address: nat)
      modifies this
      ensures status == old(status).(counters := Incremented(old(status).counters, address))
      ensures address in status.counters
      ensures status.counters[address]
              == (if address in old(status).counters then old(status).counters[address] else 0) + 1
      ensures status.counters - {address} == old(status).counters - {address}
    {
      var count := if address in status.counters then status.counters[address] else 0;
      status := status.(counters := status.counters[address := count + 1]);
    }

    method FinishStatus(succeeded: bool, stopRequested: bool)
      modifies this
      ensures status == Finished(old(status), succeeded, stopRequested)
      ensures status.flags == old(status).flags.(hasResult := true, succeeded := succeeded,
                                                 stopRequested := stopRequested)
    {
      status := status.(flags := status.flags.(hasResult := true));
      status := status.(flags := status.flags.(succeeded := succeeded));
      status := status.(flags := status.flags.(stopRequested := stopRequested));
    }

    method Snapshot() returns (s: Status)
      ensures s == status
    {
      s := status;
    }
  }
}
