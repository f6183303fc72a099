/**
  When an abort is final. Some continuation without a new initiate still sends FILE_READY for
  the aborted name if and only if its record already waits to be stored, or the data already
  at its downloader completes the file when it is handled before any timeout.
*/
module AbortFinality {
  import opened PacketChain
  import opened Machine
  import T = Transfer
  import opened FileRepository
  import opened FileListing
  import opened DownloadMachine
  import opened DownloadRuns
  import opened DownloadIntegrity
  import opened DownloadOrigin

  // ---------------------------------------------------------------- what waits at the downloader

  ghost predicate Succeeds(calls: seq<T.Call>) {
    exists i :: 0 <= i < |calls| && calls[i].Succeeded?
  }

  /** Run one after the other, with no timeout in between, these commands complete the file. */
  ghost predicate WouldSucceed(cfg: T.Config, t: T.State, inbox: seq<T.Command>)
    decreases |inbox|
  {
    inbox != [] &&
    var o := T.Step(cfg, t, T.EventOf(inbox[0], true));
    Succeeds(o.calls) || WouldSucceed(cfg, o.state, inbox[1..])
  }

  /** What a timeout makes of a transfer, perhaps more than once: u is no better off than t. */
  ghost predicate Behind(u: T.State, t: T.State) {
    || u == t
    || u.Undefined?
    || (u.Idle? && t.Active?)
    || (u.Active? && t.Active? && u.job == t.job && u.accepted == t.accepted && t.tries <= u.tries <= T.MAX_RETRY_COUNT)
  }

  lemma DataKeepsBehind(cfg: T.Config, u: T.State, t: T.State, packet: Packet)
    requires Behind(u, t) && u.Active? && t.Active?
    ensures var e := T.Data(packet, true);
            && Behind(T.Step(cfg, u, e).state, T.Step(cfg, t, e).state)
            && (Succeeds(T.Step(cfg, u, e).calls) ==> T.Step(cfg, u, e).calls == T.Step(cfg, t, e).calls)
  {
    if !Extends(cfg.digest, t.accepted, packet) {
      assert forall c | c in T.Retry(u).calls :: !c.Succeeded?;
    }
  }

  lemma StepKeepsBehind(cfg: T.Config, u: T.State, t: T.State, c: T.Command)
    requires Behind(u, t)
    ensures var e := T.EventOf(c, true);
            && Behind(T.Step(cfg, u, e).state, T.Step(cfg, t, e).state)
            && (Succeeds(T.Step(cfg, u, e).calls) ==> Succeeds(T.Step(cfg, t, e).calls))
  {
    if u.Active? && t.Active? && c.DataCommand? {
      DataKeepsBehind(cfg, u, t, c.packet);
    }
  }

  /** Timeouts never help. */
  lemma {:induction false} BehindSucceedsLess(cfg: T.Config, u: T.State, t: T.State, inbox: seq<T.Command>)
    requires Behind(u, t) && WouldSucceed(cfg, u, inbox)
    ensures WouldSucceed(cfg, t, inbox)
    decreases |inbox|
  {
    StepKeepsBehind(cfg, u, t, inbox[0]);
    var e := T.EventOf(inbox[0], true);
    if !Succeeds(T.Step(cfg, u, e).calls) {
      BehindSucceedsLess(cfg, T.Step(cfg, u, e).state, T.Step(cfg, t, e).state, inbox[1..]);
    }
  }

  lemma TimeoutFallsBehind(cfg: T.Config, t: T.State)
    requires t.Active? && t.tries <= T.MAX_RETRY_COUNT
    ensures Behind(T.Step(cfg, t, T.Timeout).state, t) && !Succeeds(T.Step(cfg, t, T.Timeout).calls)
  {
  }

  lemma AbortSucceedsNever(cfg: T.Config, t: T.State)
    ensures !WouldSucceed(cfg, t, [T.AbortCommand])
  {
    assert [T.AbortCommand][1..] == [];
  }

  /** An abort behind them changes nothing for the commands that wait. */
  lemma {:induction false} AbortComesLast(cfg: T.Config, t: T.State, inbox: seq<T.Command>)
    requires !WouldSucceed(cfg, t, inbox)
    ensures !WouldSucceed(cfg, t, inbox + [T.AbortCommand])
    decreases |inbox|
  {
    if inbox == [] {
      assert inbox + [T.AbortCommand] == [T.AbortCommand];
      AbortSucceedsNever(cfg, t);
    } else {
      assert (inbox + [T.AbortCommand])[1..] == inbox[1..] + [T.AbortCommand];
      AbortComesLast(cfg, T.Step(cfg, t, T.EventOf(inbox[0], true)).state, inbox[1..]);
    }
  }

  /** A file that cannot be written leads to the same state, and to no success. */
  lemma UnwritableSucceedsNever(cfg: T.Config, t: T.State, c: T.Command, writable: bool)
    ensures T.Step(cfg, t, T.EventOf(c, writable)).state == T.Step(cfg, t, T.EventOf(c, true)).state
    ensures Succeeds(T.Step(cfg, t, T.EventOf(c, writable)).calls) ==>
              Succeeds(T.Step(cfg, t, T.EventOf(c, true)).calls)
  {
  }

  // ---------------------------------------------------------------- doomed

  predicate ReadyFor(e: Effect, name: string) {
    e.FileReady? && e.info.name == name
  }

  predicate InitiatesName(c: Command, name: string) {
    c.HandleInitiate? && c.name == name
  }

  ghost predicate NoNews(queue: seq<Command>, name: string) {
    forall c | c in queue :: !InitiatesName(c, name) && !StoresName(c, name)
  }

  /** No data will reach the downloader of this name any more. */
  ghost predicate CutOff(s: State, name: string) {
    name !in s.entries || s.active != name || (s.queue != [] && s.queue[0] == HandleAbort(name))
  }

  ghost predicate Hopeless(cfg: Config, entries: map<string, Entry>, name: string) {
    name in entries ==>
      && name != ""
      && (entries[name].transfer.Active? ==> entries[name].transfer.tries <= T.MAX_RETRY_COUNT)
      && !WouldSucceed(cfg.transfer, entries[name].transfer, entries[name].inbox)
  }

  ghost predicate Doomed(cfg: Config, s: State, name: string) {
    && Consistent(s.records)
    && NoNews(s.queue, name)
    && CutOff(s, name)
    && Hopeless(cfg, s.entries, name)
  }

  ghost predicate NotReady(effects: seq<Effect>, name: string) {
    forall e | e in effects :: !ReadyFor(e, name)
  }

  lemma PerformStaysDoomed(cfg: Config, s: State, c: Command, name: string, now: Surroundings)
    requires Consistent(s.records) && NoNews(s.queue, name) && Hopeless(cfg, s.entries, name)
    requires name !in s.entries || s.active != name || c == HandleAbort(name)
    requires !InitiatesName(c, name) && !StoresName(c, name)
    ensures var o := Perform(cfg, s, c, now);
            && NoNews(o.state.queue, name) && Hopeless(cfg, o.state.entries, name)
            && (name !in o.state.entries || o.state.active != name)
            && NotReady(o.calls, name)
  {
    match c
    case HandleAbort(other) =>
      if other == name && name in s.entries {
        AbortComesLast(cfg.transfer, s.entries[name].transfer, s.entries[name].inbox);
      }
    case SendFileList => ReadsAreReads(cfg, s.records, now.directory, now.directory.names);
    case _ =>
  }

  lemma RetryTries(cfg: T.Config, t: T.State, e: T.Event)
    requires t.Active? ==> t.tries <= T.MAX_RETRY_COUNT
    ensures T.Step(cfg, t, e).state.Active? ==> T.Step(cfg, t, e).state.tries <= T.MAX_RETRY_COUNT
  {
  }

  /** The downloader of another name, or a hopeless one, records nothing under this name. */
  lemma DownloaderStaysDoomed(cfg: Config, s: State, name: string, other: string, inbox: seq<T.Command>, e: T.Event)
    requires Doomed(cfg, s, name) && other in s.entries
    requires other == name ==>
               var o := T.Step(cfg.transfer, s.entries[name].transfer, e);
               !Succeeds(o.calls) && !WouldSucceed(cfg.transfer, o.state, inbox)
    ensures var o := Downloads(cfg, s, other, inbox, e);
            NoNews(o.state.queue, name) && Hopeless(cfg, o.state.entries, name) && NotReady(o.calls, name)
  {
    var entry := s.entries[other];
    var taken := T.Step(cfg.transfer, entry.transfer, e);
    var u := s.(entries := s.entries[other := entry.(transfer := taken.state, inbox := inbox)]);
    StepCalls(cfg.transfer, entry.transfer, e);
    DownloaderStep(cfg, s, other, inbox, e);
    CallsPushAndEmit(u, other, entry.hash, taken.calls);
    if other == name {
      RetryTries(cfg.transfer, entry.transfer, e);
    }
  }

  lemma DownloaderKeepsQueue(cfg: Config, s: State, other: string, inbox: seq<T.Command>, e: T.Event)
    requires other in s.entries
    ensures s.queue <= Downloads(cfg, s, other, inbox, e).state.queue
  {
    var entry := s.entries[other];
    var taken := T.Step(cfg.transfer, entry.transfer, e);
    StepCalls(cfg.transfer, entry.transfer, e);
    CallsPush(s.(entries := s.entries[other := entry.(transfer := taken.state, inbox := inbox)]),
              other, entry.hash, taken.calls);
  }

  lemma RunDownloaderStaysDoomed(cfg: Config, s: State, name: string, other: string, writable: bool)
    requires Doomed(cfg, s, name) && other in s.entries && s.entries[other].inbox != []
    ensures var o := Step(cfg, s, RunDownloader(other, writable)); Doomed(cfg, o.state, name) && NotReady(o.calls, name)
  {
    var inbox := s.entries[other].inbox;
    var e := T.EventOf(inbox[0], writable);
    UnwritableSucceedsNever(cfg.transfer, s.entries[other].transfer, inbox[0], writable);
    DownloaderStaysDoomed(cfg, s, name, other, inbox[1..], e);
    DownloaderStep(cfg, s, other, inbox[1..], e);
    DownloaderKeepsQueue(cfg, s, other, inbox[1..], e);
  }

  lemma TimerStaysDoomed(cfg: Config, s: State, name: string, other: string)
    requires Doomed(cfg, s, name) && other in s.entries && s.entries[other].transfer.Active?
    ensures var o := Step(cfg, s, TimerFires(other)); Doomed(cfg, o.state, name) && NotReady(o.calls, name)
  {
    var t, inbox := s.entries[other].transfer, s.entries[other].inbox;
    if other == name {
      TimeoutFallsBehind(cfg.transfer, t);
      if WouldSucceed(cfg.transfer, T.Step(cfg.transfer, t, T.Timeout).state, inbox) {
        BehindSucceedsLess(cfg.transfer, T.Step(cfg.transfer, t, T.Timeout).state, t, inbox);
      }
    }
    DownloaderStaysDoomed(cfg, s, name, other, inbox, T.Timeout);
    DownloaderStep(cfg, s, other, inbox, T.Timeout);
    DownloaderKeepsQueue(cfg, s, other, inbox, T.Timeout);
  }

  predicate Asks(e: Event, name: string) {
    e.Receive? && InitiatesName(e.command, name)
  }

  lemma StepStaysDoomed(cfg: Config, s: State, e: Event, name: string)
    requires Doomed(cfg, s, name) && !Asks(e, name)
    ensures var o := Step(cfg, s, e); Doomed(cfg, o.state, name) && NotReady(o.calls, name)
  {
    match e
    case Receive(_) =>
    case Collect =>
    case RunService(now) =>
      if s.queue != [] {
        var rest, c := s.(queue := s.queue[1..]), s.queue[0];
        assert c in s.queue;
        PerformStaysDoomed(cfg, rest, c, name, now);
        PerformKeepsConsistent(cfg, rest, c, now);
      }
    case RunDownloader(other, writable) =>
      if other in s.entries && s.entries[other].inbox != [] {
        RunDownloaderStaysDoomed(cfg, s, name, other, writable);
      }
    case TimerFires(other) =>
      if other in s.entries && s.entries[other].transfer.Active? {
        TimerStaysDoomed(cfg, s, name, other);
      }
  }

  ghost predicate NoAsks(es: seq<Event>, name: string) {
    forall e | e in es :: !Asks(e, name)
  }

  lemma {:induction false} DoomedRunsAreNeverReady(cfg: Config, s: State, es: seq<Event>, name: string)
    requires Doomed(cfg, s, name) && NoAsks(es, name)
    ensures var o := Run(Steps(cfg), s, es); Doomed(cfg, o.state, name) && NotReady(o.calls, name)
  {
    if es != [] {
      var init, e := es[..|es| - 1], es[|es| - 1];
      assert e in es;
      DoomedRunsAreNeverReady(cfg, s, init, name);
      StepStaysDoomed(cfg, Run(Steps(cfg), s, init).state, e, name);
    }
  }

  // ---------------------------------------------------------------- and otherwise

  /** Some run without a new initiate of the name sends FILE_READY for it. */
  ghost predicate MayBeReady(cfg: Config, s: State, name: string) {
    exists es :: NoAsks(es, name) && BecomesReady(cfg, s, es, name)
  }

  ghost predicate BecomesReady(cfg: Config, s: State, es: seq<Event>, name: string) {
    !NotReady(Run(Steps(cfg), s, es).calls, name)
  }

  lemma ReadyAfterOneMore(cfg: Config, s: State, e: Event, es: seq<Event>, name: string)
    requires !Asks(e, name) && NoAsks(es, name) && BecomesReady(cfg, Step(cfg, s, e).state, es, name)
    ensures NoAsks([e] + es, name) && BecomesReady(cfg, s, [e] + es, name)
  {
    RunCons(Steps(cfg), s, [e] + es);
    assert ([e] + es)[1..] == es;
    var first, rest := Step(cfg, s, e).calls, Run(Steps(cfg), Step(cfg, s, e).state, es).calls;
    var x :| x in rest && ReadyFor(x, name);
    assert x in first + rest;
  }

  ghost predicate RecordWaits(s: State, k: nat, name: string) {
    k < |s.queue| && StoresName(s.queue[k], name)
  }

  lemma ServiceKeepsQueue(cfg: Config, s: State, now: Surroundings)
    requires s.queue != []
    ensures s.queue[1..] <= Step(cfg, s, RunService(now)).state.queue
  {
  }

  /** A record that waits is stored and reported in its turn. */
  lemma {:induction false} WaitingRecordIsReported(cfg: Config, s: State, k: nat, name: string, now: Surroundings)
    returns (es: seq<Event>)
    requires RecordWaits(s, k, name)
    ensures NoAsks(es, name) && BecomesReady(cfg, s, es, name)
    decreases k
  {
    var e := RunService(now);
    ServiceKeepsQueue(cfg, s, now);
    if k == 0 {
      es := [e];
      RunOne(Steps(cfg), s, e);
      var ready := FileReady(s.queue[0].info);
      assert ready in Step(cfg, s, e).calls && ReadyFor(ready, name);
    } else {
      var t := Step(cfg, s, e).state;
      assert s.queue[1..][k - 1] == s.queue[k];
      var rest := WaitingRecordIsReported(cfg, t, k - 1, name, now);
      ReadyAfterOneMore(cfg, s, e, rest, name);
      es := [e] + rest;
    }
  }

  lemma SuccessPushesRecord(s: State, name: string, hash: string, calls: seq<T.Call>)
    requires AreStepCalls(calls) && Succeeds(calls)
    ensures RecordWaits(OnCalls(s, name, hash, calls).state, |s.queue|, name)
  {
    CallsPush(s, name, hash, calls);
  }

  lemma SuccessQueuesRecord(cfg: Config, s: State, name: string, inbox: seq<T.Command>, e: T.Event) returns (k: nat)
    requires name in s.entries && Succeeds(T.Step(cfg.transfer, s.entries[name].transfer, e).calls)
    ensures RecordWaits(Downloads(cfg, s, name, inbox, e).state, k, name)
  {
    var entry := s.entries[name];
    var taken := T.Step(cfg.transfer, entry.transfer, e);
    StepCalls(cfg.transfer, entry.transfer, e);
    var u := s.(entries := s.entries[name := entry.(transfer := taken.state, inbox := inbox)]);
    SuccessPushesRecord(u, name, entry.hash, taken.calls);
    k := |s.queue|;
  }

  /** Data that would complete the file does so, if it is handled at once. */
  lemma {:induction false} WaitingDataIsReported(cfg: Config, s: State, name: string, now: Surroundings)
    returns (es: seq<Event>)
    requires name in s.entries && WouldSucceed(cfg.transfer, s.entries[name].transfer, s.entries[name].inbox)
    ensures NoAsks(es, name) && BecomesReady(cfg, s, es, name)
    decreases |s.entries[name].inbox|
  {
    var entry := s.entries[name];
    var e, event := RunDownloader(name, true), T.EventOf(entry.inbox[0], true);
    DownloaderStep(cfg, s, name, entry.inbox[1..], event);
    var rest;
    if Succeeds(T.Step(cfg.transfer, entry.transfer, event).calls) {
      var k := SuccessQueuesRecord(cfg, s, name, entry.inbox[1..], event);
      rest := WaitingRecordIsReported(cfg, Step(cfg, s, e).state, k, name, now);
    } else {
      rest := WaitingDataIsReported(cfg, Step(cfg, s, e).state, name, now);
    }
    ReadyAfterOneMore(cfg, s, e, rest, name);
    es := [e] + rest;
  }

  /** What makes an abort come too late. A caller could look for both. */
  ghost predicate TooLate(cfg: Config, s: State, name: string) {
    || (exists k :: RecordWaits(s, k, name))
    || (name in s.entries && WouldSucceed(cfg.transfer, s.entries[name].transfer, s.entries[name].inbox))
  }

  /**
    In every reachable state in which an abort is next, and no initiate of its name waits: some
    continuation without a new initiate of that name sends FILE_READY for it if and only if the
    abort comes too late. Otherwise it is final.
  */
  lemma AbortIsFinalExactlyWhen(cfg: Config, before: seq<Event>, name: string)
    requires var s := After(cfg, before);
             && s.queue != [] && s.queue[0] == HandleAbort(name)
             && forall c | c in s.queue :: !InitiatesName(c, name)
    ensures MayBeReady(cfg, After(cfg, before), name) <==> TooLate(cfg, After(cfg, before), name)
  {
    var s := After(cfg, before);
    EveryEntryIsOk(cfg, before);
    EveryRunIsTraced(cfg, before);
    if TooLate(cfg, s, name) {
      var now := Surroundings(Directory([], map[]), map[]);
      var es;
      if k: nat :| RecordWaits(s, k, name) {
        es := WaitingRecordIsReported(cfg, s, k, name, now);
      } else {
        es := WaitingDataIsReported(cfg, s, name, now);
      }
      assert NoAsks(es, name) && BecomesReady(cfg, s, es, name);
    } else {
      forall c | c in s.queue
        ensures !StoresName(c, name)
      {
        var k :| 0 <= k < |s.queue| && s.queue[k] == c;
        assert !RecordWaits(s, k, name);
      }
      assert Doomed(cfg, s, name);
      forall es | NoAsks(es, name)
        ensures !BecomesReady(cfg, s, es, name)
      {
        DoomedRunsAreNeverReady(cfg, s, es, name);
      }
    }
  }
}
