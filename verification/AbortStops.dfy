/** An abort stops the transfer: it asks for no packet, writes nothing and reports nothing any more. */
module AbortStops {
  import opened Machine
  import T = Transfer
  import opened DownloadMachine
  import opened DownloadRuns
  import opened DownloadIntegrity
  import opened DownloadAnswers
  import opened AbortFinality

  // ---------------------------------------------------------------- stopped

  /** Nothing is running under this name, and nothing will be unless the platform initiates it. */
  ghost predicate Stopped(s: State, name: string) {
    && (name in s.entries ==> !IsLive(s.entries[name]))
    && (forall c | c in s.queue :: !InitiatesName(c, name))
  }

  /** No request for a packet of this file, and no error status for it. */
  predicate Quiet(e: Effect, name: string) {
    match e
    case Asked(fileName, _, _) => fileName != name
    case StatusSent(n, status) => n == name ==> !status.Error?
    case _ => true
  }

  ghost predicate AllQuiet(effects: seq<Effect>, name: string) {
    forall e | e in effects :: Quiet(e, name)
  }

  lemma NotLiveMakesNoCall(cfg: Config, name: string, entry: Entry, e: T.Event)
    requires EntryOk(cfg, name, entry) && !IsLive(entry)
    requires (e.Timeout? && entry.transfer.Active?)
          || (entry.inbox != [] && exists w :: e == T.EventOf(entry.inbox[0], w))
    ensures var o := T.Step(cfg.transfer, entry.transfer, e); o.calls == [] && !o.state.Active?
  {
    T.StepShape(cfg.transfer, entry.transfer, e);
  }

  /** The downloader of another name speaks of that name only. */
  lemma OthersAreQuiet(cfg: Config, s: State, other: string, hash: string, t: T.State, calls: seq<T.Call>, name: string)
    requires other != name && AreStepCalls(calls)
    requires calls != [] && calls[0].Ask? ==> calls[0].name == other
    ensures AllQuiet(OnCalls(s, other, hash, calls).calls, name)
  {
    if |calls| == 1 {
      assert calls[..0] == [];
    } else if |calls| == 2 {
      var first := calls[..1];
      assert first[..0] == [];
      assert OnCalls(s, other, hash, first) == Outcome(s, [Wrote(calls[0].write)]);
    }
  }

  lemma AskNames(cfg: Config, name: string, entry: Entry, inbox: seq<T.Command>, e: T.Event)
    requires EntryOk(cfg, name, entry)
    requires (inbox == entry.inbox && e.Timeout? && entry.transfer.Active?)
          || (entry.inbox != [] && inbox == entry.inbox[1..] && exists w :: e == T.EventOf(entry.inbox[0], w))
    ensures var calls := T.Step(cfg.transfer, entry.transfer, e).calls;
            calls != [] && calls[0].Ask? ==> calls[0].name == name
  {
    T.StepShape(cfg.transfer, entry.transfer, e);
  }

  lemma NoCalls(s: State, name: string, hash: string)
    ensures OnCalls(s, name, hash, []) == Outcome(s, [])
  {
  }

  lemma DownloaderStaysStopped(cfg: Config, s: State, other: string, inbox: seq<T.Command>, e: T.Event, name: string)
    requires EntriesOk(cfg, s) && Stopped(s, name) && other in s.entries
    requires var entry := s.entries[other];
             || (inbox == entry.inbox && e.Timeout? && entry.transfer.Active?)
             || (entry.inbox != [] && inbox == entry.inbox[1..] && exists w :: e == T.EventOf(entry.inbox[0], w))
    ensures var o := Downloads(cfg, s, other, inbox, e); Stopped(o.state, name) && AllQuiet(o.calls, name)
    ensures other == name ==> T.Step(cfg.transfer, s.entries[name].transfer, e).calls == []
  {
    var entry := s.entries[other];
    var taken := T.Step(cfg.transfer, entry.transfer, e);
    var u := s.(entries := s.entries[other := entry.(transfer := taken.state, inbox := inbox)]);
    StepCalls(cfg.transfer, entry.transfer, e);
    DownloaderStep(cfg, s, other, inbox, e);
    CallsPush(u, other, entry.hash, taken.calls);
    if other == name {
      NotLiveMakesNoCall(cfg, name, entry, e);
      NoCalls(u, name, entry.hash);
    } else {
      AskNames(cfg, other, entry, inbox, e);
      OthersAreQuiet(cfg, u, other, entry.hash, taken.state, taken.calls, name);
    }
  }

  lemma PerformStaysStopped(cfg: Config, s: State, c: Command, now: Surroundings, name: string)
    requires Stopped(s, name) && !InitiatesName(c, name) && name != ""
    ensures var o := Perform(cfg, s, c, now); Stopped(o.state, name) && AllQuiet(o.calls, name)
  {
    if c.SendFileList? {
      ReadsAreReads(cfg, s.records, now.directory, now.directory.names);
    }
  }

  lemma StepStaysStopped(cfg: Config, s: State, e: Event, name: string)
    requires EntriesOk(cfg, s) && Stopped(s, name) && name != "" && !Asks(e, name)
    ensures var o := Step(cfg, s, e); Stopped(o.state, name) && AllQuiet(o.calls, name)
    ensures CallsFor(cfg, s, e, name) == []
  {
    match e
    case Receive(_) =>
    case Collect =>
    case RunService(now) =>
      if s.queue != [] {
        assert s.queue[0] in s.queue;
        PerformStaysStopped(cfg, s.(queue := s.queue[1..]), s.queue[0], now, name);
      }
    case RunDownloader(n, writable) =>
      if n in s.entries && s.entries[n].inbox != [] {
        var inbox := s.entries[n].inbox;
        DownloaderStaysStopped(cfg, s, n, inbox[1..], T.EventOf(inbox[0], writable), name);
      }
    case TimerFires(n) =>
      if n in s.entries && s.entries[n].transfer.Active? {
        DownloaderStaysStopped(cfg, s, n, s.entries[n].inbox, T.Timeout, name);
      }
  }

  /** All calls that the downloader of this name makes in a run. */
  ghost function CallsIn(cfg: Config, s: State, es: seq<Event>, name: string): (calls: seq<T.Call>) {
    if es == [] then []
    else
      var init := es[..|es| - 1];
      CallsIn(cfg, s, init, name) + CallsFor(cfg, Run(Steps(cfg), s, init).state, es[|es| - 1], name)
  }

  /**
    Once stopped, always stopped: until the platform initiates the name again, its downloader
    makes no call at all - no request, no save, no callback - and no request for the file and
    no error status for it leaves the device.
  */
  lemma {:induction false} StoppedRunsAreQuiet(cfg: Config, s: State, es: seq<Event>, name: string)
    requires EntriesOk(cfg, s) && Stopped(s, name) && name != "" && NoAsks(es, name)
    ensures var o := Run(Steps(cfg), s, es);
            EntriesOk(cfg, o.state) && Stopped(o.state, name) && AllQuiet(o.calls, name)
    ensures CallsIn(cfg, s, es, name) == []
  {
    if es != [] {
      var init, e := es[..|es| - 1], es[|es| - 1];
      assert e in es;
      StoppedRunsAreQuiet(cfg, s, init, name);
      var before := Run(Steps(cfg), s, init).state;
      StepKeepsEntries(cfg, before, e);
      StepStaysStopped(cfg, before, e, name);
    }
  }

  // ---------------------------------------------------------------- stopping

  /** The downloader has an abort at position p of its queue, or has stopped already. */
  ghost predicate Stopping(s: State, name: string, p: nat) {
    && (name in s.entries ==>
          !IsLive(s.entries[name]) || (p < |s.entries[name].inbox| && s.entries[name].inbox[p] == T.AbortCommand))
    && (forall c | c in s.queue :: !InitiatesName(c, name))
  }

  predicate RunsDownloader(e: Event, name: string) {
    e.RunDownloader? && e.name == name
  }

  /** How often the downloader of this name got to run a command. */
  function Turns(es: seq<Event>, name: string): (n: nat) {
    if es == [] then 0
    else One(RunsDownloader(es[0], name)) + Turns(es[1..], name)
  }

  lemma EntryStops(cfg: Config, name: string, entry: Entry, p: nat, writable: bool)
    requires EntryOk(cfg, name, entry) && p < |entry.inbox| && entry.inbox[p] == T.AbortCommand
    ensures var o := T.Step(cfg.transfer, entry.transfer, T.EventOf(entry.inbox[0], writable));
            if p == 0 then !o.state.Active? && !(entry.inbox[1..] != [] && entry.inbox[1..][0].DownloadCommand?)
            else p - 1 < |entry.inbox[1..]| && entry.inbox[1..][p - 1] == T.AbortCommand
  {
  }

  lemma EntryStopping(cfg: Config, name: string, entry: Entry, inbox: seq<T.Command>, e: T.Event, p: nat)
    requires EntryOk(cfg, name, entry)
    requires !IsLive(entry) || (p < |entry.inbox| && entry.inbox[p] == T.AbortCommand)
    requires (inbox == entry.inbox && e.Timeout? && entry.transfer.Active?)
          || (entry.inbox != [] && inbox == entry.inbox[1..] && exists w :: e == T.EventOf(entry.inbox[0], w))
    ensures var o := T.Step(cfg.transfer, entry.transfer, e);
            var live := o.state.Active? || (inbox != [] && inbox[0].DownloadCommand?);
            || !live
            || (e.Timeout? && p < |inbox| && inbox[p] == T.AbortCommand)
            || (!e.Timeout? && 0 < p <= |inbox| && inbox[p - 1] == T.AbortCommand)
  {
    if !IsLive(entry) {
      NotLiveMakesNoCall(cfg, name, entry, e);
    } else if !e.Timeout? {
      var w :| e == T.EventOf(entry.inbox[0], w);
      EntryStops(cfg, name, entry, p, w);
    }
  }

  lemma DownloaderStopping(cfg: Config, s: State, other: string, inbox: seq<T.Command>, e: T.Event, name: string,
                           p: nat)
    requires EntriesOk(cfg, s) && Stopping(s, name, p) && other in s.entries
    requires var entry := s.entries[other];
             || (inbox == entry.inbox && e.Timeout? && entry.transfer.Active?)
             || (entry.inbox != [] && inbox == entry.inbox[1..] && exists w :: e == T.EventOf(entry.inbox[0], w))
    ensures var t := Downloads(cfg, s, other, inbox, e).state;
            if other != name || e.Timeout? then Stopping(t, name, p)
            else if p == 0 then Stopped(t, name) else Stopping(t, name, p - 1)
  {
    var entry := s.entries[other];
    var taken := T.Step(cfg.transfer, entry.transfer, e);
    var u := s.(entries := s.entries[other := entry.(transfer := taken.state, inbox := inbox)]);
    StepCalls(cfg.transfer, entry.transfer, e);
    DownloaderStep(cfg, s, other, inbox, e);
    CallsPush(u, other, entry.hash, taken.calls);
    if other == name {
      EntryStopping(cfg, name, entry, inbox, e, p);
    }
  }

  lemma PerformStopping(cfg: Config, s: State, c: Command, now: Surroundings, name: string, p: nat)
    requires Stopping(s, name, p) && !InitiatesName(c, name)
    ensures Stopping(Perform(cfg, s, c, now).state, name, p)
  {
  }

  /** What one more turn makes of a stopping download. */
  ghost predicate Closer(t: State, e: Event, name: string, p: nat) {
    if !RunsDownloader(e, name) then Stopping(t, name, p)
    else if p == 0 then Stopped(t, name) else Stopping(t, name, p - 1)
  }

  lemma StepStopping(cfg: Config, s: State, e: Event, name: string, p: nat)
    requires EntriesOk(cfg, s) && Stopping(s, name, p) && !Asks(e, name)
    ensures Closer(Step(cfg, s, e).state, e, name, p)
  {
    match e
    case Receive(_) =>
    case Collect =>
    case RunService(now) =>
      if s.queue != [] {
        assert s.queue[0] in s.queue;
        PerformStopping(cfg, s.(queue := s.queue[1..]), s.queue[0], now, name, p);
      }
    case RunDownloader(n, writable) =>
      if n in s.entries && s.entries[n].inbox != [] {
        var inbox := s.entries[n].inbox;
        DownloaderStopping(cfg, s, n, inbox[1..], T.EventOf(inbox[0], writable), name, p);
      }
    case TimerFires(n) =>
      if n in s.entries && s.entries[n].transfer.Active? {
        DownloaderStopping(cfg, s, n, s.entries[n].inbox, T.Timeout, name, p);
      }
  }

  lemma FirstStep(cfg: Config, s: State, es: seq<Event>, name: string, p: nat) returns (t: State)
    requires es != [] && EntriesOk(cfg, s) && Stopping(s, name, p) && !Asks(es[0], name)
    ensures EntriesOk(cfg, t) && Closer(t, es[0], name, p)
    ensures Run(Steps(cfg), s, es).state == Run(Steps(cfg), t, es[1..]).state
  {
    t := Step(cfg, s, es[0]).state;
    StepKeepsEntries(cfg, s, es[0]);
    StepStopping(cfg, s, es[0], name, p);
    RunCons(Steps(cfg), s, es);
  }

  /** After as many turns as there are commands up to the abort, the transfer has stopped. */
  lemma {:induction false} TurnsStop(cfg: Config, s: State, es: seq<Event>, name: string, p: nat)
    requires EntriesOk(cfg, s) && Stopping(s, name, p) && name != "" && NoAsks(es, name) && Turns(es, name) > p
    ensures EntriesOk(cfg, Run(Steps(cfg), s, es).state) && Stopped(Run(Steps(cfg), s, es).state, name)
    decreases |es|
  {
    assert es[0] in es;
    assert NoAsks(es[1..], name);
    var t := FirstStep(cfg, s, es, name, p);
    if !RunsDownloader(es[0], name) {
      TurnsStop(cfg, t, es[1..], name, p);
    } else if p > 0 {
      TurnsStop(cfg, t, es[1..], name, p - 1);
    } else {
      StoppedRunsAreQuiet(cfg, t, es[1..], name);
    }
  }

  /**
    In every reachable state in which an abort is next for a name that has a downloader, and no
    initiate of that name waits: once the downloader has run the commands that waited for it,
    and the abort behind them, in whatever interleaving with everything else, it is stopped for
    good. Until the name is initiated again it asks for nothing, saves nothing and calls nobody back.
  */
  lemma AbortStopsTheTransfer(cfg: Config, before: seq<Event>, name: string, now: Surroundings,
                              es: seq<Event>, later: seq<Event>)
    requires var s := After(cfg, before);
             && s.queue != [] && s.queue[0] == HandleAbort(name) && name in s.entries
             && (forall c | c in s.queue :: !InitiatesName(c, name))
             && Turns(es, name) > |s.entries[name].inbox|
    requires NoAsks(es, name) && NoAsks(later, name)
    ensures var aborted := Step(cfg, After(cfg, before), RunService(now)).state;
            var t := Run(Steps(cfg), aborted, es).state;
            && Stopped(t, name)
            && CallsIn(cfg, t, later, name) == []
            && AllQuiet(Run(Steps(cfg), t, later).calls, name)
            && Stopped(Run(Steps(cfg), t, later).state, name)
  {
    EveryEntryIsOk(cfg, before);
    var s := After(cfg, before);
    var p := |s.entries[name].inbox|;
    var aborted := Step(cfg, s, RunService(now)).state;
    StepKeepsEntries(cfg, s, RunService(now));
    assert aborted.entries[name].inbox == s.entries[name].inbox + [T.AbortCommand];
    assert Stopping(aborted, name, p);
    TurnsStop(cfg, aborted, es, name, p);
    StoppedRunsAreQuiet(cfg, Run(Steps(cfg), aborted, es).state, later, name);
  }

  /** In every run, a flagged download that still runs has an abort waiting, and one without is stopped. */
  lemma FlaggedIsStopped(cfg: Config, es: seq<Event>, name: string)
    requires name in After(cfg, es).entries
    ensures var entry := After(cfg, es).entries[name];
            entry.completed && T.AbortCommand !in entry.inbox ==> !IsLive(entry)
  {
    EveryEntryIsOk(cfg, es);
  }
}
