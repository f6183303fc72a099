/** The service answers for each download it starts at most once: it records it, or reports an error. */
module DownloadAnswers {
  import opened Machine
  import T = Transfer
  import opened FileRepository
  import opened DownloadMachine
  import opened DownloadRuns

  function One(b: bool): (n: nat) {
    if b then 1 else 0
  }

  // ---------------------------------------------------------------- what is counted

  predicate Fails(calls: seq<T.Call>) {
    calls != [] && calls[|calls| - 1].Failed?
  }

  /** The calls that the downloader of this name makes in the step, if it is the one to take it. */
  function CallsFor(cfg: Config, s: State, e: Event, name: string): (calls: seq<T.Call>) {
    match e
    case RunDownloader(n, writable) =>
      if n == name && name in s.entries && s.entries[name].inbox != []
      then T.Step(cfg.transfer, s.entries[name].transfer, T.EventOf(s.entries[name].inbox[0], writable)).calls
      else []
    case TimerFires(n) =>
      if n == name && name in s.entries && s.entries[name].transfer.Active?
      then T.Step(cfg.transfer, s.entries[name].transfer, T.Timeout).calls
      else []
    case _ => []
  }

  /** The step records a completed download of this name, with FILE_READY, or reports its failure. */
  predicate Answers(cfg: Config, s: State, e: Event, name: string) {
    || (e.RunService? && s.queue != [] && StoresName(s.queue[0], name))
    || Fails(CallsFor(cfg, s, e, name))
  }

  ghost predicate Starts(cfg: Config, s: State, e: Event, name: string) {
    name !in s.entries && name in Step(cfg, s, e).state.entries
  }

  /** Such steps send the status that the platform waits for. */
  lemma AnswersAreSent(cfg: Config, s: State, e: Event, name: string)
    requires Answers(cfg, s, e, name)
    ensures exists x :: x in Step(cfg, s, e).calls &&
              ((x.FileReady? && x.info.name == name) || (x.StatusSent? && x.name == name && x.status.Error?))
  {
    var o := Step(cfg, s, e);
    if e.RunService? {
      var ready := FileReady(s.queue[0].info);
      assert ready in o.calls;
    } else {
      var calls := CallsFor(cfg, s, e, name);
      var entry := s.entries[name];
      var event := if e.TimerFires? then T.Timeout else T.EventOf(entry.inbox[0], e.writable);
      var inbox := if e.TimerFires? then entry.inbox else entry.inbox[1..];
      StepCalls(cfg.transfer, entry.transfer, event);
      var taken := T.Step(cfg.transfer, entry.transfer, event);
      var u := s.(entries := s.entries[name := entry.(transfer := taken.state, inbox := inbox)]);
      FailureIsSent(u, name, entry.hash, calls);
    }
  }

  lemma FailureIsSent(u: State, name: string, hash: string, calls: seq<T.Call>)
    requires AreStepCalls(calls) && Fails(calls)
    ensures StatusSent(name, Error(CodeOf(calls[|calls| - 1].error))) in OnCalls(u, name, hash, calls).calls
  {
    if |calls| == 1 {
      assert calls[..0] == [];
    } else {
      var first := calls[..1];
      assert first[..0] == [];
      assert OnCalls(u, name, hash, first) == Outcome(u, [Wrote(calls[0].write)]);
    }
  }

  // ---------------------------------------------------------------- what is still to come

  function Waiting(queue: seq<Command>, name: string): (n: nat) {
    if queue == [] then 0
    else Waiting(queue[..|queue| - 1], name) + One(StoresName(queue[|queue| - 1], name))
  }

  lemma {:induction false} WaitingAdds(a: seq<Command>, b: seq<Command>, name: string)
    ensures Waiting(a + b, name) == Waiting(a, name) + Waiting(b, name)
  {
    if b == [] {
      assert a + b == a;
    } else {
      assert (a + b)[..|a + b| - 1] == a + b[..|b| - 1];
      WaitingAdds(a, b[..|b| - 1], name);
    }
  }

  lemma WaitingOne(c: Command, name: string)
    ensures Waiting([c], name) == One(StoresName(c, name))
  {
    assert [c][..0] == [];
  }

  lemma WaitingFirst(queue: seq<Command>, name: string)
    requires queue != []
    ensures Waiting(queue, name) == One(StoresName(queue[0], name)) + Waiting(queue[1..], name)
  {
    assert queue == [queue[0]] + queue[1..];
    WaitingAdds([queue[0]], queue[1..], name);
    WaitingOne(queue[0], name);
  }

  predicate Unanswered(entries: map<string, Entry>, name: string) {
    name in entries && IsLive(entries[name])
  }

  function Pending(s: State, name: string): (n: nat) {
    Waiting(s.queue, name) + One(Unanswered(s.entries, name))
  }

  // ---------------------------------------------------------------- one step

  lemma WaitingPushed(name: string, hash: string, calls: seq<T.Call>, other: string)
    ensures Waiting(Pushed(name, hash, calls), other)
         == One(name == other && Ends(calls) && calls[|calls| - 1].Succeeded?)
  {
    WaitingOne(SendFileList, other);
    if Ends(calls) && calls[|calls| - 1].Succeeded? {
      var store := StoreRecord(FileInfo(name, hash, calls[|calls| - 1].path));
      WaitingOne(store, other);
      WaitingAdds([store], [SendFileList], other);
    }
  }

  /** A download that is answered for was unanswered, and is so no more. */
  lemma EntryIsAnswered(cfg: Config, name: string, entry: Entry, inbox: seq<T.Command>, e: T.Event)
    requires EntryOk(cfg, name, entry)
    requires (inbox == entry.inbox && e.Timeout? && entry.transfer.Active?)
          || (entry.inbox != [] && inbox == entry.inbox[1..] && exists w :: e == T.EventOf(entry.inbox[0], w))
    ensures var taken := T.Step(cfg.transfer, entry.transfer, e);
            var before := entry.transfer.Active? || AboutToStart(entry);
            var after := taken.state.Active? || (inbox != [] && inbox[0].DownloadCommand?);
            One(Ends(taken.calls)) + One(after) <= One(before)
  {
    T.StepShape(cfg.transfer, entry.transfer, e);
  }

  lemma DownloaderAnswers(cfg: Config, s: State, n: string, inbox: seq<T.Command>, e: T.Event, name: string)
    requires EntriesOk(cfg, s) && n in s.entries
    requires var entry := s.entries[n];
             || (inbox == entry.inbox && e.Timeout? && entry.transfer.Active?)
             || (entry.inbox != [] && inbox == entry.inbox[1..] && exists w :: e == T.EventOf(entry.inbox[0], w))
    ensures One(n == name && Fails(T.Step(cfg.transfer, s.entries[n].transfer, e).calls))
            + Pending(Downloads(cfg, s, n, inbox, e).state, name) <= Pending(s, name)
  {
    var entry := s.entries[n];
    var taken := T.Step(cfg.transfer, entry.transfer, e);
    var u := s.(entries := s.entries[n := entry.(transfer := taken.state, inbox := inbox)]);
    StepCalls(cfg.transfer, entry.transfer, e);
    DownloaderStep(cfg, s, n, inbox, e);
    CallsPush(u, n, entry.hash, taken.calls);
    WaitingAdds(s.queue, Pushed(n, entry.hash, taken.calls), name);
    WaitingPushed(n, entry.hash, taken.calls, name);
    EntryIsAnswered(cfg, n, entry, inbox, e);
  }

  lemma PerformWaiting(cfg: Config, s: State, c: Command, now: Surroundings, name: string)
    ensures Waiting(Perform(cfg, s, c, now).state.queue, name) == Waiting(s.queue, name)
  {
    if c.RemoveFiles? {
      WaitingAdds(s.queue, [SendFileList], name);
      WaitingOne(SendFileList, name);
    }
  }

  /** No command of the service revives a download; an initiate may start one. */
  lemma PerformStarts(cfg: Config, s: State, c: Command, now: Surroundings, name: string)
    requires EntriesOk(cfg, s)
    ensures var t := Perform(cfg, s, c, now).state;
            One(Unanswered(t.entries, name))
            <= One(Unanswered(s.entries, name)) + One(name !in s.entries && name in t.entries)
  {
  }

  lemma StepAnswers(cfg: Config, s: State, e: Event, name: string)
    requires EntriesOk(cfg, s)
    ensures One(Answers(cfg, s, e, name)) + Pending(Step(cfg, s, e).state, name)
            <= Pending(s, name) + One(Starts(cfg, s, e, name))
  {
    match e
    case Receive(c) =>
      WaitingAdds(s.queue, [c], name);
      WaitingOne(c, name);
    case Collect =>
    case RunService(now) =>
      if s.queue != [] {
        WaitingFirst(s.queue, name);
        PerformWaiting(cfg, s.(queue := s.queue[1..]), s.queue[0], now, name);
        PerformStarts(cfg, s.(queue := s.queue[1..]), s.queue[0], now, name);
      }
    case RunDownloader(n, writable) =>
      if n in s.entries && s.entries[n].inbox != [] {
        var inbox := s.entries[n].inbox;
        DownloaderAnswers(cfg, s, n, inbox[1..], T.EventOf(inbox[0], writable), name);
      }
    case TimerFires(n) =>
      if n in s.entries && s.entries[n].transfer.Active? {
        DownloaderAnswers(cfg, s, n, s.entries[n].inbox, T.Timeout, name);
      }
  }

  // ---------------------------------------------------------------- every run

  ghost function AnswersIn(cfg: Config, es: seq<Event>, name: string): (n: nat) {
    if es == [] then 0
    else
      var init := es[..|es| - 1];
      AnswersIn(cfg, init, name) + One(Answers(cfg, After(cfg, init), es[|es| - 1], name))
  }

  ghost function StartsIn(cfg: Config, es: seq<Event>, name: string): (n: nat) {
    if es == [] then 0
    else
      var init := es[..|es| - 1];
      StartsIn(cfg, init, name) + One(Starts(cfg, After(cfg, init), es[|es| - 1], name))
  }

  /**
    In every interleaving, for every name: the downloads recorded with FILE_READY and those
    reported as failed, with those still to be answered for, never outnumber those started.
  */
  lemma {:induction false} EachDownloadIsAnsweredOnce(cfg: Config, es: seq<Event>, name: string)
    ensures AnswersIn(cfg, es, name) + Pending(After(cfg, es), name) <= StartsIn(cfg, es, name)
  {
    if es != [] {
      var init := es[..|es| - 1];
      EachDownloadIsAnsweredOnce(cfg, init, name);
      EveryEntryIsOk(cfg, init);
      StepAnswers(cfg, After(cfg, init), es[|es| - 1], name);
    }
  }

  /** Only an initiate of that name, run by the service, starts a download. */
  lemma StartsAreRequested(cfg: Config, s: State, e: Event, name: string)
    requires Starts(cfg, s, e, name)
    ensures e.RunService? && s.queue != [] && s.queue[0].HandleInitiate? && s.queue[0].name == name
  {
    match e
    case RunDownloader(n, writable) =>
      if n in s.entries && s.entries[n].inbox != [] {
        var inbox := s.entries[n].inbox;
        DownloaderStep(cfg, s, n, inbox[1..], T.EventOf(inbox[0], writable));
      }
    case TimerFires(n) =>
      if n in s.entries && s.entries[n].transfer.Active? {
        DownloaderStep(cfg, s, n, s.entries[n].inbox, T.Timeout);
      }
    case _ =>
  }
}
