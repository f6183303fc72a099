/** What callers of a downloader may rely on in every run, whatever packets arrive. */
module TransferSafety {
  import opened Bytes
  import opened Machine
  import opened Transfer

  // ---------------------------------------------------------------- integrity

  ghost predicate Begun(es: seq<Event>, id: nat, request: FileRequest) {
    Download(id, request) in es
  }

  /** calls[i] reports success right after saving, under the requested name, bytes of the requested hash. */
  ghost predicate BackedBySave(cfg: Config, calls: seq<Call>, i: nat, request: FileRequest)
    requires i < |calls| && calls[i].Succeeded?
  {
    && i > 0
    && calls[i - 1].Saved? && calls[i - 1].write.done
    && calls[i - 1].write.path == cfg.paths.compose(request.name, request.directory)
    && calls[i].path == cfg.paths.absolute(calls[i - 1].write.path)
    && cfg.digest.sha(calls[i - 1].write.content) == request.hash
  }

  ghost predicate Justified(cfg: Config, es: seq<Event>, calls: seq<Call>, i: nat)
    requires i < |calls| && calls[i].Succeeded?
  {
    exists request :: Begun(es, calls[i].id, request) && BackedBySave(cfg, calls, i, request)
  }

  ghost predicate JobBegun(es: seq<Event>, s: State) {
    s.Active? ==> Begun(es, s.job.id, s.job.request)
  }

  lemma StepKeepsJob(cfg: Config, es: seq<Event>, s: State, e: Event)
    requires JobBegun(es, s)
    ensures JobBegun(es + [e], Step(cfg, s, e).state)
  {
  }

  lemma StepBacksSuccess(cfg: Config, s: State, e: Event, i: nat)
    requires i < |Step(cfg, s, e).calls| && Step(cfg, s, e).calls[i].Succeeded?
    ensures s.Active? && Step(cfg, s, e).calls[i].id == s.job.id
    ensures BackedBySave(cfg, Step(cfg, s, e).calls, i, s.job.request)
  {
  }

  /**
    With no assumption on the channel: every success reported in any run follows a save of
    bytes whose hash is the one the initiating request gave.
  */
  lemma {:induction false} EverySuccessIsJustified(cfg: Config, es: seq<Event>)
    ensures JobBegun(es, After(cfg, es))
    ensures forall i: nat | i < |CallsOf(cfg, es)| && CallsOf(cfg, es)[i].Succeeded? ::
              Justified(cfg, es, CallsOf(cfg, es), i)
  {
    if es != [] {
      var init, e := es[..|es| - 1], es[|es| - 1];
      EverySuccessIsJustified(cfg, init);
      var s, oldCalls := After(cfg, init), CallsOf(cfg, init);
      assert init + [e] == es;
      StepKeepsJob(cfg, init, s, e);
      var last := Step(cfg, s, e).calls;
      var calls := CallsOf(cfg, es);
      assert calls == oldCalls + last;
      forall i: nat | i < |calls| && calls[i].Succeeded?
        ensures Justified(cfg, es, calls, i)
      {
        if i < |oldCalls| {
          var request :| Begun(init, oldCalls[i].id, request) && BackedBySave(cfg, oldCalls, i, request);
          assert Begun(es, calls[i].id, request) && BackedBySave(cfg, calls, i, request);
        } else {
          StepBacksSuccess(cfg, s, e, i - |oldCalls|);
          assert Begun(es, calls[i].id, s.job.request) && BackedBySave(cfg, calls, i, s.job.request);
        }
      }
    }
  }

  // ---------------------------------------------------------------- one answer a download

  /** How many callbacks of download id are among the calls. */
  function Callbacks(id: nat, calls: seq<Call>): (n: nat) {
    if calls == [] then 0
    else
      var last := calls[|calls| - 1];
      Callbacks(id, calls[..|calls| - 1]) + if last.IsCallback() && last.id == id then 1 else 0
  }

  lemma {:induction false} CallbacksAdd(id: nat, a: seq<Call>, b: seq<Call>)
    ensures Callbacks(id, a + b) == Callbacks(id, a) + Callbacks(id, b)
  {
    if b == [] {
      assert a + b == a;
    } else {
      assert (a + b)[..|a + b| - 1] == a + b[..|b| - 1];
      CallbacksAdd(id, a, b[..|b| - 1]);
    }
  }

  ghost predicate Serves(s: State, id: nat) {
    s.Active? && s.job.id == id
  }

  predicate Starts(e: Event, id: nat) {
    e.Download? && e.id == id
  }

  /** What a step means for download id. */
  ghost predicate StepServes(id: nat, s: State, e: Event, o: Result) {
    && (!Serves(s, id) ==> Callbacks(id, o.calls) == 0)
    && (!Serves(s, id) && !Starts(e, id) ==> !Serves(o.state, id))
    && (Serves(s, id) && !Interrupts(e) ==> Callbacks(id, o.calls) == if Serves(o.state, id) then 0 else 1)
    && (Interrupts(e) ==> Callbacks(id, o.calls) == 0)
    && (Interrupts(e) && !Starts(e, id) ==> !Serves(o.state, id))
  }

  lemma ShapeServes(id: nat, s: State, e: Event, o: Result)
    requires Shaped(s, e, o)
    ensures StepServes(id, s, e, o)
  {
    CallbacksOfFew(id, o.calls);
    if o.state.Active? {
      assert Callbacks(id, o.calls) == 0;
    }
  }

  lemma StepAnswers(cfg: Config, s: State, e: Event, id: nat)
    ensures StepServes(id, s, e, Step(cfg, s, e))
  {
    StepShape(cfg, s, e);
    ShapeServes(id, s, e, Step(cfg, s, e));
  }

  lemma CallbacksOfFew(id: nat, calls: seq<Call>)
    ensures |calls| == 0 ==> Callbacks(id, calls) == 0
    ensures |calls| == 1 ==> Callbacks(id, calls) == if calls[0].IsCallback() && calls[0].id == id then 1 else 0
    ensures |calls| == 2 && !calls[0].IsCallback() ==>
              Callbacks(id, calls) == if calls[1].IsCallback() && calls[1].id == id then 1 else 0
  {
    if |calls| == 2 {
      assert calls[..1] == [calls[0]];
    }
  }

  /** A downloader that serves another download, or none, never answers this one. */
  lemma {:induction false} NoAnswerUnlessServed(cfg: Config, s: State, es: seq<Event>, id: nat)
    requires !Serves(s, id)
    requires forall e | e in es :: !Starts(e, id)
    ensures Callbacks(id, Run(Steps(cfg), s, es).calls) == 0
    ensures !Serves(Run(Steps(cfg), s, es).state, id)
  {
    if es != [] {
      var init, e := es[..|es| - 1], es[|es| - 1];
      NoAnswerUnlessServed(cfg, s, init, id);
      var before := Run(Steps(cfg), s, init);
      StepAnswers(cfg, before.state, e, id);
      CallbacksAdd(id, before.calls, Step(cfg, before.state, e).calls);
    }
  }

  lemma OneMoreStep(id: nat, before: Result, e: Event, o: Result)
    requires StepServes(id, before.state, e, o) && !Interrupts(e)
    requires Callbacks(id, before.calls) == if Serves(before.state, id) then 0 else 1
    ensures Callbacks(id, before.calls + o.calls) == if Serves(o.state, id) then 0 else 1
  {
    CallbacksAdd(id, before.calls, o.calls);
  }

  /** Left alone, a download is unanswered exactly while it is being served. */
  lemma {:induction false} AnsweredWhenDone(cfg: Config, s: State, es: seq<Event>, id: nat)
    requires Serves(s, id)
    requires forall e | e in es :: !Interrupts(e)
    ensures Callbacks(id, Run(Steps(cfg), s, es).calls) == if Serves(Run(Steps(cfg), s, es).state, id) then 0 else 1
  {
    if es != [] {
      var init, e := es[..|es| - 1], es[|es| - 1];
      AnsweredWhenDone(cfg, s, init, id);
      var before := Run(Steps(cfg), s, init);
      StepAnswers(cfg, before.state, e, id);
      assert e in es;
      OneMoreStep(id, before, e, Step(cfg, before.state, e));
    }
  }

  /** The first event from position i on that aborts or replaces a transfer, or the end. */
  function Interruption(es: seq<Event>, i: nat): (j: nat)
    requires i <= |es|
    ensures i <= j <= |es|
    ensures forall m | i <= m < j :: !Interrupts(es[m])
    ensures j < |es| ==> Interrupts(es[j])
    decreases |es| - i
  {
    if i == |es| || Interrupts(es[i]) then i else Interruption(es, i + 1)
  }

  /** es[i] is the only event that starts download id, and it takes effect. */
  ghost predicate BeginsAt(cfg: Config, es: seq<Event>, i: nat, id: nat) {
    && i < |es| && Starts(es[i], id)
    && (forall m | 0 <= m < |es| && m != i :: !Starts(es[m], id))
    && !After(cfg, es[..i]).Undefined?
    && cfg.PlanOf(es[i].request.size).Some?
  }

  lemma ServedOnceBegun(cfg: Config, es: seq<Event>, i: nat, id: nat)
    requires BeginsAt(cfg, es, i, id)
    ensures Serves(After(cfg, es[..i + 1]), id)
    ensures Callbacks(id, CallsOf(cfg, es[..i + 1])) == 0
  {
    var init := es[..i];
    assert es[..i + 1][..i] == init && es[..i + 1][i] == es[i];
    NoAnswerUnlessServed(cfg, Idle, init, id);
    StepAnswers(cfg, After(cfg, init), es[i], id);
    CallbacksAdd(id, CallsOf(cfg, init), Step(cfg, After(cfg, init), es[i]).calls);
  }

  lemma AnswersUpToInterruption(cfg: Config, es: seq<Event>, i: nat, id: nat, j: nat)
    requires BeginsAt(cfg, es, i, id) && j == Interruption(es, i + 1)
    ensures Callbacks(id, CallsOf(cfg, es[..j])) == if Serves(After(cfg, es[..j]), id) then 0 else 1
  {
    var start, mid := es[..i + 1], es[i + 1..j];
    ServedOnceBegun(cfg, es, i, id);
    assert es[..j] == start + mid;
    RunSplits(Steps(cfg), Idle, start, mid);
    AnsweredWhenDone(cfg, After(cfg, start), mid, id);
    CallbacksAdd(id, CallsOf(cfg, start), Run(Steps(cfg), After(cfg, start), mid).calls);
  }

  /**
    Each download is answered by exactly one callback if it ended before anything aborted or
    replaced it, and by none otherwise; after its abort or replacement it is never answered.
  */
  lemma ExactlyOneAnswer(cfg: Config, es: seq<Event>, i: nat, id: nat)
    requires BeginsAt(cfg, es, i, id)
    ensures var j := Interruption(es, i + 1);
            Callbacks(id, CallsOf(cfg, es)) == if Serves(After(cfg, es[..j]), id) then 0 else 1
  {
    var j := Interruption(es, i + 1);
    AnswersUpToInterruption(cfg, es, i, id, j);
    if j == |es| {
      assert es[..j] == es;
    } else {
      var s := After(cfg, es[..j]);
      var rest := es[j..];
      assert es == es[..j] + rest;
      RunSplits(Steps(cfg), Idle, es[..j], rest);
      NoAnswerAfterInterruption(cfg, s, rest, id);
      CallbacksAdd(id, CallsOf(cfg, es[..j]), Run(Steps(cfg), s, rest).calls);
    }
  }

  lemma NoAnswerAfterInterruption(cfg: Config, s: State, es: seq<Event>, id: nat)
    requires es != [] && Interrupts(es[0])
    requires forall e | e in es :: !Starts(e, id)
    ensures Callbacks(id, Run(Steps(cfg), s, es).calls) == 0
  {
    StepAnswers(cfg, s, es[0], id);
    var first := Step(cfg, s, es[0]);
    RunCons(Steps(cfg), s, es);
    NoAnswerUnlessServed(cfg, first.state, es[1..], id);
    CallbacksAdd(id, first.calls, Run(Steps(cfg), first.state, es[1..]).calls);
  }

  /** No download is ever answered twice, in any run that numbers its downloads apart. */
  lemma NeverTwoAnswers(cfg: Config, es: seq<Event>, id: nat)
    requires forall m, n | 0 <= m < n < |es| :: !(Starts(es[m], id) && Starts(es[n], id))
    ensures Callbacks(id, CallsOf(cfg, es)) <= 1
  {
    if i: nat :| i < |es| && Starts(es[i], id) {
      if BeginsAt(cfg, es, i, id) {
        ExactlyOneAnswer(cfg, es, i, id);
      } else {
        var s := After(cfg, es[..i]);
        assert es == es[..i] + es[i..];
        RunSplits(Steps(cfg), Idle, es[..i], es[i..]);
        NoAnswerUnlessServed(cfg, Idle, es[..i], id);
        RunCons(Steps(cfg), s, es[i..]);
        var first := Step(cfg, s, es[i]);
        assert first == Outcome(Undefined, []);
        NoAnswerUnlessServed(cfg, first.state, es[i + 1..], id);
        assert es[i..][1..] == es[i + 1..];
        CallbacksAdd(id, CallsOf(cfg, es[..i]), Run(Steps(cfg), s, es[i..]).calls);
        CallbacksAdd(id, first.calls, Run(Steps(cfg), first.state, es[i + 1..]).calls);
      }
    } else {
      NoAnswerUnlessServed(cfg, Idle, es, id);
    }
  }
}
