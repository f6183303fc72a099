/** A transfer asks for its packets in order, each at most three times, and always ends. */
module TransferProgress {
  import opened Bytes
  import opened PacketPlan
  import opened Machine
  import opened Transfer
  import opened TransferSafety

  // ---------------------------------------------------------------- termination

  /** Steps that may still pass before the transfer ends. */
  function Remaining(s: State): (n: int)
    requires s.Active?
  {
    MAX_RETRY_COUNT * (s.job.plan.count - |s.accepted|) - (s.tries - 1)
  }

  lemma StepDecreases(cfg: Config, s: State, e: Event)
    requires Good(cfg, s) && s.Active? && !Interrupts(e)
    ensures var t := Step(cfg, s, e).state;
            t.Idle? || (t.Active? && t.job == s.job && 0 < Remaining(t) < Remaining(s))
  {
    StepKeepsGood(cfg, s, e);
  }

  /** Whatever packets and timeouts come, the transfer is over after at most Remaining(s) of them. */
  lemma {:induction false} TransferEnds(cfg: Config, s: State, es: seq<Event>) returns (end: nat)
    requires Good(cfg, s) && s.Active?
    requires forall e | e in es :: !Interrupts(e)
    requires |es| >= Remaining(s)
    ensures 1 <= end <= Remaining(s) && Run(Steps(cfg), s, es[..end]).state.Idle?
    ensures forall m | 0 <= m < end :: Run(Steps(cfg), s, es[..m]).state.Active?
    decreases Remaining(s)
  {
    StepDecreases(cfg, s, es[0]);
    StepKeepsGood(cfg, s, es[0]);
    var t := Step(cfg, s, es[0]).state;
    var rest := 0;
    if t.Active? {
      rest := TransferEnds(cfg, t, es[1..]);
    }
    end := rest + 1;
    forall m | 1 <= m <= end
      ensures Run(Steps(cfg), s, es[..m]).state == Run(Steps(cfg), t, es[1..][..m - 1]).state
    {
      RunFromSecond(cfg, s, es, m);
    }
    forall m | 0 <= m < end
      ensures Run(Steps(cfg), s, es[..m]).state.Active?
    {
      if m > 0 {
        assert Run(Steps(cfg), t, es[1..][..m - 1]).state.Active?;
      }
    }
  }

  lemma RunFromSecond(cfg: Config, s: State, es: seq<Event>, m: nat)
    requires 1 <= m <= |es|
    ensures Run(Steps(cfg), s, es[..m]).state == Run(Steps(cfg), Step(cfg, s, es[0]).state, es[1..][..m - 1]).state
  {
    RunCons(Steps(cfg), s, es[..m]);
    assert es[..m][1..] == es[1..][..m - 1];
  }

  /** From its start a transfer lasts at most three steps a packet. */
  lemma TransferEndsFromStart(cfg: Config, id: nat, request: FileRequest, es: seq<Event>) returns (end: nat)
    requires cfg.PlanOf(request.size).Some?
    requires forall e | e in es :: !Interrupts(e)
    requires |es| >= MAX_RETRY_COUNT * cfg.PlanOf(request.size).value.count
    ensures end <= MAX_RETRY_COUNT * cfg.PlanOf(request.size).value.count
    ensures Run(Steps(cfg), Idle, [Download(id, request)] + es[..end]).state.Idle?
  {
    var begun := Begin(cfg, id, request).state;
    PlanCount(cfg, request.size);
    assert Good(cfg, begun);
    end := TransferEnds(cfg, begun, es);
    var run := [Download(id, request)] + es[..end];
    RunCons(Steps(cfg), Idle, run);
    assert run[1..] == es[..end];
  }

  // ---------------------------------------------------------------- requests

  /** The packet indices that download id asked for, in order. */
  function Asked(id: nat, calls: seq<Call>): (indices: seq<nat>) {
    if calls == [] then []
    else
      var last := calls[|calls| - 1];
      Asked(id, calls[..|calls| - 1]) + if last.Ask? && last.id == id then [last.index] else []
  }

  lemma {:induction false} AskedAdds(id: nat, a: seq<Call>, b: seq<Call>)
    ensures Asked(id, a + b) == Asked(id, a) + Asked(id, b)
  {
    if b == [] {
      assert a + b == a;
    } else {
      assert (a + b)[..|a + b| - 1] == a + b[..|b| - 1];
      AskedAdds(id, a, b[..|b| - 1]);
    }
  }

  ghost predicate NonDecreasing(xs: seq<nat>) {
    forall i, j | 0 <= i < j < |xs| :: xs[i] <= xs[j]
  }

  /** In order, at most three times each, and only packets of the plan. */
  ghost predicate Bounded(asked: seq<nat>, count: nat) {
    && NonDecreasing(asked)
    && |asked| <= MAX_RETRY_COUNT * count
    && (forall v | v in asked :: v < count)
    && (forall v :: multiset(asked)[v] <= MAX_RETRY_COUNT)
  }

  /** The requests made so far, for the transfer being served, end with the current index. */
  ghost predicate Current(asked: seq<nat>, s: State)
    requires s.Active?
  {
    && (forall v | v in asked :: v <= |s.accepted|)
    && multiset(asked)[|s.accepted|] == s.tries
    && |asked| <= MAX_RETRY_COUNT * |s.accepted| + s.tries
  }

  ghost predicate AskInvariant(cfg: Config, id: nat, size: nat, s: State, asked: seq<nat>) {
    var plan := cfg.PlanOf(size);
    && (asked == [] || (plan.Some? && Bounded(asked, plan.value.count)))
    && (Serves(s, id) ==> s.job.request.size == size && Current(asked, s))
  }

  lemma AskOnce(id: nat, t: State)
    requires t.Active?
    ensures Asked(id, Asking(t).calls) == if t.job.id == id then [|t.accepted|] else []
  {
    assert Asking(t).calls[..0] == [];
  }

  /** Asking again for the current index, or for the next one, keeps the bounds. */
  lemma AskMore(cfg: Config, s: State, asked: seq<nat>, t: State)
    requires Good(cfg, s) && Good(cfg, t) && s.Active? && t.Active? && Advances(s, t)
    requires Bounded(asked, s.job.plan.count) && Current(asked, s)
    ensures Bounded(asked + [|t.accepted|], s.job.plan.count) && Current(asked + [|t.accepted|], t)
  {
    var i := |t.accepted|;
    var more := asked + [i];
    if i > |s.accepted| {
      assert i !in asked;
      assert multiset(asked)[i] == 0;
    }
    assert multiset(more) == multiset(asked)[i := multiset(asked)[i] + 1];
    forall v | v in more
      ensures v <= i
    {
      assert v in asked || v == i;
    }
    forall k | 0 <= k < |asked|
      ensures more[k] <= i
    {
      assert more[k] in more;
    }
  }

  lemma FirstAsk(cfg: Config, s: State)
    requires Good(cfg, s) && s.Active? && s.accepted == [] && s.tries == 1
    ensures Bounded([0], s.job.plan.count) && Current([0], s)
  {
    assert multiset([0]) == multiset{0};
  }

  lemma {:induction false} NothingAsked(id: nat, calls: seq<Call>)
    requires forall c | c in calls :: !(c.Ask? && c.id == id)
    ensures Asked(id, calls) == []
  {
    if calls != [] {
      NothingAsked(id, calls[..|calls| - 1]);
      assert calls[|calls| - 1] in calls;
    }
  }

  lemma ServedAsks(cfg: Config, id: nat, size: nat, s: State, asked: seq<nat>, e: Event, t: State)
    requires Good(cfg, s) && Good(cfg, t) && Serves(t, id)
    requires AskInvariant(cfg, id, size, s, asked)
    requires if e.Download? then StartsWith(e, t) && asked == [] && e.request.size == size
             else s.Active? && Advances(s, t)
    ensures AskInvariant(cfg, id, size, t, asked + [|t.accepted|])
  {
    if e.Download? {
      FirstAsk(cfg, t);
    } else {
      AskMore(cfg, s, asked, t);
    }
  }

  lemma NotServedAsks(id: nat, s: State, e: Event, o: Result)
    requires Shaped(s, e, o) && !Serves(o.state, id)
    ensures Asked(id, o.calls) == []
  {
    NothingAsked(id, o.calls);
  }

  lemma StepKeepsAsks(cfg: Config, id: nat, size: nat, s: State, asked: seq<nat>, e: Event, o: Result)
    requires Good(cfg, s) && Good(cfg, o.state) && Shaped(s, e, o)
    requires AskInvariant(cfg, id, size, s, asked)
    requires Starts(e, id) ==> asked == [] && !Serves(s, id) && e.request.size == size
    ensures AskInvariant(cfg, id, size, o.state, asked + Asked(id, o.calls))
  {
    if Serves(o.state, id) {
      AskOnce(id, o.state);
      assert Asked(id, o.calls) == [|o.state.accepted|];
      ServedAsks(cfg, id, size, s, asked, e, o.state);
    } else {
      NotServedAsks(id, s, e, o);
      assert asked + [] == asked;
    }
  }

  lemma {:induction false} AsksOverRun(cfg: Config, es: seq<Event>, id: nat, size: nat)
    requires forall m, n | 0 <= m < n < |es| :: !(Starts(es[m], id) && Starts(es[n], id))
    requires forall m | 0 <= m < |es| && Starts(es[m], id) :: es[m].request.size == size
    ensures AskInvariant(cfg, id, size, After(cfg, es), Asked(id, CallsOf(cfg, es)))
    ensures (forall e | e in es :: !Starts(e, id)) ==> !Serves(After(cfg, es), id) && Asked(id, CallsOf(cfg, es)) == []
  {
    if es != [] {
      var init, e := es[..|es| - 1], es[|es| - 1];
      AsksOverRun(cfg, init, id, size);
      EveryStateIsGood(cfg, init);
      var before := Run(Steps(cfg), Idle, init);
      if Starts(e, id) {
        assert forall x | x in init :: !Starts(x, id);
      }
      StepShape(cfg, before.state, e);
      StepKeepsGood(cfg, before.state, e);
      StepKeepsAsks(cfg, id, size, before.state, Asked(id, before.calls), e, Step(cfg, before.state, e));
      AskedAdds(id, before.calls, Step(cfg, before.state, e).calls);
      if forall x | x in es :: !Starts(x, id) {
        assert e in es;
        StepAsksNothing(cfg, before.state, e, id);
      }
    }
  }

  lemma StepAsksNothing(cfg: Config, s: State, e: Event, id: nat)
    requires !Serves(s, id) && !Starts(e, id)
    ensures !Serves(Step(cfg, s, e).state, id) && Asked(id, Step(cfg, s, e).calls) == []
  {
    StepShape(cfg, s, e);
    NothingAsked(id, Step(cfg, s, e).calls);
  }

  /**
    In every run a download asks for packets of its plan only, in non-decreasing order, for
    each at most three times and so at most three times the packet count in all.
  */
  lemma RequestsAreBounded(cfg: Config, es: seq<Event>, id: nat, size: nat)
    requires forall m, n | 0 <= m < n < |es| :: !(Starts(es[m], id) && Starts(es[n], id))
    requires forall m | 0 <= m < |es| && Starts(es[m], id) :: es[m].request.size == size
    requires cfg.PlanOf(size).Some?
    ensures Bounded(Asked(id, CallsOf(cfg, es)), cfg.PlanOf(size).value.count)
  {
    AsksOverRun(cfg, es, id, size);
  }

  ghost predicate AskFits(cfg: Config, c: Call) {
    c.Ask? ==> c.size <= cfg.maxPacketSize && c.index < TWO_32
  }

  lemma PlanRespectsLimit(cfg: Config, size: nat)
    requires OVERHEAD < cfg.maxPacketSize < TWO_64
    requires cfg.PlanOf(size).Some?
    ensures cfg.PlanOf(size).value.packetSize <= cfg.maxPacketSize
  {
    assert Room(cfg.maxPacketSize) == cfg.maxPacketSize - OVERHEAD;
  }

  lemma StepAskFits(cfg: Config, s: State, e: Event)
    requires OVERHEAD < cfg.maxPacketSize < TWO_64 && Good(cfg, s)
    ensures forall c | c in Step(cfg, s, e).calls :: AskFits(cfg, c)
  {
    StepShape(cfg, s, e);
    StepKeepsGood(cfg, s, e);
    var t := Step(cfg, s, e).state;
    if t.Active? {
      PlanCount(cfg, t.job.request.size);
      PlanRespectsLimit(cfg, t.job.request.size);
    }
  }

  /** With room for payload, every request made in a run is within the packet size limit. */
  lemma {:induction false} RequestsFitTheLimit(cfg: Config, es: seq<Event>)
    requires OVERHEAD < cfg.maxPacketSize < TWO_64
    ensures forall c | c in CallsOf(cfg, es) :: AskFits(cfg, c)
  {
    if es != [] {
      var init, e := es[..|es| - 1], es[|es| - 1];
      RequestsFitTheLimit(cfg, init);
      EveryStateIsGood(cfg, init);
      StepAskFits(cfg, After(cfg, init), e);
    }
  }
}
