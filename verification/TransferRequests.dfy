/** What a downloader asks for, and why it fails, in every run and whatever packets arrive. */
module TransferRequests {
  import opened Bytes
  import opened PacketPlan
  import opened PacketChain
  import opened FileHandling
  import opened Transfer
  import opened TransferSafety
  import opened TransferProgress

  // ---------------------------------------------------------------- requests

  /** The request is for a packet of the plan of the download it was made for. */
  ghost predicate AsksFor(cfg: Config, c: Call, request: FileRequest)
    requires c.Ask?
  {
    && c.name == request.name
    && cfg.PlanOf(request.size).Some?
    && c.index < cfg.PlanOf(request.size).value.count
    && c.size == cfg.PlanOf(request.size).value.packetSize
  }

  ghost predicate AskIsPlanned(cfg: Config, es: seq<Event>, c: Call) {
    c.Ask? ==> exists request :: Begun(es, c.id, request) && AsksFor(cfg, c, request)
  }

  /** A step asks if and only if it leaves a transfer active, and then for its next packet. */
  lemma StepAsks(cfg: Config, s: State, e: Event)
    requires Good(cfg, s)
    ensures var o := Step(cfg, s, e);
            if o.state.Active? then
              && |o.calls| == 1 && o.calls[0].Ask? && o.calls[0].id == o.state.job.id
              && o.calls[0].index == |o.state.accepted|
              && AsksFor(cfg, o.calls[0], o.state.job.request)
            else forall c | c in o.calls :: !c.Ask?
  {
    StepShape(cfg, s, e);
    StepKeepsGood(cfg, s, e);
  }

  lemma {:induction false} EveryAskIsPlanned(cfg: Config, es: seq<Event>)
    ensures JobBegun(es, After(cfg, es))
    ensures forall c | c in CallsOf(cfg, es) :: AskIsPlanned(cfg, es, c)
  {
    if es != [] {
      var init, e := es[..|es| - 1], es[|es| - 1];
      EveryAskIsPlanned(cfg, init);
      EveryStateIsGood(cfg, init);
      assert init + [e] == es;
      var s := After(cfg, init);
      StepKeepsJob(cfg, init, s, e);
      StepAsks(cfg, s, e);
      forall c | c in CallsOf(cfg, es)
        ensures AskIsPlanned(cfg, es, c)
      {
        if c in CallsOf(cfg, init) {
          PlannedStays(cfg, init, e, c);
        } else {
          assert c in Step(cfg, s, e).calls;
        }
      }
    }
  }

  lemma PlannedStays(cfg: Config, es: seq<Event>, e: Event, c: Call)
    requires AskIsPlanned(cfg, es, c)
    ensures AskIsPlanned(cfg, es + [e], c)
  {
    if c.Ask? {
      var request :| Begun(es, c.id, request) && AsksFor(cfg, c, request);
      assert Begun(es + [e], c.id, request);
    }
  }

  // ---------------------------------------------------------------- failures

  /** The packet completes the plan and is accepted. */
  ghost predicate IsLast(cfg: Config, s: State, e: Event) {
    s.Active? && e.Data? && Extends(cfg.digest, s.accepted, e.packet) && |s.accepted| + 1 == s.job.plan.count
  }

  ghost predicate IsWhole(cfg: Config, s: State, e: Event)
    requires IsLast(cfg, s, e)
  {
    cfg.digest.sha(Payload(s.accepted + [e.packet])) == s.job.request.hash
  }

  /** The timer fires, or a packet arrives that is damaged or out of turn. */
  ghost predicate IsSetback(cfg: Config, s: State, e: Event) {
    s.Active? && (e.Timeout? || (e.Data? && !Extends(cfg.digest, s.accepted, e.packet)))
  }

  /**
    The three reasons to fail, and when each applies: the assembled bytes do not have the
    requested hash, they cannot be written, or the third request for one packet came to nothing.
  */
  lemma FailsExactlyWhen(cfg: Config, s: State, e: Event)
    requires Good(cfg, s)
    ensures var calls := Step(cfg, s, e).calls;
            && (s.Active? ==>
                  && (Failed(s.job.id, UNSPECIFIED_ERROR) in calls <==> IsLast(cfg, s, e) && !IsWhole(cfg, s, e))
                  && (Failed(s.job.id, FILE_SYSTEM_ERROR) in calls
                      <==> IsLast(cfg, s, e) && IsWhole(cfg, s, e) && !e.writable)
                  && (Failed(s.job.id, RETRY_COUNT_EXCEEDED) in calls <==> IsSetback(cfg, s, e) && s.tries == 3))
            && (forall c | c in calls && c.Failed? :: s.Active? && c.id == s.job.id)
  {
    if s.Active? && e.Data? {
      ReceiveFails(cfg, s, e.packet, e.writable);
    }
  }

  lemma ReceiveFails(cfg: Config, s: State, packet: Packet, writable: bool)
    requires s.Active?
    ensures var calls, e := Receive(cfg, s, packet, writable).calls, Data(packet, writable);
            && (Failed(s.job.id, UNSPECIFIED_ERROR) in calls <==> IsLast(cfg, s, e) && !IsWhole(cfg, s, e))
            && (Failed(s.job.id, FILE_SYSTEM_ERROR) in calls
                <==> IsLast(cfg, s, e) && IsWhole(cfg, s, e) && !writable)
            && (Failed(s.job.id, RETRY_COUNT_EXCEEDED) in calls <==> IsSetback(cfg, s, e) && s.tries == 3)
            && (forall c | c in calls && c.Failed? :: c.id == s.job.id)
  {
  }

  /**
    In every run, a download that fails for too many retries has asked exactly three times for
    the packet that it is missing, and for no later one.
  */
  lemma GivesUpAfterThreeRequests(cfg: Config, es: seq<Event>, e: Event, id: nat, size: nat)
    requires forall m, n | 0 <= m < n < |es| :: !(Starts(es[m], id) && Starts(es[n], id))
    requires forall m | 0 <= m < |es| && Starts(es[m], id) :: es[m].request.size == size
    requires Failed(id, RETRY_COUNT_EXCEEDED) in Step(cfg, After(cfg, es), e).calls
    ensures var asked := Asked(id, CallsOf(cfg, es));
            && asked != []
            && multiset(asked)[asked[|asked| - 1]] == 3
            && forall v | v in asked :: v <= asked[|asked| - 1]
  {
    EveryStateIsGood(cfg, es);
    FailsExactlyWhen(cfg, After(cfg, es), e);
    AsksOverRun(cfg, es, id, size);
    LastIsLargest(Asked(id, CallsOf(cfg, es)), |After(cfg, es).accepted|);
  }

  lemma LastIsLargest(asked: seq<nat>, largest: nat)
    requires NonDecreasing(asked) && multiset(asked)[largest] > 0 && forall v | v in asked :: v <= largest
    ensures asked != [] && asked[|asked| - 1] == largest
  {
    assert largest in asked;
    var i :| 0 <= i < |asked| && asked[i] == largest;
    assert asked[|asked| - 1] in asked;
    if i < |asked| - 1 {
      assert asked[i] <= asked[|asked| - 1];
    }
  }
}
