/**
  The platform's side of a transfer, and what the downloader rebuilds from it over a channel
  that loses, corrupts, duplicates, delays and reorders packets.
*/
module Reassembly {
  import opened Binary64
  import opened Bytes
  import opened PacketPlan
  import opened PacketChain
  import opened FileHandling
  import opened Machine
  import opened Transfer

  /** How the platform cuts one file: payload bytes a packet, the last one shorter. */
  datatype Source = Source(digest: Digest, file: Bytes, plan: Plan) {

    /** Where packet i starts, or the end of the file. */
    function Offset(i: nat): (offset: nat)
      requires plan.Payload() > 0
      ensures offset <= |file|
    {
      if i == 0 then 0 else Min(Offset(i - 1) + plan.Payload(), |file|)
    }

    function Chunk(i: nat): (data: Bytes)
      requires plan.Payload() > 0
    {
      file[Offset(i)..Offset(i + 1)]
    }

    function PreviousHash(i: nat): (hash: Bytes)
      requires plan.Payload() > 0
    {
      if i == 0 then digest.noPrevious else digest.sha(Chunk(i - 1))
    }

    function PacketAt(i: nat): (p: Packet)
      requires plan.Payload() > 0
    {
      Packet(PreviousHash(i), Chunk(i), digest.sha(Chunk(i)))
    }

    function FirstPackets(n: nat): (ps: seq<Packet>)
      requires plan.Payload() > 0
      ensures |ps| == n
    {
      seq(n, i requires 0 <= i => PacketAt(i))
    }

    /** Packets that name the same predecessor carry the same bytes. The platform can check this. */
    ghost predicate Unambiguous()
      requires plan.Payload() > 0
    {
      forall i: nat, j: nat | i < j < plan.count ::
        PreviousHash(i) == PreviousHash(j) ==> Chunk(i) == Chunk(j)
    }

    /** What the channel may deliver: a damaged packet, or any packet of the file, at any time. */
    ghost predicate MayDeliver(p: Packet)
      requires plan.Payload() > 0
    {
      p.hash != digest.sha(p.data) || exists i: nat :: i < plan.count && p == PacketAt(i)
    }

    ghost predicate Channel(es: seq<Event>)
      requires plan.Payload() > 0
    {
      forall e | e in es :: !Interrupts(e) && (e.Data? ==> MayDeliver(e.packet))
    }
  }

  /** The transfer of this file, cut as the downloader's own plan says. */
  ghost predicate Transfers(cfg: Config, request: FileRequest, src: Source) {
    && OVERHEAD < cfg.maxPacketSize < TWO_64
    && 0 < |src.file| < TWO_64
    && src.digest == cfg.digest
    && request.size == |src.file| && request.hash == src.digest.sha(src.file)
    && cfg.PlanOf(request.size) == Some(src.plan)
    && src.plan.Payload() > 0
  }

  /** The planned packets reach the end of the file. */
  ghost predicate Reaches(src: Source) {
    |src.file| <= src.plan.count * src.plan.Payload()
  }

  /** Up to 2^53 bytes they always do. */
  lemma SmallFilesAreReached(cfg: Config, request: FileRequest, src: Source)
    requires Transfers(cfg, request, src) && cfg.Rounds() && |src.file| <= TWO_53
    ensures Reaches(src)
  {
    PlanCovers(cfg.maxPacketSize, request.size, cfg.quotientOf(request.size), src.plan);
  }

  // ---------------------------------------------------------------- the platform's packets

  lemma {:induction false} OffsetIsMultiple(src: Source, i: nat)
    requires src.plan.Payload() > 0
    ensures src.Offset(i) == if i * src.plan.Payload() <= |src.file| then i * src.plan.Payload() else |src.file|
  {
    if i > 0 {
      OffsetIsMultiple(src, i - 1);
      assert i * src.plan.Payload() == (i - 1) * src.plan.Payload() + src.plan.Payload();
    }
  }

  lemma FirstPacketsGrow(src: Source, n: nat)
    requires src.plan.Payload() > 0
    ensures src.FirstPackets(n) + [src.PacketAt(n)] == src.FirstPackets(n + 1)
  {
  }

  lemma PrefixGrowsByChunk(src: Source, i: nat)
    requires src.plan.Payload() > 0
    ensures src.file[..src.Offset(i + 1)] == src.file[..src.Offset(i)] + src.Chunk(i)
  {
  }

  lemma {:induction false} PayloadOfFirst(src: Source, n: nat)
    requires src.plan.Payload() > 0
    ensures Payload(src.FirstPackets(n)) == src.file[..src.Offset(n)]
  {
    if n > 0 {
      PayloadOfFirst(src, n - 1);
      FirstPacketsGrow(src, n - 1);
      PayloadGrows(src.FirstPackets(n - 1), src.PacketAt(n - 1));
      PrefixGrowsByChunk(src, n - 1);
    }
  }

  lemma LinkOfFirst(src: Source, n: nat)
    requires src.plan.Payload() > 0
    ensures Link(src.digest, src.FirstPackets(n)) == src.PreviousHash(n)
  {
  }

  lemma WholeFile(src: Source)
    requires src.plan.Payload() > 0
    ensures Reaches(src) ==> Payload(src.FirstPackets(src.plan.count)) == src.file
    ensures !Reaches(src) ==> |Payload(src.FirstPackets(src.plan.count))| < |src.file|
  {
    OffsetIsMultiple(src, src.plan.count);
    PayloadOfFirst(src, src.plan.count);
    assert src.file[..|src.file|] == src.file;
  }

  // ---------------------------------------------------------------- the downloader's side

  /** The accepted packets are the first packets of the file, in order. */
  ghost predicate InOrder(src: Source, s: State)
    requires src.plan.Payload() > 0
  {
    s.Active? ==> s.accepted == src.FirstPackets(|s.accepted|)
  }

  /** The buffer is the file's prefix; whatever was saved is the whole file. */
  ghost predicate Faithful(src: Source, o: Result)
    requires src.plan.Payload() > 0
  {
    && (o.state.Active? ==> Payload(o.state.accepted) == src.file[..src.Offset(|o.state.accepted|)])
    && (forall c | c in o.calls && c.Saved? :: c.write.content == src.file)
    && (forall c | c in o.calls && c.Failed? :: c.error != UNSPECIFIED_ERROR)
  }

  ghost predicate Serving(cfg: Config, request: FileRequest, s: State) {
    s.Active? ==> Good(cfg, s) && s.job.request == request
  }

  lemma SamePredecessorSamePacket(src: Source, i: nat, j: nat)
    requires src.plan.Payload() > 0 && src.Unambiguous() && i <= j < src.plan.count
    requires src.PreviousHash(i) == src.PreviousHash(j)
    ensures src.PacketAt(i) == src.PacketAt(j)
  {
    assert i < j ==> src.Chunk(i) == src.Chunk(j);
  }

  lemma OnlyTheNextPacketExtends(src: Source, n: nat, p: Packet)
    requires src.plan.Payload() > 0 && src.Unambiguous() && n < src.plan.count
    requires src.MayDeliver(p) && Extends(src.digest, src.FirstPackets(n), p)
    ensures p == src.PacketAt(n)
  {
    LinkOfFirst(src, n);
    var i: nat :| i < src.plan.count && p == src.PacketAt(i);
    if i <= n {
      SamePredecessorSamePacket(src, i, n);
    } else {
      SamePredecessorSamePacket(src, n, i);
    }
  }

  lemma ReceiveIsFaithful(cfg: Config, request: FileRequest, src: Source, s: State, p: Packet, writable: bool)
    requires Transfers(cfg, request, src) && src.Unambiguous() && Reaches(src) && src.MayDeliver(p)
    requires s.Active? && Serving(cfg, request, s) && InOrder(src, s)
    requires Extends(cfg.digest, s.accepted, p)
    ensures var o := Receive(cfg, s, p, writable); InOrder(src, o.state) && Faithful(src, o)
  {
    var n := |s.accepted|;
    OnlyTheNextPacketExtends(src, n, p);
    FirstPacketsGrow(src, n);
    var accepted := s.accepted + [p];
    assert accepted == src.FirstPackets(n + 1);
    if n + 1 == src.plan.count {
      WholeFile(src);
    } else {
      PayloadOfFirst(src, n + 1);
    }
  }

  lemma RetryIsFaithful(src: Source, s: State)
    requires src.plan.Payload() > 0 && s.Active? && InOrder(src, s)
    ensures InOrder(src, Retry(s).state) && Faithful(src, Retry(s))
  {
    PayloadOfFirst(src, |s.accepted|);
  }

  lemma StepIsFaithful(cfg: Config, request: FileRequest, src: Source, s: State, e: Event)
    requires Transfers(cfg, request, src) && src.Unambiguous() && Reaches(src)
    requires !Interrupts(e) && (e.Data? ==> src.MayDeliver(e.packet))
    requires Serving(cfg, request, s) && InOrder(src, s)
    ensures InOrder(src, Step(cfg, s, e).state) && Faithful(src, Step(cfg, s, e))
  {
    if s.Active? {
      if e.Data? && Extends(cfg.digest, s.accepted, e.packet) {
        ReceiveIsFaithful(cfg, request, src, s, e.packet, e.writable);
      } else {
        RetryIsFaithful(src, s);
      }
    }
  }

  lemma StepKeepsServing(cfg: Config, request: FileRequest, s: State, e: Event)
    requires Serving(cfg, request, s) && !Interrupts(e)
    ensures Serving(cfg, request, Step(cfg, s, e).state)
  {
    StepKeepsGood(cfg, s, e);
  }

  lemma {:induction false} RunIsFaithful(cfg: Config, request: FileRequest, src: Source, s: State, es: seq<Event>)
    requires Transfers(cfg, request, src) && src.Unambiguous() && Reaches(src) && src.Channel(es)
    requires Serving(cfg, request, s) && InOrder(src, s) && Faithful(src, Outcome(s, []))
    ensures var o := Run(Steps(cfg), s, es);
            Serving(cfg, request, o.state) && InOrder(src, o.state) && Faithful(src, o)
  {
    if es != [] {
      var init, e := es[..|es| - 1], es[|es| - 1];
      assert e in es;
      RunIsFaithful(cfg, request, src, s, init);
      var before := Run(Steps(cfg), s, init);
      StepKeepsServing(cfg, request, before.state, e);
      StepIsFaithful(cfg, request, src, before.state, e);
    }
  }

  /** The run of one download and then whatever the channel and the timer do. */
  function TransferRun(cfg: Config, id: nat, request: FileRequest, es: seq<Event>): (o: Result) {
    Run(Steps(cfg), Begin(cfg, id, request).state, es)
  }

  /**
    For every behaviour of the channel: the buffer is at all times the prefix of the file
    that the packet index stands for, a completed transfer passes validation, and what it
    saves is the file.
  */
  lemma EveryScheduleReassembles(cfg: Config, id: nat, request: FileRequest, src: Source, es: seq<Event>)
    requires Transfers(cfg, request, src) && src.Unambiguous() && Reaches(src) && src.Channel(es)
    ensures Faithful(src, TransferRun(cfg, id, request, es))
  {
    var begun := Begin(cfg, id, request);
    PlanCount(cfg, request.size);
    assert src.file[..0] == [];
    assert [] == src.FirstPackets(0);
    RunIsFaithful(cfg, request, src, begun.state, es);
  }

  // ---------------------------------------------------------------- and only then

  function InTurn(src: Source, n: nat): (es: seq<Event>)
    requires src.plan.Payload() > 0
    ensures |es| == n
  {
    seq(n, i requires 0 <= i => Data(src.PacketAt(i), true))
  }

  /** The state of the transfer once its first n packets have been accepted, each at once. */
  function Progress(id: nat, request: FileRequest, src: Source, n: nat): (s: State)
    requires src.plan.Payload() > 0
  {
    Active(Job(id, request, src.plan), src.FirstPackets(n), 1)
  }

  lemma NextPacketIsAccepted(cfg: Config, id: nat, request: FileRequest, src: Source, n: nat)
    requires Transfers(cfg, request, src) && n + 1 < src.plan.count
    ensures Step(cfg, Progress(id, request, src, n), Data(src.PacketAt(n), true)).state
         == Progress(id, request, src, n + 1)
  {
    LinkOfFirst(src, n);
    FirstPacketsGrow(src, n);
  }

  lemma DeliveredInTurn(cfg: Config, id: nat, request: FileRequest, src: Source, n: nat)
    requires Transfers(cfg, request, src) && n < src.plan.count
    ensures TransferRun(cfg, id, request, InTurn(src, n)).state == Progress(id, request, src, n)
  {
    var es, states := InTurn(src, n), seq(n + 1, i requires 0 <= i => Progress(id, request, src, i));
    forall i | 0 <= i < n
      ensures Steps(cfg)(states[i], es[i]).state == states[i + 1]
    {
      NextPacketIsAccepted(cfg, id, request, src, i);
    }
    assert src.FirstPackets(0) == [];
    RunVisits(Steps(cfg), es, states);
  }

  /** What one more event does after n packets have been delivered in turn. */
  lemma AfterTurn(cfg: Config, id: nat, request: FileRequest, src: Source, n: nat, e: Event)
    requires Transfers(cfg, request, src) && n < src.plan.count
    ensures var before := TransferRun(cfg, id, request, InTurn(src, n));
            var last := Step(cfg, Progress(id, request, src, n), e);
            TransferRun(cfg, id, request, InTurn(src, n) + [e]) == Outcome(last.state, before.calls + last.calls)
  {
    DeliveredInTurn(cfg, id, request, src, n);
    RunSnoc(Steps(cfg), Begin(cfg, id, request).state, InTurn(src, n), e);
  }

  /** The last two calls of a transfer that delivers this content. */
  function Completion(cfg: Config, id: nat, request: FileRequest, content: Bytes): (calls: seq<Call>)
    ensures |calls| == 2
  {
    var path := cfg.paths.compose(request.name, request.directory);
    [Saved(Write(path, content, true)), Succeeded(id, cfg.paths.absolute(path))]
  }

  /** The run ends idle, with the file saved and reported. */
  ghost predicate Completed(cfg: Config, id: nat, request: FileRequest, file: Bytes, o: Result) {
    o.state == Idle && |o.calls| >= 2 && o.calls[|o.calls| - 2..] == Completion(cfg, id, request, file)
  }

  lemma LastPacketFinishes(cfg: Config, id: nat, request: FileRequest, src: Source)
    requires Transfers(cfg, request, src) && src.plan.count >= 1
    ensures var last := src.plan.count - 1;
            var o := Step(cfg, Progress(id, request, src, last), Data(src.PacketAt(last), true));
            o == Finish(cfg, Job(id, request, src.plan), src.FirstPackets(src.plan.count), true)
  {
    LinkOfFirst(src, src.plan.count - 1);
    FirstPacketsGrow(src, src.plan.count - 1);
  }

  /** The transfer ends well exactly if what was assembled is the file. */
  lemma FinishCompletes(cfg: Config, id: nat, request: FileRequest, src: Source, before: seq<Call>)
    requires Transfers(cfg, request, src)
    ensures var o := Finish(cfg, Job(id, request, src.plan), src.FirstPackets(src.plan.count), true);
            Completed(cfg, id, request, src.file, Outcome(o.state, before + o.calls)) <==> Reaches(src)
  {
    WholeFile(src);
    var o := Finish(cfg, Job(id, request, src.plan), src.FirstPackets(src.plan.count), true);
    var calls := before + o.calls;
    assert calls[|calls| - 1] == o.calls[|o.calls| - 1];
    if |o.calls| == 2 {
      assert calls[|calls| - 2..] == o.calls;
    } else if |calls| >= 2 {
      assert calls[|calls| - 2..][1].Failed?;
    }
  }

  /**
    A channel that delivers every packet in turn completes the transfer with the file itself
    if and only if the planned packets reach its end.
  */
  lemma LosslessChannelSucceeds(cfg: Config, id: nat, request: FileRequest, src: Source)
    requires Transfers(cfg, request, src)
    ensures Completed(cfg, id, request, src.file, TransferRun(cfg, id, request, InTurn(src, src.plan.count)))
            <==> Reaches(src)
  {
    PlanCount(cfg, request.size);
    var last := src.plan.count - 1;
    var turn, e := InTurn(src, last), Data(src.PacketAt(last), true);
    assert InTurn(src, src.plan.count) == turn + [e];
    AfterTurn(cfg, id, request, src, last, e);
    LastPacketFinishes(cfg, id, request, src);
    FinishCompletes(cfg, id, request, src, TransferRun(cfg, id, request, turn).calls);
  }

  lemma EarlyPacketIsDeliverable(src: Source, i: nat, j: nat)
    requires src.plan.Payload() > 0 && i < j < src.plan.count
    ensures src.Channel(InTurn(src, i) + [Data(src.PacketAt(j), true)])
  {
    var es := InTurn(src, i) + [Data(src.PacketAt(j), true)];
    forall e | e in es
      ensures !Interrupts(e) && (e.Data? ==> src.MayDeliver(e.packet))
    {
      var k :| 0 <= k < |es| && es[k] == e;
      assert e.packet == src.PacketAt(if k < i then k else j);
    }
  }

  lemma DifferentSuffix(a: Bytes, b: Bytes, c: Bytes)
    requires b != c
    ensures a + b != a + c
  {
    assert (a + b)[|a|..] == b && (a + c)[|a|..] == c;
  }

  lemma EarlyPacketIsAccepted(cfg: Config, id: nat, request: FileRequest, src: Source, i: nat, j: nat)
    requires Transfers(cfg, request, src) && i < j < src.plan.count
    requires src.PreviousHash(i) == src.PreviousHash(j)
    ensures Step(cfg, Progress(id, request, src, i), Data(src.PacketAt(j), true)).state
         == Active(Job(id, request, src.plan), src.FirstPackets(i) + [src.PacketAt(j)], 1)
  {
    LinkOfFirst(src, i);
  }

  lemma EarlyPacketSpoils(src: Source, i: nat, j: nat)
    requires src.plan.Payload() > 0 && src.Chunk(i) != src.Chunk(j)
    ensures Payload(src.FirstPackets(i) + [src.PacketAt(j)]) != src.file[..src.Offset(i + 1)]
  {
    PayloadGrows(src.FirstPackets(i), src.PacketAt(j));
    PayloadOfFirst(src, i);
    PrefixGrowsByChunk(src, i);
    DifferentSuffix(src.file[..src.Offset(i)], src.Chunk(j), src.Chunk(i));
  }

  /** With two packets that share a predecessor, delivering the later one early spoils the buffer. */
  lemma AmbiguityMisleads(cfg: Config, id: nat, request: FileRequest, src: Source, i: nat, j: nat)
    returns (es: seq<Event>)
    requires Transfers(cfg, request, src) && i < j < src.plan.count
    requires src.PreviousHash(i) == src.PreviousHash(j) && src.Chunk(i) != src.Chunk(j)
    ensures src.Channel(es) && !Faithful(src, TransferRun(cfg, id, request, es))
  {
    var e := Data(src.PacketAt(j), true);
    es := InTurn(src, i) + [e];
    EarlyPacketIsDeliverable(src, i, j);
    AfterTurn(cfg, id, request, src, i, e);
    EarlyPacketIsAccepted(cfg, id, request, src, i, j);
    EarlyPacketSpoils(src, i, j);
    assert |src.FirstPackets(i) + [src.PacketAt(j)]| == i + 1;
  }

  ghost predicate AlwaysFaithful(cfg: Config, id: nat, request: FileRequest, src: Source)
    requires src.plan.Payload() > 0
  {
    forall es | src.Channel(es) :: Faithful(src, TransferRun(cfg, id, request, es))
  }

  /** Stop-and-wait over this chain is correct under every schedule exactly for unambiguous files. */
  lemma ReassemblesExactlyWhenUnambiguous(cfg: Config, id: nat, request: FileRequest, src: Source)
    requires Transfers(cfg, request, src) && Reaches(src)
    ensures AlwaysFaithful(cfg, id, request, src) <==> src.Unambiguous()
  {
    if src.Unambiguous() {
      forall es | src.Channel(es)
        ensures Faithful(src, TransferRun(cfg, id, request, es))
      {
        EveryScheduleReassembles(cfg, id, request, src, es);
      }
    } else {
      var i: nat, j: nat :| i < j < src.plan.count &&
                            src.PreviousHash(i) == src.PreviousHash(j) && src.Chunk(i) != src.Chunk(j);
      var es := AmbiguityMisleads(cfg, id, request, src, i, j);
    }
  }

  /**
    For files of any size: no schedule spoils the file and the lossless one delivers it, if and
    only if the file is unambiguous and the planned packets reach its end.
  */
  lemma TransferIsRightExactlyWhen(cfg: Config, id: nat, request: FileRequest, src: Source)
    requires Transfers(cfg, request, src)
    ensures && AlwaysFaithful(cfg, id, request, src)
            && Completed(cfg, id, request, src.file, TransferRun(cfg, id, request, InTurn(src, src.plan.count)))
            <==> src.Unambiguous() && Reaches(src)
  {
    LosslessChannelSucceeds(cfg, id, request, src);
    if Reaches(src) {
      ReassemblesExactlyWhenUnambiguous(cfg, id, request, src);
    }
  }
}
