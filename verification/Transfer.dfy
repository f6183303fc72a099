/**
  One downloader as a state machine on values: what each command or timer firing does to
  the transfer, and the calls it makes. FileDownloader.dfy shows that the class takes
  exactly these steps; the theorems about all runs are in the Transfer*.dfy files.
*/
module Transfer {
  import opened Bytes
  import opened PacketPlan
  import opened PacketChain
  import opened FileHandling
  import opened Machine

  const MAX_RETRY_COUNT: nat := 3

  /** quotientOf: what the floating-point division delivers for each file size. */
  datatype Config = Config(digest: Digest, paths: Paths, maxPacketSize: nat, quotientOf: nat -> real) {

    function PlanOf(fileSize: nat): (plan: Option<Plan>) {
      PlanFor(maxPacketSize, fileSize, quotientOf(fileSize))
    }

    /** The division rounds to a nearest double. Only theorems about the whole file rely on it. */
    ghost predicate Rounds() {
      forall fileSize: nat | fileSize < TWO_64 :: Delivers(maxPacketSize, fileSize, quotientOf(fileSize))
    }
  }

  datatype FileRequest = FileRequest(name: string, size: nat, hash: Bytes, directory: string)

  /** One call of `download`: its number stands for the callbacks it was given. */
  datatype Job = Job(id: nat, request: FileRequest, plan: Plan)

  /**
    Undefined: an empty packetProvider was called, or a packet count out of range was cast.
    tries is m_retryCount.
  */
  datatype State =
    | Idle
    | Active(job: Job, accepted: seq<Packet>, tries: nat)
    | Undefined

  datatype TransferError = UNSPECIFIED_ERROR | FILE_SYSTEM_ERROR | RETRY_COUNT_EXCEEDED

  /** What the downloader does to its surroundings, in order. */
  datatype Call =
    | Ask(id: nat, name: string, index: nat, size: nat)
    | Saved(write: Write)
    | Succeeded(id: nat, path: string)
    | Failed(id: nat, error: TransferError)
  {
    predicate IsCallback() { Succeeded? || Failed? }
  }

  /** writable is the outcome of the save, if the packet leads to one. */
  datatype Event =
    | Download(id: nat, request: FileRequest)
    | Data(packet: Packet, writable: bool)
    | Timeout
    | Abort

  type Result = Outcome<State, Call>

  /** What the public operations push on the downloader's command buffer. */
  datatype Command =
    | DownloadCommand(id: nat, request: FileRequest)
    | DataCommand(packet: Packet)
    | AbortCommand

  function EventOf(c: Command, writable: bool): (e: Event) {
    match c
    case DownloadCommand(id, request) => Download(id, request)
    case DataCommand(packet) => Data(packet, writable)
    case AbortCommand => Abort
  }

  function Asking(s: State): (o: Result)
    requires s.Active?
  {
    Outcome(s, [Ask(s.job.id, s.job.request.name, |s.accepted|, s.job.plan.packetSize)])
  }

  function Begin(cfg: Config, id: nat, request: FileRequest): (o: Result) {
    match cfg.PlanOf(request.size)
    case None => Outcome(Undefined, [])
    case Some(plan) => Asking(Active(Job(id, request, plan), [], 1))
  }

  function Finish(cfg: Config, job: Job, accepted: seq<Packet>, writable: bool): (o: Result) {
    var content := Payload(accepted);
    if cfg.digest.sha(content) != job.request.hash then
      Outcome(Idle, [Failed(job.id, UNSPECIFIED_ERROR)])
    else
      var path := cfg.paths.compose(job.request.name, job.request.directory);
      Outcome(Idle, [Saved(Write(path, content, writable)),
                     if writable then Succeeded(job.id, cfg.paths.absolute(path))
                     else Failed(job.id, FILE_SYSTEM_ERROR)])
  }

  function Retry(s: State): (o: Result)
    requires s.Active?
  {
    if s.tries == MAX_RETRY_COUNT then Outcome(Idle, [Failed(s.job.id, RETRY_COUNT_EXCEEDED)])
    else Asking(s.(tries := s.tries + 1))
  }

  /** These packets have been accepted, the last of them just now. */
  function Accept(cfg: Config, job: Job, accepted: seq<Packet>, writable: bool): (o: Result) {
    if |accepted| == job.plan.count then Finish(cfg, job, accepted, writable)
    else Asking(Active(job, accepted, 1))
  }

  function Receive(cfg: Config, s: State, packet: Packet, writable: bool): (o: Result)
    requires s.Active?
  {
    if Extends(cfg.digest, s.accepted, packet) then Accept(cfg, s.job, s.accepted + [packet], writable)
    else Retry(s)
  }

  function Step(cfg: Config, s: State, e: Event): (o: Result) {
    if s.Undefined? then Outcome(s, [])
    else
      match e
      case Download(id, request) => Begin(cfg, id, request)
      case Data(packet, writable) =>
        if s.Idle? then Outcome(Undefined, []) else Receive(cfg, s, packet, writable)
      case Timeout =>
        // not armed when idle
        if s.Idle? then Outcome(s, []) else Retry(s)
      case Abort => Outcome(Idle, [])
  }

  function Steps(cfg: Config): (State, Event) -> Result {
    (s: State, e: Event) => Step(cfg, s, e)
  }

  /** The state after a run that starts with an idle downloader. */
  function After(cfg: Config, es: seq<Event>): (s: State) {
    Run(Steps(cfg), Idle, es).state
  }

  function CallsOf(cfg: Config, es: seq<Event>): (calls: seq<Call>) {
    Run(Steps(cfg), Idle, es).calls
  }

  // ---------------------------------------------------------------- the shape of a step

  predicate Interrupts(e: Event) {
    e.Download? || e.Abort?
  }

  /** The same packet once more, or the next one for the first time. */
  ghost predicate Advances(s: State, t: State)
    requires s.Active? && t.Active?
  {
    && t.job == s.job
    && if t.accepted == s.accepted then t.tries == s.tries + 1
       else |t.accepted| == |s.accepted| + 1 && t.tries == 1
  }

  ghost predicate StartsWith(e: Event, t: State)
    requires e.Download? && t.Active?
  {
    t.job.id == e.id && t.job.request == e.request && t.accepted == [] && t.tries == 1
  }

  /** A save or not, and then one callback. */
  ghost predicate Answers(id: nat, calls: seq<Call>) {
    || (|calls| == 1 && calls[0].Failed? && calls[0].id == id)
    || (|calls| == 2 && calls[0].Saved? && calls[1].IsCallback() && calls[1].id == id)
  }

  /** A step makes one request, or answers once and for all, or makes no call at all. */
  ghost predicate Shaped(s: State, e: Event, o: Result) {
    if o.state.Active? then
      && o.calls == Asking(o.state).calls
      && (e.Download? ==> StartsWith(e, o.state))
      && (!e.Download? ==> !Interrupts(e) && s.Active? && Advances(s, o.state))
    else if s.Active? && !Interrupts(e) then
      o.state.Idle? && Answers(s.job.id, o.calls)
    else
      o.calls == []
  }

  lemma RetryShape(s: State, e: Event)
    requires s.Active? && !Interrupts(e)
    ensures Shaped(s, e, Retry(s))
  {
  }

  lemma AcceptShape(cfg: Config, s: State, e: Event, packet: Packet, writable: bool)
    requires s.Active? && !Interrupts(e)
    ensures Shaped(s, e, Accept(cfg, s.job, s.accepted + [packet], writable))
  {
  }

  lemma StepShape(cfg: Config, s: State, e: Event)
    ensures Shaped(s, e, Step(cfg, s, e))
  {
    if s.Active? && !Interrupts(e) {
      RetryShape(s, e);
      if e.Data? {
        AcceptShape(cfg, s, e, e.packet, e.writable);
      }
    }
  }

  // ---------------------------------------------------------------- the invariant

  /** What holds of the transfer between any two steps. */
  ghost predicate Good(cfg: Config, s: State) {
    s.Active? ==>
      && Chained(cfg.digest, s.accepted)
      && cfg.PlanOf(s.job.request.size) == Some(s.job.plan)
      && |s.accepted| < s.job.plan.count
      && 1 <= s.tries <= MAX_RETRY_COUNT
  }

  lemma PlanCount(cfg: Config, size: nat)
    ensures cfg.PlanOf(size).Some? ==> 1 <= cfg.PlanOf(size).value.count < TWO_32
  {
  }

  lemma RetryKeepsGood(cfg: Config, s: State)
    requires Good(cfg, s) && s.Active?
    ensures Good(cfg, Retry(s).state)
  {
  }

  lemma AcceptKeepsGood(cfg: Config, s: State, packet: Packet, writable: bool)
    requires Good(cfg, s) && s.Active? && Extends(cfg.digest, s.accepted, packet)
    ensures Good(cfg, Accept(cfg, s.job, s.accepted + [packet], writable).state)
  {
    ChainGrows(cfg.digest, s.accepted, packet);
  }

  lemma StepKeepsGood(cfg: Config, s: State, e: Event)
    requires Good(cfg, s)
    ensures Good(cfg, Step(cfg, s, e).state)
  {
    match e
    case Download(_, request) => PlanCount(cfg, request.size);
    case Data(packet, writable) =>
      if s.Active? {
        RetryKeepsGood(cfg, s);
        if Extends(cfg.digest, s.accepted, packet) {
          AcceptKeepsGood(cfg, s, packet, writable);
        }
      }
    case Timeout =>
      if s.Active? {
        RetryKeepsGood(cfg, s);
      }
    case Abort =>
  }

  /** In every run the buffer holds exactly the accepted packets, each linked to the one before. */
  lemma {:induction false} EveryStateIsGood(cfg: Config, es: seq<Event>)
    ensures Good(cfg, After(cfg, es))
  {
    if es != [] {
      EveryStateIsGood(cfg, es[..|es| - 1]);
      StepKeepsGood(cfg, After(cfg, es[..|es| - 1]), es[|es| - 1]);
    }
  }
}
