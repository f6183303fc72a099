/** A request denotes a stretch of the file, and the platform's packet of that index carries it. */
module RequestGeometry {
  import opened Binary64
  import opened Bytes
  import opened PacketPlan
  import opened PacketChain
  import opened Transfer
  import opened TransferSafety
  import opened TransferRequests
  import opened Reassembly

  function Clip(offset: nat, length: nat): (r: nat)
    ensures r <= length
  {
    Min(offset, length)
  }

  /** The bytes that packet `index` of `size` bytes, two hashes included, is to carry. */
  function Denoted(file: Bytes, index: nat, size: nat): (data: Bytes)
    requires size >= 64
  {
    var payload := size - 64;
    ClipGrows(index, payload, |file|);
    file[Clip(index * payload, |file|)..Clip((index + 1) * payload, |file|)]
  }

  lemma ClipGrows(index: nat, payload: nat, length: nat)
    ensures 0 <= index * payload && 0 <= (index + 1) * payload
    ensures Clip(index * payload, length) <= Clip((index + 1) * payload, length)
  {
    NonNegativeInt(index, payload);
    DistributesInt(index, 1, payload);
  }

  function BytesOf(p: Packet): (n: nat) {
    |p.previousHash| + |p.data| + |p.hash|
  }

  lemma ChunkIsDenoted(src: Source, i: nat)
    requires src.plan.Payload() > 0
    ensures src.Chunk(i) == Denoted(src.file, i, src.plan.packetSize)
    ensures |src.Chunk(i)| <= src.plan.Payload()
    ensures |src.Chunk(i)| == src.plan.Payload() <==> (i + 1) * src.plan.Payload() <= |src.file|
  {
    ClipGrows(i, src.plan.Payload(), |src.file|);
    OffsetIsMultiple(src, i);
    OffsetIsMultiple(src, i + 1);
    DistributesInt(i, 1, src.plan.Payload());
  }

  lemma PacketLength(src: Source, i: nat)
    requires src.plan.Payload() > 0 && |src.digest.noPrevious| == 32
    ensures BytesOf(src.PacketAt(i)) == |src.Chunk(i)| + 64
  {
  }

  /** The request asks for exactly this stretch of the file, and has room for it. */
  ghost predicate Fits(request: FileRequest, src: Source, maxPacketSize: nat, c: Call)
    requires c.Ask? && src.plan.Payload() > 0
  {
    && c.name == request.name && c.index < src.plan.count && c.size >= 64
    && src.PacketAt(c.index).data == Denoted(src.file, c.index, c.size)
    && BytesOf(src.PacketAt(c.index)) <= c.size
    && (BytesOf(src.PacketAt(c.index)) == c.size <==> (c.index + 1) * (c.size - 64) <= |src.file|)
    && (|src.file| <= maxPacketSize - 64 ==> c.index == 0 && c.size == |src.file| + 64)
  }

  lemma PlannedAskFits(cfg: Config, request: FileRequest, src: Source, c: Call)
    requires Transfers(cfg, request, src) && |src.digest.noPrevious| == 32
    requires c.Ask? && AsksFor(cfg, c, request)
    ensures Fits(request, src, cfg.maxPacketSize, c)
  {
    ChunkIsDenoted(src, c.index);
    PacketLength(src, c.index);
    assert Room(cfg.maxPacketSize) == cfg.maxPacketSize - 64;
  }

  /**
    In every run of a download, whatever packets, timeouts and aborts come: each request names
    the file, is for a packet of the plan, denotes exactly the bytes that the platform's packet
    carries, and is for exactly as many bytes as that packet has, two hashes included, unless
    the file ends within it. A file that fits one packet is asked for to the byte.
  */
  lemma RequestsDenoteTheirPackets(cfg: Config, id: nat, request: FileRequest, src: Source, es: seq<Event>)
    requires Transfers(cfg, request, src) && |src.digest.noPrevious| == 32
    requires forall e | e in es :: !e.Download?
    ensures forall c | c in CallsOf(cfg, [Download(id, request)] + es) && c.Ask? ::
              c.id == id && Fits(request, src, cfg.maxPacketSize, c)
  {
    var run := [Download(id, request)] + es;
    EveryAskIsPlanned(cfg, run);
    forall c | c in CallsOf(cfg, run) && c.Ask?
      ensures c.id == id && Fits(request, src, cfg.maxPacketSize, c)
    {
      var r :| Begun(run, c.id, r) && AsksFor(cfg, c, r);
      assert Download(c.id, r) == Download(id, request);
      PlannedAskFits(cfg, request, src, c);
    }
  }
}
