/**
  Packets and the hash chain that links them. BinaryData and SHA-256 live in the SDK: a
  packet is its three fields, the hash is any function with 32-byte results, and the
  previous hash of a first packet is compared with a fixed value.
*/
module PacketChain {
  import opened Bytes
  import opened PacketPlan

  datatype Packet = Packet(previousHash: Bytes, data: Bytes, hash: Bytes)

  type Hash = h: Bytes -> Bytes | forall b: Bytes :: |h(b)| == HASH_LENGTH
    witness (b: Bytes) => seq(HASH_LENGTH, i => 0)

  /** The hash function, and the previous hash a first packet must carry. */
  datatype Digest = Digest(sha: Hash, noPrevious: Bytes)

  /** BinaryData::valid */
  predicate Intact(d: Digest, p: Packet) {
    p.hash == d.sha(p.data)
  }

  /** The previous hash that the packet after `accepted` must carry. */
  function Link(d: Digest, accepted: seq<Packet>): (hash: Bytes) {
    if accepted == [] then d.noPrevious else accepted[|accepted| - 1].hash
  }

  predicate Extends(d: Digest, accepted: seq<Packet>, p: Packet) {
    Intact(d, p) && p.previousHash == Link(d, accepted)
  }

  /** Every packet is intact and names the hash of its predecessor. */
  ghost predicate Chained(d: Digest, ps: seq<Packet>) {
    ps != [] ==>
      var init := ps[..|ps| - 1];
      Chained(d, init) && Extends(d, init, ps[|ps| - 1])
  }

  lemma {:induction false} ChainedAt(d: Digest, ps: seq<Packet>, i: nat)
    requires Chained(d, ps) && i < |ps|
    ensures Extends(d, ps[..i], ps[i])
    ensures ps[i].hash == d.sha(ps[i].data)
    ensures ps[i].previousHash == if i == 0 then d.noPrevious else ps[i - 1].hash
  {
    if i < |ps| - 1 {
      var init := ps[..|ps| - 1];
      ChainedAt(d, init, i);
      assert init[..i] == ps[..i];
    }
  }

  function Payload(ps: seq<Packet>): (data: Bytes) {
    if ps == [] then [] else Payload(ps[..|ps| - 1]) + ps[|ps| - 1].data
  }

  lemma PayloadGrows(ps: seq<Packet>, p: Packet)
    ensures Payload(ps + [p]) == Payload(ps) + p.data
  {
    assert (ps + [p])[..|ps|] == ps;
  }

  lemma ChainGrows(d: Digest, ps: seq<Packet>, p: Packet)
    requires Chained(d, ps) && Extends(d, ps, p)
    ensures Chained(d, ps + [p])
  {
    assert (ps + [p])[..|ps|] == ps;
  }
}
