/** What a pass over the keys does to each of their queues, whatever becomes of the attempts. */
module DataFlush {
  import opened DataPublishing

  ghost predicate Distinct(keys: seq<string>) {
    forall i, j | 0 <= i < j < |keys| :: keys[i] != keys[j]
  }

  /** One key's share in a pass: its queue, what became of it, and the attempt it started with. */
  datatype Share<T> = Share(queue: seq<T>, drained: Drained<T>, start: nat)

  /** Nothing is lost or reordered, and as many full batches leave as attempts succeed in a row. */
  ghost predicate IsDrained<T>(share: Share<T>, outcomes: Outcomes) {
    && Items(share.drained.removals) + share.drained.left == share.queue
    && IsOneShot(|share.queue|, share.drained, outcomes, share.start)
  }

  ghost predicate AllDrained<T>(shares: seq<Share<T>>, outcomes: Outcomes) {
    forall i | 0 <= i < |shares| :: IsDrained(shares[i], outcomes)
  }

  /** The shares use the attempts from t up to end, one after the other. */
  ghost predicate TakeTurns<T>(shares: seq<Share<T>>, t: nat, end: nat) {
    if shares == [] then end == t
    else
      var last := shares[|shares| - 1];
      end == last.drained.attempts && TakeTurns(shares[..|shares| - 1], t, last.start)
  }

  ghost function Joined<T>(keys: seq<string>, shares: seq<Share<T>>): (removals: seq<KeyedRemoval<T>>)
    requires |keys| == |shares|
  {
    if keys == [] then []
    else
      Joined(keys[..|keys| - 1], shares[..|shares| - 1])
      + Tagged(keys[|keys| - 1], shares[|shares| - 1].drained.removals)
  }

  /**
    Key by key, each queue gives up its share, with attempts that follow those of the keys
    before it; the batches leave in that order, and other queues stay as they are.
  */
  ghost predicate IsPass<T(!new)>(before: Queues<T>, after: Queues<T>, keys: seq<string>, t: nat, end: nat,
                                  removals: seq<KeyedRemoval<T>>, shares: seq<Share<T>>)
  {
    && |shares| == |keys|
    && (forall i | 0 <= i < |keys| ::
          && shares[i].queue == QueueOf(before, keys[i])
          && shares[i].drained.left == QueueOf(after, keys[i]))
    && (forall k | k !in keys :: QueueOf(after, k) == QueueOf(before, k))
    && TakeTurns(shares, t, end)
    && removals == Joined(keys, shares)
  }

  lemma JoinedGrows<T>(keys: seq<string>, shares: seq<Share<T>>, key: string, share: Share<T>)
    requires |keys| == |shares|
    ensures Joined(keys + [key], shares + [share]) == Joined(keys, shares) + Tagged(key, share.drained.removals)
  {
    assert (keys + [key])[..|keys|] == keys && (shares + [share])[..|shares|] == shares;
  }

  /** One more key, drained as d. */
  lemma PassGrows<T(!new)>(before: Queues<T>, middle: Queues<T>, after: Queues<T>, keys: seq<string>, t: nat, mid: nat,
                           removals: seq<KeyedRemoval<T>>, shares: seq<Share<T>>, key: string, d: Drained<T>)
    requires IsPass(before, middle, keys, t, mid, removals, shares) && key !in keys
    requires QueueOf(after, key) == d.left && forall k | k != key :: QueueOf(after, k) == QueueOf(middle, k)
    ensures IsPass(before, after, keys + [key], t, d.attempts, removals + Tagged(key, d.removals),
                   shares + [Share(QueueOf(before, key), d, mid)])
  {
    var share := Share(QueueOf(before, key), d, mid);
    var all, more := keys + [key], shares + [share];
    JoinedGrows(keys, shares, key, share);
    assert more[..|shares|] == shares;
    forall i | 0 <= i < |all|
      ensures more[i].queue == QueueOf(before, all[i]) && more[i].drained.left == QueueOf(after, all[i])
    {
      if i < |keys| {
        assert all[i] == keys[i] && keys[i] in keys && more[i] == shares[i];
      }
    }
    assert forall k :: k !in all ==> k !in keys && k != key;
  }

  lemma AllDrainedGrows<T>(shares: seq<Share<T>>, share: Share<T>, outcomes: Outcomes)
    requires AllDrained(shares, outcomes) && IsDrained(share, outcomes)
    ensures AllDrained(shares + [share], outcomes)
  {
  }

  lemma {:induction false} FlushIsPass<T(!new)>(queues: Queues<T>, keys: seq<string>, outcomes: Outcomes, t: nat)
    returns (shares: seq<Share<T>>)
    requires Distinct(keys)
    ensures var f := Flush(queues, keys, outcomes, t);
            IsPass(queues, f.queues, keys, t, f.attempts, f.removals, shares)
    ensures AllDrained(shares, outcomes)
  {
    if keys == [] {
      shares := [];
    } else {
      var init, key := keys[..|keys| - 1], keys[|keys| - 1];
      SplitLast(keys);
      var first := FlushIsPass(queues, init, outcomes, t);
      var f := Flush(queues, init, outcomes, t);
      assert key !in init;
      var d := DrainedKey(f.queues, key, outcomes, f.attempts);
      var after := Flush(queues, keys, outcomes, t).queues;
      PassGrows(queues, f.queues, after, init, t, f.attempts, f.removals, first, key, d);
      shares := first + [Share(QueueOf(queues, key), d, f.attempts)];
      AllDrainedGrows(first, Share(QueueOf(queues, key), d, f.attempts), outcomes);
    }
  }

  lemma SplitLast<T>(xs: seq<T>)
    requires xs != []
    ensures xs[..|xs| - 1] + [xs[|xs| - 1]] == xs
  {
  }

  /** What the drain of one key amounts to. */
  lemma DrainedKey<T(!new)>(queues: Queues<T>, key: string, outcomes: Outcomes, t: nat) returns (d: Drained<T>)
    ensures var f := DrainKey(queues, key, outcomes, t);
            && QueueOf(f.queues, key) == d.left && f.attempts == d.attempts && f.removals == Tagged(key, d.removals)
            && forall k | k != key :: QueueOf(f.queues, k) == QueueOf(queues, k)
    ensures IsDrained(Share(QueueOf(queues, key), d, t), outcomes)
  {
    d := Drain(QueueOf(queues, key), outcomes, t);
    DrainConserves(QueueOf(queues, key), outcomes, t);
    DrainIsOneShot(QueueOf(queues, key), outcomes, t);
  }

  // ---------------------------------------------------------------- every attempt succeeds

  ghost predicate AllSucceed(outcomes: Outcomes, t: nat) {
    forall j: nat | j >= t :: outcomes(j) == Published
  }

  /** In a message of its own, not too large and not empty. */
  predicate WellSent<T>(r: Removal<T>) {
    r.published && 0 < |r.batch| <= 50
  }

  lemma {:induction false} DrainEmpties<T>(q: seq<T>, outcomes: Outcomes, t: nat)
    requires AllSucceed(outcomes, t)
    ensures var d := Drain(q, outcomes, t);
            d.left == [] && d.attempts >= t && forall r | r in d.removals :: WellSent(r)
  {
    EverythingPublished(q, outcomes, t);
    DrainIsOneShot(q, outcomes, t);
  }

  ghost predicate AllWellSent<T(!new)>(removals: seq<KeyedRemoval<T>>) {
    forall r | r in removals :: WellSent(r.removal)
  }

  lemma DrainKeyEmpties<T(!new)>(queues: Queues<T>, key: string, outcomes: Outcomes, t: nat)
    requires AllSucceed(outcomes, t)
    ensures var f := DrainKey(queues, key, outcomes, t);
            && QueueOf(f.queues, key) == [] && f.attempts >= t && AllWellSent(f.removals)
            && forall k | k != key :: QueueOf(f.queues, k) == QueueOf(queues, k)
  {
    var d := Drain(QueueOf(queues, key), outcomes, t);
    DrainEmpties(QueueOf(queues, key), outcomes, t);
    forall r | r in Tagged(key, d.removals)
      ensures WellSent(r.removal)
    {
      var i :| 0 <= i < |d.removals| && Tagged(key, d.removals)[i] == r;
      assert d.removals[i] in d.removals;
    }
  }

  /** With every attempt successful, each key of the pass ends up empty and each message is well sent. */
  lemma {:induction false} FlushEmpties<T(!new)>(queues: Queues<T>, keys: seq<string>, outcomes: Outcomes, t: nat)
    requires AllSucceed(outcomes, t)
    ensures var f := Flush(queues, keys, outcomes, t);
            && (forall k | k in keys :: QueueOf(f.queues, k) == [])
            && f.attempts >= t && AllWellSent(f.removals)
  {
    if keys != [] {
      var init, key := keys[..|keys| - 1], keys[|keys| - 1];
      FlushEmpties(queues, init, outcomes, t);
      var f := Flush(queues, init, outcomes, t);
      DrainKeyEmpties(f.queues, key, outcomes, f.attempts);
      assert forall k | k in keys :: k in init || k == key;
    }
  }
}
