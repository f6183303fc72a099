/**
  Store and forward of readings and alarms (src/service/data/DataService.cpp). The SDK's
  persistence is a FIFO queue a key: a fetch returns the first items, a removal drops as many
  from the front, or all there are. Whether a batch can be encoded and whether it is
  published is the environment's choice, batch by batch.
*/
module DataPublishing {
  import opened Bytes

  const PUBLISH_BATCH_ITEMS_COUNT: nat := 50

  /** What becomes of an attempt to send one batch. */
  datatype Attempt = Published | NotPublished | NotEncodable

  /** The outcome of every attempt, counted from the start. */
  type Outcomes = nat -> Attempt

  /** A batch taken out of a queue, after publishing it or because no message could be made. */
  datatype Removal<T> = Removal(published: bool, batch: seq<T>)

  datatype KeyedRemoval<T> = KeyedRemoval(key: string, removal: Removal<T>)

  type Queues<T> = map<string, seq<T>>

  function QueueOf<T>(queues: Queues<T>, key: string): (q: seq<T>) {
    if key in queues then queues[key] else []
  }

  function Fetched<T>(q: seq<T>, count: nat): (batch: seq<T>) {
    q[..Min(count, |q|)]
  }

  function Removed<T>(q: seq<T>, count: nat): (rest: seq<T>) {
    q[Min(count, |q|)..]
  }

  // ---------------------------------------------------------------- one key

  datatype Drained<T> = Drained(left: seq<T>, removals: seq<Removal<T>>, attempts: nat)

  /** The drain of one queue, starting with attempt t. */
  function Drain<T>(q: seq<T>, outcomes: Outcomes, t: nat): (d: Drained<T>)
    decreases |q|
  {
    if q == [] then Drained(q, [], t)
    else
      var batch, rest := Fetched(q, PUBLISH_BATCH_ITEMS_COUNT), Removed(q, PUBLISH_BATCH_ITEMS_COUNT);
      match outcomes(t)
      case NotEncodable => Drained(rest, [Removal(false, batch)], t + 1)
      case NotPublished => Drained(q, [], t + 1)
      case Published =>
        var more := Drain(rest, outcomes, t + 1);
        Drained(more.left, [Removal(true, batch)] + more.removals, more.attempts)
  }

  function Items<T>(removals: seq<Removal<T>>): (items: seq<T>) {
    if removals == [] then [] else removals[0].batch + Items(removals[1..])
  }

  lemma ItemsCons<T>(r: Removal<T>, rs: seq<Removal<T>>)
    ensures Items([r] + rs) == r.batch + Items(rs)
  {
    assert ([r] + rs)[1..] == rs;
  }

  lemma ConcatAssociates<T>(a: seq<T>, b: seq<T>, c: seq<T>)
    ensures (a + b) + c == a + (b + c)
  {
  }

  lemma FetchedAndRemoved<T>(q: seq<T>, count: nat)
    ensures Fetched(q, count) + Removed(q, count) == q
  {
  }

  /** Nothing is lost, duplicated or reordered by a drain. */
  lemma {:induction false} DrainConserves<T>(q: seq<T>, outcomes: Outcomes, t: nat)
    ensures Items(Drain(q, outcomes, t).removals) + Drain(q, outcomes, t).left == q
    decreases |q|
  {
    if q != [] {
      var batch, rest := Fetched(q, PUBLISH_BATCH_ITEMS_COUNT), Removed(q, PUBLISH_BATCH_ITEMS_COUNT);
      FetchedAndRemoved(q, PUBLISH_BATCH_ITEMS_COUNT);
      if outcomes(t) == Published {
        var more := Drain(rest, outcomes, t + 1);
        DrainConserves(rest, outcomes, t + 1);
        ItemsCons(Removal(true, batch), more.removals);
        ConcatAssociates(batch, Items(more.removals), more.left);
      } else if outcomes(t) == NotEncodable {
        ItemsCons(Removal(false, batch), []);
      }
    }
  }

  /** How many batches a queue of n items makes. */
  function Batches(n: nat): (b: nat) {
    (n + PUBLISH_BATCH_ITEMS_COUNT - 1) / PUBLISH_BATCH_ITEMS_COUNT
  }

  /** Where batch i of n items starts, or the end. */
  function Cut(n: nat, i: nat): (offset: nat)
    ensures offset <= n
  {
    Min(PUBLISH_BATCH_ITEMS_COUNT * i, n)
  }

  function BatchSize(n: nat, i: nat): (size: nat) {
    Cut(n, i + 1) - Cut(n, i)
  }

  /** How many attempts in a row succeed from attempt t on, up to a limit. */
  function Leading(outcomes: Outcomes, t: nat, limit: nat): (k: nat)
    ensures k <= limit
    ensures forall j | t <= j < t + k :: outcomes(j) == Published
    ensures k < limit ==> outcomes(t + k) != Published
    decreases limit
  {
    if limit == 0 || outcomes(t) != Published then 0
    else Leading(outcomes, t + 1, limit - 1) + 1
  }

  /**
    Of n items the first `gone` batches have left, each as full as it can be, and of these the
    first `published` were published.
  */
  ghost predicate IsPiece<T>(n: nat, d: Drained<T>, published: nat, gone: nat) {
    && |d.left| == n - Cut(n, gone)
    && |d.removals| == gone
    && forall i | 0 <= i < gone ::
         d.removals[i].published == (i < published) && |d.removals[i].batch| == BatchSize(n, i)
  }

  /** The drain in one piece: k published batches, then perhaps one that could not be encoded. */
  ghost predicate IsOneShot<T>(n: nat, d: Drained<T>, outcomes: Outcomes, t: nat) {
    var k := Leading(outcomes, t, Batches(n));
    if k == Batches(n) then IsPiece(n, d, k, k) && d.attempts == t + k
    else IsPiece(n, d, k, if outcomes(t + k) == NotEncodable then k + 1 else k) && d.attempts == t + k + 1
  }

  /** How many items are left after the first batch of n. */
  function Later(n: nat): (m: nat) {
    n - Min(PUBLISH_BATCH_ITEMS_COUNT, n)
  }

  lemma OneBatchLess(n: nat)
    requires n > 0
    ensures Batches(n) == Batches(Later(n)) + 1
  {
  }

  lemma LaterCut(n: nat, i: nat)
    ensures Cut(n, i + 1) == Cut(Later(n), i) + Min(PUBLISH_BATCH_ITEMS_COUNT, n)
  {
  }

  lemma PieceUnfolds<T>(n: nat, first: Removal<T>, d: Drained<T>, published: nat, gone: nat)
    requires n > 0 && IsPiece(Later(n), d, published, gone)
    requires first.published && |first.batch| == Min(PUBLISH_BATCH_ITEMS_COUNT, n)
    ensures IsPiece(n, Drained(d.left, [first] + d.removals, d.attempts), published + 1, gone + 1)
  {
    LaterCut(n, gone);
    forall i: nat | i < gone
      ensures BatchSize(n, i + 1) == BatchSize(Later(n), i)
    {
      LaterCut(n, i);
      LaterCut(n, i + 1);
    }
  }

  lemma LeadingUnfolds(outcomes: Outcomes, t: nat, limit: nat)
    ensures Leading(outcomes, t, limit + 1) ==
            if outcomes(t) == Published then Leading(outcomes, t + 1, limit) + 1 else 0
  {
  }

  lemma OneShotUnfolds<T>(n: nat, first: Removal<T>, d: Drained<T>, outcomes: Outcomes, t: nat)
    requires n > 0 && outcomes(t) == Published && IsOneShot(Later(n), d, outcomes, t + 1)
    requires first.published && |first.batch| == Min(PUBLISH_BATCH_ITEMS_COUNT, n)
    ensures IsOneShot(n, Drained(d.left, [first] + d.removals, d.attempts), outcomes, t)
  {
    OneBatchLess(n);
    LeadingUnfolds(outcomes, t, Batches(Later(n)));
    PieceUnfolds(n, first, d, Leading(outcomes, t + 1, Batches(Later(n))), |d.removals|);
  }

  /**
    Recursion batch by batch does what one piece does. With DrainConserves this settles which
    items leave in which message: full batches, except perhaps the last.
  */
  lemma {:induction false} DrainIsOneShot<T>(q: seq<T>, outcomes: Outcomes, t: nat)
    ensures IsOneShot(|q|, Drain(q, outcomes, t), outcomes, t)
    decreases |q|
  {
    if q != [] {
      OneBatchLess(|q|);
      if outcomes(t) == Published {
        var rest := Removed(q, PUBLISH_BATCH_ITEMS_COUNT);
        DrainIsOneShot(rest, outcomes, t + 1);
        OneShotUnfolds(|q|, Removal(true, Fetched(q, PUBLISH_BATCH_ITEMS_COUNT)), Drain(rest, outcomes, t + 1),
                       outcomes, t);
      }
    }
  }

  /** Exactly a prefix of whole batches leaves, in order; the rest stays as it was. */
  lemma PrefixLeaves<T>(q: seq<T>, outcomes: Outcomes, t: nat)
    ensures var d := Drain(q, outcomes, t);
            var gone := Cut(|q|, |d.removals|);
            Items(d.removals) == q[..gone] && d.left == q[gone..]
  {
    var d := Drain(q, outcomes, t);
    DrainConserves(q, outcomes, t);
    DrainIsOneShot(q, outcomes, t);
    var items := Items(d.removals);
    assert |items| + |d.left| == |q|;
    assert (items + d.left)[..|items|] == items && (items + d.left)[|items|..] == d.left;
  }

  lemma BatchSizes(n: nat, i: nat)
    requires i < Batches(n)
    ensures 0 < BatchSize(n, i) <= PUBLISH_BATCH_ITEMS_COUNT
    ensures i + 1 < Batches(n) ==> BatchSize(n, i) == PUBLISH_BATCH_ITEMS_COUNT
  {
  }

  /** With every attempt successful the queue empties in as many messages as it has batches. */
  lemma EverythingPublished<T>(q: seq<T>, outcomes: Outcomes, t: nat)
    requires forall j | t <= j < t + Batches(|q|) :: outcomes(j) == Published
    ensures var d := Drain(q, outcomes, t);
            && d.left == [] && |d.removals| == Batches(|q|)
            && (forall i | 0 <= i < |d.removals| ::
                  && d.removals[i].published && 0 < |d.removals[i].batch| <= 50
                  && (i + 1 < |d.removals| ==> |d.removals[i].batch| == 50))
  {
    DrainIsOneShot(q, outcomes, t);
    assert Leading(outcomes, t, Batches(|q|)) == Batches(|q|);
    forall i: nat | i < Batches(|q|)
      ensures 0 < BatchSize(|q|, i) <= PUBLISH_BATCH_ITEMS_COUNT
      ensures i + 1 < Batches(|q|) ==> BatchSize(|q|, i) == PUBLISH_BATCH_ITEMS_COUNT
    {
      BatchSizes(|q|, i);
    }
  }

  /**
    Fetching and then removing by count is safe only while nothing is added in between:
    exactly when the queue is a full batch already, or nothing is added.
  */
  lemma RemovalByCountNeedsSerialising<T>(q: seq<T>, added: seq<T>)
    ensures Fetched(q, PUBLISH_BATCH_ITEMS_COUNT) + Removed(q + added, PUBLISH_BATCH_ITEMS_COUNT) == q + added
            <==> |q| >= PUBLISH_BATCH_ITEMS_COUNT || added == []
  {
    var batch, rest := Fetched(q, PUBLISH_BATCH_ITEMS_COUNT), Removed(q + added, PUBLISH_BATCH_ITEMS_COUNT);
    if |q| >= PUBLISH_BATCH_ITEMS_COUNT || added == [] {
      assert batch + rest == q + added;
    } else {
      assert |batch + rest| < |q + added|;
    }
  }

  // ---------------------------------------------------------------- all keys

  datatype Flushed<T> = Flushed(queues: Queues<T>, removals: seq<KeyedRemoval<T>>, attempts: nat)

  function Tagged<T>(key: string, removals: seq<Removal<T>>): (r: seq<KeyedRemoval<T>>)
    ensures |r| == |removals|
  {
    seq(|removals|, i requires 0 <= i < |removals| => KeyedRemoval(key, removals[i]))
  }

  function DrainKey<T>(queues: Queues<T>, key: string, outcomes: Outcomes, t: nat): (f: Flushed<T>) {
    var d := Drain(QueueOf(queues, key), outcomes, t);
    Flushed(if key in queues then queues[key := d.left] else queues, Tagged(key, d.removals), d.attempts)
  }

  function Flush<T>(queues: Queues<T>, keys: seq<string>, outcomes: Outcomes, t: nat): (f: Flushed<T>) {
    if keys == [] then Flushed(queues, [], t)
    else
      var before := Flush(queues, keys[..|keys| - 1], outcomes, t);
      var last := DrainKey(before.queues, keys[|keys| - 1], outcomes, before.attempts);
      Flushed(last.queues, before.removals + last.removals, last.attempts)
  }

  /** The items removed under one key, in the order of removal. */
  function ItemsOf<T>(key: string, removals: seq<KeyedRemoval<T>>): (items: seq<T>) {
    if removals == [] then []
    else
      var last := removals[|removals| - 1];
      ItemsOf(key, removals[..|removals| - 1]) + if last.key == key then last.removal.batch else []
  }

  lemma {:induction false} ItemsOfAdds<T>(key: string, a: seq<KeyedRemoval<T>>, b: seq<KeyedRemoval<T>>)
    ensures ItemsOf(key, a + b) == ItemsOf(key, a) + ItemsOf(key, b)
  {
    if b == [] {
      assert a + b == a;
    } else {
      assert (a + b)[..|a + b| - 1] == a + b[..|b| - 1];
      ItemsOfAdds(key, a, b[..|b| - 1]);
    }
  }

  lemma TaggedCons<T>(key: string, r: Removal<T>, rs: seq<Removal<T>>)
    ensures Tagged(key, [r] + rs) == [KeyedRemoval(key, r)] + Tagged(key, rs)
  {
  }

  lemma ItemsOfOne<T>(key: string, k: KeyedRemoval<T>)
    ensures ItemsOf(key, [k]) == if k.key == key then k.removal.batch else []
  {
    assert [k][..0] == [];
  }

  lemma {:induction false} ItemsOfTagged<T>(key: string, other: string, removals: seq<Removal<T>>)
    ensures ItemsOf(key, Tagged(other, removals)) == if key == other then Items(removals) else []
    decreases |removals|
  {
    if removals != [] {
      var first, rest := removals[0], removals[1..];
      assert removals == [first] + rest;
      ItemsOfTagged(key, other, rest);
      TaggedCons(other, first, rest);
      ItemsOfAdds(key, [KeyedRemoval(other, first)], Tagged(other, rest));
      ItemsOfOne(key, KeyedRemoval(other, first));
    }
  }

  lemma DrainKeyConserves<T>(queues: Queues<T>, key: string, other: string, outcomes: Outcomes, t: nat)
    ensures var f := DrainKey(queues, key, outcomes, t);
            ItemsOf(other, f.removals) + QueueOf(f.queues, other) == QueueOf(queues, other)
  {
    DrainConserves(QueueOf(queues, key), outcomes, t);
    ItemsOfTagged(other, key, Drain(QueueOf(queues, key), outcomes, t).removals);
  }

  /** A flush of any keys, in any order and with any outcomes, conserves every queue. */
  lemma {:induction false} FlushConserves<T>(queues: Queues<T>, keys: seq<string>, key: string,
                                             outcomes: Outcomes, t: nat)
    ensures var f := Flush(queues, keys, outcomes, t);
            ItemsOf(key, f.removals) + QueueOf(f.queues, key) == QueueOf(queues, key)
  {
    if keys != [] {
      var before := Flush(queues, keys[..|keys| - 1], outcomes, t);
      var last := DrainKey(before.queues, keys[|keys| - 1], outcomes, before.attempts);
      FlushConserves(queues, keys[..|keys| - 1], key, outcomes, t);
      DrainKeyConserves(before.queues, keys[|keys| - 1], key, outcomes, before.attempts);
      ItemsOfAdds(key, before.removals, last.removals);
      ConcatAssociates(ItemsOf(key, before.removals), ItemsOf(key, last.removals), QueueOf(last.queues, key));
    }
  }

  /** Keys that are not flushed keep their queues. */
  lemma {:induction false} FlushLeavesOthers<T>(queues: Queues<T>, keys: seq<string>, key: string,
                                                outcomes: Outcomes, t: nat)
    requires key !in keys
    ensures QueueOf(Flush(queues, keys, outcomes, t).queues, key) == QueueOf(queues, key)
  {
    if keys != [] {
      FlushLeavesOthers(queues, keys[..|keys| - 1], key, outcomes, t);
    }
  }

  // ---------------------------------------------------------------- the service

  class Persistence<T> {
    var queues: Queues<T>

    constructor ()
      ensures queues == map[]
    {
      queues := map[];
    }

    method Put(key: string, item: T)
      modifies this
      ensures queues == old(queues)[key := QueueOf(old(queues), key) + [item]]
    {
      queues := queues[key := QueueOf(queues, key) + [item]];
    }

    method Get(key: string, count: nat) returns (items: seq<T>)
      ensures items == Fetched(QueueOf(queues, key), count)
    {
      items := Fetched(QueueOf(queues, key), count);
    }

    method Remove(key: string, count: nat)
      modifies this
      ensures queues == if key in old(queues) then old(queues)[key := Removed(old(queues)[key], count)] else old(queues)
    {
      if key in queues {
        queues := queues[key := Removed(queues[key], count)];
      }
    }
  }

  /** Message making and the connection: the outcomes to come, and how many attempts were made. */
  class Sender {
    const outcomes: Outcomes
    var attempts: nat

    constructor (outcomes: Outcomes)
      ensures this.outcomes == outcomes && attempts == 0
    {
      this.outcomes, attempts := outcomes, 0;
    }

    method Send() returns (attempt: Attempt)
      modifies this
      ensures attempt == outcomes(old(attempts)) && attempts == old(attempts) + 1
    {
      attempt := outcomes(attempts);
      attempts := attempts + 1;
    }
  }

  /** publishSensorReadingsForPersistanceKey and publishAlarmsForPersistanceKey. */
  method PublishForKey<T>(persistence: Persistence<T>, sender: Sender, key: string) returns (removals: seq<Removal<T>>)
    modifies persistence, sender
    ensures Drained(QueueOf(persistence.queues, key), removals, sender.attempts)
            == Drain(QueueOf(old(persistence.queues), key), sender.outcomes, old(sender.attempts))
    ensures persistence.queues.Keys == old(persistence.queues).Keys
    ensures forall k | k in persistence.queues && k != key :: persistence.queues[k] == old(persistence.queues)[k]
    decreases |QueueOf(persistence.queues, key)|
  {
    var items := persistence.Get(key, PUBLISH_BATCH_ITEMS_COUNT);
    if items == [] {
      return [];
    }
    var attempt := sender.Send();
    if attempt == NotEncodable {
      persistence.Remove(key, PUBLISH_BATCH_ITEMS_COUNT);
      return [Removal(false, items)];
    }
    if attempt == Published {
      persistence.Remove(key, PUBLISH_BATCH_ITEMS_COUNT);
      var more := PublishForKey(persistence, sender, key);
      return [Removal(true, items)] + more;
    }
    return [];
  }

  /** publishSensorReadings and publishAlarms; keys is what the persistence lists, in its order. */
  method PublishAll<T>(persistence: Persistence<T>, sender: Sender, keys: seq<string>)
    returns (removals: seq<KeyedRemoval<T>>)
    modifies persistence, sender
    ensures Flushed(persistence.queues, removals, sender.attempts)
            == Flush(old(persistence.queues), keys, sender.outcomes, old(sender.attempts))
  {
    removals := [];
    for i := 0 to |keys|
      invariant Flushed(persistence.queues, removals, sender.attempts)
                == Flush(old(persistence.queues), keys[..i], sender.outcomes, old(sender.attempts))
    {
      assert keys[..i + 1][..i] == keys[..i];
      ghost var before := persistence.queues;
      var batches := PublishForKey(persistence, sender, keys[i]);
      ghost var left := QueueOf(persistence.queues, keys[i]);
      assert persistence.queues == if keys[i] in before then before[keys[i] := left] else before;
      removals := removals + Tagged(keys[i], batches);
    }
    assert keys[..|keys|] == keys;
  }
}
