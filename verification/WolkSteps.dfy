/** What the commands of the device facade achieve, in terms of queues and messages alone. */
module WolkSteps {
  import opened DataPublishing
  import opened DataFlush
  import opened WolkMachine
  import opened WolkRuns

  ghost predicate AboutTo(s: State, c: Command) {
    s.commands != [] && s.commands[0] == c
  }

  // ---------------------------------------------------------------- publishing

  ghost predicate AlarmsFirst(effects: seq<Effect>) {
    forall i, j | 0 <= i < j < |effects| && effects[i].ReadingsRemoved? :: !effects[j].AlarmsRemoved?
  }

  function PublishEffects(alarms: seq<KeyedRemoval<Alarm>>, readings: seq<KeyedRemoval<Reading>>)
    : (effects: seq<Effect>)
  {
    [Executed(Publish)] + (AlarmEffects(alarms) + ReadingEffects(readings))
  }

  lemma RemovalsOfPublish(alarms: seq<KeyedRemoval<Alarm>>, readings: seq<KeyedRemoval<Reading>>)
    ensures AlarmRemovals(PublishEffects(alarms, readings)) == alarms
    ensures ReadingRemovals(PublishEffects(alarms, readings)) == readings
  {
    RemovalsOfEffects(readings, alarms);
    RemovalsAdd(AlarmEffects(alarms), ReadingEffects(readings));
    NoRemovals([Executed(Publish)]);
    RemovalsAdd([Executed(Publish)], AlarmEffects(alarms) + ReadingEffects(readings));
    Padded(alarms);
    Padded(readings);
  }

  lemma Padded<T>(xs: seq<T>)
    ensures [] + xs == xs && xs + [] == xs && [] + (xs + []) == xs && [] + ([] + xs) == xs
  {
  }

  lemma OrderOfPublish(alarms: seq<KeyedRemoval<Alarm>>, readings: seq<KeyedRemoval<Reading>>)
    ensures AlarmsFirst(PublishEffects(alarms, readings))
  {
    var effects := PublishEffects(alarms, readings);
    forall i | 0 <= i < |effects|
      ensures effects[i].ReadingsRemoved? ==> i > |alarms|
      ensures effects[i].AlarmsRemoved? ==> i <= |alarms|
    {
      if 0 < i <= |alarms| {
        assert effects[i] == AlarmEffects(alarms)[i - 1];
      } else if i > |alarms| {
        assert effects[i] == ReadingEffects(readings)[i - 1 - |alarms|];
      }
    }
  }

  lemma PublishRuns(setup: Setup, s: State, now: Conditions)
    returns (a: Flushed<Alarm>, r: Flushed<Reading>)
    requires AboutTo(s, Publish)
    ensures a == Flush(s.alarms, now.alarmKeys, setup.outcomes, s.attempts)
    ensures r == Flush(s.readings, now.readingKeys, setup.outcomes, a.attempts)
    ensures var o := Step(setup, s, Execute(now));
            && o.state == State(s.commands[1..], r.queues, a.queues, r.attempts)
            && AlarmRemovals(o.calls) == a.removals && ReadingRemovals(o.calls) == r.removals
            && AlarmsFirst(o.calls)
  {
    a := Flush(s.alarms, now.alarmKeys, setup.outcomes, s.attempts);
    r := Flush(s.readings, now.readingKeys, setup.outcomes, a.attempts);
    RemovalsOfPublish(a.removals, r.removals);
    OrderOfPublish(a.removals, r.removals);
    assert Step(setup, s, Execute(now)).calls == PublishEffects(a.removals, r.removals);
  }

  /**
    Whatever becomes of the attempts: a publish command drains the queues of the listed keys one
    after the other, alarms before readings, each with its own attempts and as far as these
    succeed in a row, and sends what it takes. It touches nothing else.
  */
  lemma PublishDrainsEachKey(setup: Setup, s: State, now: Conditions)
    returns (alarms: seq<Share<Alarm>>, readings: seq<Share<Reading>>, mid: nat)
    requires AboutTo(s, Publish) && Distinct(now.alarmKeys) && Distinct(now.readingKeys)
    ensures var o := Step(setup, s, Execute(now));
            && IsPass(s.alarms, o.state.alarms, now.alarmKeys, s.attempts, mid, AlarmRemovals(o.calls), alarms)
            && IsPass(s.readings, o.state.readings, now.readingKeys, mid, o.state.attempts,
                      ReadingRemovals(o.calls), readings)
            && AlarmsFirst(o.calls) && o.state.commands == s.commands[1..]
    ensures AllDrained(alarms, setup.outcomes) && AllDrained(readings, setup.outcomes)
  {
    var a, r := PublishRuns(setup, s, now);
    alarms := FlushIsPass(s.alarms, now.alarmKeys, setup.outcomes, s.attempts);
    readings := FlushIsPass(s.readings, now.readingKeys, setup.outcomes, a.attempts);
    mid := a.attempts;
  }

  /**
    If every attempt succeeds, a publish command leaves no alarm and no reading of the listed
    keys behind: all of them are sent, in order, in messages of one to fifty items, the alarms
    before the readings.
  */
  lemma PublishSendsEverything(setup: Setup, s: State, now: Conditions)
    requires AboutTo(s, Publish) && AllSucceed(setup.outcomes, s.attempts)
    ensures var o := Step(setup, s, Execute(now));
            && (forall k | k in now.alarmKeys ::
                  QueueOf(o.state.alarms, k) == [] && ItemsOf(k, AlarmRemovals(o.calls)) == QueueOf(s.alarms, k))
            && (forall k | k in now.readingKeys ::
                  QueueOf(o.state.readings, k) == [] && ItemsOf(k, ReadingRemovals(o.calls)) == QueueOf(s.readings, k))
            && AllWellSent(AlarmRemovals(o.calls)) && AllWellSent(ReadingRemovals(o.calls))
            && AlarmsFirst(o.calls)
  {
    var a, r := PublishRuns(setup, s, now);
    FlushEmpties(s.alarms, now.alarmKeys, setup.outcomes, s.attempts);
    FlushEmpties(s.readings, now.readingKeys, setup.outcomes, a.attempts);
    forall k
      ensures ItemsOf(k, a.removals) + QueueOf(a.queues, k) == QueueOf(s.alarms, k)
      ensures ItemsOf(k, r.removals) + QueueOf(r.queues, k) == QueueOf(s.readings, k)
    {
      FlushConserves(s.alarms, now.alarmKeys, k, setup.outcomes, s.attempts);
      FlushConserves(s.readings, now.readingKeys, k, setup.outcomes, a.attempts);
    }
  }

  // ---------------------------------------------------------------- connecting

  /**
    A successful connect queues, behind all waiting commands, the status of each actuator in
    the order of the device, then the configuration, then a publish. A failed one queues itself.
  */
  lemma ConnectQueues(setup: Setup, s: State, firstTime: bool, now: Conditions)
    requires AboutTo(s, TryConnect(firstTime))
    ensures var t := Step(setup, s, Execute(now)).state;
            var waiting, n := s.commands[1..], |setup.actuators|;
            if now.connects then
              && |t.commands| == |waiting| + n + 2
              && waiting <= t.commands
              && (forall i | 0 <= i < n :: t.commands[|waiting| + i] == PublishActuatorStatus(setup.actuators[i]))
              && t.commands[|waiting| + n] == PublishConfiguration
              && t.commands[|waiting| + n + 1] == Publish
            else t.commands == waiting + [TryConnect(false)]
    ensures var t := Step(setup, s, Execute(now)).state;
            t.readings == s.readings && t.alarms == s.alarms && t.attempts == s.attempts
  {
  }

  /** The order of what is done on a connection, for the services there are. */
  lemma ConnectIsAnnounced(setup: Setup, s: State, firstTime: bool, now: Conditions)
    requires AboutTo(s, TryConnect(firstTime)) && now.connects
    ensures var n, all := |setup.actuators|, setup.services;
            Step(setup, s, Execute(now)).calls ==
            [Executed(TryConnect(firstTime))] +
            ([Connected]
             + (if KeepAlive in all then [Told(KeepAlive)] else [])
             + (if Firmware in all then [Told(Firmware)] else [])
             + seq(n + 1, i requires 0 <= i <= n =>
                     if i < n then Issued(PublishActuatorStatus(setup.actuators[i])) else Issued(PublishConfiguration))
             + (if Files in all then [Told(Files)] else [])
             + [Issued(Publish)])
  {
    var statuses, n := StatusCommands(setup) + [PublishConfiguration], |setup.actuators|;
    assert IssuedAll(statuses) == seq(n + 1, i requires 0 <= i <= n =>
        if i < n then Issued(PublishActuatorStatus(setup.actuators[i])) else Issued(PublishConfiguration));
  }
}
