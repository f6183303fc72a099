/** What the command queue guarantees over every run of calls and executions. */
module WolkRuns {
  import opened Machine
  import opened DataPublishing
  import opened WolkMachine

  // ---------------------------------------------------------------- FIFO

  /** The commands issued, or executed, in order. */
  function Commands(effects: seq<Effect>, executed: bool): (commands: seq<Command>) {
    if effects == [] then []
    else
      var last := effects[|effects| - 1];
      Commands(effects[..|effects| - 1], executed)
      + (match last
         case Issued(c) => if executed then [] else [c]
         case Executed(c) => if executed then [c] else []
         case _ => [])
  }

  lemma {:induction false} CommandsAdd(a: seq<Effect>, b: seq<Effect>, executed: bool)
    ensures Commands(a + b, executed) == Commands(a, executed) + Commands(b, executed)
  {
    if b == [] {
      assert a + b == a;
    } else {
      assert (a + b)[..|a + b| - 1] == a + b[..|b| - 1];
      CommandsAdd(a, b[..|b| - 1], executed);
    }
  }

  lemma {:induction false} CommandsOfIssued(commands: seq<Command>)
    ensures Commands(IssuedAll(commands), false) == commands
    ensures Commands(IssuedAll(commands), true) == []
  {
    if commands != [] {
      var init := commands[..|commands| - 1];
      CommandsOfIssued(init);
      assert IssuedAll(commands)[..|commands| - 1] == IssuedAll(init);
    }
  }

  lemma {:induction false} NoCommands(effects: seq<Effect>, executed: bool)
    requires forall e | e in effects :: !e.Issued? && !e.Executed?
    ensures Commands(effects, executed) == []
  {
    if effects != [] {
      NoCommands(effects[..|effects| - 1], executed);
      assert effects[|effects| - 1] in effects;
    }
  }

  lemma CommandsOfOne(e: Effect, executed: bool)
    ensures Commands([e], executed) == if e.Issued? && !executed then [e.command]
                                       else if e.Executed? && executed then [e.command] else []
  {
    assert [e][..0] == [];
  }

  lemma CommandsOnConnected(setup: Setup)
    ensures Commands(ConnectedEffects(setup), true) == []
    ensures Commands(ConnectedEffects(setup), false) == OnConnected(setup)
  {
    var heard, statuses := Heard(setup), StatusCommands(setup) + [PublishConfiguration];
    NoCommandsHeard(setup, true);
    NoCommandsHeard(setup, false);
    CommandsOfIssued(statuses);
    CommandsOfParts(heard, IssuedAll(statuses), Tell(setup, Files), Issued(Publish), true);
    CommandsOfParts(heard, IssuedAll(statuses), Tell(setup, Files), Issued(Publish), false);
    Surrounded<Command>([], []);
    Surrounded(statuses, [Publish]);
  }

  function Heard(setup: Setup): (effects: seq<Effect>) {
    [Connected] + Tell(setup, KeepAlive) + Tell(setup, Firmware)
  }

  lemma NoCommandsHeard(setup: Setup, executed: bool)
    ensures Commands(Heard(setup), executed) == [] && Commands(Tell(setup, Files), executed) == []
  {
    NoCommands(Heard(setup), executed);
    NoCommands(Tell(setup, Files), executed);
  }

  lemma Surrounded<T>(b: seq<T>, d: seq<T>)
    ensures [] + b + [] + d == b + d
  {
  }

  lemma CommandsOfParts(a: seq<Effect>, b: seq<Effect>, c: seq<Effect>, e: Effect, executed: bool)
    ensures Commands(a + b + c + [e], executed)
         == Commands(a, executed) + Commands(b, executed) + Commands(c, executed) + Commands([e], executed)
    ensures Commands([e], executed) == if e.Issued? && !executed then [e.command]
                                       else if e.Executed? && executed then [e.command] else []
  {
    CommandsAdd(a, b, executed);
    CommandsAdd(a + b, c, executed);
    CommandsAdd(a + b + c, [e], executed);
    CommandsOfOne(e, executed);
  }

  lemma CommandsOfPublish(setup: Setup, s: State, now: Conditions)
    ensures Commands(PublishData(setup, s, now).calls, true) == []
    ensures Commands(PublishData(setup, s, now).calls, false) == []
    ensures PublishData(setup, s, now).state.commands == s.commands
  {
    NoCommands(PublishData(setup, s, now).calls, true);
    NoCommands(PublishData(setup, s, now).calls, false);
  }

  /** Performing a command executes no other, and pushes what it issues at the end. */
  lemma PerformQueues(setup: Setup, s: State, c: Command, now: Conditions)
    ensures var o := Perform(setup, s, c, now);
            && Commands(o.calls, true) == []
            && o.state.commands == s.commands + Commands(o.calls, false)
  {
    match c
    case Publish => CommandsOfPublish(setup, s, now);
    case TryConnect(_) =>
      CommandsOnConnected(setup);
      CommandsOfOne(Issued(TryConnect(false)), true);
      CommandsOfOne(Issued(TryConnect(false)), false);
    case _ =>
  }

  lemma ExecutedFirst(head: Command, effects: seq<Effect>, waiting: seq<Command>, left: seq<Command>)
    requires Commands(effects, true) == [] && left == waiting + Commands(effects, false)
    ensures Commands([Executed(head)] + effects, true) == [head]
    ensures [head] + left == ([head] + waiting) + Commands([Executed(head)] + effects, false)
  {
    CommandsOfOne(Executed(head), true);
    CommandsOfOne(Executed(head), false);
    CommandsAdd([Executed(head)], effects, true);
    CommandsAdd([Executed(head)], effects, false);
  }

  lemma StepQueues(setup: Setup, s: State, e: Event)
    ensures var o := Step(setup, s, e);
            && Commands(o.calls, true) + o.state.commands == s.commands + Commands(o.calls, false)
            && Commands(o.calls, true) == if e.Execute? && s.commands != [] then [s.commands[0]] else []
  {
    match e
    case Call(c) =>
      CommandsOfOne(Issued(c), true);
      CommandsOfOne(Issued(c), false);
    case Execute(now) =>
      if s.commands != [] {
        var head, rest := s.commands[0], s.(commands := s.commands[1..]);
        PerformQueues(setup, rest, head, now);
        var o := Perform(setup, rest, head, now);
        ExecutedFirst(head, o.calls, rest.commands, o.state.commands);
        assert [head] + rest.commands == s.commands;
      }
  }

  /**
    In every run the commands issued are, in order, those executed and then those waiting:
    each runs exactly once, in the order of its push, whatever the network does.
  */
  lemma {:induction false} EveryCommandRunsOnceInOrder(setup: Setup, es: seq<Event>)
    ensures Commands(Effects(setup, es), false) == Commands(Effects(setup, es), true) + After(setup, es).commands
  {
    if es != [] {
      var init, e := es[..|es| - 1], es[|es| - 1];
      EveryCommandRunsOnceInOrder(setup, init);
      var before := Run(Steps(setup), INITIAL, init);
      var o := Step(setup, before.state, e);
      StepQueues(setup, before.state, e);
      CommandsAdd(before.calls, o.calls, true);
      CommandsAdd(before.calls, o.calls, false);
      QueueArithmetic(Commands(before.calls, true), before.state.commands,
                      Commands(o.calls, true), o.state.commands, Commands(o.calls, false));
    }
  }

  lemma QueueArithmetic(done: seq<Command>, waiting: seq<Command>, more: seq<Command>, left: seq<Command>,
                        issued: seq<Command>)
    requires more + left == waiting + issued
    ensures (done + waiting) + issued == (done + more) + left
  {
    assert (done + waiting) + issued == done + (waiting + issued);
    assert (done + more) + left == done + (more + left);
  }

  ghost predicate OnlyExecutes(es: seq<Event>) {
    forall e | e in es :: e.Execute?
  }

  lemma QueueAdvances(waiting: seq<Command>, now: seq<Command>, later: seq<Command>, issued: seq<Command>, n: nat)
    requires n < |waiting| && waiting[n..] <= now
    requires [now[0]] + later == now + issued
    ensures now[0] == waiting[n] && waiting[n + 1..] <= later
    ensures waiting[..n] + [waiting[n]] == waiting[..n + 1]
  {
    assert waiting[n..][0] == waiting[n];
    assert later == now[1..] + issued by {
      assert ([now[0]] + later)[1..] == later && (now + issued)[1..] == now[1..] + issued;
    }
    assert waiting[n + 1..] == waiting[n..][1..];
  }

  /** As many executions as commands wait run exactly those, in order; retries queue up behind them. */
  lemma {:induction false} WaitingCommandsRunNext(setup: Setup, s: State, es: seq<Event>)
    requires OnlyExecutes(es) && |es| <= |s.commands|
    ensures Commands(Run(Steps(setup), s, es).calls, true) == s.commands[..|es|]
    ensures s.commands[|es|..] <= Run(Steps(setup), s, es).state.commands
  {
    if es != [] {
      var init, e := es[..|es| - 1], es[|es| - 1];
      assert e in es;
      WaitingCommandsRunNext(setup, s, init);
      var before := Run(Steps(setup), s, init);
      var o := Step(setup, before.state, e);
      StepQueues(setup, before.state, e);
      CommandsAdd(before.calls, o.calls, true);
      QueueAdvances(s.commands, before.state.commands, o.state.commands, Commands(o.calls, false), |init|);
    }
  }

  // ---------------------------------------------------------------- connecting

  function Connects(commands: seq<Command>): (n: nat) {
    if commands == [] then 0
    else Connects(commands[..|commands| - 1]) + if commands[|commands| - 1].TryConnect? then 1 else 0
  }

  lemma {:induction false} ConnectsAdd(a: seq<Command>, b: seq<Command>)
    ensures Connects(a + b) == Connects(a) + Connects(b)
  {
    if b == [] {
      assert a + b == a;
    } else {
      assert (a + b)[..|a + b| - 1] == a + b[..|b| - 1];
      ConnectsAdd(a, b[..|b| - 1]);
    }
  }

  lemma ConnectsOfOne(c: Command)
    ensures Connects([c]) == if c.TryConnect? then 1 else 0
  {
    assert [c][..0] == [];
  }

  lemma {:induction false} NoConnects(commands: seq<Command>)
    requires forall c | c in commands :: !c.TryConnect?
    ensures Connects(commands) == 0
  {
    if commands != [] {
      NoConnects(commands[..|commands| - 1]);
      assert commands[|commands| - 1] in commands;
    }
  }

  function Connections(effects: seq<Effect>): (n: nat) {
    if effects == [] then 0
    else Connections(effects[..|effects| - 1]) + if effects[|effects| - 1].Connected? then 1 else 0
  }

  lemma {:induction false} ConnectionsAdd(a: seq<Effect>, b: seq<Effect>)
    ensures Connections(a + b) == Connections(a) + Connections(b)
  {
    if b == [] {
      assert a + b == a;
    } else {
      assert (a + b)[..|a + b| - 1] == a + b[..|b| - 1];
      ConnectionsAdd(a, b[..|b| - 1]);
    }
  }

  lemma {:induction false} NoConnections(effects: seq<Effect>)
    requires forall e | e in effects :: !e.Connected?
    ensures Connections(effects) == 0
  {
    if effects != [] {
      NoConnections(effects[..|effects| - 1]);
      assert effects[|effects| - 1] in effects;
    }
  }

  /** The calls of connect among the events. */
  function ConnectCalls(es: seq<Event>): (n: nat) {
    if es == [] then 0
    else
      var e := es[|es| - 1];
      ConnectCalls(es[..|es| - 1]) + if e.Call? && e.command.TryConnect? then 1 else 0
  }

  lemma OneConnection(setup: Setup)
    ensures Connections(ConnectedEffects(setup)) == 1
  {
    var issued := IssuedAll(StatusCommands(setup) + [PublishConfiguration]);
    var a, b, c := Tell(setup, KeepAlive), Tell(setup, Firmware), Tell(setup, Files);
    assert Connections([Connected]) == 1 by {
      assert [Connected][..0] == [];
    }
    NoConnections(a);
    NoConnections(b);
    NoConnections(issued);
    NoConnections(c);
    NoConnections([Issued(Publish)]);
    ConnectionsAdd([Connected], a);
    ConnectionsAdd([Connected] + a, b);
    ConnectionsAdd([Connected] + a + b, issued);
    ConnectionsAdd([Connected] + a + b + issued, c);
    ConnectionsAdd([Connected] + a + b + issued + c, [Issued(Publish)]);
  }

  lemma PerformConnects(setup: Setup, s: State, c: Command, now: Conditions)
    ensures var o := Perform(setup, s, c, now);
            Connects(o.state.commands) + Connections(o.calls) == Connects(s.commands) + if c.TryConnect? then 1 else 0
  {
    var o := Perform(setup, s, c, now);
    if c.TryConnect? {
      if now.connects {
        var more := OnConnected(setup);
        NoConnects(more);
        ConnectsAdd(s.commands, more);
        OneConnection(setup);
      } else {
        ConnectsAdd(s.commands, [TryConnect(false)]);
        ConnectsOfOne(TryConnect(false));
        NoConnections(o.calls);
      }
    } else {
      NoConnections(o.calls);
    }
  }

  lemma StepConnects(setup: Setup, s: State, e: Event)
    ensures var o := Step(setup, s, e);
            Connects(o.state.commands) + Connections(o.calls)
            == Connects(s.commands) + if e.Call? && e.command.TryConnect? then 1 else 0
  {
    match e
    case Call(c) =>
      ConnectsAdd(s.commands, [c]);
      ConnectsOfOne(c);
      NoConnections([Issued(c)]);
    case Execute(now) =>
      if s.commands != [] {
        var head, rest := s.commands[0], s.(commands := s.commands[1..]);
        assert s.commands == [head] + rest.commands;
        ConnectsAdd([head], rest.commands);
        ConnectsOfOne(head);
        PerformConnects(setup, rest, head, now);
        NoConnections([Executed(head)]);
        ConnectionsAdd([Executed(head)], Perform(setup, rest, head, now).calls);
      }
  }

  /** Connect attempts waiting, plus connections made, are always as many as the calls of connect. */
  lemma {:induction false} ConnectsAreConserved(setup: Setup, es: seq<Event>)
    ensures Connects(After(setup, es).commands) + Connections(Effects(setup, es)) == ConnectCalls(es)
  {
    if es != [] {
      var init, e := es[..|es| - 1], es[|es| - 1];
      ConnectsAreConserved(setup, init);
      var before := Run(Steps(setup), INITIAL, init);
      StepConnects(setup, before.state, e);
      ConnectionsAdd(before.calls, Step(setup, before.state, e).calls);
    }
  }

  /** How often a service has heard of a connection. */
  function Tells(effects: seq<Effect>, service: Service): (n: nat) {
    if effects == [] then 0
    else Tells(effects[..|effects| - 1], service) + if effects[|effects| - 1] == Told(service) then 1 else 0
  }

  lemma {:induction false} TellsAdd(a: seq<Effect>, b: seq<Effect>, service: Service)
    ensures Tells(a + b, service) == Tells(a, service) + Tells(b, service)
  {
    if b == [] {
      assert a + b == a;
    } else {
      assert (a + b)[..|a + b| - 1] == a + b[..|b| - 1];
      TellsAdd(a, b[..|b| - 1], service);
    }
  }

  lemma {:induction false} NoTells(effects: seq<Effect>, service: Service)
    requires forall e | e in effects :: !e.Told?
    ensures Tells(effects, service) == 0
  {
    if effects != [] {
      NoTells(effects[..|effects| - 1], service);
      assert effects[|effects| - 1] in effects;
    }
  }

  lemma TellsOfTell(setup: Setup, told: Service, service: Service)
    ensures Tells(Tell(setup, told), service) == if told == service && service in setup.services then 1 else 0
  {
    assert [Told(told)][..0] == [];
  }

  lemma ConnectionTellsOnce(setup: Setup, service: Service)
    ensures Tells(ConnectedEffects(setup), service) == if service in setup.services then 1 else 0
  {
    var issued := IssuedAll(StatusCommands(setup) + [PublishConfiguration]);
    var a, b, c := Tell(setup, KeepAlive), Tell(setup, Firmware), Tell(setup, Files);
    NoTells([Connected], service);
    NoTells(issued, service);
    NoTells([Issued(Publish)], service);
    TellsOfTell(setup, KeepAlive, service);
    TellsOfTell(setup, Firmware, service);
    TellsOfTell(setup, Files, service);
    TellsAdd([Connected], a, service);
    TellsAdd([Connected] + a, b, service);
    TellsAdd([Connected] + a + b, issued, service);
    TellsAdd([Connected] + a + b + issued, c, service);
    TellsAdd([Connected] + a + b + issued + c, [Issued(Publish)], service);
  }

  lemma PerformTells(setup: Setup, s: State, c: Command, now: Conditions, service: Service)
    ensures var o := Perform(setup, s, c, now);
            Tells(o.calls, service) == if service in setup.services then Connections(o.calls) else 0
  {
    var o := Perform(setup, s, c, now);
    if c.TryConnect? && now.connects {
      ConnectionTellsOnce(setup, service);
      OneConnection(setup);
    } else {
      NoTells(o.calls, service);
      NoConnections(o.calls);
    }
  }

  lemma StepTells(setup: Setup, s: State, e: Event, service: Service)
    ensures var o := Step(setup, s, e);
            Tells(o.calls, service) == if service in setup.services then Connections(o.calls) else 0
  {
    match e
    case Call(c) =>
      NoTells([Issued(c)], service);
      NoConnections([Issued(c)]);
    case Execute(now) =>
      if s.commands != [] {
        var head, rest := s.commands[0], s.(commands := s.commands[1..]);
        var o := Perform(setup, rest, head, now);
        PerformTells(setup, rest, head, now, service);
        NoTells([Executed(head)], service);
        NoConnections([Executed(head)]);
        TellsAdd([Executed(head)], o.calls, service);
        ConnectionsAdd([Executed(head)], o.calls);
      }
  }

  /** Each connection is told once to each service there is: one firmware verdict is sought a connection. */
  lemma {:induction false} EachConnectionIsToldOnce(setup: Setup, es: seq<Event>, service: Service)
    ensures var effects := Effects(setup, es);
            Tells(effects, service) == if service in setup.services then Connections(effects) else 0
  {
    if es != [] {
      var init, e := es[..|es| - 1], es[|es| - 1];
      EachConnectionIsToldOnce(setup, init, service);
      var before := Run(Steps(setup), INITIAL, init);
      var o := Step(setup, before.state, e);
      StepTells(setup, before.state, e, service);
      TellsAdd(before.calls, o.calls, service);
      ConnectionsAdd(before.calls, o.calls);
    }
  }

  // ---------------------------------------------------------------- readings and alarms

  /** The readings added under a key by these commands. */
  function ReadingsIn(commands: seq<Command>, key: string): (items: seq<Reading>) {
    if commands == [] then []
    else
      var last := commands[|commands| - 1];
      ReadingsIn(commands[..|commands| - 1], key)
      + if last.AddReading? && last.reference == key then [last.reading] else []
  }

  function AlarmsIn(commands: seq<Command>, key: string): (items: seq<Alarm>) {
    if commands == [] then []
    else
      var last := commands[|commands| - 1];
      AlarmsIn(commands[..|commands| - 1], key)
      + if last.AddAlarm? && last.reference == key then [last.alarm] else []
  }

  function ReadingRemovals(effects: seq<Effect>): (removals: seq<KeyedRemoval<Reading>>) {
    if effects == [] then []
    else
      var last := effects[|effects| - 1];
      ReadingRemovals(effects[..|effects| - 1]) + if last.ReadingsRemoved? then [last.reading] else []
  }

  function AlarmRemovals(effects: seq<Effect>): (removals: seq<KeyedRemoval<Alarm>>) {
    if effects == [] then []
    else
      var last := effects[|effects| - 1];
      AlarmRemovals(effects[..|effects| - 1]) + if last.AlarmsRemoved? then [last.alarm] else []
  }

  lemma {:induction false} ItemsInAdd(a: seq<Command>, b: seq<Command>, key: string)
    ensures ReadingsIn(a + b, key) == ReadingsIn(a, key) + ReadingsIn(b, key)
    ensures AlarmsIn(a + b, key) == AlarmsIn(a, key) + AlarmsIn(b, key)
  {
    if b == [] {
      assert a + b == a;
    } else {
      assert (a + b)[..|a + b| - 1] == a + b[..|b| - 1];
      ItemsInAdd(a, b[..|b| - 1], key);
    }
  }

  lemma {:induction false} RemovalsAdd(a: seq<Effect>, b: seq<Effect>)
    ensures ReadingRemovals(a + b) == ReadingRemovals(a) + ReadingRemovals(b)
    ensures AlarmRemovals(a + b) == AlarmRemovals(a) + AlarmRemovals(b)
  {
    if b == [] {
      assert a + b == a;
    } else {
      assert (a + b)[..|a + b| - 1] == a + b[..|b| - 1];
      RemovalsAdd(a, b[..|b| - 1]);
    }
  }

  lemma {:induction false} RemovalsOfEffects(readings: seq<KeyedRemoval<Reading>>, alarms: seq<KeyedRemoval<Alarm>>)
    ensures ReadingRemovals(ReadingEffects(readings)) == readings && AlarmRemovals(ReadingEffects(readings)) == []
    ensures AlarmRemovals(AlarmEffects(alarms)) == alarms && ReadingRemovals(AlarmEffects(alarms)) == []
    decreases |readings| + |alarms|
  {
    if readings != [] {
      RemovalsOfEffects(readings[..|readings| - 1], []);
      assert ReadingEffects(readings)[..|readings| - 1] == ReadingEffects(readings[..|readings| - 1]);
    }
    if alarms != [] {
      RemovalsOfEffects([], alarms[..|alarms| - 1]);
      assert AlarmEffects(alarms)[..|alarms| - 1] == AlarmEffects(alarms[..|alarms| - 1]);
    }
  }

  lemma {:induction false} NoRemovals(effects: seq<Effect>)
    requires forall e | e in effects :: !e.ReadingsRemoved? && !e.AlarmsRemoved?
    ensures ReadingRemovals(effects) == [] && AlarmRemovals(effects) == []
  {
    if effects != [] {
      NoRemovals(effects[..|effects| - 1]);
      assert effects[|effects| - 1] in effects;
    }
  }

  /** What has left the queue of a key, and then what is in it. */
  ghost function ReadingsOut(key: string, effects: seq<Effect>, s: State): (items: seq<Reading>) {
    ItemsOf(key, ReadingRemovals(effects)) + QueueOf(s.readings, key)
  }

  ghost function AlarmsOut(key: string, effects: seq<Effect>, s: State): (items: seq<Alarm>) {
    ItemsOf(key, AlarmRemovals(effects)) + QueueOf(s.alarms, key)
  }

  lemma ItemsInOne(c: Command, key: string)
    ensures ReadingsIn([c], key) == if c.AddReading? && c.reference == key then [c.reading] else []
    ensures AlarmsIn([c], key) == if c.AddAlarm? && c.reference == key then [c.alarm] else []
  {
    assert [c][..0] == [];
  }

  lemma NothingOut(key: string, effects: seq<Effect>, s: State)
    requires forall e | e in effects :: !e.ReadingsRemoved? && !e.AlarmsRemoved?
    ensures ReadingsOut(key, effects, s) == QueueOf(s.readings, key)
    ensures AlarmsOut(key, effects, s) == QueueOf(s.alarms, key)
  {
    NoRemovals(effects);
    assert ItemsOf<Reading>(key, []) == [] && ItemsOf<Alarm>(key, []) == [];
  }

  lemma PublishDataConserves(setup: Setup, s: State, now: Conditions, key: string)
    ensures var o := PublishData(setup, s, now);
            && ReadingsOut(key, o.calls, o.state) == QueueOf(s.readings, key)
            && AlarmsOut(key, o.calls, o.state) == QueueOf(s.alarms, key)
  {
    var alarms := Flush(s.alarms, now.alarmKeys, setup.outcomes, s.attempts);
    var readings := Flush(s.readings, now.readingKeys, setup.outcomes, alarms.attempts);
    FlushConserves(s.alarms, now.alarmKeys, key, setup.outcomes, s.attempts);
    FlushConserves(s.readings, now.readingKeys, key, setup.outcomes, alarms.attempts);
    RemovalsAdd(AlarmEffects(alarms.removals), ReadingEffects(readings.removals));
    RemovalsOfEffects(readings.removals, alarms.removals);
    var effects := AlarmEffects(alarms.removals) + ReadingEffects(readings.removals);
    assert ReadingRemovals(effects) == readings.removals;
    assert AlarmRemovals(effects) == alarms.removals;
  }

  lemma PutAppends<T>(queues: Queues<T>, key: string, item: T, other: string)
    ensures QueueOf(Put(queues, key, item), other) == QueueOf(queues, other) + if key == other then [item] else []
  {
  }

  lemma PerformConserves(setup: Setup, s: State, c: Command, now: Conditions, key: string)
    ensures var o := Perform(setup, s, c, now);
            && ReadingsOut(key, o.calls, o.state) == QueueOf(s.readings, key) + ReadingsIn([c], key)
            && AlarmsOut(key, o.calls, o.state) == QueueOf(s.alarms, key) + AlarmsIn([c], key)
  {
    ItemsInOne(c, key);
    var o := Perform(setup, s, c, now);
    if c.Publish? {
      PublishDataConserves(setup, s, now, key);
    } else {
      NothingOut(key, o.calls, o.state);
      if c.AddReading? {
        PutAppends(s.readings, c.reference, c.reading, key);
      } else if c.AddAlarm? {
        PutAppends(s.alarms, c.reference, c.alarm, key);
      }
    }
  }

  lemma OutSkips(e: Effect, effects: seq<Effect>, s: State, key: string)
    requires !e.ReadingsRemoved? && !e.AlarmsRemoved?
    ensures ReadingsOut(key, [e] + effects, s) == ReadingsOut(key, effects, s)
    ensures AlarmsOut(key, [e] + effects, s) == AlarmsOut(key, effects, s)
  {
    NoRemovals([e]);
    RemovalsAdd([e], effects);
    assert [] + ReadingRemovals(effects) == ReadingRemovals(effects);
    assert [] + AlarmRemovals(effects) == AlarmRemovals(effects);
  }

  lemma StepConserves(setup: Setup, s: State, e: Event, key: string)
    ensures var o := Step(setup, s, e);
            var done := Commands(o.calls, true);
            && ReadingsOut(key, o.calls, o.state) == QueueOf(s.readings, key) + ReadingsIn(done, key)
            && AlarmsOut(key, o.calls, o.state) == QueueOf(s.alarms, key) + AlarmsIn(done, key)
  {
    StepQueues(setup, s, e);
    var o := Step(setup, s, e);
    if e.Execute? && s.commands != [] {
      var head, rest := s.commands[0], s.(commands := s.commands[1..]);
      PerformConserves(setup, rest, head, e.now, key);
      OutSkips(Executed(head), Perform(setup, rest, head, e.now).calls, o.state, key);
    } else {
      NothingOut(key, o.calls, o.state);
    }
  }

  lemma {:induction false} ExecutedAddsAreConserved(setup: Setup, es: seq<Event>, key: string)
    ensures var effects, s := Effects(setup, es), After(setup, es);
            && ReadingsOut(key, effects, s) == ReadingsIn(Commands(effects, true), key)
            && AlarmsOut(key, effects, s) == AlarmsIn(Commands(effects, true), key)
  {
    if es != [] {
      var init, e := es[..|es| - 1], es[|es| - 1];
      ExecutedAddsAreConserved(setup, init, key);
      var before := Run(Steps(setup), INITIAL, init);
      var o := Step(setup, before.state, e);
      StepConserves(setup, before.state, e, key);
      CommandsAdd(before.calls, o.calls, true);
      ItemsInAdd(Commands(before.calls, true), Commands(o.calls, true), key);
      RemovalsAdd(before.calls, o.calls);
      ItemsOfAdds(key, ReadingRemovals(before.calls), ReadingRemovals(o.calls));
      ItemsOfAdds(key, AlarmRemovals(before.calls), AlarmRemovals(o.calls));
      Regroup(ItemsOf(key, ReadingRemovals(before.calls)), ItemsOf(key, ReadingRemovals(o.calls)),
              QueueOf(o.state.readings, key),
              QueueOf(before.state.readings, key), ReadingsIn(Commands(o.calls, true), key));
      Regroup(ItemsOf(key, AlarmRemovals(before.calls)), ItemsOf(key, AlarmRemovals(o.calls)),
              QueueOf(o.state.alarms, key),
              QueueOf(before.state.alarms, key), AlarmsIn(Commands(o.calls, true), key));
    }
  }

  lemma Regroup<T>(gone: seq<T>, going: seq<T>, left: seq<T>, queue: seq<T>, added: seq<T>)
    requires going + left == queue + added
    ensures (gone + going) + left == (gone + queue) + added
  {
    ConcatAssociates(gone, going, left);
    ConcatAssociates(gone, queue, added);
  }

  /**
    Nothing lost, duplicated or reordered. For every key and every run, the readings given to
    the device are, in order, those in the batches that were published or dropped as
    unencodable, those in the persistence, and those whose command still waits. So are alarms.
  */
  lemma NothingLostOrReordered(setup: Setup, es: seq<Event>, key: string)
    ensures var effects, s := Effects(setup, es), After(setup, es);
            && ReadingsIn(Commands(effects, false), key) ==
               ItemsOf(key, ReadingRemovals(effects)) + QueueOf(s.readings, key) + ReadingsIn(s.commands, key)
            && AlarmsIn(Commands(effects, false), key) ==
               ItemsOf(key, AlarmRemovals(effects)) + QueueOf(s.alarms, key) + AlarmsIn(s.commands, key)
  {
    EveryCommandRunsOnceInOrder(setup, es);
    ExecutedAddsAreConserved(setup, es, key);
    ItemsInAdd(Commands(Effects(setup, es), true), After(setup, es).commands, key);
  }
}
