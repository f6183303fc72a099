/**
  The device facade as a state machine (src/Wolk.cpp): every call pushes a command, and the
  commands run one by one. What the network and the protocol do is given with each execution.
*/
module WolkMachine {
  import opened Machine
  import opened DataPublishing

  datatype Reading = Reading(values: seq<string>, rtc: nat)
  datatype Alarm = Alarm(active: bool, rtc: nat)

  datatype Command =
    | AddReading(reference: string, reading: Reading)
    | AddAlarm(reference: string, alarm: Alarm)
    | PublishActuatorStatus(reference: string)
    | PublishConfiguration
    | Publish
    | TryConnect(firstTime: bool)
    | Disconnect

  datatype State = State(commands: seq<Command>, readings: Queues<Reading>, alarms: Queues<Alarm>, attempts: nat)

  /** Observations, in order. */
  datatype Effect =
    | Issued(command: Command)
    | Executed(command: Command)
    | ReadingsRemoved(reading: KeyedRemoval<Reading>)
    | AlarmsRemoved(alarm: KeyedRemoval<Alarm>)
    | Connected
    | Told(service: Service)

  /** Optional parts of the device that hear of a connection at once, without a command. */
  datatype Service = KeepAlive | Firmware | Files

  /** The keys as the persistence lists them, and whether a connection attempt succeeds. */
  datatype Conditions = Conditions(readingKeys: seq<string>, alarmKeys: seq<string>, connects: bool)

  datatype Event =
    | Call(command: Command)
    | Execute(now: Conditions)

  /** The device's actuator references, the services it has, and the outcomes of all publishing attempts. */
  datatype Setup = Setup(actuators: seq<string>, services: set<Service>, outcomes: Outcomes)

  type Result = Outcome<State, Effect>

  const INITIAL: State := State([], map[], map[], 0)

  function IssuedAll(commands: seq<Command>): (effects: seq<Effect>)
    ensures |effects| == |commands|
  {
    seq(|commands|, i requires 0 <= i < |commands| => Issued(commands[i]))
  }

  function StatusCommands(setup: Setup): (commands: seq<Command>) {
    seq(|setup.actuators|, i requires 0 <= i < |setup.actuators| => PublishActuatorStatus(setup.actuators[i]))
  }

  /** What notifyConnected pushes. */
  function OnConnected(setup: Setup): (commands: seq<Command>) {
    StatusCommands(setup) + [PublishConfiguration] + [Publish]
  }

  function Tell(setup: Setup, service: Service): (effects: seq<Effect>) {
    if service in setup.services then [Told(service)] else []
  }

  /** All that notifyConnected does, in order. */
  function ConnectedEffects(setup: Setup): (effects: seq<Effect>) {
    [Connected] + Tell(setup, KeepAlive) + Tell(setup, Firmware)
    + IssuedAll(StatusCommands(setup) + [PublishConfiguration])
    + Tell(setup, Files) + [Issued(Publish)]
  }

  function Push(s: State, commands: seq<Command>): (r: State) {
    s.(commands := s.commands + commands)
  }

  function ReadingEffects(removals: seq<KeyedRemoval<Reading>>): (effects: seq<Effect>)
    ensures |effects| == |removals|
  {
    seq(|removals|, i requires 0 <= i < |removals| => ReadingsRemoved(removals[i]))
  }

  function AlarmEffects(removals: seq<KeyedRemoval<Alarm>>): (effects: seq<Effect>)
    ensures |effects| == |removals|
  {
    seq(|removals|, i requires 0 <= i < |removals| => AlarmsRemoved(removals[i]))
  }

  /** Alarms are flushed before readings. */
  function PublishData(setup: Setup, s: State, now: Conditions): (o: Result) {
    var alarms := Flush(s.alarms, now.alarmKeys, setup.outcomes, s.attempts);
    var readings := Flush(s.readings, now.readingKeys, setup.outcomes, alarms.attempts);
    Outcome(State(s.commands, readings.queues, alarms.queues, readings.attempts),
            AlarmEffects(alarms.removals) + ReadingEffects(readings.removals))
  }

  function Put<T>(queues: Queues<T>, key: string, item: T): (r: Queues<T>) {
    queues[key := QueueOf(queues, key) + [item]]
  }

  /** Runs one command, already taken from the queue. */
  function Perform(setup: Setup, s: State, c: Command, now: Conditions): (o: Result) {
    match c
    case AddReading(reference, reading) => Outcome(s.(readings := Put(s.readings, reference, reading)), [])
    case AddAlarm(reference, alarm) => Outcome(s.(alarms := Put(s.alarms, reference, alarm)), [])
    case Publish => PublishData(setup, s, now)
    case TryConnect(_) =>
      if now.connects
      then Outcome(Push(s, OnConnected(setup)), ConnectedEffects(setup))
      else Outcome(Push(s, [TryConnect(false)]), [Issued(TryConnect(false))])
    case _ => Outcome(s, [])
  }

  function Step(setup: Setup, s: State, e: Event): (o: Result) {
    match e
    case Call(c) => Outcome(Push(s, [c]), [Issued(c)])
    case Execute(now) =>
      if s.commands == [] then Outcome(s, [])
      else
        var o := Perform(setup, s.(commands := s.commands[1..]), s.commands[0], now);
        Outcome(o.state, [Executed(s.commands[0])] + o.calls)
  }

  function Steps(setup: Setup): (State, Event) -> Result {
    (s: State, e: Event) => Step(setup, s, e)
  }

  function After(setup: Setup, es: seq<Event>): (s: State) {
    Run(Steps(setup), INITIAL, es).state
  }

  function Effects(setup: Setup, es: seq<Event>): (effects: seq<Effect>) {
    Run(Steps(setup), INITIAL, es).calls
  }
}
