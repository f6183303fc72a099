/** The device facade (src/Wolk.cpp), proved to take the steps of WolkMachine. */
module WolkDevice {
  import opened Machine
  import opened CommandBuffering
  import opened DataPublishing
  import opened WolkMachine

  class Wolk {
    const setup: Setup
    const commandBuffer: CommandBuffer<Command>
    const readings: Persistence<Reading>
    const alarms: Persistence<Alarm>
    const sender: Sender

    ghost predicate Valid() {
      sender.outcomes == setup.outcomes && readings as object != alarms as object
    }

    ghost function Current(): (s: State)
      reads commandBuffer, readings, alarms, sender
    {
      State(commandBuffer.commands, readings.queues, alarms.queues, sender.attempts)
    }

    constructor (setup: Setup)
      ensures Valid() && this.setup == setup && Current() == INITIAL
      ensures fresh(commandBuffer) && fresh(readings) && fresh(alarms) && fresh(sender)
    {
      this.setup := setup;
      commandBuffer := new CommandBuffer();
      readings := new Persistence();
      alarms := new Persistence();
      sender := new Sender(setup.outcomes);
    }

    // ---------------------------------------------------------------- calls

    /** currentTime stands in for a missing timestamp. */
    method AddSensorReading(reference: string, values: seq<string>, rtc: nat, currentTime: nat)
      requires Valid()
      modifies commandBuffer
      ensures var stamp := if rtc == 0 then currentTime else rtc;
              Current() == if values == [] then old(Current())
                           else Step(setup, old(Current()), Call(AddReading(reference, Reading(values, stamp)))).state
    {
      if values == [] {
        return;
      }
      var stamp := if rtc == 0 then currentTime else rtc;
      commandBuffer.PushCommand(AddReading(reference, Reading(values, stamp)));
    }

    method AddAlarm(reference: string, active: bool, rtc: nat, currentTime: nat)
      requires Valid()
      modifies commandBuffer
      ensures var stamp := if rtc == 0 then currentTime else rtc;
              Current() == Step(setup, old(Current()), Call(Command.AddAlarm(reference, Alarm(active, stamp)))).state
    {
      var stamp := if rtc == 0 then currentTime else rtc;
      commandBuffer.PushCommand(Command.AddAlarm(reference, Alarm(active, stamp)));
    }

    /** connect, disconnect, publish, publishConfiguration and publishActuatorStatus. */
    method Issue(command: Command)
      requires Valid()
      modifies commandBuffer
      ensures Current() == Step(setup, old(Current()), Call(command)).state
    {
      commandBuffer.PushCommand(command);
    }

    // ---------------------------------------------------------------- commands

    method RunNext(now: Conditions) returns (effects: seq<Effect>)
      requires Valid() && commandBuffer.commands != []
      modifies commandBuffer, readings, alarms, sender
      ensures Outcome(Current(), effects) == Step(setup, old(Current()), Execute(now))
    {
      var command := commandBuffer.TakeCommand();
      assert commandBuffer.commands == old(commandBuffer.commands)[1..];
      effects := RunCommand(command, now);
      effects := [Executed(command)] + effects;
    }

    method RunCommand(command: Command, now: Conditions) returns (effects: seq<Effect>)
      requires Valid()
      modifies commandBuffer, readings, alarms, sender
      ensures Outcome(Current(), effects) == Perform(setup, old(Current()), command, now)
    {
      effects := [];
      match command {
        case AddReading(reference, reading) => readings.Put(reference, reading);
        case AddAlarm(reference, alarm) => alarms.Put(reference, alarm);
        case Publish =>
          var alarmRemovals := PublishAll(alarms, sender, now.alarmKeys);
          var readingRemovals := PublishAll(readings, sender, now.readingKeys);
          effects := AlarmEffects(alarmRemovals) + ReadingEffects(readingRemovals);
        case TryConnect(_) =>
          if !now.connects {
            commandBuffer.PushCommand(TryConnect(false));
            effects := [Issued(TryConnect(false))];
          } else {
            effects := NotifyConnected();
          }
        case _ =>
      }
    }

    method NotifyConnected() returns (effects: seq<Effect>)
      modifies commandBuffer
      ensures commandBuffer.commands == old(commandBuffer.commands) + OnConnected(setup)
      ensures effects == ConnectedEffects(setup)
    {
      effects := [Connected];
      if KeepAlive in setup.services {
        effects := effects + [Told(KeepAlive)];
      }
      if Firmware in setup.services {
        effects := effects + [Told(Firmware)];
      }
      ghost var heard := effects;
      var issued := PublishStatuses();
      effects := effects + issued;
      if Files in setup.services {
        effects := effects + [Told(Files)];
      }
      commandBuffer.PushCommand(Publish);
      effects := effects + [Issued(Publish)];
      assert heard == [Connected] + Tell(setup, KeepAlive) + Tell(setup, Firmware);
      assert effects == heard + issued + Tell(setup, Files) + [Issued(Publish)];
    }

    method PublishStatuses() returns (issued: seq<Effect>)
      modifies commandBuffer
      ensures var commands := StatusCommands(setup) + [PublishConfiguration];
              commandBuffer.commands == old(commandBuffer.commands) + commands && issued == IssuedAll(commands)
    {
      ghost var all := StatusCommands(setup);
      for i := 0 to |setup.actuators|
        invariant commandBuffer.commands == old(commandBuffer.commands) + all[..i]
      {
        commandBuffer.PushCommand(PublishActuatorStatus(setup.actuators[i]));
      }
      commandBuffer.PushCommand(PublishConfiguration);
      assert all[..|setup.actuators|] == all;
      issued := IssuedAll(StatusCommands(setup) + [PublishConfiguration]);
    }
  }
}
