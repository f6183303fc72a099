/** The SDK's queue of commands: each runs alone and to its end, in the order of the pushes. */
module CommandBuffering {

  class CommandBuffer<T> {
    var commands: seq<T>

    constructor ()
      ensures commands == []
    {
      commands := [];
    }

    method PushCommand(command: T)
      modifies this
      ensures commands == old(commands) + [command]
    {
      commands := commands + [command];
    }

    method TakeCommand() returns (command: T)
      requires commands != []
      modifies this
      ensures [command] + commands == old(commands)
    {
      command := commands[0];
      commands := commands[1..];
    }
  }
}
