/** The bounded execution queue of one autopilot: records are appended at the end, removed at any
    position, and popped from the front. */
module OrderQueue {
  import opened Options
  import opened OrderCodec

  const CAPACITY: nat := 100

  datatype QueueResult = QueueOk | QueueInvalid | Unsupported | Full | NotFound | NoMemory

  /** The result the queue gives to an enqueue request, before memory is considered. */
  function Verdict(ready: bool, count: nat, definition: Option<CommandDefinition>,
                   arguments: Option<ArgumentList>): QueueResult {
    if !ready || definition.None? || arguments.None? then QueueInvalid
    else if !IsSupported(definition.value.commandEnum) then Unsupported
    else if count >= CAPACITY then Full
    else if !ArgumentsMatch(definition.value, arguments.value) then QueueInvalid
    else QueueOk
  }

  class Queue {
    /** None once the list has been destroyed. */
    var commands: Option<seq<Command>>

    constructor ()
      ensures commands == Some([])
    {
      commands := Some([]);
    }

    function Count(): nat
      reads this
    {
      if commands.None? then 0 else |commands.value|
    }

    /** autopilot_order_enqueue. The list holds its arguments in fixed storage of MAX_ARGS slots. */
    method Enqueue(definition: Option<CommandDefinition>, arguments: Option<ArgumentList>, memory: bool)
        returns (result: QueueResult)
      requires arguments.Some? ==> |arguments.value.values| == MAX_ARGS
      modifies this
      ensures var verdict := Verdict(old(commands).Some?, old(Count()), definition, arguments);
              result == if verdict.QueueOk? && !memory then NoMemory else verdict
      ensures result.QueueOk? ==>
                commands == Some(old(commands).value + [Record(definition.value, arguments.value)])
      ensures !result.QueueOk? ==> commands == old(commands)
    {
      if commands.None? || definition.None? || arguments.None? { return QueueInvalid; }
      var d, a := definition.value, arguments.value;
      if !IsSupported(d.commandEnum) { return Unsupported; }
      if Count() >= CAPACITY { return Full; }
      if d.argcount < 0 || d.argcount >= MAX_ARGS || a.capacity != MAX_ARGS { return QueueInvalid; }
      for index := 0 to MAX_ARGS
        invariant forall i :: 0 <= i < index ==> (a.values[i].Some? <==> i <= d.argcount)
        invariant commands == old(commands)
      {
        if a.values[index].Some? != (index <= d.argcount) { return QueueInvalid; }
      }
      if !memory { return NoMemory; }
      var copy: seq<Option<string>> := [];
      for index := 0 to MAX_ARGS
        invariant copy == a.values[..index] && commands == old(commands)
      {
        copy := copy + [a.values[index]];
      }
      assert copy == a.values;
      commands := Some(commands.value + [Command(ArgumentList(copy, MAX_ARGS), d.argcount % 256, d.commandEnum)]);
      return QueueOk;
    }

    /** autopilot_order_remove, by zero-based index. */
    method Remove(index: nat) returns (result: QueueResult)
      modifies this
      ensures if index < old(Count())
              then result.QueueOk? && commands == Some(old(commands).value[..index] + old(commands).value[index + 1..])
              else result.NotFound? && commands == old(commands)
    {
      if index >= Count() { return NotFound; }
      commands := Some(commands.value[..index] + commands.value[index + 1..]);
      return QueueOk;
    }

    method Clear()
      modifies this
      ensures commands == if old(commands).Some? then Some([]) else None
    {
      while Count() > 0
        invariant commands.Some? <==> old(commands).Some?
        decreases Count()
      {
        var _ := Remove(0);
      }
    }

    method Pop() returns (result: QueueResult)
      modifies this
      ensures if old(Count()) > 0 then result.QueueOk? && commands == Some(old(commands).value[1..])
              else result.NotFound? && commands == old(commands)
    {
      ghost var before := if commands.Some? then commands.value else [];
      assert before != [] ==> before[..0] + before[1..] == before[1..];
      result := Remove(0);
    }

    /** btech_autopilot_add_order without the engagement step: a valid order with room and memory is
        appended as its own encoding, which reads back as that order. */
    method AddOrder(context: Option<Context>, order: Option<Order>, memory: bool) returns (accepted: bool)
      modifies this
      ensures accepted <==>
                old(commands).Some? && Validate(context, order).Ok? && old(Count()) < CAPACITY && memory
      ensures accepted ==> commands == Some(old(commands).value + [Encoded(order.value)])
      ensures accepted ==> Decode(Encoded(order.value)) == Some(Normal(order.value))
      ensures !accepted ==> commands == old(commands)
    {
      var (valid, encoded) := Encode(context, order);
      if Validate(context, order).Ok? { EncodeThenDecode(context.value, order.value); }
      if !valid.Ok? { return false; }
      var result := Enqueue(Some(encoded.value.0), Some(encoded.value.1), memory);
      return result.QueueOk?;
    }
  }
}
