/** Typed autopilot orders to and from the argument lists of the execution queue. */
module OrderCodec {
  import opened Options
  import opened OrderText

  // ---- Command definitions -----------------------------------------------------------------

  datatype CommandDefinition = CommandDefinition(name: string, argcount: int, commandEnum: int)

  const MAX_ARGS: nat := 5
  const ROAM_MAX_RADIUS: int := 30

  /** The table of queue commands; each row's position is its own enum value. */
  function DefinitionAt(index: nat): Option<CommandDefinition> {
    match index
    case 0 => Some(CommandDefinition("chasetarget", 1, 0))
    case 1 => Some(CommandDefinition("dumbfollow", 1, 1))
    case 2 => Some(CommandDefinition("dumbgoto", 2, 2))
    case 3 => Some(CommandDefinition("enterbase", 1, 3))
    case 4 => Some(CommandDefinition("follow", 1, 4))
    case 5 => Some(CommandDefinition("goto", 2, 5))
    case 6 => Some(CommandDefinition("leavebase", 1, 6))
    case 7 => Some(CommandDefinition("oldgoto", 2, 7))
    case 8 => Some(CommandDefinition("roam", 1, 8))
    case 9 => Some(CommandDefinition("wait", 2, 9))
    case 10 => Some(CommandDefinition("attackleg", 1, 10))
    case 11 => Some(CommandDefinition("autogun", 1, 11))
    case 12 => Some(CommandDefinition("chasemode", 1, 12))
    case 13 => Some(CommandDefinition("cmode", 2, 13))
    case 14 => Some(CommandDefinition("dropoff", 0, 14))
    case 15 => Some(CommandDefinition("embark", 1, 15))
    case 16 => Some(CommandDefinition("enterbay", 0, 16))
    case 17 => Some(CommandDefinition("jump", 1, 17))
    case 18 => Some(CommandDefinition("load", 0, 18))
    case 19 => Some(CommandDefinition("pickup", 1, 19))
    case 20 => Some(CommandDefinition("report", 0, 20))
    case 21 => Some(CommandDefinition("roammode", 1, 21))
    case 22 => Some(CommandDefinition("shutdown", 0, 22))
    case 23 => Some(CommandDefinition("speed", 1, 23))
    case 24 => Some(CommandDefinition("startup", 0, 24))
    case 25 => Some(CommandDefinition("stopgun", 0, 25))
    case 26 => Some(CommandDefinition("swarm", 1, 26))
    case 27 => Some(CommandDefinition("swarmmode", 1, 27))
    case 28 => Some(CommandDefinition("udisembark", 0, 28))
    case 29 => Some(CommandDefinition("unload", 0, 29))
    case _ => None
  }

  /** queue_definition: the first row with the wanted enum value. */
  function QueueDefinition(commandEnum: int, index: nat): Option<CommandDefinition>
    requires index <= 30
    decreases 30 - index
  {
    var definition := DefinitionAt(index);
    if definition.None? || index == 30 then None
    else if definition.value.commandEnum == commandEnum then definition
    else QueueDefinition(commandEnum, index + 1)
  }

  lemma {:induction false} QueueDefinitionIsDirect(commandEnum: int, index: nat)
    requires index <= 30
    ensures QueueDefinition(commandEnum, index)
         == if index <= commandEnum < 30 then DefinitionAt(commandEnum) else None
    decreases 30 - index
  {
    if index < 30 {
      QueueDefinitionIsDirect(commandEnum, index + 1);
    }
  }

  // ---- Orders ------------------------------------------------------------------------------

  datatype TargetKind = ChaseTarget | DumbFollow | Follow | Embark | Pickup
  datatype DestinationKind = DumbGoto | Goto | OldGoto
  datatype PlainKind = Dropoff | Shutdown | Startup | Udisembark

  const NORTH: int := 0
  const EAST: int := 1
  const SOUTH: int := 2
  const WEST: int := 3

  const ROAM_MAP: int := 0
  const ROAM_RADIUS: int := 1

  const AUTOMATIC: int := 0
  const OFF: int := 1
  const TARGET: int := 2

  /** An order carries the union member its type selects; enum fields are plain ints, so they may
      hold values outside their enum. */
  datatype Order =
    | TargetOrder(kind: TargetKind, target: CLong)
    | DestinationOrder(goal: DestinationKind, x: CInt, y: CInt)
    | EnterBase(direction: CInt)
    | LeaveBase(heading: CInt)
    | Roam(roamMode: CInt, roamX: CInt, roamY: CInt, radius: CInt)
    | Autogun(gunMode: CInt, gunTarget: CLong)
    | Speed(percent: CInt)
    | Plain(plain: PlainKind)
    | Unlisted(typeCode: CInt)

  datatype Result = Ok | InvalidArgument | Unavailable | InvalidOrderQueue

  /** The registered units a target may name. */
  datatype Context = Context(units: set<CLong>)

  function CommandEnumOf(order: Order): int {
    match order
    case TargetOrder(ChaseTarget, _) => 0
    case TargetOrder(DumbFollow, _) => 1
    case TargetOrder(Follow, _) => 4
    case TargetOrder(Embark, _) => 15
    case TargetOrder(Pickup, _) => 19
    case DestinationOrder(DumbGoto, _, _) => 2
    case DestinationOrder(Goto, _, _) => 5
    case DestinationOrder(OldGoto, _, _) => 7
    case EnterBase(_) => 3
    case LeaveBase(_) => 6
    case Roam(_, _, _, _) => 8
    case Autogun(_, _) => 11
    case Speed(_) => 23
    case Plain(Dropoff) => 14
    case Plain(Shutdown) => 22
    case Plain(Startup) => 24
    case Plain(Udisembark) => 28
    case Unlisted(_) => -1
  }

  /** The scalar part of btech_autopilot_order_validate, which decoding repeats. */
  predicate ScalarsValid(order: Order) {
    match order
    case TargetOrder(_, _) => true
    case DestinationOrder(_, x, y) => x >= 0 && y >= 0
    case EnterBase(direction) => NORTH <= direction <= WEST
    case LeaveBase(heading) => 0 <= heading <= 359
    case Roam(mode, x, y, radius) =>
      mode == ROAM_MAP || (mode == ROAM_RADIUS && x >= 0 && y >= 0 && 1 <= radius <= ROAM_MAX_RADIUS)
    case Autogun(mode, _) => AUTOMATIC <= mode <= TARGET
    case Speed(percent) => 1 <= percent <= 100
    case Plain(_) => true
    case Unlisted(_) => false
  }

  predicate NeedsTarget(order: Order) {
    order.TargetOrder? || (order.Autogun? && order.gunMode == TARGET)
  }

  function TargetOf(order: Order): CLong
    requires NeedsTarget(order)
  {
    if order.TargetOrder? then order.target else order.gunTarget
  }

  function Validate(context: Option<Context>, order: Option<Order>): Result {
    if context.None? || order.None? || order.value.Unlisted? then InvalidArgument
    else if !ScalarsValid(order.value) then InvalidArgument
    else if NeedsTarget(order.value) && TargetOf(order.value) !in context.value.units then Unavailable
    else Ok
  }

  /** Which orders are accepted, in numbers. */
  lemma ValidExactly(units: set<CLong>, order: Order)
    ensures Validate(Some(Context(units)), Some(order)).Ok? <==>
              match order
              case TargetOrder(_, target) => target in units
              case DestinationOrder(_, x, y) => x >= 0 && y >= 0
              case EnterBase(direction) => direction in {0, 1, 2, 3}
              case LeaveBase(heading) => 0 <= heading < 360
              case Roam(mode, x, y, radius) => mode == 0 || (mode == 1 && x >= 0 && y >= 0 && 0 < radius <= 30)
              case Autogun(mode, target) => mode in {0, 1} || (mode == 2 && target in units)
              case Speed(percent) => 0 < percent <= 100
              case Plain(_) => true
              case Unlisted(_) => false
  {
  }

  // ---- Encoding ----------------------------------------------------------------------------

  datatype ArgumentList = ArgumentList(values: seq<Option<string>>, capacity: nat)

  function DirectionName(direction: int): string {
    if direction == NORTH then "north" else if direction == EAST then "east"
    else if direction == SOUTH then "south" else "west"
  }

  /** The texts after the command name. */
  function ArgumentTexts(order: Order): seq<string> {
    match order
    case TargetOrder(_, target) => [Print(target)]
    case DestinationOrder(_, x, y) => [Print(x), Print(y)]
    case EnterBase(direction) => [DirectionName(direction)]
    case LeaveBase(heading) => [Print(heading)]
    case Roam(mode, x, y, radius) => [if mode == ROAM_MAP then "map" else RadiusText(x, y, radius)]
    case Autogun(mode, target) =>
      [if mode == AUTOMATIC then "on" else if mode == OFF then "off" else TargetText(target)]
    case Speed(percent) => [Print(percent)]
    case Plain(_) => []
    case Unlisted(_) => []
  }

  function ArgumentsFor(name: string, texts: seq<string>): ArgumentList
    requires |texts| < MAX_ARGS
  {
    ArgumentList(
      seq(MAX_ARGS, i requires 0 <= i < MAX_ARGS =>
        if i == 0 then Some(name) else if i <= |texts| then Some(texts[i - 1]) else None),
      MAX_ARGS)
  }

  /** autopilot_order_encode: the definition and the owned arguments of a valid order. */
  function Encode(context: Option<Context>, order: Option<Order>): (Result, Option<(CommandDefinition, ArgumentList)>) {
    var valid := Validate(context, order);
    if !valid.Ok? then (valid, None)
    else
      var definition := QueueDefinition(CommandEnumOf(order.value), 0);
      if definition.None? then (InvalidOrderQueue, None)
      else (Ok, Some((definition.value, ArgumentsFor(definition.value.name, ArgumentTexts(order.value)))))
  }

  // ---- Queue records -----------------------------------------------------------------------

  datatype Command = Command(arguments: ArgumentList, argcount: nat, commandEnum: int)

  predicate IsSupported(commandEnum: int) {
    commandEnum in {0, 1, 2, 3, 4, 5, 6, 7, 8, 11, 14, 15, 19, 22, 23, 24, 28}
  }

  /** Exactly the arguments 0 to argcount are present, in a list of the full capacity. */
  predicate ArgumentsMatch(definition: CommandDefinition, arguments: ArgumentList) {
    && |arguments.values| == MAX_ARGS && arguments.capacity == MAX_ARGS
    && 0 <= definition.argcount < MAX_ARGS
    && forall i :: 0 <= i < MAX_ARGS ==> (arguments.values[i].Some? <==> i <= definition.argcount)
  }

  /** The arguments are the words of one command line, and nothing else. */
  ghost predicate HoldsLine(arguments: ArgumentList, line: seq<string>) {
    && 1 <= |line| <= |arguments.values| == arguments.capacity == MAX_ARGS
    && forall i :: 0 <= i < MAX_ARGS ==> arguments.values[i] == if i < |line| then Some(line[i]) else None
  }

  /** Arguments match a definition exactly when they hold a first word and as many more as it takes,
      of which there are at most four. */
  lemma ArgumentsMatchExactly(definition: CommandDefinition, arguments: ArgumentList)
    ensures ArgumentsMatch(definition, arguments) <==>
            exists line :: HoldsLine(arguments, line) && |line| == definition.argcount + 1
  {
    if ArgumentsMatch(definition, arguments) {
      var values := arguments.values;
      var line := seq(definition.argcount + 1, i requires 0 <= i < MAX_ARGS && values[i].Some? => values[i].value);
      assert HoldsLine(arguments, line);
    }
  }

  /** The record autopilot_order_enqueue appends for accepted arguments. */
  function Record(definition: CommandDefinition, arguments: ArgumentList): Command
    requires definition.argcount >= 0
  {
    Command(arguments, definition.argcount % 256, definition.commandEnum)
  }

  // ---- Decoding ----------------------------------------------------------------------------

  function ParseDirection(text: Option<string>): Option<CInt> {
    if text.None? || text.value == "" then None
    else
      match text.value[0]
      case 'n' => Some(NORTH) case 'N' => Some(NORTH)
      case 'e' => Some(EAST) case 'E' => Some(EAST)
      case 's' => Some(SOUTH) case 'S' => Some(SOUTH)
      case 'w' => Some(WEST) case 'W' => Some(WEST)
      case _ => None
  }

  function DecodeTarget(kind: TargetKind, first: Option<string>): Option<Order> {
    var target := ParseLong(first);
    if target.Some? then Some(TargetOrder(kind, target.value)) else None
  }

  function DecodeDestination(goal: DestinationKind, first: Option<string>, second: Option<string>): Option<Order> {
    var x, y := ParseInt(first), ParseInt(second);
    if x.Some? && y.Some? && x.value >= 0 && y.value >= 0 then Some(DestinationOrder(goal, x.value, y.value))
    else None
  }

  function DecodeRoam(first: Option<string>): Option<Order> {
    if first == Some("map") then Some(Roam(ROAM_MAP, 0, 0, 0))
    else
      var parsed := ParseRadius(first);
      if parsed.Some? && parsed.value.0 >= 0 && parsed.value.1 >= 0 && 1 <= parsed.value.2 <= ROAM_MAX_RADIUS
      then Some(Roam(ROAM_RADIUS, parsed.value.0, parsed.value.1, parsed.value.2))
      else None
  }

  function DecodeAutogun(first: Option<string>): Option<Order> {
    if first == Some("on") then Some(Autogun(AUTOMATIC, 0))
    else if first == Some("off") then Some(Autogun(OFF, 0))
    else
      var target := ParseTarget(first);
      if target.Some? then Some(Autogun(TARGET, target.value)) else None
  }

  /** The order read from the arguments of a supported command; None is INVALID_ORDER_QUEUE. */
  function DecodeArguments(commandEnum: int, first: Option<string>, second: Option<string>): Option<Order> {
    match commandEnum
    case 0 => DecodeTarget(ChaseTarget, first)
    case 1 => DecodeTarget(DumbFollow, first)
    case 2 => DecodeDestination(DumbGoto, first, second)
    case 3 =>
      var direction := ParseDirection(first);
      if direction.Some? then Some(EnterBase(direction.value)) else None
    case 4 => DecodeTarget(Follow, first)
    case 5 => DecodeDestination(Goto, first, second)
    case 6 =>
      var heading := ParseInt(first);
      if heading.Some? && 0 <= heading.value <= 359 then Some(LeaveBase(heading.value)) else None
    case 7 => DecodeDestination(OldGoto, first, second)
    case 8 => DecodeRoam(first)
    case 11 => DecodeAutogun(first)
    case 14 => Some(Plain(Dropoff))
    case 15 => DecodeTarget(Embark, first)
    case 19 => DecodeTarget(Pickup, first)
    case 22 => Some(Plain(Shutdown))
    case 23 =>
      var percent := ParseInt(first);
      if percent.Some? && 1 <= percent.value <= 100 then Some(Speed(percent.value)) else None
    case 24 => Some(Plain(Startup))
    case 28 => Some(Plain(Udisembark))
    case _ => None
  }

  /** autopilot_order_decode of one queue record. */
  function Decode(command: Command): Option<Order> {
    if !IsSupported(command.commandEnum) then None
    else
      var definition := QueueDefinition(command.commandEnum, 0);
      if definition.None? || command.argcount != definition.value.argcount % 256 then None
      else if !ArgumentsMatch(definition.value, command.arguments) then None
      else if command.arguments.values[0] != Some(definition.value.name) then None
      else DecodeArguments(command.commandEnum, command.arguments.values[1], command.arguments.values[2])
  }

  // ---- Round trip --------------------------------------------------------------------------

  /** The order with the union fields its mode does not use zeroed, as decoding leaves them. */
  function Normal(order: Order): Order {
    match order
    case Roam(mode, _, _, _) => if mode == ROAM_MAP then Roam(ROAM_MAP, 0, 0, 0) else order
    case Autogun(mode, _) => if mode == TARGET then order else Autogun(mode, 0)
    case _ => order
  }

  /** The queue record of an order. */
  function Encoded(order: Order): Command
    requires !order.Unlisted?
  {
    var definition := DefinitionAt(CommandEnumOf(order)).value;
    Record(definition, ArgumentsFor(definition.name, ArgumentTexts(order)))
  }

  lemma DefinitionFits(order: Order)
    requires !order.Unlisted?
    ensures var e := CommandEnumOf(order);
            && IsSupported(e) && 0 <= e < 30 && QueueDefinition(e, 0) == DefinitionAt(e) && DefinitionAt(e).Some?
            && DefinitionAt(e).value.commandEnum == e && DefinitionAt(e).value.argcount == |ArgumentTexts(order)|
            && ArgumentsMatch(DefinitionAt(e).value, Encoded(order).arguments)
  {
    QueueDefinitionIsDirect(CommandEnumOf(order), 0);
  }

  // What each kind of argument text decodes to, in both directions.

  lemma TargetTextDecodes(kind: TargetKind, first: Option<string>, order: Order)
    ensures DecodeTarget(kind, first) == Some(order) <==>
              order.TargetOrder? && order.kind == kind && first == Some(Print(order.target))
  {
    if order.TargetOrder? { ParseLongIsInverseOfPrint(Print(order.target), order.target); }
  }

  lemma DestinationTextsDecode(goal: DestinationKind, first: Option<string>, second: Option<string>, order: Order)
    ensures DecodeDestination(goal, first, second) == Some(order) <==>
              && order.DestinationOrder? && order.goal == goal && ScalarsValid(order)
              && first == Some(Print(order.x)) && second == Some(Print(order.y))
  {
    if order.DestinationOrder? {
      ParseIntIsInverseOfPrint(Print(order.x), order.x);
      ParseIntIsInverseOfPrint(Print(order.y), order.y);
    }
  }

  lemma IntTextParses(first: Option<string>, v: CInt)
    ensures ParseInt(first) == Some(v) <==> first == Some(Print(v))
  {
    ParseIntIsInverseOfPrint(Print(v), v);
  }

  lemma RoamTextDecodes(first: Option<string>, order: Order)
    ensures DecodeRoam(first) == Some(order) <==>
              && order.Roam? && ScalarsValid(order) && Normal(order) == order
              && first == Some(ArgumentTexts(order)[0])
  {
    if order.Roam? && order.roamMode != ROAM_MAP {
      var text := RadiusText(order.roamX, order.roamY, order.radius);
      assert text[0] == 'r';
      ParseRadiusIsInverse(text, order.roamX, order.roamY, order.radius);
      if first.Some? { ParseRadiusIsInverse(first.value, order.roamX, order.roamY, order.radius); }
    }
    hide TargetText, ParseRadius, RadiusText, Print;
  }

  lemma AutogunTextDecodes(first: Option<string>, order: Order)
    ensures DecodeAutogun(first) == Some(order) <==>
              && order.Autogun? && ScalarsValid(order) && Normal(order) == order
              && first == Some(ArgumentTexts(order)[0])
  {
    if order.Autogun? && order.gunMode == TARGET {
      var text := TargetText(order.gunTarget);
      assert text[0] == 't';
      ParseTargetIsInverse(text, order.gunTarget);
      if first.Some? { ParseTargetIsInverse(first.value, order.gunTarget); }
    }
    hide TargetText, ParseTarget, RadiusText, Print;
  }

  /** Argument k of an order, as the list holds it. */
  function Argument(order: Order, k: nat): Option<string>
    requires k > 0
  {
    if k <= |ArgumentTexts(order)| then Some(ArgumentTexts(order)[k - 1]) else None
  }

  /** Arguments decode to an order, ENTERBASE apart, exactly when the order is in range with its
      unused fields zero and they are its printed arguments. */
  lemma ArgumentsDecode(e: int, first: Option<string>, second: Option<string>, order: Order)
    requires !order.EnterBase?
    ensures DecodeArguments(e, first, second) == Some(order) ==>
              && e == CommandEnumOf(order) && ScalarsValid(order) && Normal(order) == order
              && (|ArgumentTexts(order)| >= 1 ==> first == Argument(order, 1))
              && (|ArgumentTexts(order)| >= 2 ==> second == Argument(order, 2))
    ensures e == CommandEnumOf(order) && ScalarsValid(order) && Normal(order) == order
            && first == Argument(order, 1) && second == Argument(order, 2) ==>
              DecodeArguments(e, first, second) == Some(order)
  {
    hide DecodeTarget, DecodeDestination, DecodeRoam, DecodeAutogun, ParseInt, Print;
    match e
    case 0 => TargetTextDecodes(ChaseTarget, first, order);
    case 1 => TargetTextDecodes(DumbFollow, first, order);
    case 4 => TargetTextDecodes(Follow, first, order);
    case 15 => TargetTextDecodes(Embark, first, order);
    case 19 => TargetTextDecodes(Pickup, first, order);
    case 2 => DestinationTextsDecode(DumbGoto, first, second, order);
    case 5 => DestinationTextsDecode(Goto, first, second, order);
    case 7 => DestinationTextsDecode(OldGoto, first, second, order);
    case 6 => if order.LeaveBase? { IntTextParses(first, order.heading); }
    case 23 => if order.Speed? { IntTextParses(first, order.percent); }
    case 8 => RoamTextDecodes(first, order);
    case 11 => AutogunTextDecodes(first, order);
    case _ =>
  }

  lemma EncodedDecodes(order: Order)
    requires ScalarsValid(order)
    ensures Decode(Encoded(order)) == Some(Normal(order))
  {
    DefinitionFits(order);
    var values := Encoded(order).arguments.values;
    assert values[1] == Argument(order, 1) && values[2] == Argument(order, 2);
    assert ArgumentTexts(order) == ArgumentTexts(Normal(order)) && CommandEnumOf(order) == CommandEnumOf(Normal(order));
    if !order.EnterBase? {
      ArgumentsDecode(CommandEnumOf(order), values[1], values[2], Normal(order));
    }
  }

  /** Every order that validates encodes to arguments the queue accepts, and decoding the record the
      queue keeps returns the order, up to union fields its mode leaves unused. */
  lemma EncodeThenDecode(context: Context, order: Order)
    requires Validate(Some(context), Some(order)).Ok?
    ensures var (result, encoded) := Encode(Some(context), Some(order));
            && result.Ok? && encoded.Some?
            && IsSupported(encoded.value.0.commandEnum) && ArgumentsMatch(encoded.value.0, encoded.value.1)
            && Record(encoded.value.0, encoded.value.1) == Encoded(order)
            && Decode(Encoded(order)) == Some(Normal(order))
  {
    DefinitionFits(order);
    EncodedDecodes(order);
  }

  // ---- Canonicity --------------------------------------------------------------------------

  /** A record decodes to an order, ENTERBASE apart, exactly when it is the order's own encoding and
      the order is in range with its unused fields zero. */
  lemma DecodeIsInverseOfEncoding(command: Command, order: Order)
    requires !order.EnterBase? && !order.Unlisted?
    ensures Decode(command) == Some(order) <==>
              ScalarsValid(order) && Normal(order) == order && command == Encoded(order)
  {
    hide DecodeArguments, ArgumentTexts, CommandEnumOf, ScalarsValid, Normal;
    DefinitionFits(order);
    if ScalarsValid(order) { EncodedDecodes(order); }
    if Decode(command) == Some(order) {
      var values := command.arguments.values;
      QueueDefinitionIsDirect(command.commandEnum, 0);
      ArgumentsDecode(command.commandEnum, values[1], values[2], order);
      assert values == Encoded(order).arguments.values;
    }
  }

  /** Decoding is injective on records, ENTERBASE apart. */
  lemma DecodeIsInjective(c1: Command, c2: Command)
    requires Decode(c1).Some? && Decode(c1) == Decode(c2) && !Decode(c1).value.EnterBase?
    ensures c1 == c2
  {
    var order := Decode(c1).value;
    DecodeIsInverseOfEncoding(c1, order);
    DecodeIsInverseOfEncoding(c2, order);
  }

  /** ENTERBASE reads only the first character of its argument, so any tail decodes alike. */
  lemma EnterBaseReadsOneCharacter(head: char, tail: string)
    ensures ParseDirection(Some([head] + tail)) == ParseDirection(Some([head]))
    ensures ParseDirection(Some([head] + tail)).Some? <==> head in "nNeEsSwW"
  {
  }

  /** The record of a base entry with this text for its direction. */
  function EnterBaseRecord(text: string): Command {
    var definition := DefinitionAt(3).value;
    Record(definition, ArgumentsFor(definition.name, [text]))
  }

  /** A record decodes to a base entry exactly when it is the encoding up to a text whose first character
      names the direction; so two such records decode alike exactly when those characters do. */
  lemma EnterBaseDecodesExactly(command: Command, direction: CInt)
    ensures Decode(command) == Some(EnterBase(direction)) <==>
              exists text: string ::
                ParseDirection(Some(text)) == Some(direction) && command == EnterBaseRecord(text)
  {
    QueueDefinitionIsDirect(3, 0);
    if Decode(command) == Some(EnterBase(direction)) {
      var values := command.arguments.values;
      QueueDefinitionIsDirect(command.commandEnum, 0);
      assert command.commandEnum == 3 && values[1].Some?;
      assert values == EnterBaseRecord(values[1].value).arguments.values;
      assert command == EnterBaseRecord(values[1].value);
    }
  }

  // ---- The command line of an order --------------------------------------------------------

  /** What an order says as a command, word by word. */
  function CommandLine(order: Order): seq<string>
    requires ScalarsValid(order)
  {
    match order
    case TargetOrder(kind, target) =>
      [match kind
       case ChaseTarget => "chasetarget"
       case DumbFollow => "dumbfollow"
       case Follow => "follow"
       case Embark => "embark"
       case Pickup => "pickup", Print(target)]
    case DestinationOrder(goal, x, y) =>
      [match goal
       case DumbGoto => "dumbgoto"
       case Goto => "goto"
       case OldGoto => "oldgoto", Print(x), Print(y)]
    case EnterBase(direction) => ["enterbase", ["north", "east", "south", "west"][direction]]
    case LeaveBase(heading) => ["leavebase", Print(heading)]
    case Roam(mode, x, y, radius) =>
      ["roam", if mode == ROAM_MAP then "map" else "radius " + Print(x) + " " + Print(y) + " " + Print(radius)]
    case Autogun(mode, target) => ["autogun", ["on", "off", "target " + Print(target)][mode]]
    case Speed(percent) => ["speed", Print(percent)]
    case Plain(plain) =>
      [match plain
       case Dropoff => "dropoff"
       case Shutdown => "shutdown"
       case Startup => "startup"
       case Udisembark => "udisembark"]
  }

  /** The encoding of an order holds its command line and nothing else. */
  lemma EncodedIsTheCommandLine(order: Order)
    requires ScalarsValid(order)
    ensures var line := CommandLine(order);
            HoldsLine(Encoded(order).arguments, line) && Encoded(order).argcount == |line| - 1
  {
    DefinitionFits(order);
    NameAndTexts(order);
    hide CommandLine, ArgumentTexts, DefinitionAt, QueueDefinition, IsSupported, CommandEnumOf, ScalarsValid;
  }

  lemma NameAndTexts(order: Order)
    requires ScalarsValid(order)
    ensures DefinitionAt(CommandEnumOf(order)).Some?
    ensures CommandLine(order) == [DefinitionAt(CommandEnumOf(order)).value.name] + ArgumentTexts(order)
  {
    hide Print;
  }

  /** The queue runs exactly the commands that orders are made of. */
  lemma SupportedExactly(commandEnum: int)
    ensures IsSupported(commandEnum) <==> exists order: Order :: !order.Unlisted? && CommandEnumOf(order) == commandEnum
  {
    if IsSupported(commandEnum) {
      var order :=
        match commandEnum
        case 0 => TargetOrder(ChaseTarget, 0)
        case 1 => TargetOrder(DumbFollow, 0)
        case 2 => DestinationOrder(DumbGoto, 0, 0)
        case 3 => EnterBase(NORTH)
        case 4 => TargetOrder(Follow, 0)
        case 5 => DestinationOrder(Goto, 0, 0)
        case 6 => LeaveBase(0)
        case 7 => DestinationOrder(OldGoto, 0, 0)
        case 8 => Roam(ROAM_MAP, 0, 0, 0)
        case 11 => Autogun(OFF, 0)
        case 14 => Plain(Dropoff)
        case 15 => TargetOrder(Embark, 0)
        case 19 => TargetOrder(Pickup, 0)
        case 22 => Plain(Shutdown)
        case 23 => Speed(1)
        case 24 => Plain(Startup)
        case _ => Plain(Udisembark);
      assert CommandEnumOf(order) == commandEnum;
    }
  }
}
