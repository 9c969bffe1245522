/** The administration of many autopilots and units: association, engagement, the order queue, the
    event scheduler and the dispatcher, as steps over one world. */
module AutopilotProtocol {
  import opened Objects
  import opened Options
  import opened OrderCodec
  import opened OrderQueue

  // ---- Events ------------------------------------------------------------------------------

  /** A pending event is told apart by its callback. */
  datatype EventKind =
    | ComEvent | DumbGotoEvent | GotoEvent | OldGotoEvent | DumbFollowEvent | FollowEvent
    | EnterEvent | LeaveEvent | RoamEvent

  const FIRST_AUTO_EVENT: nat := 23
  const LAST_AUTO_EVENT: nat := 32

  function TypeOf(kind: EventKind): nat {
    match kind
    case ComEvent => 25
    case DumbGotoEvent => 23
    case GotoEvent => 23
    case OldGotoEvent => 23
    case DumbFollowEvent => 28
    case FollowEvent => 28
    case EnterEvent => 29
    case LeaveEvent => 24
    case RoamEvent => 32
  }

  /** mux_event_remove_type_data for one autopilot: drops every pending event of the type. */
  function RemoveType(pending: multiset<EventKind>, eventType: nat): multiset<EventKind> {
    match eventType
    case 23 => pending[DumbGotoEvent := 0][GotoEvent := 0][OldGotoEvent := 0]
    case 24 => pending[LeaveEvent := 0]
    case 25 => pending[ComEvent := 0]
    case 28 => pending[DumbFollowEvent := 0][FollowEvent := 0]
    case 29 => pending[EnterEvent := 0]
    case 32 => pending[RoamEvent := 0]
    case _ => pending
  }

  lemma RemoveTypeRemoves(pending: multiset<EventKind>, eventType: nat)
    ensures forall k :: RemoveType(pending, eventType)[k] == if TypeOf(k) == eventType then 0 else pending[k]
  {
  }

  // ---- The world ---------------------------------------------------------------------------

  datatype Queued = Queued(ticket: nat, command: Command)

  /** An autopilot. The last three fields are history: the ticket the next order gets, the tickets
      popped so far, and the tickets of the orders a handler has dropped while serving them. */
  datatype Pilot = Pilot(
    mymechnum: DbRef, engaged: bool,
    gunning: bool, gunSuspended: bool, pilotSuspended: bool,
    commands: Option<seq<Queued>>,
    nextTicket: nat, popped: seq<nat>, dropped: set<nat>)

  /** An autopilot together with its events in the scheduler. */
  datatype Slot = Slot(p: Pilot, pending: multiset<EventKind>)

  /** Units map to the autopilot they name; locations are the containers of all objects. */
  datatype World = World(
    pilots: map<DbRef, Pilot>,
    units: map<DbRef, DbRef>,
    location: map<DbRef, DbRef>,
    events: map<DbRef, multiset<EventKind>>)

  const EMPTY := World(map[], map[], map[], map[])

  function LocationOf(w: World, a: DbRef): DbRef {
    if a in w.location then w.location[a] else NOTHING
  }

  function Pending(w: World, a: DbRef): multiset<EventKind> {
    if a in w.events then w.events[a] else multiset{}
  }

  function SlotOf(w: World, a: DbRef): Slot
    requires a in w.pilots
  {
    Slot(w.pilots[a], Pending(w, a))
  }

  function Put(w: World, a: DbRef, s: Slot): World {
    w.(pilots := w.pilots[a := s.p],
       events := if s.pending == Pending(w, a) then w.events else w.events[a := s.pending])
  }

  function QueueOf(p: Pilot): seq<Queued> {
    if p.commands.Some? then p.commands.value else []
  }

  /** auto_get_command_enum of the first command. */
  function Head(p: Pilot): int {
    if QueueOf(p) == [] then -1 else QueueOf(p)[0].command.commandEnum
  }

  function Scheduled(s: Slot, kind: EventKind): Slot {
    s.(pending := s.pending + multiset{kind})
  }

  lemma PutScheduled(w: World, a: DbRef, p: Pilot, kind: EventKind)
    ensures Put(w, a, Scheduled(Slot(p, Pending(w, a)), kind))
            == w.(pilots := w.pilots[a := p], events := w.events[a := Pending(w, a) + multiset{kind}])
  {
    assert (Pending(w, a) + multiset{kind})[kind] == Pending(w, a)[kind] + 1;
  }

  // ---- Association -------------------------------------------------------------------------

  datatype Association = NoAssociation | Ready | Associated | Conflict

  function ValidClaim(w: World, a: DbRef, unit: DbRef, claimant: DbRef): bool {
    claimant > 0 && claimant != a && claimant in w.pilots && LocationOf(w, claimant) == unit
  }

  /** autopilot_control_association: the relation and the containing unit, if any. */
  function Associate(w: World, a: DbRef): (Association, Option<DbRef>)
    requires a in w.pilots
  {
    var where, mech := LocationOf(w, a), w.pilots[a].mymechnum;
    var contained, cached := where in w.units, mech in w.units;
    var container := if contained then Some(where) else None;
    if cached && mech != where && w.units[mech] == a then (Conflict, container)
    else if !contained then (if cached then Conflict else NoAssociation, container)
    else if ValidClaim(w, a, where, w.units[where]) then (Conflict, container)
    else if mech == where && w.units[where] == a then (Associated, container)
    else (Ready, container)
  }

  // ---- Administration ----------------------------------------------------------------------

  datatype AdminResult =
    | AdminOk | NotInstalled | AlreadyEngaged | AlreadyDisengaged | ClaimConflict | ActiveOrder
    | QueueFull | OrderNotFound | InvalidQueue | OutOfMemory

  function ScheduledIfNeeded(s: Slot): Slot {
    if s.pending[ComEvent] == 0 then Scheduled(s, ComEvent) else s
  }

  function EngageResult(w: World, a: DbRef): AdminResult
    requires a in w.pilots
  {
    var (association, container) := Associate(w, a);
    if w.pilots[a].engaged then AlreadyEngaged
    else if container.None? then NotInstalled
    else if association.Conflict? then ClaimConflict
    else AdminOk
  }

  function EngagedIn(s: Slot, unit: DbRef): Slot {
    var engaged := s.(p := s.p.(mymechnum := unit, engaged := true));
    if |QueueOf(s.p)| > 0 then ScheduledIfNeeded(engaged) else engaged
  }

  /** autopilot_control_engage */
  function Engage(w: World, a: DbRef): World
    requires a in w.pilots
  {
    if !EngageResult(w, a).AdminOk? then w
    else
      var unit := LocationOf(w, a);
      Put(w, a, EngagedIn(SlotOf(w, a), unit)).(units := w.units[unit := a])
  }

  function StoppedPilot(p: Pilot): Pilot {
    p.(engaged := false, gunning := false, gunSuspended := false, pilotSuspended := false)
  }

  /** auto_stop_pilot */
  function Stopped(s: Slot): Slot {
    Slot(StoppedPilot(s.p), multiset{})
  }

  function Disengaged(s: Slot): Slot {
    if s.p.engaged then Stopped(s) else s
  }

  function Append(p: Pilot, command: Command): Pilot
    requires p.commands.Some?
  {
    p.(commands := Some(p.commands.value + [Queued(p.nextTicket, command)]), nextTicket := p.nextTicket + 1)
  }

  /** autopilot_control_enqueue with the memory it needs. */
  function Enqueued(s: Slot, definition: CommandDefinition, arguments: ArgumentList): Slot {
    if !Verdict(s.p.commands.Some?, |QueueOf(s.p)|, Some(definition), Some(arguments)).QueueOk? then s
    else
      var appended := s.(p := Append(s.p, Record(definition, arguments)));
      if s.p.engaged && |QueueOf(s.p)| == 0 then ScheduledIfNeeded(appended) else appended
  }

  function WithoutIndex(p: Pilot, index: nat): Pilot
    requires p.commands.Some? && index < |p.commands.value|
  {
    p.(commands := Some(p.commands.value[..index] + p.commands.value[index + 1..]))
  }

  function RemoveResult(p: Pilot, position: nat): AdminResult {
    if position == 0 || position > |QueueOf(p)| then OrderNotFound
    else if p.engaged && position == 1 then ActiveOrder
    else AdminOk
  }

  /** autopilot_control_remove, by one-based position. */
  function Removed(p: Pilot, position: nat): Pilot {
    if RemoveResult(p, position).AdminOk? then WithoutIndex(p, position - 1) else p
  }

  /** autopilot_control_clear */
  function Cleared(p: Pilot): Pilot {
    if p.engaged && |QueueOf(p)| > 0 then p
    else p.(commands := if p.commands.Some? then Some([]) else None)
  }

  // ---- Running orders ----------------------------------------------------------------------

  /** What a handler may do with its autopilot: advance to the next command, or schedule an event. */
  datatype Action = Next | Again(kind: EventKind)

  function Popped(p: Pilot): Pilot
    requires QueueOf(p) != []
  {
    p.(commands := Some(p.commands.value[1..]), popped := p.popped + [p.commands.value[0].ticket])
  }

  /** auto_goto_next_command */
  function GoneToNext(s: Slot): Slot {
    if QueueOf(s.p) == [] then s else Scheduled(s.(p := Popped(s.p)), ComEvent)
  }

  function ActOnce(s: Slot, action: Action): Slot {
    match action
    case Next => GoneToNext(s)
    case Again(kind) => Scheduled(s, kind)
  }

  function Act(s: Slot, actions: seq<Action>): Slot
    decreases |actions|
  {
    if actions == [] then s else Act(ActOnce(s, actions[0]), actions[1..])
  }

  /** The handler of this event acts for this head command rather than returning at once. */
  predicate Serves(kind: EventKind, head: int) {
    match kind
    case ComEvent => true
    case DumbGotoEvent => head == 2
    case GotoEvent => head == 5
    case OldGotoEvent => head == 7
    case DumbFollowEvent => head == 1
    case FollowEvent => head == 4 || head == 0
    case EnterEvent => head == 3
    case LeaveEvent => head == 6
    case RoamEvent => head == 8
  }

  /** The contract of a handler serving the head: advance, or schedule an event that serves it too. */
  predicate KeepsGoing(head: int, actions: seq<Action>) {
    exists i :: 0 <= i < |actions| && (actions[i].Next? || Serves(actions[i].kind, head))
  }

  /** A handler of this event that acts so breaks its contract with the order it serves. */
  predicate Drops(p: Pilot, kind: EventKind, actions: seq<Action>) {
    QueueOf(p) != [] && Serves(kind, Head(p)) && !KeepsGoing(Head(p), actions)
  }

  /** The event leaves the scheduler; if its handler is going to drop the head, that is remembered. */
  function Unscheduled(s: Slot, kind: EventKind, actions: seq<Action>): Slot {
    var p := if Drops(s.p, kind, actions) then s.p.(dropped := s.p.dropped + {QueueOf(s.p)[0].ticket}) else s.p;
    Slot(p, s.pending - multiset{kind})
  }

  /** An event fires: it leaves the scheduler and its handler acts. */
  function Fired(s: Slot, kind: EventKind, actions: seq<Action>): Slot {
    var fired := Unscheduled(s, kind, actions);
    if kind.ComEvent? && !s.p.engaged then fired else Act(fired, actions)
  }

  /** auto_com_event when the unit's map is gone: piloting is suspended, and only UDISEMBARK runs. */
  function FiredWithoutMap(s: Slot, actions: seq<Action>): Slot {
    var fired := Slot(s.p.(pilotSuspended := true), s.pending - multiset{ComEvent});
    if Head(s.p) != 28 then fired else Act(fired, actions)
  }

  /** autopilot_resume */
  function Resumed(s: Slot): Slot {
    if !s.p.engaged then s
    else
      var gun := if s.p.gunSuspended then s.p.(gunning := true, gunSuspended := false) else s.p;
      if s.p.pilotSuspended then Scheduled(s.(p := gun.(pilotSuspended := false)), ComEvent)
      else s.(p := gun)
  }

  /** autopilot_gunning_suspend, which the heartbeat of an engaged autopilot may reach. */
  function GunSuspended(p: Pilot): Pilot {
    p.(gunning := false, gunSuspended := true)
  }

  // ---- Lifecycle ---------------------------------------------------------------------------

  const NEW_PILOT := Pilot(NOTHING, false, false, false, false, Some([]), 0, [], {})

  function AllocPilot(w: World, a: DbRef): World {
    w.(pilots := w.pilots[a := NEW_PILOT])
  }

  /** Freeing an autopilot stops it and resets its unit's claim, unless another one took over. */
  function FreePilot(w: World, a: DbRef): World
    requires a in w.pilots
  {
    var unit := w.pilots[a].mymechnum;
    var stopped := Put(w, a, Stopped(SlotOf(w, a)));
    stopped.(pilots := stopped.pilots - {a},
             units := if unit in w.units && w.units[unit] == a then w.units[unit := NOTHING] else w.units)
  }

  function AllocUnit(w: World, u: DbRef): World {
    w.(units := w.units[u := NOTHING])
  }

  /** Freeing a unit stops and strips the autopilot it names. */
  function FreeUnit(w: World, u: DbRef): World
    requires u in w.units
  {
    var a := w.units[u];
    var released :=
      if a > 0 && a in w.pilots then
        Put(w, a, Slot(StoppedPilot(w.pilots[a]).(commands := None, mymechnum := NOTHING), multiset{}))
      else w;
    released.(units := released.units - {u})
  }

  /** A unit forgets an autopilot that is gone or not inside it. */
  function DropStaleClaim(w: World, u: DbRef): World
    requires u in w.units
  {
    var a := w.units[u];
    if a > 0 && (a !in w.pilots || LocationOf(w, a) != u) then w.(units := w.units[u := NOTHING]) else w
  }

  // ---- Steps and runs ----------------------------------------------------------------------

  /** Steps of one autopilot that change only its own fields and events. */
  datatype PilotStep =
    | DisengageStep
    | EnqueueStep(definition: CommandDefinition, arguments: ArgumentList)
    | RemoveStep(position: nat)
    | ClearStep
    | FireStep(kind: EventKind, actions: seq<Action>)
    | FireWithoutMapStep(actions: seq<Action>)
    | SuspendGunStep
    | ResumeStep

  predicate CanTake(s: Slot, step: PilotStep) {
    match step
    case FireStep(kind, _) => s.pending[kind] > 0
    case FireWithoutMapStep(_) => s.pending[ComEvent] > 0
    case SuspendGunStep => s.p.engaged
    case _ => true
  }

  function Taken(s: Slot, step: PilotStep): Slot {
    match step
    case DisengageStep => Disengaged(s)
    case EnqueueStep(definition, arguments) => Enqueued(s, definition, arguments)
    case RemoveStep(position) => s.(p := Removed(s.p, position))
    case ClearStep => s.(p := Cleared(s.p))
    case FireStep(kind, actions) => Fired(s, kind, actions)
    case FireWithoutMapStep(actions) => FiredWithoutMap(s, actions)
    case SuspendGunStep => s.(p := GunSuspended(s.p))
    case ResumeStep => Resumed(s)
  }

  datatype Step =
    | AllocPilotStep(a: DbRef)
    | FreePilotStep(a: DbRef)
    | AllocUnitStep(u: DbRef)
    | FreeUnitStep(u: DbRef)
    | MoveStep(a: DbRef, to: DbRef)
    | DropClaimStep(u: DbRef)
    | EngageStep(a: DbRef)
    | Own(a: DbRef, step: PilotStep)

  predicate Enabled(w: World, s: Step) {
    match s
    case AllocPilotStep(a) => a > 0 && a !in w.pilots
    case FreePilotStep(a) => a in w.pilots
    case AllocUnitStep(u) => u > 0 && u !in w.units
    case FreeUnitStep(u) => u in w.units
    case MoveStep(a, _) => true
    case DropClaimStep(u) => u in w.units
    case EngageStep(a) => a in w.pilots
    case Own(a, step) => a in w.pilots && CanTake(SlotOf(w, a), step)
  }

  function Apply(w: World, s: Step): World
    requires Enabled(w, s)
  {
    match s
    case AllocPilotStep(a) => AllocPilot(w, a)
    case FreePilotStep(a) => FreePilot(w, a)
    case AllocUnitStep(u) => AllocUnit(w, u)
    case FreeUnitStep(u) => FreeUnit(w, u)
    case MoveStep(a, to) => w.(location := w.location[a := to])
    case DropClaimStep(u) => DropStaleClaim(w, u)
    case EngageStep(a) => Engage(w, a)
    case Own(a, step) => Put(w, a, Taken(SlotOf(w, a), step))
  }

  /** The world a sequence of steps leads to, if each was enabled when taken. */
  function Run(w: World, steps: seq<Step>): Option<World>
    decreases |steps|
  {
    if steps == [] then Some(w)
    else
      var before := Run(w, steps[..|steps| - 1]);
      var last := steps[|steps| - 1];
      if before.Some? && Enabled(before.value, last) then Some(Apply(before.value, last)) else None
  }

  // ---- What every run keeps ----------------------------------------------------------------

  /** A disengaged autopilot has no pending event and no suspended mode. */
  ghost predicate Quiet(s: Slot) {
    !s.p.engaged ==> s.pending == multiset{} && !s.p.gunSuspended && !s.p.pilotSuspended
  }

  /** Queued and popped tickets are in the order they were handed out, the queue after the popped. */
  ghost predicate Ordered(p: Pilot) {
    var queue := QueueOf(p);
    && |queue| <= CAPACITY
    && (forall i, j :: 0 <= i < j < |queue| ==> queue[i].ticket < queue[j].ticket)
    && (forall i, j :: 0 <= i < j < |p.popped| ==> p.popped[i] < p.popped[j])
    && (forall i, j :: 0 <= i < |p.popped| && 0 <= j < |queue| ==> p.popped[i] < queue[j].ticket)
    && (forall i :: 0 <= i < |queue| ==> queue[i].ticket < p.nextTicket)
    && (forall i :: 0 <= i < |p.popped| ==> p.popped[i] < p.nextTicket)
  }

  /** Some pending event will act for the head of the queue. */
  ghost predicate Served(s: Slot) {
    QueueOf(s.p) == [] || exists kind :: s.pending[kind] > 0 && Serves(kind, Head(s.p))
  }

  /** A handler has dropped the very order that is first. */
  predicate HeadDropped(p: Pilot) {
    QueueOf(p) != [] && QueueOf(p)[0].ticket in p.dropped
  }

  ghost predicate Progresses(s: Slot) {
    s.p.engaged ==> Served(s) || s.p.pilotSuspended || HeadDropped(s.p)
  }

  ghost predicate SlotOk(s: Slot) {
    Quiet(s) && Ordered(s.p) && Progresses(s)
  }

  /** A unit names an autopilot only if that autopilot exists and is associated with the unit. */
  ghost predicate ClaimOk(w: World, u: DbRef) {
    u in w.units && w.units[u] > 0 ==> w.units[u] in w.pilots && w.pilots[w.units[u]].mymechnum == u
  }

  /** An object number is an autopilot in order, or has nothing pending in the scheduler. */
  ghost predicate PilotOk(w: World, a: DbRef) {
    if a in w.pilots then a > 0 && SlotOk(SlotOf(w, a)) else Pending(w, a) == multiset{}
  }

  ghost predicate Inv(w: World) {
    (forall u: DbRef :: ClaimOk(w, u)) && (forall a: DbRef :: PilotOk(w, a))
  }

  lemma PutKeepsInv(w: World, a: DbRef, s: Slot)
    requires Inv(w) && a in w.pilots && SlotOk(s) && s.p.mymechnum == w.pilots[a].mymechnum
    ensures Inv(Put(w, a, s))
  {
    hide SlotOk;
    var v := Put(w, a, s);
    assert PilotOk(w, a);
    forall u: DbRef ensures ClaimOk(v, u) { assert ClaimOk(w, u); }
    forall b: DbRef ensures PilotOk(v, b) { assert PilotOk(w, b); }
  }

  // ---- Handlers ----------------------------------------------------------------------------

  /** What a handler's actions leave alone. */
  ghost predicate Handled(p: Pilot, q: Pilot) {
    && Ordered(q) && q.mymechnum == p.mymechnum && q.engaged == p.engaged && q.dropped == p.dropped
    && q.pilotSuspended == p.pilotSuspended && q.gunSuspended == p.gunSuspended
  }

  lemma ActingOnce(s: Slot, action: Action)
    requires Ordered(s.p)
    ensures Handled(s.p, ActOnce(s, action).p)
    ensures Served(s) || action.Next? || Serves(action.kind, Head(s.p)) ==> Served(ActOnce(s, action))
    ensures action.Again? ==> ActOnce(s, action).p == s.p
  {
    var t := ActOnce(s, action);
    if action.Next? {
      if QueueOf(s.p) != [] { assert t.pending[ComEvent] > 0; }
    } else {
      assert t.pending[action.kind] > 0;
      if Served(s) && QueueOf(s.p) != [] {
        var k :| s.pending[k] > 0 && Serves(k, Head(s.p));
        assert t.pending[k] > 0;
      }
    }
  }

  /** Whatever a handler does, orders stay in order; if it keeps going, or the head was served
      already, the head is served afterwards. */
  lemma {:induction false} ActingServes(s: Slot, actions: seq<Action>)
    requires Ordered(s.p)
    ensures Handled(s.p, Act(s, actions).p)
    ensures Served(s) || KeepsGoing(Head(s.p), actions) ==> Served(Act(s, actions))
    ensures !KeepsGoing(Head(s.p), actions) ==> Act(s, actions).p == s.p
    decreases |actions|
  {
    if actions != [] {
      var t, rest := ActOnce(s, actions[0]), actions[1..];
      ActingOnce(s, actions[0]);
      ActingServes(t, rest);
      if !KeepsGoing(Head(s.p), actions) {
        assert !actions[0].Next?;
        forall i | 0 <= i < |rest| ensures !(rest[i].Next? || Serves(rest[i].kind, Head(s.p))) {
          assert rest[i] == actions[i + 1];
        }
      }
      if KeepsGoing(Head(s.p), actions) && !Served(t) {
        var i :| 0 <= i < |actions| && (actions[i].Next? || Serves(actions[i].kind, Head(s.p)));
        assert i > 0 && rest[i - 1] == actions[i];
      }
    }
  }

  // ---- Each step keeps the invariant -------------------------------------------------------

  /** The association is untouched and nothing becomes engaged. */
  ghost predicate KeepsSeat(p: Pilot, q: Pilot) {
    q.mymechnum == p.mymechnum && (q.engaged ==> p.engaged)
  }

  lemma FiringIsOk(s: Slot, kind: EventKind, actions: seq<Action>)
    requires SlotOk(s) && s.pending[kind] > 0
    ensures SlotOk(Fired(s, kind, actions)) && KeepsSeat(s.p, Fired(s, kind, actions).p)
  {
    var fired := Unscheduled(s, kind, actions);
    if Served(s) && QueueOf(s.p) != [] && !Serves(kind, Head(s.p)) {
      var k :| s.pending[k] > 0 && Serves(k, Head(s.p));
      assert fired.pending[k] > 0;
    }
    ActingServes(fired, actions);
  }

  lemma FiringWithoutMapIsOk(s: Slot, actions: seq<Action>)
    requires SlotOk(s) && s.pending[ComEvent] > 0
    ensures SlotOk(FiredWithoutMap(s, actions)) && KeepsSeat(s.p, FiredWithoutMap(s, actions).p)
  {
    ActingServes(Slot(s.p.(pilotSuspended := true), s.pending - multiset{ComEvent}), actions);
  }

  lemma EnqueueingIsOk(s: Slot, definition: CommandDefinition, arguments: ArgumentList)
    requires SlotOk(s)
    ensures SlotOk(Enqueued(s, definition, arguments)) && KeepsSeat(s.p, Enqueued(s, definition, arguments).p)
  {
    var t := Enqueued(s, definition, arguments);
    if t != s {
      if QueueOf(s.p) != [] {
        assert Head(t.p) == Head(s.p);
      } else if s.p.engaged {
        assert t.pending[ComEvent] > 0;
      }
    }
  }

  lemma RemovingIsOk(s: Slot, position: nat)
    requires SlotOk(s)
    ensures SlotOk(s.(p := Removed(s.p, position))) && SlotOk(s.(p := Cleared(s.p)))
  {
    hide Serves;
  }

  lemma ResumingIsOk(s: Slot)
    requires SlotOk(s)
    ensures SlotOk(Resumed(s)) && (s.p.engaged ==> SlotOk(s.(p := GunSuspended(s.p))))
  {
    if s.p.engaged && s.p.pilotSuspended { assert Resumed(s).pending[ComEvent] > 0; }
  }

  lemma EngagingIsOk(s: Slot, unit: DbRef)
    requires SlotOk(s)
    ensures SlotOk(EngagedIn(s, unit)) && EngagedIn(s, unit).p.mymechnum == unit
  {
    if QueueOf(s.p) != [] { assert EngagedIn(s, unit).pending[ComEvent] > 0; }
  }

  lemma EngageKeepsInv(w: World, a: DbRef)
    requires Inv(w) && a in w.pilots
    ensures Inv(Engage(w, a))
  {
    var v := Engage(w, a);
    assert PilotOk(w, a);
    if v != w {
      EngagingIsOk(SlotOf(w, a), LocationOf(w, a));
      hide SlotOk, EngagedIn;
      forall u: DbRef ensures ClaimOk(v, u) { assert ClaimOk(w, u); }
      forall b: DbRef ensures PilotOk(v, b) { assert PilotOk(w, b); }
    }
  }

  lemma StopKeepsInv(w: World, a: DbRef)
    requires a in w.pilots
    ensures Inv(w) ==> Inv(Put(w, a, Stopped(SlotOf(w, a))))
  {
    if Inv(w) {
      assert PilotOk(w, a);
      PutKeepsInv(w, a, Stopped(SlotOf(w, a)));
    }
  }

  /** Going on to the next order keeps the invariant while the autopilot is engaged. */
  lemma GoingOnKeepsInv(w: World, a: DbRef)
    requires a in w.pilots && w.pilots[a].engaged
    ensures Inv(w) ==> Inv(Put(w, a, GoneToNext(SlotOf(w, a))))
  {
    if Inv(w) {
      assert PilotOk(w, a);
      ActingOnce(SlotOf(w, a), Next);
      PutKeepsInv(w, a, GoneToNext(SlotOf(w, a)));
    }
  }

  lemma FreePilotKeepsInv(w: World, a: DbRef)
    requires Inv(w) && a in w.pilots
    ensures Inv(FreePilot(w, a))
  {
    var v := FreePilot(w, a);
    forall u: DbRef ensures ClaimOk(v, u) {
      assert ClaimOk(w, u);
    }
    forall b: DbRef ensures PilotOk(v, b) { assert PilotOk(w, b); }
  }

  lemma FreeUnitKeepsInv(w: World, u: DbRef)
    requires Inv(w) && u in w.units
    ensures Inv(FreeUnit(w, u))
  {
    var v := FreeUnit(w, u);
    assert ClaimOk(w, u);
    forall x: DbRef ensures ClaimOk(v, x) { assert ClaimOk(w, x); }
    forall b: DbRef ensures PilotOk(v, b) { assert PilotOk(w, b); }
  }

  lemma SceneryKeepsInv(w: World, s: Step)
    requires Inv(w) && Enabled(w, s)
    requires s.AllocPilotStep? || s.AllocUnitStep? || s.MoveStep? || s.DropClaimStep?
    ensures Inv(Apply(w, s))
  {
    var v := Apply(w, s);
    forall u: DbRef ensures ClaimOk(v, u) { assert ClaimOk(w, u); }
    forall b: DbRef ensures PilotOk(v, b) { assert PilotOk(w, b); }
  }

  lemma TakingIsOk(s: Slot, step: PilotStep)
    requires SlotOk(s) && CanTake(s, step)
    ensures SlotOk(Taken(s, step)) && KeepsSeat(s.p, Taken(s, step).p)
  {
    match step
    case EnqueueStep(definition, arguments) => EnqueueingIsOk(s, definition, arguments);
    case RemoveStep(position) => RemovingIsOk(s, position);
    case ClearStep => RemovingIsOk(s, 0);
    case FireStep(kind, actions) => FiringIsOk(s, kind, actions);
    case FireWithoutMapStep(actions) => FiringWithoutMapIsOk(s, actions);
    case SuspendGunStep => ResumingIsOk(s);
    case ResumeStep => ResumingIsOk(s);
    case DisengageStep =>
  }

  lemma StepKeepsInv(w: World, s: Step)
    requires Inv(w) && Enabled(w, s)
    ensures Inv(Apply(w, s))
  {
    match s
    case EngageStep(a) => EngageKeepsInv(w, a);
    case Own(a, step) =>
      assert PilotOk(w, a);
      TakingIsOk(SlotOf(w, a), step);
      PutKeepsInv(w, a, Taken(SlotOf(w, a), step));
    case FreePilotStep(a) => FreePilotKeepsInv(w, a);
    case FreeUnitStep(u) => FreeUnitKeepsInv(w, u);
    case _ => SceneryKeepsInv(w, s);
  }

  /** The invariant for one administrative call, as the implication the server's methods promise. */
  lemma CallKeepsInv(w: World, a: DbRef, step: PilotStep)
    requires a in w.pilots && CanTake(SlotOf(w, a), step)
    ensures Apply(w, Own(a, step)) == Put(w, a, Taken(SlotOf(w, a), step))
    ensures Inv(w) ==> Inv(Put(w, a, Taken(SlotOf(w, a), step)))
  {
    if Inv(w) { StepKeepsInv(w, Own(a, step)); }
  }

  /** The invariant holds after every run from the empty world. */
  lemma {:induction false} RunKeepsInv(steps: seq<Step>)
    ensures Run(EMPTY, steps).Some? ==> Inv(Run(EMPTY, steps).value)
    decreases |steps|
  {
    if steps != [] {
      var before := steps[..|steps| - 1];
      RunKeepsInv(before);
      if Run(EMPTY, steps).Some? { StepKeepsInv(Run(EMPTY, before).value, steps[|steps| - 1]); }
    }
  }

  // ---- Claims ------------------------------------------------------------------------------

  /** After every run each autopilot is named by at most one unit, the one it is associated with. */
  lemma ClaimsAreExclusive(steps: seq<Step>, u1: DbRef, u2: DbRef)
    requires Run(EMPTY, steps).Some?
    requires var w := Run(EMPTY, steps).value;
             u1 in w.units && u2 in w.units && w.units[u1] == w.units[u2] && w.units[u1] > 0
    ensures u1 == u2 && Run(EMPTY, steps).value.units[u1] in Run(EMPTY, steps).value.pilots
  {
    RunKeepsInv(steps);
    var w := Run(EMPTY, steps).value;
    assert ClaimOk(w, u1) && ClaimOk(w, u2);
  }

  predicate IsEngaged(w: World, a: DbRef) {
    a in w.pilots && w.pilots[a].engaged
  }

  /** An engaged autopilot sits in the unit it is associated with, and that unit names it. */
  ghost predicate Seated(w: World, a: DbRef) {
    IsEngaged(w, a) ==>
      var u := w.pilots[a].mymechnum;
      u in w.units && LocationOf(w, a) == u && w.units[u] == a
  }

  /** The step does not carry an engaged autopilot elsewhere. */
  predicate StaysPut(w: World, s: Step) {
    s.MoveStep? ==> !IsEngaged(w, s.a) || s.to == LocationOf(w, s.a)
  }

  predicate RunStaysPut(w: World, steps: seq<Step>)
    requires Run(w, steps).Some?
    decreases |steps|
  {
    steps == [] ||
    (var before := steps[..|steps| - 1];
     RunStaysPut(w, before) && StaysPut(Run(w, before).value, steps[|steps| - 1]))
  }

  lemma StepKeepsSeats(w: World, s: Step)
    requires Inv(w) && (forall b: DbRef :: Seated(w, b)) && Enabled(w, s) && StaysPut(w, s)
    ensures forall b: DbRef :: Seated(Apply(w, s), b)
  {
    var v := Apply(w, s);
    if s.Own? {
      assert PilotOk(w, s.a);
      TakingIsOk(SlotOf(w, s.a), s.step);
    }
    forall b: DbRef ensures Seated(v, b) { SeatIsKept(w, v, s, b); }
  }

  lemma PutKeepsSeat(w: World, a: DbRef, s: Slot, b: DbRef)
    requires a in w.pilots && Seated(w, b) && KeepsSeat(w.pilots[a], s.p)
    ensures Seated(Put(w, a, s), b)
  {
  }

  lemma EngageKeepsSeat(w: World, a: DbRef, b: DbRef)
    requires Inv(w) && a in w.pilots && Seated(w, a) && Seated(w, b)
    ensures Seated(Engage(w, a), b)
  {
    assert PilotOk(w, b);
    hide SlotOk;
  }

  lemma SeatIsKept(w: World, v: World, s: Step, b: DbRef)
    requires Inv(w) && Enabled(w, s) && StaysPut(w, s) && v == Apply(w, s)
    requires Seated(w, b) && (s.EngageStep? ==> Seated(w, s.a))
    requires s.Own? ==> KeepsSeat(w.pilots[s.a], v.pilots[s.a])
    ensures Seated(v, b)
  {
    if s.Own? {
      PutKeepsSeat(w, s.a, Taken(SlotOf(w, s.a), s.step), b);
    } else if s.EngageStep? {
      EngageKeepsSeat(w, s.a, b);
    } else {
      assert PilotOk(w, b);
      if s.FreePilotStep? { assert ClaimOk(w, w.pilots[s.a].mymechnum); }
      hide SlotOk, Taken, Engage;
    }
  }

  lemma {:induction false} RunKeepsSeats(steps: seq<Step>)
    requires Run(EMPTY, steps).Some? && RunStaysPut(EMPTY, steps)
    ensures forall b: DbRef :: Seated(Run(EMPTY, steps).value, b)
    decreases |steps|
  {
    if steps != [] {
      var before := steps[..|steps| - 1];
      RunKeepsSeats(before);
      RunKeepsInv(before);
      StepKeepsSeats(Run(EMPTY, before).value, steps[|steps| - 1]);
    }
  }

  /** While engaged autopilots stay where they are, no two of them share a unit. */
  lemma OneEngagedPerUnit(steps: seq<Step>, a: DbRef, b: DbRef)
    requires Run(EMPTY, steps).Some? && RunStaysPut(EMPTY, steps)
    requires var w := Run(EMPTY, steps).value;
             IsEngaged(w, a) && IsEngaged(w, b) && w.pilots[a].mymechnum == w.pilots[b].mymechnum
    ensures a == b
  {
    RunKeepsSeats(steps);
    var w := Run(EMPTY, steps).value;
    assert Seated(w, a) && Seated(w, b);
  }

  /** A run that lets an engaged autopilot leave and come back ends with two engaged autopilots in
      one unit: staying put cannot be dropped from OneEngagedPerUnit. */
  lemma LeavingAnEngagedAutopilotSharesAUnit() returns (steps: seq<Step>)
    ensures Run(EMPTY, steps).Some?
    ensures var w := Run(EMPTY, steps).value;
            && IsEngaged(w, 1) && IsEngaged(w, 2)
            && w.pilots[1].mymechnum == 9 && w.pilots[2].mymechnum == 9
            && LocationOf(w, 1) == 9 && LocationOf(w, 2) == 9
  {
    steps := [];
    steps := Extended(steps, AllocPilotStep(1));
    steps := Extended(steps, AllocPilotStep(2));
    steps := Extended(steps, AllocUnitStep(9));
    steps := Extended(steps, MoveStep(1, 9));
    steps := Extended(steps, EngageStep(1));
    steps := Extended(steps, MoveStep(1, 8));
    steps := Extended(steps, MoveStep(2, 9));
    steps := Extended(steps, EngageStep(2));
    steps := Extended(steps, MoveStep(1, 9));
  }

  /** No two engaged autopilots are associated with one unit. */
  ghost predicate Exclusive(w: World) {
    forall a: DbRef, b: DbRef ::
      IsEngaged(w, a) && IsEngaged(w, b) && w.pilots[a].mymechnum == w.pilots[b].mymechnum ==> a == b
  }

  /** No engaged autopilot holds the unit. */
  ghost predicate Untaken(w: World, unit: DbRef) {
    forall b: DbRef :: IsEngaged(w, b) ==> w.pilots[b].mymechnum != unit
  }

  /** The step is not an engagement that succeeds in a unit another engaged autopilot holds. */
  ghost predicate EngagesFree(w: World, s: Step)
    requires Enabled(w, s)
  {
    s.EngageStep? && EngageResult(w, s.a).AdminOk? ==> Untaken(w, LocationOf(w, s.a))
  }

  /** Which engagements share a unit: exactly those that succeed in a unit some engaged autopilot holds,
      wherever that autopilot has been carried meanwhile. */
  lemma EngagingSharesExactly(w: World, a: DbRef)
    requires Exclusive(w) && a in w.pilots && EngageResult(w, a).AdminOk?
    ensures Exclusive(Engage(w, a)) <==> Untaken(w, LocationOf(w, a))
  {
    var v, unit := Engage(w, a), LocationOf(w, a);
    assert v.pilots == w.pilots[a := EngagedIn(SlotOf(w, a), unit).p];
    assert IsEngaged(v, a) && v.pilots[a].mymechnum == unit;
    hide EngagedIn, Engage, EngageResult;
    assert forall b: DbRef :: b != a ==> IsEngaged(v, b) == IsEngaged(w, b);
    if b: DbRef :| IsEngaged(w, b) && w.pilots[b].mymechnum == unit {
      assert IsEngaged(v, b);
    }
  }

  /** Every other step keeps autopilots apart. */
  lemma StepKeepsExclusive(w: World, s: Step)
    requires Inv(w) && Exclusive(w) && Enabled(w, s)
    ensures Exclusive(Apply(w, s)) <==> EngagesFree(w, s)
  {
    if s.EngageStep? {
      if EngageResult(w, s.a).AdminOk? { EngagingSharesExactly(w, s.a); }
    } else {
      if s.Own? {
        assert PilotOk(w, s.a);
        TakingIsOk(SlotOf(w, s.a), s.step);
      }
      EngagesNobody(w, s);
    }
  }

  lemma EngagesNobody(w: World, s: Step)
    requires Enabled(w, s) && !s.EngageStep? && Exclusive(w)
    requires s.Own? ==> KeepsSeat(w.pilots[s.a], Taken(SlotOf(w, s.a), s.step).p)
    ensures Exclusive(Apply(w, s))
  {
    var v := Apply(w, s);
    hide Taken, Exclusive;
    forall b: DbRef | IsEngaged(v, b) ensures IsEngaged(w, b) && v.pilots[b].mymechnum == w.pilots[b].mymechnum {
    }
    ApartAsBefore(w, v);
  }

  lemma ApartAsBefore(w: World, v: World)
    requires Exclusive(w)
    requires forall b: DbRef :: IsEngaged(v, b) ==> IsEngaged(w, b) && v.pilots[b].mymechnum == w.pilots[b].mymechnum
    ensures Exclusive(v)
  {
  }

  /** At no time along the run do two engaged autopilots share a unit. */
  ghost predicate AlwaysExclusive(steps: seq<Step>)
    requires Run(EMPTY, steps).Some?
    decreases |steps|
  {
    Exclusive(Run(EMPTY, steps).value) && (steps == [] || AlwaysExclusive(steps[..|steps| - 1]))
  }

  /** Every engagement of the run finds its unit free of engaged autopilots. */
  ghost predicate EveryEngagementFree(steps: seq<Step>)
    requires Run(EMPTY, steps).Some?
    decreases |steps|
  {
    steps == [] ||
    (var before := steps[..|steps| - 1];
     EveryEngagementFree(before) && EngagesFree(Run(EMPTY, before).value, steps[|steps| - 1]))
  }

  /** The runs along which a unit never has two engaged autopilots are exactly those whose engagements
      all find their unit free. */
  lemma {:induction false} ExclusiveExactly(steps: seq<Step>)
    requires Run(EMPTY, steps).Some?
    ensures AlwaysExclusive(steps) <==> EveryEngagementFree(steps)
    decreases |steps|
  {
    if steps != [] {
      var before := steps[..|steps| - 1];
      ExclusiveExactly(before);
      RunKeepsInv(before);
      if AlwaysExclusive(before) {
        StepKeepsExclusive(Run(EMPTY, before).value, steps[|steps| - 1]);
      }
    }
  }

  lemma Extended(steps: seq<Step>, s: Step) returns (longer: seq<Step>)
    requires Run(EMPTY, steps).Some? && Enabled(Run(EMPTY, steps).value, s)
    ensures longer == steps + [s]
    ensures Run(EMPTY, longer) == Some(Apply(Run(EMPTY, steps).value, s))
  {
    longer := steps + [s];
    assert longer[..|longer| - 1] == steps;
  }

  // ---- Progress ----------------------------------------------------------------------------

  /** After every run an engaged autopilot with orders is going to be served by a pending event,
      unless its piloting is suspended or a handler dropped the very order that is first; a disengaged
      one has nothing pending. Orders are popped in the order they were queued. */
  lemma RunsProgress(steps: seq<Step>, a: DbRef)
    requires Run(EMPTY, steps).Some? && a in Run(EMPTY, steps).value.pilots
    ensures var s := SlotOf(Run(EMPTY, steps).value, a);
            && (s.p.engaged && QueueOf(s.p) != [] && !s.p.pilotSuspended && !HeadDropped(s.p) ==>
                  exists kind :: s.pending[kind] > 0 && Serves(kind, Head(s.p)))
            && (!s.p.engaged ==> s.pending == multiset{} && !s.p.gunSuspended && !s.p.pilotSuspended)
            && |QueueOf(s.p)| <= CAPACITY
            && (forall i, j :: 0 <= i < j < |s.p.popped| ==> s.p.popped[i] < s.p.popped[j])
  {
    RunKeepsInv(steps);
    assert PilotOk(Run(EMPTY, steps).value, a);
  }

  /** An order is dropped exactly when an event fires that serves it at the head of the queue and whose
      handler neither advances nor schedules anything that serves it; so the dispatch of an empty queue
      drops nothing. */
  lemma DroppedExactly(s: Slot, step: PilotStep)
    requires CanTake(s, step) && Ordered(s.p)
    ensures Taken(s, step).p.dropped ==
            if step.FireStep? && Drops(s.p, step.kind, step.actions) then s.p.dropped + {QueueOf(s.p)[0].ticket}
            else s.p.dropped
  {
    match step
    case FireStep(kind, actions) => ActingServes(Unscheduled(s, kind, actions), actions);
    case FireWithoutMapStep(actions) =>
      ActingServes(Slot(s.p.(pilotSuspended := true), s.pending - multiset{ComEvent}), actions);
    case _ =>
  }

  /** No handler of the step breaks its contract. */
  predicate Diligent(w: World, s: Step)
    requires Enabled(w, s)
  {
    s.Own? && s.step.FireStep? ==> !Drops(w.pilots[s.a], s.step.kind, s.step.actions)
  }

  ghost predicate RunIsDiligent(steps: seq<Step>)
    requires Run(EMPTY, steps).Some?
    decreases |steps|
  {
    steps == [] ||
    (var before := steps[..|steps| - 1];
     RunIsDiligent(before) && Diligent(Run(EMPTY, before).value, steps[|steps| - 1]))
  }

  lemma StepDropsNothing(w: World, s: Step, a: DbRef)
    requires Inv(w) && Enabled(w, s) && Diligent(w, s) && a in Apply(w, s).pilots
    requires a in w.pilots ==> w.pilots[a].dropped == {}
    ensures Apply(w, s).pilots[a].dropped == {}
  {
    if s.Own? {
      assert PilotOk(w, a) && PilotOk(w, s.a);
      DroppedExactly(SlotOf(w, s.a), s.step);
      hide Taken, SlotOk;
    } else {
      hide Taken, Inv;
    }
  }

  lemma {:induction false} DiligentRunsDropNothing(steps: seq<Step>, a: DbRef)
    requires Run(EMPTY, steps).Some? && RunIsDiligent(steps) && a in Run(EMPTY, steps).value.pilots
    ensures Run(EMPTY, steps).value.pilots[a].dropped == {}
    decreases |steps|
  {
    if steps != [] {
      var before, last := steps[..|steps| - 1], steps[|steps| - 1];
      var w := Run(EMPTY, before).value;
      if a in w.pilots { DiligentRunsDropNothing(before, a); }
      RunKeepsInv(before);
      StepDropsNothing(w, last, a);
    }
  }

  /** While every handler reschedules or moves on, an engaged autopilot with orders whose piloting is not
      suspended always has an event pending that serves its first order. */
  lemma DiligentRunsProgress(steps: seq<Step>, a: DbRef)
    requires Run(EMPTY, steps).Some? && RunIsDiligent(steps) && a in Run(EMPTY, steps).value.pilots
    ensures var s := SlotOf(Run(EMPTY, steps).value, a);
            s.p.engaged && QueueOf(s.p) != [] && !s.p.pilotSuspended ==>
              exists kind :: s.pending[kind] > 0 && Serves(kind, Head(s.p))
  {
    RunsProgress(steps, a);
    DiligentRunsDropNothing(steps, a);
  }

  /** The order with this ticket is still the head, or it was popped. */
  ghost predicate HeadOrPopped(p: Pilot, ticket: nat) {
    (QueueOf(p) != [] && QueueOf(p)[0].ticket == ticket) || ticket in p.popped
  }

  lemma {:induction false} ActingKeepsHeadOrPops(s: Slot, actions: seq<Action>, ticket: nat)
    requires HeadOrPopped(s.p, ticket)
    ensures HeadOrPopped(Act(s, actions).p, ticket)
    decreases |actions|
  {
    if actions != [] {
      var t := ActOnce(s, actions[0]);
      if actions[0].Next? && QueueOf(s.p) != [] {
        assert t.p.popped == s.p.popped + [QueueOf(s.p)[0].ticket];
      }
      ActingKeepsHeadOrPops(t, actions[1..], ticket);
    }
  }

  /** While an autopilot stays engaged, its head order leaves the queue only by being popped. */
  lemma EngagedHeadLeavesOnlyByPop(s: Slot, step: PilotStep)
    requires CanTake(s, step) && QueueOf(s.p) != [] && s.p.engaged && Taken(s, step).p.engaged
    ensures HeadOrPopped(Taken(s, step).p, QueueOf(s.p)[0].ticket)
  {
    var ticket := QueueOf(s.p)[0].ticket;
    match step
    case FireStep(kind, actions) =>
      ActingKeepsHeadOrPops(Unscheduled(s, kind, actions), actions, ticket);
    case FireWithoutMapStep(actions) =>
      ActingKeepsHeadOrPops(Slot(s.p.(pilotSuspended := true), s.pending - multiset{ComEvent}), actions, ticket);
    case _ =>
  }

  // ---- What the steps do, field by field ---------------------------------------------------

  function Tickets(queue: seq<Queued>): (tickets: seq<nat>)
    ensures |tickets| == |queue|
  {
    seq(|queue|, i requires 0 <= i < |queue| => queue[i].ticket)
  }

  /** Removing position n takes exactly the n-th order: its ticket is gone, every other one is left, and
      they are in their old order. It is refused exactly for a position that is not there and for the
      first order of an engaged autopilot. */
  lemma RemovingTakesTheTicket(p: Pilot, position: nat)
    requires Ordered(p)
    ensures RemoveResult(p, position).AdminOk? <==>
              1 <= position <= |QueueOf(p)| && !(p.engaged && position == 1)
    ensures !RemoveResult(p, position).AdminOk? ==> Removed(p, position) == p
    ensures RemoveResult(p, position).AdminOk? ==>
              var queue, before, after := QueueOf(p), Tickets(QueueOf(p)), Tickets(QueueOf(Removed(p, position)));
              && Removed(p, position) == p.(commands := Some(queue[..position - 1] + queue[position..]))
              && after == before[..position - 1] + before[position..]
              && forall t :: t in after <==> t in before && t != before[position - 1]
  {
    if RemoveResult(p, position).AdminOk? {
      var queue, before, after := QueueOf(p), Tickets(QueueOf(p)), Tickets(QueueOf(Removed(p, position)));
      assert after == before[..position - 1] + before[position..];
      forall t ensures t in after <==> t in before && t != before[position - 1] {
        if t in before && t != before[position - 1] {
          var i :| 0 <= i < |before| && before[i] == t;
          assert if i < position - 1 then after[i] == t else after[i - 1] == t;
        }
      }
    }
  }

  /** Clearing leaves no order, unless an engaged autopilot is working on one, and touches nothing else. */
  lemma ClearingEmpties(p: Pilot)
    ensures if p.engaged && QueueOf(p) != [] then Cleared(p) == p
            else QueueOf(Cleared(p)) == [] && Cleared(p).(commands := p.commands) == p
                 && (Cleared(p).commands.Some? <==> p.commands.Some?)
  {
  }

  /** Stopping disengages, forgets gunning and both suspensions, and leaves the orders. */
  lemma StoppingClears(s: Slot)
    ensures var p := Stopped(s).p;
            && !p.engaged && !p.gunning && !p.gunSuspended && !p.pilotSuspended
            && QueueOf(p) == QueueOf(s.p) && p.mymechnum == s.p.mymechnum && Stopped(s).pending == multiset{}
    ensures !Disengaged(s).p.engaged && QueueOf(Disengaged(s).p) == QueueOf(s.p)
            && (if s.p.engaged then Disengaged(s).pending == multiset{} else Disengaged(s) == s)
  {
  }

  /** Resuming an engaged autopilot lifts both suspensions: a suspended gun fires again, suspended piloting
      is dispatched once more, and nothing else changes. */
  lemma ResumingLifts(s: Slot)
    ensures !s.p.engaged ==> Resumed(s) == s
    ensures s.p.engaged ==>
              var p := Resumed(s).p;
              && !p.gunSuspended && !p.pilotSuspended && (p.gunning <==> s.p.gunning || s.p.gunSuspended)
              && p == s.p.(gunning := p.gunning, gunSuspended := false, pilotSuspended := false)
              && forall kind: EventKind :: Resumed(s).pending[kind]
                             == s.pending[kind] + if kind.ComEvent? && s.p.pilotSuspended then 1 else 0
  {
  }

  /** What the association says: the unit around the autopilot, if it is in one, and a conflict exactly
      when another unit names it, or its unit is gone from around it, or a live autopilot that is there
      claims the unit around it. */
  lemma AssociationExactly(w: World, a: DbRef)
    requires a in w.pilots
    ensures var (association, container) := Associate(w, a);
            var where, mech := LocationOf(w, a), w.pilots[a].mymechnum;
            && container == (if where in w.units then Some(where) else None)
            && (association.Associated? <==> where in w.units && mech == where && w.units[where] == a)
            && (association.NoAssociation? <==> where !in w.units && mech !in w.units)
            && (association.Conflict? <==>
                  || (mech in w.units && mech != where && w.units[mech] == a)
                  || (mech in w.units && where !in w.units)
                  || (where in w.units && w.units[where] > 0 && w.units[where] != a
                      && w.units[where] in w.pilots && LocationOf(w, w.units[where]) == where))
  {
  }

  /** Without a map piloting is suspended, and the handler acts only to disembark. */
  lemma OnlyDisembarkingNeedsNoMap(s: Slot, actions: seq<Action>)
    ensures var idle := Slot(s.p.(pilotSuspended := true), s.pending - multiset{ComEvent});
            FiredWithoutMap(s, actions)
            == if QueueOf(s.p) != [] && QueueOf(s.p)[0].command.commandEnum == CommandEnumOf(Plain(Udisembark))
               then Act(idle, actions) else idle
  {
  }

  function AtLeastOne(n: nat): nat {
    if n == 0 then 1 else n
  }

  /** Engaging and enqueueing wake an autopilot that has a first order to run with one dispatch, and add
      none where one is pending. */
  lemma OneDispatchIsEnough(s: Slot, unit: DbRef, definition: CommandDefinition, arguments: ArgumentList)
    ensures var engaged := EngagedIn(s, unit);
            && engaged.p == s.p.(mymechnum := unit, engaged := true)
            && engaged.pending[ComEvent]
               == if QueueOf(s.p) == [] then s.pending[ComEvent] else AtLeastOne(s.pending[ComEvent])
    ensures var queued := Enqueued(s, definition, arguments);
            && (queued == s ||
                (queued.p.(commands := s.p.commands, nextTicket := s.p.nextTicket) == s.p
                 && QueueOf(queued.p) == QueueOf(s.p) + [Queued(s.p.nextTicket, Record(definition, arguments))]))
            && queued.pending[ComEvent]
               == if queued != s && s.p.engaged && QueueOf(s.p) == [] then AtLeastOne(s.pending[ComEvent])
                  else s.pending[ComEvent]
    ensures forall kind: EventKind :: !kind.ComEvent? ==>
              EngagedIn(s, unit).pending[kind] == Enqueued(s, definition, arguments).pending[kind] == s.pending[kind]
  {
  }

  /** A unit's claim is dropped exactly when it names an autopilot that is gone or somewhere else. */
  lemma StaleClaimsAreDropped(w: World, u: DbRef)
    requires u in w.units
    ensures var v, a := DropStaleClaim(w, u), w.units[u];
            && v == w.(units := w.units[u := v.units[u]])
            && (v.units[u] > 0 ==> v.units[u] in v.pilots && LocationOf(v, v.units[u]) == u)
            && (a in w.pilots && LocationOf(w, a) == u ==> v == w)
  {
  }

  // ---- The dispatcher ----------------------------------------------------------------------

  /** What the dispatcher sees of the unit: running, starting up, or fallen or landed. */
  datatype UnitState = UnitState(started: bool, startingUp: bool, down: bool)

  /** auto_command_startup */
  function StartupActions(unit: UnitState): seq<Action> {
    if unit.started || unit.startingUp then [] else [Next]
  }

  /** The switch of auto_com_event. The handlers of immediate commands may act first (`extra`). */
  function Dispatched(head: int, unit: UnitState, roamOk: bool, extra: seq<Action>): seq<Action> {
    match head
    case 0 => [Again(FollowEvent)]
    case 1 => [Again(DumbFollowEvent)]
    case 2 => [Again(DumbGotoEvent)]
    case 3 => [Again(EnterEvent)]
    case 4 => [Again(FollowEvent)]
    case 5 => [Again(GotoEvent)]
    case 6 => [Again(LeaveEvent)]
    case 7 =>
      if !unit.started then StartupActions(unit)
      else if unit.down then [Again(ComEvent)]
      else [Again(OldGotoEvent)]
    case 8 => if roamOk then [Again(RoamEvent)] else [Next]
    case 24 => StartupActions(unit)
    case _ => if IsSupported(head) then extra + [Next] else []
  }

  /** What the dispatcher does with each order: a goal schedules its own event and stays first, a command is
      carried out and left behind. A unit that is off is started, which leaves oldgoto behind, and one
      that is down gets up and is dispatched again. */
  lemma DispatchOfOrder(order: Order, unit: UnitState, roamOk: bool, extra: seq<Action>)
    requires !order.Unlisted?
    ensures var starting := if unit.started || unit.startingUp then [] else [Next];
            Dispatched(CommandEnumOf(order), unit, roamOk, extra) ==
              match order
              case TargetOrder(ChaseTarget, _) => [Again(FollowEvent)]
              case TargetOrder(DumbFollow, _) => [Again(DumbFollowEvent)]
              case TargetOrder(Follow, _) => [Again(FollowEvent)]
              case DestinationOrder(DumbGoto, _, _) => [Again(DumbGotoEvent)]
              case DestinationOrder(Goto, _, _) => [Again(GotoEvent)]
              case DestinationOrder(OldGoto, _, _) =>
                if unit.started then [Again(if unit.down then ComEvent else OldGotoEvent)] else starting
              case EnterBase(_) => [Again(EnterEvent)]
              case LeaveBase(_) => [Again(LeaveEvent)]
              case Roam(_, _, _, _) => [if roamOk then Again(RoamEvent) else Next]
              case Plain(Startup) => starting
              case _ => extra + [Next]
  {
  }

  /** The event a goal schedules serves the goal, and no event but the dispatch serves two kinds of order
      that are not both followings. */
  lemma GoalsServeThemselves(order: Order, other: Order, kind: EventKind)
    requires !order.Unlisted? && !other.Unlisted? && !kind.ComEvent?
    requires Serves(kind, CommandEnumOf(order)) && Serves(kind, CommandEnumOf(other))
    ensures CommandEnumOf(order) == CommandEnumOf(other) || kind.FollowEvent?
    ensures forall unit: UnitState, roamOk: bool, extra: seq<Action> :: unit.started && !unit.down && roamOk ==>
              Dispatched(CommandEnumOf(order), unit, roamOk, extra) == [Again(kind)]
  {
  }

  /** The dispatcher drops a supported order exactly in two situations: STARTUP for a unit that is
      already up or starting, and OLDGOTO for a unit that is still starting. */
  lemma DispatchDropsExactly(head: int, unit: UnitState, roamOk: bool, extra: seq<Action>)
    requires IsSupported(head)
    ensures !KeepsGoing(head, Dispatched(head, unit, roamOk, extra)) <==>
              (head == 24 && (unit.started || unit.startingUp)) || (head == 7 && !unit.started && unit.startingUp)
  {
    var actions := Dispatched(head, unit, roamOk, extra);
    if actions != [] {
      var last := actions[|actions| - 1];
      assert last.Next? || Serves(last.kind, head);
    }
  }

  /** An engaged autopilot can come to have STARTUP at its head and one dispatch pending. */
  lemma StartupCanBeNext() returns (steps: seq<Step>)
    ensures Run(EMPTY, steps).Some? && IsEngaged(Run(EMPTY, steps).value, 1)
    ensures var s := SlotOf(Run(EMPTY, steps).value, 1);
            Head(s.p) == 24 && !s.p.pilotSuspended && s.pending == multiset{ComEvent}
  {
    var definition, arguments := CommandDefinition("startup", 0, 24), ArgumentsFor("startup", []);
    var queued := Enqueued(Slot(NEW_PILOT, multiset{}), definition, arguments);
    assert ArgumentsMatch(definition, arguments);
    assert QueueOf(queued.p) == [Queued(0, Record(definition, arguments))] && queued.pending == multiset{};
    steps := Extended([], AllocPilotStep(1));
    steps := Extended(steps, AllocUnitStep(9));
    steps := Extended(steps, MoveStep(1, 9));
    steps := Extended(steps, Own(1, EnqueueStep(definition, arguments)));
    assert SlotOf(Run(EMPTY, steps).value, 1) == queued;
    steps := Extended(steps, EngageStep(1));
  }

  /** A queued STARTUP order stalls an autopilot whose unit is already running: it stays engaged with
      the order at its head and nothing pending. */
  lemma StartupOfRunningUnitStalls() returns (steps: seq<Step>)
    ensures Run(EMPTY, steps).Some?
    ensures var w := Run(EMPTY, steps).value;
            && IsEngaged(w, 1) && Head(w.pilots[1]) == 24 && !w.pilots[1].pilotSuspended
            && Pending(w, 1) == multiset{}
  {
    var before := StartupCanBeNext();
    var idle := Dispatched(24, UnitState(true, false, false), true, []);
    steps := Extended(before, Own(1, FireStep(ComEvent, idle)));
  }
}
