/** The administrative calls updating the server's objects in place. Each call takes the world to the
    state its step describes, so it keeps the invariant of every run. */
module AutopilotServer {
  import opened Objects
  import opened Options
  import opened OrderCodec
  import opened OrderQueue
  import opened AutopilotProtocol

  class Server {
    var pilots: map<DbRef, Pilot>
    var units: map<DbRef, DbRef>
    var location: map<DbRef, DbRef>
    var events: map<DbRef, multiset<EventKind>>

    constructor ()
      ensures View() == EMPTY
    {
      pilots, units, location, events := map[], map[], map[], map[];
    }

    function View(): World
      reads this
    {
      World(pilots, units, location, events)
    }

    method ScheduleEvent(a: DbRef, kind: EventKind)
      modifies this`events
      ensures events == old(events)[a := Pending(old(View()), a) + multiset{kind}]
    {
      events := events[a := Pending(View(), a) + multiset{kind}];
    }

    method ScheduleCommandIfNeeded(a: DbRef)
      requires a in pilots
      modifies this`events
      ensures events == Put(old(View()), a, ScheduledIfNeeded(SlotOf(old(View()), a))).events
    {
      if Pending(View(), a)[ComEvent] == 0 {
        ScheduleEvent(a, ComEvent);
      }
    }

    method Engage(a: DbRef) returns (result: AdminResult)
      requires a in pilots
      modifies this
      ensures result == EngageResult(old(View()), a)
      ensures View() == AutopilotProtocol.Engage(old(View()), a)
      ensures Inv(old(View())) ==> Inv(View())
    {
      if Inv(View()) { EngageKeepsInv(View(), a); }
      hide Inv;
      if pilots[a].engaged { return AlreadyEngaged; }
      var (association, container) := Associate(View(), a);
      if container.None? { return NotInstalled; }
      if association.Conflict? { return ClaimConflict; }
      TakeUnit(a, container.value);
      return AdminOk;
    }

    /** The assignments of a successful engagement. */
    method TakeUnit(a: DbRef, unit: DbRef)
      requires a in pilots
      modifies this`pilots, this`units, this`events
      ensures View() == Put(old(View()), a, EngagedIn(SlotOf(old(View()), a), unit)).(units := old(units)[unit := a])
    {
      var p := pilots[a].(mymechnum := unit, engaged := true);
      pilots := pilots[a := p];
      units := units[unit := a];
      if |QueueOf(p)| > 0 { ScheduleCommandIfNeeded(a); }
    }

    /** auto_stop_pilot: clears the modes and removes every autopilot event type in turn. */
    method StopPilot(a: DbRef)
      requires a in pilots
      modifies this`pilots, this`events
      ensures View() == Put(old(View()), a, Stopped(SlotOf(old(View()), a)))
      ensures Inv(old(View())) ==> Inv(View())
    {
      StopKeepsInv(View(), a);
      hide Inv;
      pilots := pilots[a := pilots[a].(gunning := false, gunSuspended := false, pilotSuspended := false)];
      pilots := pilots[a := pilots[a].(engaged := false)];
      RemoveAutoEvents(a);
    }

    /** Every autopilot event type of one autopilot is taken out of the scheduler. */
    method RemoveAutoEvents(a: DbRef)
      modifies this`events
      ensures events == if a in old(events) then old(events)[a := multiset{}] else old(events)
    {
      if a !in events { return; }
      ghost var before := events[a];
      for eventType := FIRST_AUTO_EVENT to LAST_AUTO_EVENT + 1
        invariant a in events && events == old(events)[a := events[a]]
        invariant forall k :: events[a][k] == if TypeOf(k) < eventType then 0 else before[k]
        modifies this`events
      {
        RemoveTypeRemoves(events[a], eventType);
        events := events[a := RemoveType(events[a], eventType)];
      }
      assert forall k :: TypeOf(k) <= LAST_AUTO_EVENT;
      assert events[a] == multiset{};
    }

    method Disengage(a: DbRef) returns (result: AdminResult)
      requires a in pilots
      modifies this`pilots, this`events
      ensures result == if old(pilots)[a].engaged then AdminOk else AlreadyDisengaged
      ensures View() == Apply(old(View()), Own(a, DisengageStep))
      ensures Inv(old(View())) ==> Inv(View())
    {
      CallKeepsInv(View(), a, DisengageStep);
      hide Inv, Apply;
      if !pilots[a].engaged { return AlreadyDisengaged; }
      StopPilot(a);
      return AdminOk;
    }

    method Remove(a: DbRef, position: nat) returns (result: AdminResult)
      requires a in pilots
      modifies this`pilots
      ensures result == RemoveResult(old(pilots)[a], position)
      ensures var queue := QueueOf(old(pilots)[a]);
              && (result.AdminOk? <==> 1 <= position <= |queue| && !(old(pilots)[a].engaged && position == 1))
              && a in pilots
              && (result.AdminOk? ==> QueueOf(pilots[a]) == queue[..position - 1] + queue[position..]
                                      && pilots == old(pilots)[a := old(pilots)[a].(commands := pilots[a].commands)])
              && (!result.AdminOk? ==> pilots == old(pilots))
      ensures View() == Apply(old(View()), Own(a, RemoveStep(position)))
      ensures Inv(old(View())) ==> Inv(View())
    {
      CallKeepsInv(View(), a, RemoveStep(position));
      hide Inv, Apply;
      var p := pilots[a];
      if position == 0 || position > |QueueOf(p)| {
        result := OrderNotFound;
      } else if p.engaged && position == 1 {
        result := ActiveOrder;
      } else {
        var queue := p.commands.value;
        pilots := pilots[a := p.(commands := Some(queue[..position - 1] + queue[position..]))];
        result := AdminOk;
      }
    }

    method Clear(a: DbRef) returns (result: AdminResult)
      requires a in pilots
      modifies this`pilots
      ensures result == if old(pilots)[a].engaged && |QueueOf(old(pilots)[a])| > 0 then ActiveOrder else AdminOk
      ensures if result.AdminOk? then a in pilots && QueueOf(pilots[a]) == [] else pilots == old(pilots)
      ensures View() == Apply(old(View()), Own(a, ClearStep))
      ensures Inv(old(View())) ==> Inv(View())
    {
      CallKeepsInv(View(), a, ClearStep);
      hide Inv, Apply;
      var p := pilots[a];
      if p.engaged && |QueueOf(p)| > 0 {
        result := ActiveOrder;
      } else {
        while |QueueOf(pilots[a])| > 0
          invariant a in pilots && pilots == old(pilots)[a := p.(commands := pilots[a].commands)]
          invariant pilots[a].commands.Some? <==> p.commands.Some?
          decreases |QueueOf(pilots[a])|
        {
          pilots := pilots[a := pilots[a].(commands := Some(pilots[a].commands.value[1..]))];
        }
        result := AdminOk;
      }
    }

    /** autopilot_control_enqueue: appends an accepted order and wakes an idle engaged autopilot. */
    method Enqueue(a: DbRef, definition: CommandDefinition, arguments: ArgumentList, memory: bool)
        returns (result: AdminResult)
      requires a in pilots
      modifies this`pilots, this`events
      ensures var p := old(pilots)[a];
              var verdict := Verdict(p.commands.Some?, |QueueOf(p)|, Some(definition), Some(arguments));
              && (result == if verdict.QueueOk? then (if memory then AdminOk else OutOfMemory)
                            else if verdict.Full? then QueueFull else InvalidQueue)
              && (result.AdminOk? ==> View() == Apply(old(View()), Own(a, EnqueueStep(definition, arguments))))
              && (!result.AdminOk? ==> View() == old(View()))
      ensures Inv(old(View())) ==> Inv(View())
    {
      CallKeepsInv(View(), a, EnqueueStep(definition, arguments));
      hide Inv, Apply;
      var p := pilots[a];
      var count := |QueueOf(p)|;
      match Verdict(p.commands.Some?, count, Some(definition), Some(arguments))
      case QueueOk =>
        if !memory { return OutOfMemory; }
        pilots := pilots[a := Append(p, Record(definition, arguments))];
        if p.engaged && count == 0 { ScheduleCommandIfNeeded(a); }
        return AdminOk;
      case Full => return QueueFull;
      case _ => return InvalidQueue;
    }

    /** auto_goto_next_command */
    method GotoNextCommand(a: DbRef)
      requires a in pilots
      modifies this`pilots, this`events
      ensures View() == Put(old(View()), a, GoneToNext(SlotOf(old(View()), a)))
      ensures old(pilots)[a].engaged && Inv(old(View())) ==> Inv(View())
    {
      if pilots[a].engaged { GoingOnKeepsInv(View(), a); }
      if |QueueOf(pilots[a])| == 0 { return; }
      var p := Popped(pilots[a]);
      PutScheduled(View(), a, p, ComEvent);
      hide Inv, Popped, Put;
      pilots := pilots[a := p];
      ScheduleEvent(a, ComEvent);
    }

    /** autopilot_resume */
    method Resume(a: DbRef)
      requires a in pilots
      modifies this`pilots, this`events
      ensures View() == Apply(old(View()), Own(a, ResumeStep))
      ensures Inv(old(View())) ==> Inv(View())
    {
      CallKeepsInv(View(), a, ResumeStep);
      hide Inv, Apply;
      var p := pilots[a];
      if !p.engaged { return; }
      if p.gunSuspended { p := p.(gunning := true, gunSuspended := false); }
      if !p.pilotSuspended {
        pilots := pilots[a := p];
        return;
      }
      p := p.(pilotSuspended := false);
      PutScheduled(View(), a, p, ComEvent);
      hide Put;
      pilots := pilots[a := p];
      ScheduleEvent(a, ComEvent);
    }

    /** The SPECIAL_FREE half of auto_newautopilot. */
    method FreePilot(a: DbRef)
      requires a in pilots
      modifies this
      ensures View() == AutopilotProtocol.FreePilot(old(View()), a)
      ensures Inv(old(View())) ==> Inv(View())
    {
      if Inv(View()) { FreePilotKeepsInv(View(), a); }
      hide Inv;
      StopPilot(a);
      var unit := pilots[a].mymechnum;
      if unit in units && units[unit] == a { units := units[unit := NOTHING]; }
      pilots := pilots - {a};
    }
  }
}
