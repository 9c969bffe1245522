# StompyMUX: the autopilot, character and Lua-contract algorithms

StompyMUX is a game server in which units fight on hexagonal maps, some of them driven by autopilots.
This project models the algorithms and state machines of that server whose correctness is hardest to
see from reading one function, and proves what they promise. The model follows the source file by file,
in the source's own form: what the server updates in place is a class, an array or a loop here, and what
it merely computes is a function.

- **The path policy** (`HexGrid`, `StepRules`, `BestFirst`, `PathPolicy`) is an A* search that never
  reopens a closed hex. Its route is proved to be a cheapest one among all routes, for every request; and
  for maps on which no score can pass `INT_MAX` (every battle map is one) it finds a route whenever one
  exists. `BestFirst` is the argument on an abstract graph; `PathPolicy` is the search itself over four
  arrays, which at every step equals the abstract one.
- **The live path finder** (`HexBits`, `LiveLists`, `LivePathfinding`) keeps its open nodes in two trees
  and a bit set and its closed nodes in a tree and a bit set, and owns every node it allocates. The five
  indexes are proved to agree at every step, the walk back along parents never to miss, every node to be
  freed once or owned by the stored path, and a path to be found exactly when one exists. No hex is closed
  at a higher path score than a hex closed before it offers, so the stored path has no shortcut. Its bit
  sets are the byte arrays of `HexBits`; trees are finite maps, and nodes live in a store indexed by
  address, which is what lets the proof speak of release and ownership. The geometry is an arbitrary
  function.
- **The order codec and queue** (`OrderText`, `OrderCodec`, `OrderQueue`) print typed orders as argument
  texts and read them back. Reading is the exact inverse of printing, over all texts.
- **The control protocol** (`AutopilotProtocol`, `AutopilotServer`) engages, disengages, feeds, dispatches
  and frees autopilots. `AutopilotProtocol` is the protocol as steps on a world of autopilots, units and
  pending events, with invariants over all runs; `AutopilotServer` is the same operations changing fields
  in place, each proved equal to its step.
- **Characters** (`CharacterXp`, `CharacterStore`, `SkillCache`, `SkillServer`): the experience thresholds
  that two loops compute independently, the sparse store that drops default values, and the one-entry
  cache in front of skill targets.
- **The Lua contract generator** (`LuaCatalog`, `LuaRender`): the walk that checks the error catalogue,
  over class graphs that may be cyclic, and the renderer, whose output does not depend on the order in
  which contracts are discovered.
- **Manoeuvres and turning** (`Manoeuvre`, `Turning`): the packed score that ranks simulated options, and
  the turn of one simulated step.

`CArithmetic`, `Collections`, `Objects` and `Options` are shared helpers. Integers are mathematical; where
C would truncate, wrap or overflow and it matters, the model writes it out (`CArithmetic.TruncDiv`, the
range types of `OrderText`, the bound `PathPolicy.Fits`, the guards in `CharacterXp`).

## What turned out not to hold

Each of these is a lemma with a concrete input, next to the exact condition under which the property does
hold.

- An attribute-only store (`VALUES_ATTRS` without `VALUES_SKILLS` or `VALUES_ADVS`) leaves the cached skill
  target stale; every other store keeps it right (`SkillCache.StoreIsCoherentExactlyFor`).
- After the cache has been invalidated, asking for the target of object -1 can hit the forgotten entry
  (`SkillCache.NothingHitsTheForgottenEntry`); the answer is wrong exactly when such a hit finds an entry
  other than 18 (`SkillCache.AnswersAfreshExactly`).
- Setting a skill target for something that is not a player reports success and changes nothing
  (`SkillCache.SetTargetMeetsTheTarget`).
- A value whose experience is negative is not stored, because the database refuses it and
  `store_variable_values` ignores the refusal (`CharacterStore.StoreThenRetrieve`).
- A `startup` order whose unit has already started neither reschedules nor pops, so the autopilot stalls
  (`AutopilotProtocol.StartupOfRunningUnitStalls`); `AutopilotProtocol.DispatchDropsExactly` lists every
  such case.
- An engaged autopilot that is carried out of its unit and back can share the unit with another engaged
  autopilot (`AutopilotProtocol.LeavingAnEngagedAutopilotSharesAUnit`). Two share a unit exactly when
  one was engaged in a unit the other was still associated with (`AutopilotProtocol.EngagingSharesExactly`,
  `AutopilotProtocol.ExclusiveExactly`).
- A score equal to the sentinel `MAGIC_NUM` can drop out of its range, and the safest option can then lose
  (`Manoeuvre.SentinelLosesTheSafest`); `Manoeuvre.WidenedHolds` says exactly when a range forgets a score.
  Options also stop being ranked by safety exactly when the two weights together reach 500
  (`Manoeuvre.PackingIsExact`).
- Two definitions of one key in one section can make the rendered module depend on discovery order
  (`LuaRender.DuplicatesRenderEitherWay`); they do exactly when their payloads read differently in the two
  orders (`LuaRender.DeterminismExactly`). Validation rejects them all.

## Model

| member | source | states |
|---|---|---|
| `PathPolicy.Find` | src/btech/autopilot/autopilot_path_policy.c:127-236 | a found route is simple, legal and ends at the goal; `totalCost` is 100 for each hex it enters, 50 more for each light forest or rough, 100 for each heavy forest or mountain, 200 for each water and 150 for each with more than two friendly units; no other route counts less; unreachable, on a map that fits, means no route exists; a goal that is the start is always found; otherwise memory is reported missing when the work arrays cannot be had, and, with the arrays and on a map that fits, exactly when a route exists and its points cannot be had |
| `PathPolicy.RouteCostCounts` | src/btech/autopilot/autopilot_path_policy.c:52-95 | the sum the search forms over a legal route is that count of the hexes entered |
| `PathPolicy.BetterUnitsKeepRoutes` | src/btech/autopilot/autopilot_path_policy.c:52-95 | every route of a unit is a route of one of no worse mobility, at the same cost |
| `PathPolicy.BetterUnitsPayNoMore` | src/btech/autopilot/autopilot_path_policy.c:52-236 | so the better unit reaches whatever the other does, and its cheapest route costs no more |
| `PathPolicy.Run` | src/btech/autopilot/autopilot_path_policy.c:162-206 | the search loop ends, keeps the search invariant, and stops only with the goal as best open hex or with nothing selectable |
| `PathPolicy.SelectOpen` | src/btech/autopilot/autopilot_path_policy.c:163-177 | the scan returns the open hex of least estimate, lowest offset among equals, and none only when every open estimate exceeds `INT_MAX` |
| `PathPolicy.Offer` | src/btech/autopilot/autopilot_path_policy.c:184-205 | one direction of an expansion does to the arrays exactly what one relaxation does to the abstract search |
| `PathPolicy.Expand` | src/btech/autopilot/autopilot_path_policy.c:181-206 | closing a hex and offering its six directions refines one abstract round |
| `PathPolicy.TrailIsCheapestRoute` | src/btech/autopilot/autopilot_path_policy.c:178-179 | once the goal is the best open hex, its parent trail is a route no other route undercuts |
| `PathPolicy.ExhaustedMeansUnreachable` | src/btech/autopilot/autopilot_path_policy.c:178-211 | on a map that fits, a search that selects nothing proves there is no route |
| `PathPolicy.FittingSearchNeverSaturates` | src/btech/autopilot/autopilot_path_policy.c:168-199 | if 450wh + 100(w+h) fits an int then in every state of the loop no estimate exceeds `INT_MAX` and the saturation guard rejects no step |
| `PathPolicy.EveryBattleMapFits` | src/btech/map/map.h:16-17 | every map up to 1000 by 1000 is within that bound |
| `PathPolicy.GraphIsConsistent` | src/btech/autopilot/autopilot_path_policy.c:52-106 | the hex distance times 100 never falls by more than a step costs |
| `PathPolicy.TrailLength` | src/btech/autopilot/autopilot_path_policy.c:213-221 | the first walk back along the parents ends and counts the trail |
| `PathPolicy.FillPoints` | src/btech/autopilot/autopilot_path_policy.c:222-231 | the second walk writes the trail's points in order |
| `HexGrid.DistanceIsLeastHopCount` | src/btech/autopilot/autopilot_path_policy.c:97-125 | on the unbounded grid the distance formula is the least number of neighbour hops, for either parity and negative columns |
| `HexGrid.TriangleInequality` | src/btech/autopilot/autopilot_path_policy.c:97-106 | distances satisfy the triangle inequality |
| `HexGrid.NeighborIsSymmetric` | src/btech/autopilot/autopilot_path_policy.c:108-125 | every neighbour relation has its reverse direction |
| `HexGrid.HopChangesDistanceByAtMostOne` | src/btech/autopilot/autopilot_path_policy.c:97-125 | one hop changes the distance to any goal by at most one |
| `HexGrid.DistanceInRectangle` | src/btech/autopilot/autopilot_path_policy.c:97-106 | within a rectangle the distance is bounded by its sides |
| `StepRules.StepEvaluate` | src/btech/autopilot/autopilot_path_policy.c:52-95 | a traversable step costs between 100 and 450, whatever the terrain and mobility; `StepAddsTerrain` and `TraversableExactly` say which cost and which steps |
| `StepRules.StepAddsTerrain` | src/btech/autopilot/autopilot_path_policy.c:54-94 | entering one more hex adds the cost of the step to the count by kind of terrain and crowding, which names no step |
| `StepRules.TraversableExactly` | src/btech/autopilot/autopilot_path_policy.c:55-88 | only mechs and ground vehicles are ever stopped: a mech exactly by a rise or drop above two levels; a ground vehicle exactly by one above one level, by heavy forest, by light forest unless tracked, and by water unless hovering or waterproof |
| `StepRules.CostIsOfTheHexEntered` | src/btech/autopilot/autopilot_path_policy.c:52-95 | legal steps into the same hex cost the same, whoever steps and from where |
| `StepRules.CapableUnitsGoFurther` | src/btech/autopilot/autopilot_path_policy.c:59-88 | whatever wheels may enter every other unit may, a mech may go wherever a ground vehicle may, and waterproofing never hurts |
| `BestFirst.BestIsOptimal` | src/btech/autopilot/autopilot_path_policy.c:162-206 | the best open node and every closed node already score no more than any walk to them |
| `BestFirst.WalkIsDominated` | src/btech/autopilot/autopilot_path_policy.c:162-206 | along any walk the search is never behind: it has scored the end, or some open node on the walk bounds it |
| `BestFirst.RoundKeepsInv` | src/btech/autopilot/autopilot_path_policy.c:162-206 | a round keeps the search invariant and closes exactly one more node, so no node is reopened |
| `BestFirst.CloseKeepsInv` | src/btech/autopilot/autopilot_path_policy.c:180-182 | closing the best open node keeps the invariant |
| `BestFirst.RelaxKeepsInv` | src/btech/autopilot/autopilot_path_policy.c:183-205 | offering one direction keeps the invariant, although closed nodes are skipped |
| `BestFirst.RelaxTakesTheCheaper` | src/btech/autopilot/autopilot_path_policy.c:184-205 | a step is taken up exactly when its hex is not closed, it can be made, its score fits an int and it is below the score the hex has; nothing else changes |
| `BestFirst.RoundKeepsBound` | src/btech/autopilot/autopilot_path_policy.c:196-204 | every score stays within the largest step times the number of closed nodes |
| `BestFirst.ExhaustedSearchClosedAll` | src/btech/autopilot/autopilot_path_policy.c:178-211 | with nothing open, every node a walk reaches is closed |
| `BestFirst.TrailIsCheapestWitness` | src/btech/autopilot/autopilot_path_policy.c:208-231 | following parents from a scored node gives a walk from the start whose cost is its score |
| `BestFirst.TrailScoresRise` | src/btech/autopilot/autopilot_path_policy.c:208-231 | scores strictly rise along the trail, so it ends and repeats nothing |
| `HexBits.HexBitSet.Set` | src/btech/autopilot/autopilot_pathfinding.c:50-58 | setting or clearing one bit changes the set by exactly that hex |
| `HexBits.HexBitSet.IsSet` | src/btech/autopilot/autopilot_pathfinding.c:45-48 | a bit is read as membership |
| `LivePathfinding.LiveSearch.GeneratePath` | src/btech/autopilot/autopilot_pathfinding.c:132-474 | over the byte arrays and trees in place: a path is stored exactly when a walk of legal moves exists; it is such a walk without repeats, no legal move from one of its hexes to a later one is cheaper than the walk between them, and every node allocated is either on it or freed |
| `LivePathfinding.LiveSearch.Search` | src/btech/autopilot/autopilot_pathfinding.c:208-390 | the loop ends, keeps the three trees and the two byte arrays in agreement, closes no hex that a hex closed before it undercuts, and fails only when no walk exists |
| `LivePathfinding.LiveSearch.CloseLowest` | src/btech/autopilot/autopilot_pathfinding.c:210-225 | the node of least score moves from the three open indexes to the two closed ones |
| `LivePathfinding.LiveSearch.CloseNext` | src/btech/autopilot/autopilot_pathfinding.c:208-225 | the head of a round closes a hex of the grid that was not closed, which is why the loop ends; its path score is at most that of any hex closed before it plus the cost of a legal move from there |
| `LivePathfinding.LiveSearch.VisitBearing` | src/btech/autopilot/autopilot_pathfinding.c:245-388 | one bearing tests the two bit arrays and creates, improves or skips its hex, as `LiveLists.ChildAfterVisit` and `LiveLists.VisitKeeps` say |
| `LivePathfinding.LiveSearch.InsertOpen` | src/btech/autopilot/autopilot_pathfinding.c:362-386 | the score is raised to the next unused one and the node enters all three open indexes |
| `LivePathfinding.LiveSearch.Backtrack` | src/btech/autopilot/autopilot_pathfinding.c:397-458 | every parent lookup succeeds, and exactly the path's nodes leave the closed tree |
| `LivePathfinding.LiveSearch.Cleanup` | src/btech/autopilot/autopilot_pathfinding.c:463-472 | releasing the two trees frees each remaining node once and leaves exactly the path's |
| `LivePathfinding.LiveSearch.DestroyPath` | src/btech/autopilot/autopilot_pathfinding.c:476-497 | destroying the path frees exactly its nodes |
| `LivePathfinding.ParentIsWaiting` | src/btech/autopilot/autopilot_pathfinding.c:430-439 | while the walk back goes on, the parent is still in the closed tree and has a smaller path score |
| `LivePathfinding.StoredPathIsWalk` | src/btech/autopilot/autopilot_pathfinding.c:397-458 | what the walk back collects is a walk from the start without repeats and without a shortcut |
| `LiveLists.UnusedScore` | src/btech/autopilot/autopilot_pathfinding.c:367-378 | bumping a score finds the least unused one at or above it |
| `LiveLists.DetachKeepsAgreement` | src/btech/autopilot/autopilot_pathfinding.c:321-327 | taking a node out under its own keys leaves the other entries in agreement |
| `LiveLists.InsertKeepsAgreement` | src/btech/autopilot/autopilot_pathfinding.c:362-386 | putting it back makes all indexes agree again |
| `LiveLists.FileKeepsAgreement` | src/btech/autopilot/autopilot_pathfinding.c:221-225 | filing it as closed keeps open and closed disjoint |
| `LiveLists.VisitKeeps` | src/btech/autopilot/autopilot_pathfinding.c:245-388 | visiting a bearing keeps agreement and parents, touches at most one node, and leaves the hex closed, or open at a path score no greater than the one offered |
| `LiveLists.ChildAfterVisit` | src/btech/autopilot/autopilot_pathfinding.c:264-388 | a hex seen for the first time is opened at the offered path score with its own estimate; an open one keeps the cheaper of two path scores and the parent that gave it; what changed is filed under the first score from the sum on that no other node uses |
| `LiveLists.VisitKeepsExplored` | src/btech/autopilot/autopilot_pathfinding.c:304-356 | every move offered so far stays taken: its hex is closed, or open at no more than the move gives |
| `LiveLists.OpenIsNotUndercut` | src/btech/autopilot/autopilot_pathfinding.c:304-356 | between rounds no legal move from a closed hex undercuts the path score of an open one |
| `LiveLists.ClosingKeepsOrder` | src/btech/autopilot/autopilot_pathfinding.c:210-225 | the hex being closed comes after its parent, and no hex closed before undercuts it |
| `LiveLists.ClosingKeeps` | src/btech/autopilot/autopilot_pathfinding.c:210-225 | closing the chosen node keeps agreement and parents |
| `LiveLists.ParentIsCloser` | src/btech/autopilot/autopilot_pathfinding.c:308-356 | a closed node's parent is closed and its path score is smaller by the cost of the move |
| `LiveLists.ExhaustedSearchClosedAll` | src/btech/autopilot/autopilot_pathfinding.c:208-214 | with nothing open, every hex a walk reaches is closed |
| `LiveLists.ChainIsWalk` | src/btech/autopilot/autopilot_pathfinding.c:422-456 | a chain of parents is a walk whose cost is the path score at its end |
| `LiveLists.ChainFollowsOrder` | src/btech/autopilot/autopilot_pathfinding.c:422-456 | along a chain of parents every hex was closed before the later ones |
| `LiveLists.ChainHasNoShortcut` | src/btech/autopilot/autopilot_pathfinding.c:422-456 | so no legal move from an earlier hex of the chain to a later one is cheaper than the walk between them |
| `OrderText.ParseLongIsInverseOfPrint` | src/btech/autopilot/autopilot_order_codec.c:272-286 | a text reads as a long exactly when it is that long's decimal form |
| `OrderText.ParseIntIsInverseOfPrint` | src/btech/autopilot/autopilot_order_codec.c:288-294 | a text reads as an int exactly when it is that int's decimal form, so nothing outside the range is read |
| `OrderText.ParseRadiusIsInverse` | src/btech/autopilot/autopilot_order_codec.c:296-319 | a radius argument is read exactly when it is the printed form of its three numbers |
| `OrderText.ParseTargetIsInverse` | src/btech/autopilot/autopilot_order_codec.c:321-340 | a target argument is read exactly when it is the printed form of its number |
| `OrderText.StrtolReadsPrinted` | src/btech/autopilot/autopilot_order_codec.c:272-286 | the scanner reads back every printed long and leaves nothing over |
| `OrderCodec.EncodeThenDecode` | src/btech/autopilot/autopilot_order_codec.c:188-270 | every order that validates encodes to arguments the queue accepts, and the queued record decodes to the same order up to fields its mode does not use |
| `OrderCodec.ValidExactly` | src/btech/autopilot/autopilot_order_codec.c:117-177 | which orders validate: targets that exist, coordinates that are not negative, headings below 360, radii from 1 to 30, speeds from 1 to 100 |
| `OrderCodec.EncodedIsTheCommandLine` | src/btech/autopilot/autopilot_order_codec.c:188-270 | an encoded order holds the words of its command line in order and nothing else |
| `OrderCodec.ArgumentsMatchExactly` | src/btech/autopilot/autopilot_order_queue.c:63-90 | arguments are accepted for a command exactly when they are a first word and as many more as it takes |
| `OrderCodec.SupportedExactly` | src/btech/autopilot/autopilot_order_queue.c:17-40 | the commands the queue supports are exactly those of orders |
| `OrderCodec.DecodeIsInverseOfEncoding` | src/btech/autopilot/autopilot_order_codec.c:342-432 | over all records, a record decodes to an order exactly when it is that order's encoding; base entry excepted |
| `OrderCodec.DecodeIsInjective` | src/btech/autopilot/autopilot_order_codec.c:342-432 | two records that decode alike are the same record; base entry excepted |
| `OrderCodec.EnterBaseReadsOneCharacter` | src/btech/autopilot/autopilot_order_codec.c:89-115 | the direction of a base entry rests on the first character alone |
| `OrderCodec.EnterBaseDecodesExactly` | src/btech/autopilot/autopilot_order_codec.c:89-115 | a record decodes to a base entry exactly when it is the encoding up to a text whose first character names the direction |
| `OrderQueue.Queue.Enqueue` | src/btech/autopilot/autopilot_order_queue.c:63-110 | an accepted record goes to the end with the arguments it was given; a refused one, for whichever reason, changes nothing |
| `OrderQueue.Queue.Remove` | src/btech/autopilot/autopilot_order_queue.c:112-122 | exactly the record at the index goes, or none is there |
| `OrderQueue.Queue.Clear` | src/btech/autopilot/autopilot_order_queue.c:124-127 | nothing is left |
| `OrderQueue.Queue.Pop` | src/btech/autopilot/autopilot_order_queue.c:129-131 | the first record goes |
| `OrderQueue.Queue.AddOrder` | src/btech/autopilot/autopilot_control.c:234-248 | an order is accepted exactly when it validates and there is room and memory, and then the queued record decodes to it |
| `AutopilotProtocol.RunKeepsInv` | src/btech/autopilot/autopilot_control.c:91-182 | every run from the empty world keeps the invariant of claims, events and queues |
| `AutopilotProtocol.StepKeepsInv` | src/btech/autopilot/autopilot_control.c:91-182 | every single step, from any state with that invariant, keeps it |
| `AutopilotProtocol.ClaimsAreExclusive` | src/btech/autopilot/autopilot_control.c:38-88 | in every run a unit's claim names a live autopilot, and no autopilot is claimed by two units |
| `AutopilotProtocol.OneEngagedPerUnit` | src/btech/autopilot/autopilot_control.c:97-122 | on runs where engaged autopilots stay put, a unit has at most one engaged autopilot |
| `AutopilotProtocol.LeavingAnEngagedAutopilotSharesAUnit` | src/btech/autopilot/autopilot_control.c:97-122 | a run that moves an engaged autopilot out and back in ends with two engaged in one unit |
| `AutopilotProtocol.EngagingSharesExactly` | src/btech/autopilot/autopilot_control.c:97-122 | a successful engagement keeps autopilots apart exactly when no engaged autopilot is associated with the unit, wherever it has been carried |
| `AutopilotProtocol.StepKeepsExclusive` | src/btech/autopilot/autopilot_control.c:97-182 | any step keeps autopilots apart exactly when it is not an engagement in a unit so taken |
| `AutopilotProtocol.ExclusiveExactly` | src/btech/autopilot/autopilot_control.c:97-122 | the runs along which a unit never has two engaged autopilots are exactly those whose engagements all find their unit free |
| `AutopilotProtocol.RunsProgress` | src/btech/autopilot/autopilot_core.c:480-487 | in every run an engaged autopilot with orders has a pending event that serves its first order, unless its piloting is suspended or a handler dropped that very order; a disengaged one has no events and clear flags; at most 100 orders are queued; orders are popped in the order they came |
| `AutopilotProtocol.DiligentRunsProgress` | src/btech/autopilot/autopilot_command_dispatch.c:33-169 | on runs whose handlers all reschedule or move on, only suspension excepts an engaged autopilot with orders from having an event that serves the first |
| `AutopilotProtocol.DroppedExactly` | src/btech/autopilot/autopilot_command_dispatch.c:33-66 | an order counts as dropped exactly when an event served it at the head of the queue and its handler neither moved on nor scheduled anything that serves it; the dispatch of an empty queue drops nothing |
| `AutopilotProtocol.EngagedHeadLeavesOnlyByPop` | src/btech/autopilot/autopilot_control.c:164-182 | while an autopilot stays engaged its first order leaves only by a pop |
| `AutopilotProtocol.RemovingTakesTheTicket` | src/btech/autopilot/autopilot_control.c:164-173 | exactly the ticket at the position goes, the others keep their order, and a removal is refused exactly for a position not there or the first order of an engaged autopilot |
| `AutopilotProtocol.ClearingEmpties` | src/btech/autopilot/autopilot_control.c:175-182 | a clear leaves no order, unless an engaged autopilot is working on one |
| `AutopilotProtocol.StoppingClears` | src/btech/autopilot/autopilot_core.c:363-374 | a stop disengages, forgets gunning and both suspensions and every pending event, and leaves the orders |
| `AutopilotProtocol.ResumingLifts` | src/btech/autopilot/autopilot_resume.c:11-19 | a resume lifts both suspensions of an engaged autopilot, restores a suspended gun, and adds one dispatch exactly when piloting was suspended |
| `AutopilotProtocol.AssociationExactly` | src/btech/autopilot/autopilot_control.c:38-88 | when an autopilot is associated, in conflict or neither, and with which unit around it |
| `AutopilotProtocol.OnlyDisembarkingNeedsNoMap` | src/btech/autopilot/autopilot_command_dispatch.c:33-54 | without a map piloting is suspended and only a disembark order is acted on |
| `AutopilotProtocol.OneDispatchIsEnough` | src/btech/autopilot/autopilot_control.c:91-162 | engaging and enqueueing leave an autopilot that has something to start with at least one dispatch pending and never add a second |
| `AutopilotProtocol.StaleClaimsAreDropped` | src/btech/autopilot/autopilot_control.c:38-88 | a claim that survives names an autopilot that is there, and one that does is never dropped |
| `AutopilotProtocol.DispatchOfOrder` | src/btech/autopilot/autopilot_command_dispatch.c:66-169 | what the dispatch does with each order: a goal schedules its own event and stays, a command is carried out and left behind |
| `AutopilotProtocol.GoalsServeThemselves` | src/btech/autopilot/autopilot_command_dispatch.c:33-169 | an event other than the dispatch serves one kind of goal, or following, and is what the dispatch schedules for it |
| `AutopilotProtocol.FiringIsOk` | src/btech/autopilot/autopilot_command_dispatch.c:33-66 | a fired event keeps the autopilot's invariant, whatever its handler does |
| `AutopilotProtocol.ActingServes` | src/btech/autopilot/autopilot_core.c:480-487 | a handler that keeps going leaves an event for the order that is then first |
| `AutopilotProtocol.DispatchDropsExactly` | src/btech/autopilot/autopilot_command_dispatch.c:66-169 | the dispatch loses an order exactly for a startup on a unit that is up or starting, and for an oldgoto on a unit that is still starting |
| `AutopilotProtocol.StartupOfRunningUnitStalls` | src/btech/autopilot/autopilot_commands.c:117-128 | a run that ends engaged, unsuspended, with a startup order first and no event pending |
| `AutopilotServer.Server.Engage` | src/btech/autopilot/autopilot_control.c:97-122 | engaging answers for an engaged, unhoused, wrongly claimed or free autopilot as the protocol does, and in the last case alone claims the unit and schedules a waiting order; the invariant of all runs is kept |
| `AutopilotServer.Server.Disengage` | src/btech/autopilot/autopilot_control.c:124-131 | a disengaged autopilot is refused and unchanged; an engaged one is stopped; the invariant of all runs is kept |
| `AutopilotServer.Server.StopPilot` | src/btech/autopilot/autopilot_core.c:363-374 | the flags are cleared and the loop over event types leaves no pending event of this autopilot, and every other autopilot's events; the invariant of all runs is kept |
| `AutopilotServer.Server.Enqueue` | src/btech/autopilot/autopilot_control.c:150-162 | an accepted order is appended and a dispatch scheduled if none is pending; a refused one changes nothing; the invariant of all runs is kept |
| `AutopilotServer.Server.Remove` | src/btech/autopilot/autopilot_control.c:164-173 | the queue afterwards is the queue before without the order at the position, everything else unchanged; refused, with nothing changed, exactly for a position not there or the first order of an engaged autopilot; the invariant of all runs is kept |
| `AutopilotServer.Server.Clear` | src/btech/autopilot/autopilot_control.c:175-182 | the queue afterwards is empty, unless an engaged autopilot is working on an order, when nothing changes; the invariant of all runs is kept |
| `AutopilotServer.Server.GotoNextCommand` | src/btech/autopilot/autopilot_core.c:480-487 | the first order is popped and the next dispatch scheduled; with nothing queued nothing happens; the invariant of all runs is kept while the autopilot is engaged |
| `AutopilotServer.Server.Resume` | src/btech/autopilot/autopilot_resume.c:11-19 | the suspensions of an engaged autopilot are lifted, and a dispatch is scheduled if its piloting was suspended; the invariant of all runs is kept |
| `AutopilotServer.Server.FreePilot` | src/btech/autopilot/autopilot_core.c:630-662 | freeing stops the autopilot, withdraws the claim of its unit if it still is its own, and forgets its orders and events; the invariant of all runs is kept |
| `CharacterXp.BonusCountsThresholds` | src/btech/character/btechstats.c:139-172 | the bonus is the number of thresholds t(3^k - 1)/2 that the experience has passed |
| `CharacterXp.SumIsGeometric` | src/btech/character/btechstats.c:174-202 | the running total the second loop forms is that closed form |
| `CharacterXp.ScaledClosedForm` | src/btech/character/btechstats.c:154-163 | the threshold the scaling loops leave: above target 4 it is divided by three to the distance, and is 1 when nothing is left; below, it is multiplied |
| `CArithmetic.RemainderFollowsTheDividend` | src/btech/autopilot/autopilot_movement_policy.c:8 | the remainder is what the truncated quotient leaves, is smaller than the divisor and has the sign of the dividend |
| `CharacterXp.BonusIsAtMostFifteen` | src/btech/character/btechstats.c:164-171 | raw experience below XP_MAX earns at most fifteen |
| `CharacterXp.FigureXpBonus` | src/btech/character/btechstats.c:139-172 | the loop computes that bonus, over the scaled threshold `ScaledClosedForm` gives, without overflow once that threshold is an int |
| `CharacterXp.XpToNextLevel` | src/btech/character/btechstats.c:174-202 | the loop computes one more than the sum of the thresholds up to the next level, from the same scaled threshold |
| `CharacterXp.NextLevelIsLeast` | src/btech/character/btechstats.c:174-202 | with an up-to-date packed bonus that total is the least raw experience whose bonus is greater, so the two loops agree |
| `CharacterXp.NextLevelFits` | src/btech/character/btechstats.c:189-201 | and nothing it forms overflows if three times the scaled threshold does not |
| `CharacterXp.GainPacksTheBonus` | src/btech/character/btechstats.c:558-566 | what a gain stores has the right raw part, an up-to-date packed bonus, which is none without a threshold, and fits an int |
| `CharacterStore.StoreThenRetrieve` | src/btech/character/character_state_adapter.c:72-179 | for every mode mask, a selected value, experience and last use come back exactly when the experience is not negative, selected fixed fields always, and unselected values read as zero |
| `CharacterStore.StoreFrame` | src/btech/character/character_state_adapter.c:81-103 | unselected entries and fields are untouched, a selected line of zeros (of one life) is absent afterwards, and the database's bounds are kept |
| `CharacterStore.EachCodeHasItsMode` | src/btech/character/character_state_adapter.c:35-78 | which values each mode keeps, by number, and that no value is kept twice |
| `CharacterStore.Database.Store` | src/btech/character/character_state_adapter.c:140-167 | storing has that effect on one player and none on others or on what is not a player |
| `CharacterStore.Database.StoreVariableValues` | src/btech/character/character_state_adapter.c:81-103 | the loop over the catalogue leaves every entry as a store must |
| `CharacterStore.Database.Retrieve` | src/btech/character/character_state_adapter.c:169-181 | retrieving gives the stored statistics under the mask, in whatever order the entries come |
| `CharacterStore.Database.FixedToStats` | src/btech/character/character_state_adapter.c:35-70 | exactly the selected fixed fields are written |
| `CharacterStore.Database.RetrieveVariableValues` | src/btech/character/character_state_adapter.c:112-138 | exactly the selected entries are written, and lives start at one |
| `SkillCache.RunAnswersAfresh` | src/btech/character/btechstats.c:443-488 | after any run of queries, gains, value sets, target sets, clears and careful stores, a query answers what recomputing from the stored character gives, except exactly for the object number -1 on a hit of an entry that is not 18 |
| `SkillCache.AnswersAfreshExactly` | src/btech/character/btechstats.c:443-488 | the same of any single state with a coherent cache |
| `SkillCache.StepKeepsCoherence` | src/btech/character/character_state_adapter.c:162-165 | every such step keeps the cache right |
| `SkillCache.StoreIsCoherentExactlyFor` | src/btech/character/character_state_adapter.c:162-165 | a store keeps every cache right exactly when it does not write attributes alone |
| `SkillCache.NothingHitsTheForgottenEntry` | src/btech/character/btechstats.c:459-461 | a run after which the object number -1 is answered from a forgotten entry |
| `SkillCache.SetTargetMeetsTheTarget` | src/btech/character/btechstats.c:408-424 | an accepted target is what the next query answers, exactly for players and where the answer was that already, which for any other object but -1 is 18 |
| `SkillCache.GainLowersTheTarget` | src/btech/character/btechstats.c:534-568 | a gain makes the target the one without experience less the bonus, unless the raw experience is negative, when nothing is stored |
| `SkillCache.GainsAreSpaced` | src/btech/character/btechstats.c:534-568 | after a kept gain the next is too soon exactly within thirty seconds of it, unless it is in a hurry or the skill always counts |
| `SkillCache.SettingAValue` | src/btech/character/btechstats.c:219-404 | setting a value changes what is read back of that value alone; value 11, which is never stored, moves the lives by all of it |
| `SkillCache.AttributeCounts` | src/btech/character/btechstats.c:462-475 | a point on an attribute takes a point off the targets of exactly the skills whose category rests on it |
| `SkillServer.SkillContext.TargetOf` | src/btech/character/btechstats.c:443-488 | a hit answers from the cache and leaves it; a miss computes the target and caches it; the branch for a level of -1 is never taken |
| `SkillServer.SkillContext.Query` | src/btech/character/btechstats.c:490-503 | a query answers and caches as the specification of the cache says |
| `SkillServer.SkillContext.Clear` | src/btech/character/character_health.c:75-97 | clearing a character makes it new and forgets its cached target |
| `SkillServer.SkillContext.Store` | src/btech/character/character_state_adapter.c:140-167 | a store changes one player and forgets the cached target exactly when skills or advantages of the cached player are written |
| `SkillServer.SkillContext.GainExperience` | src/btech/character/btechstats.c:534-568 | a gain is accepted exactly when it is not too soon, and stores as specified |
| `SkillServer.SkillContext.SetValue` | src/btech/character/btechstats.c:394-404 | setting a value stores the whole character, with the lives moved by the change of value 11 |
| `SkillServer.SkillContext.SetTarget` | src/btech/character/btechstats.c:408-424 | setting a target is accepted exactly when the level it needs is a byte |
| `SkillServer.SkillContext.ExperienceToNextLevel` | src/btech/character/btechstats.c:174-202 | with a coherent cache and an up-to-date bonus the answer is the least experience that earns a greater bonus, for every object the cache answers rightly for |
| `LuaCatalog.Diagnose` | tools/lua_type_generator/contracts.cpp:682-706 | no mismatch is diagnosed exactly when every chain of fields ends well and following the fields each native code names reaches a leaf with that code, no other chain reaching one |
| `LuaCatalog.CatalogWalk.VisitClass` | tools/lua_type_generator/contracts.cpp:228-250 | the walk ends on every graph, cyclic or not, restores `visiting`, reports a fault exactly when some chain ends badly, and records exactly the paths of leaves |
| `LuaCatalog.CatalogWalk.VisitFields` | tools/lua_type_generator/contracts.cpp:243-246 | the loop over fields reports and records what its subwalks do |
| `LuaCatalog.SilenceMeansSpelled` | tools/lua_type_generator/contracts.cpp:682-706 | a silent walk whose recorded paths are the native codes means the codes are spelled, and the converse |
| `LuaCatalog.SoundIsGood` | tools/lua_type_generator/contracts.cpp:228-250 | a silent walk means no missing class, no class above itself, and no leaf with fields or with a code other than its path, and the converse |
| `LuaCatalog.SoundChainsAreShort` | tools/lua_type_generator/contracts.cpp:228-250 | what a silent walk has seen is no deeper than there are classes |
| `LuaCatalog.FieldsOfDotted` | tools/lua_type_generator/contracts.cpp:245-246 | a dotted path determines its fields |
| `LuaRender.RenderingIsDeterministic` | tools/lua_type_generator/outputs.cpp:44-67 | any two orderings of contracts that pass the duplicate-key check render the same text, whatever the sort does with ties |
| `LuaRender.DeterminismExactly` | tools/lua_type_generator/outputs.cpp:44-67 | a module's text is independent of the order of its contracts and of the sort's freedom exactly when payloads of one section and key read the same in either order, two by two |
| `LuaRender.CommutingTiesReadAlike` | tools/lua_type_generator/outputs.cpp:51-60 | if tied payloads commute, all sorts of the same contracts read the same |
| `LuaRender.ClashingTiesReadApart` | tools/lua_type_generator/outputs.cpp:51-60 | if two tied payloads do not commute, two sorts of the same contracts read differently |
| `LuaRender.SortIsUnique` | tools/lua_type_generator/outputs.cpp:51-55 | without ambiguous keys any two sorts of the same contracts agree |
| `LuaRender.CountDuplicateKeys` | tools/lua_type_generator/contracts.cpp:507-512 | as many contracts are diagnosed as repeat a module and key that came before, so none exactly when the pairs are distinct |
| `LuaRender.DuplicatesRenderEitherWay` | tools/lua_type_generator/outputs.cpp:51-60 | two contracts of one module, section and key may be rendered in either order, and the texts agree exactly when the payloads commute |
| `LuaRender.RenderModules` | tools/lua_type_generator/outputs.cpp:44-67 | every module known gets a rendering of its contracts, each once, sorted by section and key |
| `LuaRender.RenderEach` | tools/lua_type_generator/outputs.cpp:51-65 | the same under any header and over any modules |
| `LuaRender.SortedIsSort` | tools/lua_type_generator/outputs.cpp:51-55 | the sort gives a permutation without inversions, which is all the rendering relies on |
| `LuaRender.SortedExactly` | tools/lua_type_generator/outputs.cpp:51-55 | sorted contracts are exactly those that stand alias, type, catalog, namespace, callable, binding, and within a section by the first character in which their keys differ |
| `LuaRender.TextBeforeExactly` | tools/lua_type_generator/outputs.cpp:51-55 | a key comes first exactly when it is a proper prefix or has the smaller character where the two part |
| `LuaRender.PayloadsJoin` | tools/lua_type_generator/outputs.cpp:56-60 | contracts one after the other render one after the other |
| `LuaRender.GroupByModule` | tools/lua_type_generator/outputs.cpp:45-47 | grouping keeps each module's contracts in order |
| `Manoeuvre.ChosenIsSafest` | src/btech/autopilot/autopilot_ai.c:526-560 | with weights that pack and ranges that have forgotten no score, some option is always chosen, none is safer, and none as safe scores better otherwise |
| `Manoeuvre.ScoreIsLexicographic` | src/btech/autopilot/autopilot_ai.c:536-547 | packed scores compare safety first and everything else second |
| `Manoeuvre.PackingIsExact` | src/btech/autopilot/autopilot_ai.c:536-547 | packed scores rank by safety in every fight exactly when 200(go + fight) is below a step |
| `Manoeuvre.ActedOnIsSafe` | src/btech/autopilot/autopilot_ai.c:707-708 | the score is acted on exactly for a safety above MIN_SAFE, or equal to it with nothing lost otherwise, and then MIN_SAFE - 1 steps are free of crashes |
| `Manoeuvre.WidenedHolds` | src/btech/autopilot/autopilot_ai.c:125-132 | the widened range is no wider than needed, and it holds every score exactly when none equal to the sentinel has been forgotten: there is none, it came last, or other scores or the old range lie beyond it on both sides |
| `Manoeuvre.WideningKeepsExactly` | src/btech/autopilot/autopilot_ai.c:125-132 | one widening keeps what the range held exactly when it does not take an end equal to the sentinel for an unset one and move it inward |
| `Manoeuvre.RangesCover` | src/btech/autopilot/autopilot_ai.c:517-528 | the ranges cover every candidate exactly when none of them has forgotten a score |
| `Manoeuvre.NormalisedIsInScale` | src/btech/autopilot/autopilot_ai.c:133-136 | a score within its range is normalised within its scale |
| `Manoeuvre.NormalisedRanks` | src/btech/autopilot/autopilot_ai.c:133-136 | the worst score is worth nothing, the best the whole scale, and a better score never less |
| `Manoeuvre.FinenessAtTheEnds` | src/btech/autopilot/autopilot_ai.c:539-547 | best movement is worth its weight, best fighting its own, most danger costs both together, and without an enemy only movement counts |
| `Manoeuvre.FinenessRanks` | src/btech/autopilot/autopilot_ai.c:539-547 | moving or fighting better, or in less danger, is never worth less |
| `Manoeuvre.SentinelLosesTheSafest` | src/btech/autopilot/autopilot_ai.c:125-132 | with a score equal to the sentinel the safest option can score below another |
| `Manoeuvre.Simulate` | src/btech/autopilot/autopilot_ai.c:468-515 | after the simulation each option has its first crash and its first stacking on record and has scored for the steps it completed |
| `Manoeuvre.EnemyTick` | src/btech/autopilot/autopilot_ai.c:282-424 | battle and danger scores grow only for candidates still in the running, and only with an enemy |
| `Manoeuvre.FriendTick` | src/btech/autopilot/autopilot_ai.c:254-280 | the first stacking before the crash is recorded, and only that |
| `Manoeuvre.SafetyIsBeforeTheCrash` | src/btech/autopilot/autopilot_ai.c:530-538 | an option counts as safe for at least its stacking step and at most its crash step; `SafetyIsHalfway` says where between |
| `Manoeuvre.SafetyIsHalfway` | src/btech/autopilot/autopilot_ai.c:532-538 | told from the simulation, an option is safe halfway between its first stacking and its going out, rounded up |
| `Manoeuvre.EarlierStackingIsLessSafe` | src/btech/autopilot/autopilot_ai.c:532-538 | of two options that go out alike, one that stacks two or more steps earlier is strictly less safe, and an earlier stacking is never safer |
| `Manoeuvre.Scorer.Widen` | src/btech/autopilot/autopilot_ai.c:517-528 | the loop widens each range by every candidate, battle and danger only with an enemy |
| `Manoeuvre.Scorer.Choose` | src/btech/autopilot/autopilot_ai.c:529-560 | the highest positive score wins, the faster option among equals, the first among those; a score is the safety of `SafetyIsHalfway` in steps of its weight plus the rest |
| `Manoeuvre.Scorer.ScorePath` | src/btech/autopilot/autopilot_ai.c:426-562 | the whole choice: the simulated candidates, the widened ranges and the chosen option fit together, from any ranges |
| `Turning.DifferenceIsLeast` | src/btech/autopilot/autopilot_movement_policy.c:7-14 | the heading difference is the least absolute value of bearing - heading + 360k over all k, for any two angles |
| `Turning.TurnShrinks` | src/btech/autopilot/ai_simulation.c:58-93 | a turn stays on the circle, takes its offset off the difference down to zero, and moves no further |
| `Turning.TurnsTheShorterWay` | src/btech/autopilot/ai_simulation.c:79-93 | the heading goes down the circle when that way is at most 180 degrees and up otherwise, by the offset or by all that is left |
| `Turning.TurningConverges` | src/btech/autopilot/ai_simulation.c:58-93 | at one turn rate the desired heading is reached after exactly the difference divided by the offset, rounded up |
| `Turning.Location.Turn` | src/btech/autopilot/ai_simulation.c:79-93 | the in-place turn goes down the circle when that is no longer than up, and stops on the desired heading when it would reach it |
| `Turning.Location.TurnAll` | src/btech/autopilot/ai_simulation.c:58-93 | at changing turn rates the difference left is the first one less all the turns |

## Left out

- PathPolicy.Find: allocation is an input that says which of the two allocations fail; scores and estimates beyond `INT_MAX`, which C leaves undefined, are mathematical integers, so completeness is stated for maps that fit.
- LivePathfinding.LiveSearch.GeneratePath: the start and end hexes are taken to lie on the 1000 by 1000 grid the bit sets cover, as on every battle map; the source does not check allocation there and neither does the model; the estimate is an arbitrary function and closed hexes are not reopened, so that the path is a cheapest one is not claimed; scores are mathematical integers; the byte arrays are left to the collector at the end.
- OrderQueue.Queue.Enqueue: texts are immutable values, so that the queue copies and owns its arguments is not modelled.
- OrderCodec.DecodeIsInjective: base entries are excepted because their direction is deliberately read from one character; `OrderCodec.EnterBaseDecodesExactly` says which of their records decode alike.
- AutopilotProtocol.RunsProgress: an order whose handler neither rescheduled nor moved on (as for a missing or destroyed unit) is excepted while it stays first; such steps are in the model, and `AutopilotProtocol.DroppedExactly` says which they are.
- SkillServer.SkillContext.GainExperience: requires the scaled threshold to fit an int, beyond which C's arithmetic is undefined; adding the amount is done on mathematical integers.
- SkillCache.RunAnswersAfresh: destroying a player, which clears its state without touching the cache (src/mux/objects/db.c:162), and reloading the database are not steps of the runs.
- LuaCatalog.Diagnose: starts from classes already recognised; reading the lines with regular expressions, the duplicate checks made while reading, and the check of the root class's own field names are not modelled.
- Manoeuvre.Simulate: crashes, stacking and the increments of the scores come from the map, the other units and floating-point geometry, and are arbitrary functions of step and option.
- Manoeuvre.ScoreIsLexicographic: over mathematical integers; the product in the normalisation can overflow an int in C.
- Manoeuvre.Scorer.ScorePath: the reset and relaxation of the ranges before a choice are not modelled, because the result holds for any ranges.
- Turning.Location.Turn: the turn rate, a floating-point product cut to an integer, is a positive integer input.
- The red-black trees, linked lists, hash tables and the event scheduler: finite maps, sequences and multisets stand in for them.
- The handlers behind the command dispatch, except for whether they reschedule, move on or do neither.
- Notifications, radio text, menus and logging.
- Floating-point geometry, speed, heat and line of sight.
- Critical hits, battle armour, embarking, ejection, failures and personal combat: long case analyses over state not modelled here.
- Collecting contracts from C sources, choosing and writing files, and the other diagnoses of the validation.
- Database files: loading, saving and snapshots.
