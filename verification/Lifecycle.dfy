/** Overlapping lifecycle operations: one background worker per accepted request, a lock that starts share
    and a stop takes alone, one gate per service, and engine calls that take time. */
module Lifecycle {
  import opened Wrappers
  import opened Planning
  import opened Stopping

  /** `daemons` are the services that do not stop by themselves. */
  datatype Config = Config(inventory: seq<Module>, daemons: set<string>)

  /** What a stop read when it took the lock. */
  datatype Decision = Decision(containers: Snapshot, owned: set<string>, roots: set<string>)

  /** Where a worker is. `i` is a place in its module's plan. */
  datatype Stage =
    | Queued
    | Recalling                         // a start, sharing the lock: reads whether its service is owned
    | Recording(own: bool)              // writes back what it read
    | Waiting(i: nat)                   // for the gate of the service at i
    | Holding(i: nat)                   // with the gate: reads the status and the mark
    | Chosen(i: nat)                    // will call the engine: reads the mark again
    | Calling(i: nat, recreate: bool)   // the engine call is running
    | Readying(i: nat)                  // waits until the service is ready
    | Announced                         // a stop: later starts wait behind it
    | Deciding                          // with the lock alone: reads the status
    | StopNext(d: Decision, i: nat)     // has handled every place from i up
    | StopCall(d: Decision, i: nat)     // the stop of place i is running
    | Closing                           // no longer active; still to release the lock

  datatype Op = Op(m: Module, on: bool, at: Stage)

  /** The engine's containers and what the controller remembers about them. */
  datatype World = World(
    containers: Snapshot,
    stale: set<string>,
    owned: set<string>,
    roots: set<string>,
    starts: map<string, nat>,           // successful starts of a service since it was last brought down
    outside: set<string>)               // services someone else has brought up since a stop last decided

  datatype State = State(
    ops: map<nat, Op>,
    active: map<string, nat>,           // module name to the operation active for it
    readers: set<nat>,                  // who shares the lock
    pending: Option<nat>,               // who has announced, or holds, the lock alone
    gates: map<string, nat>,            // service to the holder of its gate
    world: World)

  /** What the world answers to one step. */
  datatype Answer = Answer(ok: bool, saved: bool, seen: Container)

  /** What happens: a request, a step of its worker, a container that exits, and one that someone else starts. */
  datatype Event =
    | Request(id: nat, m: Module, on: bool)
    | Advance(id: nat, answer: Answer)
    | Exit(service: string)
    | Appear(service: string)

  /** Nothing is going on, whatever the world looks like. */
  function Idle(containers: Snapshot, stale: set<string>, owned: set<string>, roots: set<string>): State {
    State(map[], map[], {}, None, map[], World(containers, stale, owned, roots, map[], {}))
  }

  function Starts(w: World, service: string): nat {
    if service in w.starts then w.starts[service] else 0
  }

  function PlanOf(c: Config, op: Op): seq<Module> {
    Plan(c.inventory, op.m.name)
  }

  predicate Gated(at: Stage) { at.Holding? || at.Chosen? || at.Calling? || at.Readying? }

  // ---- the steps -----------------------------------------------------------------------------------

  /** The service whose gate a worker holds. */
  function GateOf(c: Config, op: Op): Option<string> {
    if Gated(op.at) && op.at.i < |PlanOf(c, op)| then Some(PlanOf(c, op)[op.at.i].service) else None
  }

  function NeededFor(c: Config, m: Module, d: Decision): set<string> {
    Needed(c.inventory, m, d.containers, d.owned, d.roots)
  }

  /** Where a start goes next; the same place when it is blocked. */
  function NextOfStart(c: Config, s: State, op: Op, answer: Answer): Stage {
    var plan := PlanOf(c, op);
    match op.at
    case Queued => if s.pending.Some? then op.at else Recalling
    case Recalling => Recording(op.m.service in s.world.owned)
    case Recording(_) => if answer.saved then Waiting(0) else Closing
    case Waiting(i) =>
      if i >= |plan| then Closing
      else if plan[i].service !in s.gates then Holding(i)
      else if answer.ok then op.at else Closing
    case Holding(i) =>
      if i >= |plan| || !answer.ok then Closing
      else if !NeedsCall(s.world.stale, s.world.containers, plan[i]) then Readying(i)
      else if answer.saved then Chosen(i) else Closing
    case Chosen(i) => if i >= |plan| then Closing else Calling(i, plan[i].service in s.world.stale)
    case Calling(i, _) => if answer.ok && answer.saved then Readying(i) else Closing
    case Readying(i) => if answer.ok then Waiting(i + 1) else Closing
    case _ => op.at
  }

  /** Where a stop goes next; the same place when it is blocked. */
  function NextOfStop(c: Config, s: State, op: Op, answer: Answer): Stage {
    var plan := PlanOf(c, op);
    match op.at
    case Queued => if s.pending.Some? then op.at else Announced
    case Announced => if s.readers != {} then op.at else Deciding
    case Deciding =>
      var d := Decision(s.world.containers, s.world.owned, s.world.roots);
      if !answer.ok || op.m.service in NeededFor(c, op.m, d) then Closing else StopNext(d, |plan|)
    case StopNext(d, i) =>
      if i == 0 || i > |plan| then Closing
      else if Kept(op.m, NeededFor(c, op.m, d), s.world.owned, plan[i - 1]) then StopNext(d, i - 1)
      else StopCall(d, i - 1)
    case StopCall(d, i) => if answer.ok && answer.saved then StopNext(d, i) else Closing
    case _ => op.at
  }

  function Next(c: Config, s: State, op: Op, answer: Answer): Stage {
    if op.on then NextOfStart(c, s, op, answer) else NextOfStop(c, s, op, answer)
  }

  /** A service as a call leaves it: a successful call leaves a daemon running. */
  function Settled(c: Config, service: string, answer: Answer): Container {
    if answer.ok && service in c.daemons then answer.seen.(running := true) else answer.seen
  }

  /** What the engine, the marks and the records become when a worker leaves its place for `next`. */
  function Effect(c: Config, w: World, op: Op, next: Stage, answer: Answer): World {
    var plan := PlanOf(c, op);
    match op.at
    case Queued => if op.on then w.(roots := w.roots + {op.m.name}) else w
    case Recording(own) =>
      if next.Closing? then w
      else w.(owned := if own then w.owned + {op.m.service} else w.owned - {op.m.service})
    case Holding(i) =>
      if next.Chosen? && i < |plan| then w.(owned := w.owned + {plan[i].service}) else w
    case Deciding => if next.StopNext? then w.(outside := {}) else w
    case Calling(i, recreate) =>
      if i < |plan| then AfterCall(c, w, plan[i].service, recreate, answer) else w
    case StopCall(_, i) =>
      if i < |plan| then AfterStop(w, op.m, plan[i], answer) else w
    case _ => w
  }

  function AfterCall(c: Config, w: World, service: string, recreate: bool, answer: Answer): World {
    w.(containers := w.containers[service := Settled(c, service, answer)],
       stale := if answer.ok then w.stale - {service} else w.stale,
       starts := if answer.ok && !recreate then w.starts[service := Starts(w, service) + 1] else w.starts)
  }

  /** A failed stop may have stopped the service too; only a recorded one gives up ownership. */
  function AfterStop(w: World, m: Module, item: Module, answer: Answer): World {
    var was := StateOf(w.containers, item.service);
    var runs := was.running && !answer.ok && answer.seen.running;
    w.(containers := w.containers[item.service := was.(running := runs)],
       starts := if runs then w.starts else w.starts - {item.service},
       roots := if answer.ok && item.name == m.name then w.roots - {item.name} else w.roots,
       owned := if answer.ok && answer.saved then w.owned - {item.service} else w.owned)
  }

  /** Puts a worker at its next place: the gate, the lock and the active entry follow it, as the source's
      deferred releases make them. */
  function Place(c: Config, s: State, id: nat, op: Op, at: Stage): State {
    var moved := op.(at := at);
    var before, after := GateOf(c, op), GateOf(c, moved);
    s.(ops := s.ops[id := moved],
       active := if at.Closing? then s.active - {op.m.name} else s.active,
       readers := if op.on then s.readers + {id} else s.readers,
       pending := if op.on then s.pending else Some(id),
       gates := if after == before then s.gates
                else if after.Some? then s.gates[after.value := id]
                else s.gates - {before.value})
  }

  /** The lock is released after the module stopped being active. */
  function Release(s: State, id: nat, op: Op): State {
    s.(ops := s.ops - {id},
       readers := if op.on then s.readers - {id} else s.readers,
       pending := if op.on then s.pending else None)
  }

  function Accept(c: Config, s: State, id: nat, m: Module, on: bool): State {
    if m !in c.inventory || id in s.ops || m.name in s.active then s
    else s.(ops := s.ops[id := Op(m, on, Queued)], active := s.active[m.name := id])
  }

  function AdvanceOp(c: Config, s: State, id: nat, answer: Answer): State
    requires id in s.ops
  {
    var op := s.ops[id];
    var at := Next(c, s, op, answer);
    if op.at.Closing? then Release(s, id, op)
    else if at == op.at then s
    else Place(c, s, id, op, at).(world := Effect(c, s.world, op, at, answer))
  }

  function Step(c: Config, s: State, e: Event): State {
    match e
    case Request(id, m, on) => Accept(c, s, id, m, on)
    case Advance(id, answer) => if id in s.ops then AdvanceOp(c, s, id, answer) else s
    case Exit(service) =>
      if service in c.daemons || service !in s.world.containers then s
      else s.(world := s.world.(containers := s.world.containers[service := Container(false, true)]))
    case Appear(service) =>
      if StateOf(s.world.containers, service).running then s
      else
        s.(world := s.world.(containers := s.world.containers[service := Container(true, false)],
                             outside := s.world.outside + {service}))
  }

  function Run(c: Config, s: State, events: seq<Event>): State
    decreases |events|
  {
    if events == [] then s else Run(c, Step(c, s, events[0]), events[1..])
  }

  // ---- what every step keeps -------------------------------------------------------------------------

  predicate SharesLock(op: Op) { op.on && !op.at.Queued? }

  predicate ClaimsLock(op: Op) { !op.on && !op.at.Queued? }

  predicate OwnsLock(op: Op) { ClaimsLock(op) && !op.at.Announced? }

  /** A worker is where its direction can take it, at a place of its plan. */
  ghost predicate WellPlaced(c: Config, op: Op) {
    && op.m in c.inventory
    && match op.at
       case Queued => true
       case Closing => true
       case Recalling => op.on
       case Recording(_) => op.on
       case Waiting(i) => op.on && i <= |PlanOf(c, op)|
       case Holding(i) => op.on && i < |PlanOf(c, op)|
       case Chosen(i) => op.on && i < |PlanOf(c, op)|
       case Calling(i, _) => op.on && i < |PlanOf(c, op)|
       case Readying(i) => op.on && i < |PlanOf(c, op)|
       case Announced => !op.on
       case Deciding => !op.on
       case StopNext(_, i) => !op.on && i <= |PlanOf(c, op)|
       case StopCall(_, i) => !op.on && i < |PlanOf(c, op)|
  }

  /** One operation per module is active, and nothing else is. */
  ghost predicate ActiveOk(c: Config, s: State) {
    && (forall id <- s.ops :: WellPlaced(c, s.ops[id]))
    && (forall id <- s.ops :: !s.ops[id].at.Closing? ==> s.ops[id].m.name in s.active && s.active[s.ops[id].m.name] == id)
    && (forall name <- s.active ::
          s.active[name] in s.ops && s.ops[s.active[name]].m.name == name && !s.ops[s.active[name]].at.Closing?)
  }

  /** The lock is shared by the starts past the queue, or claimed by one stop; never both held. */
  ghost predicate LockOk(s: State) {
    && (forall id :: id in s.readers <==> id in s.ops && SharesLock(s.ops[id]))
    && (forall id :: s.pending == Some(id) <==> id in s.ops && ClaimsLock(s.ops[id]))
    && (forall id <- s.ops :: OwnsLock(s.ops[id]) ==> s.readers == {})
  }

  /** A gate is held by exactly the worker that is at its service. */
  ghost predicate GatesOk(c: Config, s: State) {
    && (forall id <- s.ops :: GateOf(c, s.ops[id]).Some? ==>
          GateOf(c, s.ops[id]).value in s.gates && s.gates[GateOf(c, s.ops[id]).value] == id)
    && (forall service <- s.gates ::
          s.gates[service] in s.ops && GateOf(c, s.ops[s.gates[service]]) == Some(service))
  }

  /** Down, as far as this controller's own calls go, and not started since a stop brought it down. */
  ghost predicate Startable(c: Config, w: World, service: string) {
    && (!StateOf(w.containers, service).running || service in w.outside)
    && (service in c.daemons ==> Starts(w, service) == 0)
  }

  /** A worker that has decided to call the engine is still right to. */
  ghost predicate CallOk(c: Config, w: World, op: Op) {
    match op.at
    case Chosen(i) =>
      i < |PlanOf(c, op)| && (PlanOf(c, op)[i].service in w.stale || Startable(c, w, PlanOf(c, op)[i].service))
    case Calling(i, recreate) =>
      && i < |PlanOf(c, op)|
      && (recreate <==> PlanOf(c, op)[i].service in w.stale)
      && (!recreate ==> Startable(c, w, PlanOf(c, op)[i].service))
    case _ => true
  }

  /** What is kept about each service that does not stop by itself. */
  ghost predicate StartedOnce(w: World, service: string) {
    && Starts(w, service) <= 1
    && (Starts(w, service) == 1 ==> StateOf(w.containers, service).running || service in w.stale)
  }

  /** A service that does not stop by itself was started at most once since it was stopped. */
  ghost predicate StartsOk(c: Config, s: State) {
    && (forall id <- s.ops :: CallOk(c, s.world, s.ops[id]))
    && (forall service <- c.daemons :: StartedOnce(s.world, service))
  }

  /** What the stop of `op.m` has stopped when it has handled every place from `i` up. */
  function StoppedFrom(c: Config, op: Op, d: Decision, i: nat): seq<Module>
    requires i <= |PlanOf(c, op)|
  {
    StopsFrom(op.m, NeededFor(c, op.m, d), d.owned, PlanOf(c, op)[i..])
  }

  /** While it holds the lock, a stop's decision still describes the world, less what it has stopped. */
  ghost predicate DecisionHolds(c: Config, w: World, op: Op, d: Decision, i: nat) {
    && i <= |PlanOf(c, op)| && op.m.service !in NeededFor(c, op.m, d)
    && w.owned == d.owned - Services(StoppedFrom(c, op, d, i))
    && (forall service :: StateOf(w.containers, service).running && service !in w.outside ==>
          StateOf(d.containers, service).running && service !in Services(StoppedFrom(c, op, d, i)))
  }

  ghost predicate StopOk(c: Config, w: World, op: Op) {
    match op.at
    case StopNext(d, i) => DecisionHolds(c, w, op, d, i)
    case StopCall(d, i) =>
      && DecisionHolds(c, w, op, d, i + 1)
      && !Kept(op.m, NeededFor(c, op.m, d), w.owned, PlanOf(c, op)[i])
    case _ => true
  }

  ghost predicate Inv(c: Config, s: State) {
    && ActiveOk(c, s) && LockOk(s) && GatesOk(c, s) && StartsOk(c, s)
    && forall id <- s.ops :: StopOk(c, s.world, s.ops[id])
  }

  // ---- one step at a time ----------------------------------------------------------------------------

  lemma NextIsPlaced(c: Config, s: State, op: Op, answer: Answer)
    requires WellPlaced(c, op)
    ensures WellPlaced(c, op.(at := Next(c, s, op, answer)))
    ensures op.at.Closing? || !Next(c, s, op, answer).Queued? || Next(c, s, op, answer) == op.at
  {
    hide Plan, Needed, Kept, NeedsCall, StateOf;
    assert PlanOf(c, op.(at := Next(c, s, op, answer))) == PlanOf(c, op);
  }

  lemma NewIsPlaced(c: Config, m: Module, on: bool)
    requires m in c.inventory
    ensures WellPlaced(c, Op(m, on, Queued)) && GateOf(c, Op(m, on, Queued)) == None
  {
  }

  lemma ActiveStep(c: Config, s: State, e: Event)
    requires ActiveOk(c, s)
    ensures ActiveOk(c, Step(c, s, e))
  {
    hide Next, Effect, GateOf, WellPlaced, Plan;
    match e
    case Request(id, m, on) =>
      if m in c.inventory {
        NewIsPlaced(c, m, on);
      }
    case Advance(id, answer) =>
      if id in s.ops {
        var op := s.ops[id];
        NextIsPlaced(c, s, op, answer);
      }
    case Exit(service) =>
    case Appear(service) =>
  }

  /** A step takes the lock only as the lock allows it. */
  lemma NextRespectsLock(c: Config, s: State, op: Op, answer: Answer)
    requires WellPlaced(c, op)
    ensures
      var at := Next(c, s, op, answer);
      && (op.at.Queued? && at != op.at ==> s.pending.None? && !OwnsLock(op.(at := at)))
      && (OwnsLock(op.(at := at)) && !OwnsLock(op) ==> s.readers == {})
      && (!op.at.Queued? ==> !at.Queued?)
  {
    hide Plan, Needed, Kept, NeedsCall, StateOf;
  }

  /** Moving one worker keeps the lock's bookkeeping. */
  lemma PlaceKeepsLock(c: Config, s: State, id: nat, at: Stage)
    requires LockOk(s) && id in s.ops && !at.Queued?
    requires s.ops[id].at.Queued? ==> s.pending.None? && !OwnsLock(s.ops[id].(at := at))
    requires OwnsLock(s.ops[id].(at := at)) && !OwnsLock(s.ops[id]) ==> s.readers == {}
    ensures LockOk(Place(c, s, id, s.ops[id], at))
  {
    hide GateOf, Plan;
    var op, t := s.ops[id], Place(c, s, id, s.ops[id], at);
    assert op.at.Queued? || (if op.on then id in s.readers else s.pending == Some(id));
    forall other <- t.ops | OwnsLock(t.ops[other])
      ensures t.readers == {}
    {
      if other != id {
        assert OwnsLock(s.ops[other]) && s.pending == Some(other);
      }
    }
  }

  lemma ReleaseKeepsLock(s: State, id: nat)
    requires LockOk(s) && id in s.ops && s.ops[id].at.Closing?
    ensures LockOk(Release(s, id, s.ops[id]))
  {
    assert if s.ops[id].on then id in s.readers else s.pending == Some(id);
  }

  lemma AdvanceKeepsLock(c: Config, s: State, id: nat, answer: Answer)
    requires ActiveOk(c, s) && LockOk(s) && id in s.ops
    ensures LockOk(Step(c, s, Advance(id, answer)))
  {
    var op := s.ops[id];
    assert WellPlaced(c, op);
    hide Next, Effect, GateOf, Plan, Place, Release, ActiveOk, LockOk, WellPlaced, OwnsLock;
    NextRespectsLock(c, s, op, answer);
    if op.at.Closing? {
      ReleaseKeepsLock(s, id);
    } else if Next(c, s, op, answer) != op.at {
      NextIsPlaced(c, s, op, answer);
      PlaceKeepsLock(c, s, id, Next(c, s, op, answer));
      SameLock(Place(c, s, id, op, Next(c, s, op, answer)), Step(c, s, Advance(id, answer)).world);
    }
  }

  /** The lock does not depend on the world. */
  lemma SameLock(s: State, w: World)
    requires LockOk(s)
    ensures LockOk(s.(world := w))
  {
  }

  lemma LockStep(c: Config, s: State, e: Event)
    requires ActiveOk(c, s) && LockOk(s)
    ensures LockOk(Step(c, s, e))
  {
    hide ActiveOk, WellPlaced, AdvanceOp;
    match e
    case Request(id, m, on) =>
    case Advance(id, answer) =>
      if id in s.ops {
        AdvanceKeepsLock(c, s, id, answer);
      }
    case Exit(service) =>
    case Appear(service) =>
  }

  /** A gate is taken only when free, and kept until it is given back. */
  lemma NextRespectsGates(c: Config, s: State, op: Op, answer: Answer)
    requires WellPlaced(c, op)
    ensures
      var next := GateOf(c, op.(at := Next(c, s, op, answer)));
      next.Some? && GateOf(c, op) != next ==> GateOf(c, op) == None && next.value !in s.gates
    ensures op.at.Closing? ==> GateOf(c, op) == None
  {
    hide Plan, Needed, Kept, NeedsCall, StateOf;
    assert PlanOf(c, op.(at := Next(c, s, op, answer))) == PlanOf(c, op);
  }

  lemma AdvanceKeepsGates(c: Config, s: State, id: nat, answer: Answer)
    requires ActiveOk(c, s) && GatesOk(c, s) && id in s.ops
    ensures GatesOk(c, Step(c, s, Advance(id, answer)))
  {
    hide Next, Effect, GateOf, WellPlaced, Plan;
    NextRespectsGates(c, s, s.ops[id], answer);
  }

  lemma GatesStep(c: Config, s: State, e: Event)
    requires ActiveOk(c, s) && GatesOk(c, s)
    ensures GatesOk(c, Step(c, s, e))
  {
    hide AdvanceOp, GateOf, WellPlaced, Plan, ActiveOk;
    match e
    case Request(id, m, on) =>
      if m in c.inventory {
        NewIsPlaced(c, m, on);
      }
    case Advance(id, answer) =>
      if id in s.ops {
        AdvanceKeepsGates(c, s, id, answer);
      }
    case Exit(service) =>
    case Appear(service) =>
  }

  /** The one service a step may change in the engine. */
  function Touched(c: Config, op: Op): Option<string> {
    if (op.at.Calling? || op.at.StopCall?) && op.at.i < |PlanOf(c, op)| then Some(PlanOf(c, op)[op.at.i].service) else None
  }

  lemma EffectIsLocal(c: Config, w: World, op: Op, next: Stage, answer: Answer, service: string)
    requires Touched(c, op) != Some(service)
    ensures
      var t := Effect(c, w, op, next, answer);
      && StateOf(t.containers, service) == StateOf(w.containers, service)
      && (service in t.stale <==> service in w.stale)
      && Starts(t, service) == Starts(w, service)
      && (op.at.Deciding? || t.outside == w.outside)
  {
    hide Plan, Settled;
  }

  lemma CallKeepsStartedOnce(c: Config, w: World, op: Op, next: Stage, answer: Answer, service: string)
    requires service in c.daemons && Touched(c, op) == Some(service)
    requires StartedOnce(w, service) && CallOk(c, w, op)
    ensures StartedOnce(Effect(c, w, op, next, answer), service)
  {
    hide Plan;
  }

  /** A worker's own next place is right about the world it moves in. */
  lemma NextCallOk(c: Config, s: State, op: Op, answer: Answer)
    requires WellPlaced(c, op) && CallOk(c, s.world, op) && Touched(c, op) == None
    requires forall service <- c.daemons :: StartedOnce(s.world, service)
    ensures
      var at := Next(c, s, op, answer);
      CallOk(c, Effect(c, s.world, op, at, answer), op.(at := at))
  {
    hide Plan, Needed, Kept;
    assert PlanOf(c, op.(at := Next(c, s, op, answer))) == PlanOf(c, op);
  }

  lemma NextAfterCall(c: Config, s: State, op: Op, answer: Answer)
    requires Touched(c, op).Some? && WellPlaced(c, op)
    ensures var at := Next(c, s, op, answer); !at.Chosen? && !at.Calling?
  {
    hide Plan, Needed, Kept;
  }

  /** Whoever else is about to call the engine calls it for another service. */
  lemma OthersCallElsewhere(c: Config, s: State, id: nat, other: nat)
    requires ActiveOk(c, s) && LockOk(s) && GatesOk(c, s)
    requires id in s.ops && other in s.ops && id != other && Touched(c, s.ops[id]).Some?
    requires s.ops[other].at.Chosen? || s.ops[other].at.Calling?
    ensures GateOf(c, s.ops[other]).Some? && Touched(c, s.ops[id]) != GateOf(c, s.ops[other])
  {
    hide Plan;
    assert WellPlaced(c, s.ops[other]) && WellPlaced(c, s.ops[id]);
    assert other in s.readers;
  }

  /** While a stop decides nobody is about to call the engine. */
  lemma DecidesAlone(c: Config, s: State, id: nat, other: nat)
    requires ActiveOk(c, s) && LockOk(s) && id in s.ops && other in s.ops
    requires s.ops[other].at.Chosen? || s.ops[other].at.Calling?
    ensures !s.ops[id].at.Deciding?
  {
    hide Plan;
    assert WellPlaced(c, s.ops[other]) && WellPlaced(c, s.ops[id]);
    assert other in s.readers;
  }

  /** Nothing but the engine's containers changes, and none goes down that a start would count on. */
  lemma OutsideKeepsStarts(c: Config, s: State, e: Event)
    requires StartsOk(c, s) && (e.Exit? || e.Appear?)
    ensures StartsOk(c, Step(c, s, e))
  {
    hide Plan;
    var t := Step(c, s, e);
    forall service <- c.daemons
      ensures StartedOnce(t.world, service)
    {
      assert StartedOnce(s.world, service);
    }
    forall id <- t.ops
      ensures CallOk(c, t.world, t.ops[id])
    {
      assert CallOk(c, s.world, s.ops[id]);
    }
  }

  lemma NothingCalled(c: Config, s: State, e: Event)
    requires StartsOk(c, s)
    requires e.Request? || (e.Advance? && e.id in s.ops && s.ops[e.id].at.Closing?)
    ensures StartsOk(c, Step(c, s, e))
  {
    hide Plan, Next, Effect, Place, StartedOnce, Startable;
    var t := Step(c, s, e);
    forall id <- t.ops
      ensures CallOk(c, t.world, t.ops[id])
    {
      if id in s.ops {
        assert CallOk(c, s.world, s.ops[id]);
      }
    }
  }

  lemma StartsStep(c: Config, s: State, e: Event)
    requires ActiveOk(c, s) && LockOk(s) && GatesOk(c, s) && StartsOk(c, s)
    ensures StartsOk(c, Step(c, s, e))
  {
    hide ActiveOk, LockOk, GatesOk, CallOk, Next, Effect, Place, Release, Accept;
    if e.Exit? || e.Appear? {
      OutsideKeepsStarts(c, s, e);
    } else if e.Request? || (e.id in s.ops && s.ops[e.id].at.Closing?) {
      NothingCalled(c, s, e);
    } else if e.id in s.ops && Next(c, s, s.ops[e.id], e.answer) != s.ops[e.id].at {
      WorkersStayRight(c, s, e.id, e.answer);
      DaemonsStayRight(c, s, e.id, e.answer);
    }
  }

  lemma WorkersStayRight(c: Config, s: State, id: nat, answer: Answer)
    requires ActiveOk(c, s) && LockOk(s) && GatesOk(c, s) && StartsOk(c, s)
    requires id in s.ops && !s.ops[id].at.Closing? && Next(c, s, s.ops[id], answer) != s.ops[id].at
    ensures
      var t := Step(c, s, Advance(id, answer));
      forall other <- t.ops :: CallOk(c, t.world, t.ops[other])
  {
    hide Next, Effect, Plan, ActiveOk, LockOk, GatesOk;
    var op, t := s.ops[id], Step(c, s, Advance(id, answer));
    WorkerIsPlaced(c, s, id);
    forall other <- t.ops
      ensures CallOk(c, t.world, t.ops[other])
    {
      if other == id {
        if Touched(c, op).None? {
          NextCallOk(c, s, op, answer);
        } else {
          NextAfterCall(c, s, op, answer);
        }
      } else if s.ops[other].at.Chosen? || s.ops[other].at.Calling? {
        assert CallOk(c, s.world, s.ops[other]);
        DecidesAlone(c, s, id, other);
        var service := PlanOf(c, s.ops[other])[s.ops[other].at.i].service;
        if Touched(c, op).Some? {
          OthersCallElsewhere(c, s, id, other);
        }
        EffectIsLocal(c, s.world, op, Next(c, s, op, answer), answer, service);
      }
    }
  }

  lemma WorkerIsPlaced(c: Config, s: State, id: nat)
    requires ActiveOk(c, s) && id in s.ops
    ensures WellPlaced(c, s.ops[id])
  {
  }

  lemma DaemonsStayRight(c: Config, s: State, id: nat, answer: Answer)
    requires StartsOk(c, s)
    requires id in s.ops && !s.ops[id].at.Closing? && Next(c, s, s.ops[id], answer) != s.ops[id].at
    ensures
      var t := Step(c, s, Advance(id, answer));
      forall service <- c.daemons :: StartedOnce(t.world, service)
  {
    hide Next, Effect, Plan;
    var op, t := s.ops[id], Step(c, s, Advance(id, answer));
    forall service <- c.daemons
      ensures StartedOnce(t.world, service)
    {
      assert StartedOnce(s.world, service) && CallOk(c, s.world, op);
      if Touched(c, op) == Some(service) {
        CallKeepsStartedOnce(c, s.world, op, Next(c, s, op, answer), answer, service);
      } else {
        EffectIsLocal(c, s.world, op, Next(c, s, op, answer), answer, service);
      }
    }
  }

  /** Nobody else steps while a stop owns the lock. */
  lemma StopStepsAlone(c: Config, s: State, stop: nat, id: nat, answer: Answer)
    requires LockOk(s) && stop in s.ops && OwnsLock(s.ops[stop]) && id in s.ops && id != stop
    ensures Step(c, s, Advance(id, answer)) == s
  {
    hide Plan;
    assert s.pending == Some(stop) && s.readers == {};
  }

  lemma DecisionStarts(c: Config, op: Op, d: Decision, w: World)
    requires op.m.service !in NeededFor(c, op.m, d) && w.owned == d.owned && w.containers == d.containers
    ensures DecisionHolds(c, w, op, d, |PlanOf(c, op)|)
  {
    hide Plan;
    BeforeAnyStop(op.m, NeededFor(c, op.m, d), d.owned, PlanOf(c, op));
  }

  /** One place further down the plan: kept there, or stopped there. */
  lemma DecisionAdvances(c: Config, w: World, op: Op, d: Decision, i: nat)
    requires Sound(c.inventory) && op.m in c.inventory && i < |PlanOf(c, op)| && DecisionHolds(c, w, op, d, i + 1)
    ensures
      var item := PlanOf(c, op)[i];
      && item.service !in Services(StoppedFrom(c, op, d, i + 1))
      && (Kept(op.m, NeededFor(c, op.m, d), w.owned, item) ==> DecisionHolds(c, w, op, d, i))
      && (!Kept(op.m, NeededFor(c, op.m, d), w.owned, item) ==>
            Services(StoppedFrom(c, op, d, i)) == Services(StoppedFrom(c, op, d, i + 1)) + {item.service})
  {
    hide Plan, Needed, Services, StopsFrom, Sound;
    PlanIsListed(c.inventory, op.m);
    NextStop(op.m, NeededFor(c, op.m, d), d.owned, PlanOf(c, op), i);
  }

  lemma StopReturns(c: Config, w: World, op: Op, d: Decision, i: nat, answer: Answer)
    requires Sound(c.inventory) && op.m in c.inventory && i < |PlanOf(c, op)| && DecisionHolds(c, w, op, d, i + 1)
    requires !Kept(op.m, NeededFor(c, op.m, d), w.owned, PlanOf(c, op)[i]) && answer.ok && answer.saved
    ensures DecisionHolds(c, AfterStop(w, op.m, PlanOf(c, op)[i], answer), op, d, i)
  {
    DecisionAdvances(c, w, op, d, i);
    hide Plan, Needed, Kept, Sound, StoppedFrom;
  }

  lemma NextStopOk(c: Config, s: State, op: Op, answer: Answer)
    requires Sound(c.inventory) && WellPlaced(c, op) && !op.on && StopOk(c, s.world, op)
    ensures
      var at := Next(c, s, op, answer);
      StopOk(c, Effect(c, s.world, op, at, answer), op.(at := at))
  {
    hide Plan, Needed, Kept, DecisionHolds, Sound;
    var plan := PlanOf(c, op);
    var at := Next(c, s, op, answer);
    match op.at
    case Deciding =>
      if at.StopNext? {
        DecisionStarts(c, op, at.d, s.world.(outside := {}));
        SameDecision(c, s.world.(outside := {}), op, op.(at := at), at.d, at.i);
      }
    case StopNext(d, i) =>
      if i > 0 {
        DecisionAdvances(c, s.world, op, d, i - 1);
        if at.StopNext? {
          SameDecision(c, s.world, op, op.(at := at), d, i - 1);
        } else {
          SameDecision(c, s.world, op, op.(at := at), d, i);
        }
      }
    case StopCall(d, i) =>
      if at.StopNext? {
        StopReturns(c, s.world, op, d, i, answer);
        SameDecision(c, AfterStop(s.world, op.m, plan[i], answer), op, op.(at := at), d, i);
      }
    case _ =>
  }

  lemma SameDecision(c: Config, w: World, a: Op, b: Op, d: Decision, i: nat)
    requires a.m == b.m && DecisionHolds(c, w, a, d, i)
    ensures DecisionHolds(c, w, b, d, i)
  {
    hide Plan, Needed, StopsFrom;
  }

  /** A worker's step keeps every stop's decision: its own, and no one else can step beside it. */
  lemma AdvanceKeepsDecision(c: Config, s: State, who: nat, answer: Answer, id: nat)
    requires Sound(c.inventory) && ActiveOk(c, s) && LockOk(s) && id in s.ops && StopOk(c, s.world, s.ops[id])
    requires who in s.ops && id in Step(c, s, Advance(who, answer)).ops
    ensures var t := Step(c, s, Advance(who, answer)); StopOk(c, t.world, t.ops[id])
  {
    hide Next, Effect, Plan, DecisionHolds, WellPlaced, Sound;
    assert WellPlaced(c, s.ops[id]);
    if Step(c, s, Advance(who, answer)) != s {
      if who == id {
        if s.ops[id].on {
          StartsNeverStop(c, s, s.ops[id], answer);
        } else {
          NextStopOk(c, s, s.ops[id], answer);
        }
      } else {
        PlacedFacts(c, s.ops[id]);
        if OwnsLock(s.ops[id]) {
          StopStepsAlone(c, s, id, who, answer);
        }
      }
    }
  }

  lemma AdvanceAddsNone(c: Config, s: State, who: nat, answer: Answer)
    ensures Step(c, s, Advance(who, answer)).ops.Keys <= s.ops.Keys
  {
    hide Next, Effect, GateOf;
  }

  lemma StopStep(c: Config, s: State, e: Event)
    requires Sound(c.inventory) && ActiveOk(c, s) && LockOk(s)
    requires forall id <- s.ops :: StopOk(c, s.world, s.ops[id])
    ensures
      var t := Step(c, s, e);
      forall id <- t.ops :: StopOk(c, t.world, t.ops[id])
  {
    hide AdvanceOp, Plan, DecisionHolds, WellPlaced, Sound, ActiveOk, LockOk;
    var t := Step(c, s, e);
    if e.Advance? {
      AdvanceAddsNone(c, s, e.id, e.answer);
    }
    forall id <- t.ops
      ensures StopOk(c, t.world, t.ops[id])
    {
      if id in s.ops {
        assert StopOk(c, s.world, s.ops[id]);
        match e
        case Request(_, _, _) =>
        case Exit(_) => OutsideKeepsDecision(c, s, e, s.ops[id]);
        case Appear(_) => OutsideKeepsDecision(c, s, e, s.ops[id]);
        case Advance(who, answer) =>
          if who in s.ops {
            AdvanceKeepsDecision(c, s, who, answer, id);
          }
      }
    }
  }

  lemma PlacedFacts(c: Config, op: Op)
    requires WellPlaced(c, op)
    ensures op.at.StopNext? || op.at.StopCall? ==> OwnsLock(op)
    ensures op.at.Announced? ==> !op.on
    ensures op.at.Waiting? ==> op.on
  {
  }

  lemma StartsNeverStop(c: Config, s: State, op: Op, answer: Answer)
    requires WellPlaced(c, op) && op.on
    ensures var at := Next(c, s, op, answer); !at.StopNext? && !at.StopCall?
  {
    hide Plan, Needed, Kept, NeedsCall;
  }

  lemma OutsideKeepsDecision(c: Config, s: State, e: Event, op: Op)
    requires StopOk(c, s.world, op) && (e.Exit? || e.Appear?)
    ensures StopOk(c, Step(c, s, e).world, op)
  {
    hide Plan, Needed, Kept, StopsFrom, Services;
  }

  /** Every step of every worker, request and exit keeps the whole invariant. */
  lemma StepKeepsInv(c: Config, s: State, e: Event)
    requires Sound(c.inventory) && Inv(c, s)
    ensures Inv(c, Step(c, s, e))
  {
    hide ActiveOk, LockOk, GatesOk, StartsOk, StopOk, Step;
    ActiveStep(c, s, e);
    LockStep(c, s, e);
    GatesStep(c, s, e);
    StartsStep(c, s, e);
    StopStep(c, s, e);
  }

  /** The invariant holds after any interleaving of any number of operations. */
  lemma {:induction false} RunKeepsInv(c: Config, s: State, events: seq<Event>)
    requires Sound(c.inventory) && Inv(c, s)
    ensures Inv(c, Run(c, s, events))
    decreases |events|
  {
    hide Inv, Step;
    if events != [] {
      StepKeepsInv(c, s, events[0]);
      RunKeepsInv(c, Step(c, s, events[0]), events[1..]);
    }
  }

  // ---- main results --------------------------------------------------------------------------------------

  ghost predicate Reachable(c: Config, s: State) {
    exists containers, stale, owned, roots, events ::
      s == Run(c, Idle(containers, stale, owned, roots), events)
  }

  lemma ReachableKeepsInv(c: Config, s: State)
    requires Sound(c.inventory) && Reachable(c, s)
    ensures Inv(c, s)
  {
    var containers, stale, owned, roots, events :|
      s == Run(c, Idle(containers, stale, owned, roots), events);
    assert Inv(c, Idle(containers, stale, owned, roots));
    RunKeepsInv(c, Idle(containers, stale, owned, roots), events);
  }

  /** At most one operation is active per module. */
  lemma OneActivePerModule(c: Config, s: State, a: nat, b: nat)
    requires Sound(c.inventory) && Reachable(c, s) && a in s.ops && b in s.ops
    requires s.ops[a].m.name == s.ops[b].m.name && !s.ops[a].at.Closing? && !s.ops[b].at.Closing?
    ensures a == b
  {
    ReachableKeepsInv(c, s);
  }

  /** While a stop has the lock, every other operation is still queued: no stop overlaps a start or a stop. */
  lemma StopsRunAlone(c: Config, s: State, stop: nat, other: nat)
    requires Sound(c.inventory) && Reachable(c, s) && stop in s.ops && other in s.ops && stop != other
    requires OwnsLock(s.ops[stop])
    ensures s.ops[other].at.Queued?
  {
    ReachableKeepsInv(c, s);
    hide Plan, WellPlaced, StartsOk, GatesOk, StopOk;
    assert s.pending == Some(stop) && s.readers == {};
    assert other !in s.readers;
  }

  /** No two starts are at one service at once, so no two engine calls start or recreate it together. */
  lemma OneStartPerService(c: Config, s: State, a: nat, b: nat)
    requires Sound(c.inventory) && Reachable(c, s) && a in s.ops && b in s.ops
    requires GateOf(c, s.ops[a]).Some? && GateOf(c, s.ops[a]) == GateOf(c, s.ops[b])
    ensures a == b
  {
    ReachableKeepsInv(c, s);
    hide Plan, WellPlaced, StartsOk, LockOk, StopOk;
  }

  lemma CalledIsDown(c: Config, s: State, id: nat, service: string)
    requires StartsOk(c, s) && service in c.daemons && id in s.ops
    requires s.ops[id].at.Calling? && !s.ops[id].at.recreate && GateOf(c, s.ops[id]) == Some(service)
    ensures (!StateOf(s.world.containers, service).running || service in s.world.outside) && Starts(s.world, service) == 0
  {
    hide Plan, StateOf, Starts;
    assert CallOk(c, s.world, s.ops[id]);
  }

  /** A service that does not stop by itself is started with success at most once until a stop brings it down, and is
      never started while it runs, unless someone else brought it up. */
  lemma StartedAtMostOnce(c: Config, s: State, id: nat, service: string)
    requires Sound(c.inventory) && Reachable(c, s) && service in c.daemons
    ensures Starts(s.world, service) <= 1
    ensures id in s.ops && s.ops[id].at.Calling? && !s.ops[id].at.recreate && GateOf(c, s.ops[id]) == Some(service)
            ==> Starts(s.world, service) == 0
                && (StateOf(s.world.containers, service).running ==> service in s.world.outside)
  {
    ReachableKeepsInv(c, s);
    hide Plan, LockOk, ActiveOk, GatesOk, StopOk, CallOk, GateOf, Sound, Reachable, StateOf, Starts;
    if id in s.ops && s.ops[id].at.Calling? && !s.ops[id].at.recreate && GateOf(c, s.ops[id]) == Some(service) {
      CalledIsDown(c, s, id, service);
    }
  }

  lemma DecisionSpares(c: Config, w: World, op: Op, d: Decision, i: nat)
    requires Sound(c.inventory) && op.m in c.inventory && DecisionHolds(c, w, op, d, i)
    ensures
      var stopped := Services(StoppedFrom(c, op, d, i));
      forall o <- c.inventory :: !Uncounted(o.name) && StateOf(w.containers, o.service).running && o.service !in w.outside ==>
        Services(Plan(c.inventory, o.name)) !! stopped
  {
    hide Plan, StopsFrom, Needed, Sound, Services;
    TailIsSafe(c.inventory, op.m, d.containers, d.owned, d.roots, i);
  }

  /** Safe stop under any interleaving: whatever a stop has stopped so far, no module running now needs it,
      unless someone else brought that module up after the stop decided. */
  lemma StopsSpareWhatRuns(c: Config, s: State, id: nat, d: Decision, i: nat)
    requires Sound(c.inventory) && Reachable(c, s) && id in s.ops
    requires s.ops[id].at == StopNext(d, i) || (i > 0 && s.ops[id].at == StopCall(d, i - 1))
    ensures i <= |PlanOf(c, s.ops[id])|
    ensures
      var stopped := Services(StoppedFrom(c, s.ops[id], d, i));
      forall o <- c.inventory :: !Uncounted(o.name) && StateOf(s.world.containers, o.service).running && o.service !in s.world.outside ==>
        Services(Plan(c.inventory, o.name)) !! stopped
  {
    ReachableKeepsInv(c, s);
    StopIsDecided(c, s, id, d, i);
    hide Plan, StoppedFrom, Sound, Inv, DecisionHolds;
    DecisionSpares(c, s.world, s.ops[id], d, i);
  }

  lemma {:induction false} RunMore(c: Config, s: State, events: seq<Event>, e: Event)
    ensures Run(c, s, events + [e]) == Step(c, Run(c, s, events), e)
    decreases |events|
  {
    hide Step;
    if events == [] {
      assert events + [e] == [e] && [e][1..] == [];
    } else {
      RunMore(c, Step(c, s, events[0]), events[1..], e);
      assert (events + [e])[1..] == events[1..] + [e];
    }
  }

  lemma AppearedRuns(c: Config, s: State, service: string)
    ensures
      var t := Step(c, s, Appear(service));
      t.ops == s.ops && StateOf(t.world.containers, service).running
  {
  }

  lemma StepIsReachable(c: Config, s: State, e: Event)
    requires Reachable(c, s)
    ensures Reachable(c, Step(c, s, e))
  {
    hide Step, Run;
    var containers, stale, owned, roots, events :|
      s == Run(c, Idle(containers, stale, owned, roots), events);
    RunMore(c, Idle(containers, stale, owned, roots), events, e);
  }

  lemma StoppedIsListed(c: Config, op: Op, d: Decision, i: nat, o: Module)
    requires Sound(c.inventory) && op.m in c.inventory && i <= |PlanOf(c, op)| && o in StoppedFrom(c, op, d, i)
    ensures o in c.inventory && o in Plan(c.inventory, o.name)
  {
    hide Plan, Needed, StopsFrom, Acyclic, Kept;
    StopsFromMembers(op.m, NeededFor(c, op.m, d), d.owned, PlanOf(c, op)[i..]);
    PlanIsListed(c.inventory, op.m);
    PlanIsDistinct(c.inventory, o.name);
  }

  lemma SharedService(a: seq<Module>, b: seq<Module>, o: Module)
    requires o in a && o in b
    ensures !(Services(a) !! Services(b))
  {
    assert o.service in Services(a) && o.service in Services(b);
  }

  /** Such a module is not spared: in every run that has stopped something, someone else may bring it up again, and the
      stop goes on without noticing. */
  lemma OutsideMayBeStranded(c: Config, s: State, id: nat, d: Decision, i: nat, o: Module)
    requires Sound(c.inventory) && Reachable(c, s) && id in s.ops && s.ops[id].at == StopNext(d, i)
    requires i <= |PlanOf(c, s.ops[id])| && o in StoppedFrom(c, s.ops[id], d, i)
    ensures
      var t := Step(c, s, Appear(o.service));
      && Reachable(c, t) && id in t.ops && t.ops[id] == s.ops[id]
      && o in c.inventory && StateOf(t.world.containers, o.service).running
      && !(Services(Plan(c.inventory, o.name)) !! Services(StoppedFrom(c, t.ops[id], d, i)))
  {
    StepIsReachable(c, s, Appear(o.service));
    ReachableKeepsInv(c, s);
    StopIsDecided(c, s, id, d, i);
    hide *;
    AppearedRuns(c, s, o.service);
    StoppedIsListed(c, s.ops[id], d, i, o);
    SharedService(Plan(c.inventory, o.name), StoppedFrom(c, s.ops[id], d, i), o);
  }

  lemma StopIsDecided(c: Config, s: State, id: nat, d: Decision, i: nat)
    requires Inv(c, s) && id in s.ops
    requires s.ops[id].at == StopNext(d, i) || (i > 0 && s.ops[id].at == StopCall(d, i - 1))
    ensures s.ops[id].m in c.inventory && DecisionHolds(c, s.world, s.ops[id], d, i) && i <= |PlanOf(c, s.ops[id])|
  {
    hide Plan, StoppedFrom, LockOk, GatesOk, StartsOk;
    assert StopOk(c, s.world, s.ops[id]) && WellPlaced(c, s.ops[id]);
  }

  /** A worker that is not waiting for the lock or for a gate. */
  predicate CanStep(c: Config, s: State, id: nat)
    requires id in s.ops
  {
    var op := s.ops[id];
    match op.at
    case Queued => s.pending.None?
    case Announced => s.readers == {}
    case Waiting(i) => i >= |PlanOf(c, op)| || PlanOf(c, op)[i].service !in s.gates
    case _ => true
  }

  /** Nothing deadlocks: while an operation is unfinished, some worker can step, whatever the world answers. */
  lemma SomeWorkerCanStep(c: Config, s: State) returns (id: nat)
    requires Sound(c.inventory) && Reachable(c, s) && s.ops != map[]
    ensures id in s.ops && CanStep(c, s, id)
    ensures forall answer :: Step(c, s, Advance(id, answer)) != s
  {
    ReachableKeepsInv(c, s);
    id := FindFree(c, s);
    forall answer
      ensures Step(c, s, Advance(id, answer)) != s
    {
      FreeWorkerSteps(c, s, id, answer);
    }
  }

  lemma FreeWorkerSteps(c: Config, s: State, id: nat, answer: Answer)
    requires ActiveOk(c, s) && id in s.ops && CanStep(c, s, id)
    ensures Step(c, s, Advance(id, answer)) != s
  {
    hide Plan, Needed, Kept, NeedsCall, Effect;
    var op, t := s.ops[id], Step(c, s, Advance(id, answer));
    assert WellPlaced(c, op);
    if op.at.Closing? {
      assert id !in t.ops;
    } else {
      assert Next(c, s, op, answer) != op.at;
      assert t.ops[id].at != s.ops[id].at;
    }
  }

  lemma BusyIsFree(c: Config, s: State, w: nat) returns (id: nat)
    requires GatesOk(c, s) && w in s.ops && !s.ops[w].at.Queued? && !s.ops[w].at.Announced?
    ensures id in s.ops && CanStep(c, s, id)
  {
    hide Plan;
    id := w;
    if s.ops[w].at.Waiting? && !CanStep(c, s, w) {
      id := s.gates[PlanOf(c, s.ops[w])[s.ops[w].at.i].service];
    }
  }

  lemma FindFree(c: Config, s: State) returns (id: nat)
    requires Inv(c, s) && s.ops != map[]
    ensures id in s.ops && CanStep(c, s, id)
  {
    hide Plan, StartsOk, StopOk, WellPlaced, GatesOk;
    if w :| w in s.ops && !s.ops[w].at.Queued? && !s.ops[w].at.Announced? {
      id := BusyIsFree(c, s, w);
    } else if s.pending.Some? {
      id := s.pending.value;
      assert id in s.ops;
      forall r: nat
        ensures r !in s.readers
      {
        if r in s.readers {
          PlacedFacts(c, s.ops[r]);
        }
      }
    } else {
      id :| id in s.ops;
      PlacedFacts(c, s.ops[id]);
      assert s.ops[id].at.Queued?;
    }
  }

  /** How many steps a worker has left at most. */
  function Left(c: Config, op: Op): nat {
    var n := |PlanOf(c, op)|;
    match op.at
    case Queued => 5 * n + 10
    case Recalling => 5 * n + 9
    case Recording(_) => 5 * n + 8
    case Waiting(i) => if i <= n then 5 * (n - i) + 5 else 0
    case Holding(i) => if i <= n then 5 * (n - i) + 4 else 0
    case Chosen(i) => if i <= n then 5 * (n - i) + 3 else 0
    case Calling(i, _) => if i <= n then 5 * (n - i) + 2 else 0
    case Readying(i) => if i <= n then 5 * (n - i) + 1 else 0
    case Announced => 5 * n + 9
    case Deciding => 5 * n + 8
    case StopNext(_, i) => 2 * i + 2
    case StopCall(_, i) => 2 * i + 3
    case Closing => 0
  }

  lemma StartUsesOneUp(c: Config, s: State, op: Op, answer: Answer)
    requires WellPlaced(c, op) && op.on
    ensures
      var at := NextOfStart(c, s, op, answer);
      at == op.at || Left(c, op.(at := at)) < Left(c, op)
  {
    hide Plan, NeedsCall;
    assert PlanOf(c, op.(at := NextOfStart(c, s, op, answer))) == PlanOf(c, op);
  }

  lemma StopUsesOneUp(c: Config, s: State, op: Op, answer: Answer)
    requires WellPlaced(c, op) && !op.on
    ensures
      var at := NextOfStop(c, s, op, answer);
      at == op.at || Left(c, op.(at := at)) < Left(c, op)
  {
    hide Plan, Needed, Kept;
    assert PlanOf(c, op.(at := NextOfStop(c, s, op, answer))) == PlanOf(c, op);
  }

  lemma NextUsesOneUp(c: Config, s: State, op: Op, answer: Answer)
    requires WellPlaced(c, op)
    ensures
      var at := Next(c, s, op, answer);
      at == op.at || Left(c, op.(at := at)) < Left(c, op)
  {
    hide WellPlaced, Left, NextOfStart, NextOfStop;
    if op.on {
      StartUsesOneUp(c, s, op, answer);
    } else {
      StopUsesOneUp(c, s, op, answer);
    }
  }

  /** Every step of a worker uses one up, so an operation that is never blocked for ever ends. */
  lemma StepsRunOut(c: Config, s: State, id: nat, answer: Answer)
    requires Sound(c.inventory) && Reachable(c, s) && id in s.ops
    ensures
      var t := Step(c, s, Advance(id, answer));
      t == s || id !in t.ops || Left(c, t.ops[id]) < Left(c, s.ops[id])
  {
    ReachableKeepsInv(c, s);
    assert WellPlaced(c, s.ops[id]);
    hide Plan, Next, Effect, Inv, Left, WellPlaced, GateOf;
    NextUsesOneUp(c, s, s.ops[id], answer);
  }
}
