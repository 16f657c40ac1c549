/** What a whole operation does: every entry of its plan, in order, whoever else is at work; and, undisturbed, where it
    leaves the engine and the records. */
module LifecycleRuns {
  import opened Wrappers
  import opened Planning
  import opened Stopping
  import opened Lifecycle

  // ---- what a worker has done --------------------------------------------------------------------------

  /** A call that succeeded and was recorded, a service found up and unmarked, one reported ready, and one stopped. */
  datatype Deed = Called(service: string) | Found(service: string) | Readied(service: string) | Downed(service: string)

  /** A worker's deeds since its request was accepted, what it decided on, and whether every answer was good. */
  datatype Account = Account(deeds: seq<Deed>, decided: Option<Decision>, clean: bool)

  const NOTHING := Account([], None, true)

  /** What a step of this worker adds, told from where it is and what it is answered. */
  function DeedsOf(c: Config, w: World, op: Op, answer: Answer): seq<Deed> {
    if !answer.ok then []
    else
      var plan := Plan(c.inventory, op.m.name);
      match op.at
      case Holding(i) =>
        if i < |plan| && plan[i].service !in w.stale && IsUp(w.containers, plan[i]) then [Found(plan[i].service)] else []
      case Calling(i, _) => if i < |plan| && answer.saved then [Called(plan[i].service)] else []
      case Readying(i) => if i < |plan| then [Readied(plan[i].service)] else []
      case StopCall(_, i) => if i < |plan| && answer.saved then [Downed(plan[i].service)] else []
      case _ => []
  }

  function DecidedOn(w: World, op: Op, before: Option<Decision>): Option<Decision> {
    if op.at.Deciding? then Some(Decision(w.containers, w.owned, w.roots)) else before
  }

  function NextAccount(c: Config, s: State, e: Event, id: nat, a: Account): Account {
    match e
    case Request(other, m, on) => if other == id && id !in s.ops then NOTHING else a
    case Advance(other, answer) =>
      if other != id || id !in s.ops then a
      else
        Account(a.deeds + DeedsOf(c, s.world, s.ops[id], answer), DecidedOn(s.world, s.ops[id], a.decided),
                a.clean && answer.ok && answer.saved)
    case _ => a
  }

  function AccountOf(c: Config, s: State, events: seq<Event>, id: nat, a: Account): Account
    decreases |events|
  {
    if events == [] then a
    else AccountOf(c, Step(c, s, events[0]), events[1..], id, NextAccount(c, s, events[0], id, a))
  }

  // ---- every entry, in order ---------------------------------------------------------------------------

  /** Entry by entry: called or found up, and then reported ready. */
  ghost predicate Brought(deeds: seq<Deed>, plan: seq<Module>, i: nat) {
    && i <= |plan| && |deeds| == 2 * i
    && forall j :: 0 <= j < i ==> BroughtOne(deeds[2 * j], deeds[2 * j + 1], plan[j].service)
  }

  predicate BroughtOne(first: Deed, second: Deed, service: string) {
    (first == Called(service) || first == Found(service)) && second == Readied(service)
  }

  function Downs(stops: seq<Module>): (deeds: seq<Deed>)
    ensures |deeds| == |stops| && forall i :: 0 <= i < |stops| ==> deeds[i] == Downed(stops[i].service)
  {
    seq(|stops|, i requires 0 <= i < |stops| => Downed(stops[i].service))
  }

  /** What a stop is to do by its decision, from place `i` of its plan up. */
  function ToStop(c: Config, m: Module, d: Decision, i: nat): seq<Module>
    requires i <= |Plan(c.inventory, m.name)|
  {
    StopsFrom(m, Needed(c.inventory, m, d.containers, d.owned, d.roots), d.owned, Plan(c.inventory, m.name)[i..])
  }

  /** A worker with good answers so far has done what its place says. */
  ghost predicate Accounted(c: Config, op: Op, a: Account) {
    var plan := Plan(c.inventory, op.m.name);
    match op.at
    case Queued => a == NOTHING.(clean := a.clean)
    case Recalling => a.deeds == []
    case Recording(_) => a.deeds == []
    case Waiting(i) => Brought(a.deeds, plan, i)
    case Holding(i) => Brought(a.deeds, plan, i)
    case Chosen(i) => Brought(a.deeds, plan, i)
    case Calling(i, _) => Brought(a.deeds, plan, i)
    case Readying(i) =>
      && i < |plan| && |a.deeds| == 2 * i + 1 && Brought(a.deeds[..2 * i], plan, i)
      && (a.deeds[2 * i] == Called(plan[i].service) || a.deeds[2 * i] == Found(plan[i].service))
    case Announced => a.deeds == []
    case Deciding => a.deeds == []
    case StopNext(d, i) => a.decided == Some(d) && i <= |plan| && a.deeds == Downs(ToStop(c, op.m, d, i))
    case StopCall(d, i) => a.decided == Some(d) && i < |plan| && a.deeds == Downs(ToStop(c, op.m, d, i + 1))
    case Closing => Complete(c, op, a)
  }

  /** A start has brought up its whole plan; a stop has stopped all it decided to, or was refused. */
  ghost predicate Complete(c: Config, op: Op, a: Account) {
    var plan := Plan(c.inventory, op.m.name);
    if op.on then Brought(a.deeds, plan, |plan|)
    else
      && a.decided.Some?
      && var d := a.decided.value;
         a.deeds == if op.m.service in Needed(c.inventory, op.m, d.containers, d.owned, d.roots) then []
                    else Downs(ToStop(c, op.m, d, 0))
  }

  ghost predicate AccountOk(c: Config, s: State, id: nat, a: Account) {
    id in s.ops && a.clean ==> Accounted(c, s.ops[id], a)
  }

  lemma BroughtMore(deeds: seq<Deed>, plan: seq<Module>, i: nat, first: Deed, second: Deed)
    requires i < |plan| && Brought(deeds, plan, i) && BroughtOne(first, second, plan[i].service)
    ensures Brought(deeds + [first] + [second], plan, i + 1)
  {
    var more := deeds + [first] + [second];
    assert more[2 * i] == first && more[2 * i + 1] == second;
    forall j | 0 <= j < i + 1
      ensures BroughtOne(more[2 * j], more[2 * j + 1], plan[j].service)
    {
      if j < i {
        assert more[2 * j] == deeds[2 * j] && more[2 * j + 1] == deeds[2 * j + 1];
      }
    }
  }

  /** One half of an entry: called, or found up. */
  lemma HalfMore(deeds: seq<Deed>, plan: seq<Module>, i: nat, first: Deed)
    requires i < |plan| && Brought(deeds, plan, i)
    requires first == Called(plan[i].service) || first == Found(plan[i].service)
    ensures
      var more := deeds + [first];
      |more| == 2 * i + 1 && more[..2 * i] == deeds && more[2 * i] == first && Brought(more[..2 * i], plan, i)
  {
    BroughtLength(deeds, plan, i);
    assert (deeds + [first])[..2 * i] == deeds;
  }

  /** A start's own step, well answered. */
  lemma StartAccounts(c: Config, s: State, op: Op, a: Account, answer: Answer)
    requires WellPlaced(c, op) && op.on && Accounted(c, op, a) && answer.ok && answer.saved
    requires Next(c, s, op, answer) != op.at && !op.at.Closing?
    ensures
      var b := Account(a.deeds + DeedsOf(c, s.world, op, answer), DecidedOn(s.world, op, a.decided), true);
      Accounted(c, op.(at := Next(c, s, op, answer)), b)
  {
    hide *;
    match op.at
    case Holding(_) => HoldingAccounts(c, s, op, a, answer);
    case Calling(_, _) => CallingAccounts(c, s, op, a, answer);
    case Readying(_) => ReadyingAccounts(c, s, op, a, answer);
    case _ => QuietAccounts(c, s, op, a, answer);
  }

  lemma QuietAccounts(c: Config, s: State, op: Op, a: Account, answer: Answer)
    requires WellPlaced(c, op) && op.on && Accounted(c, op, a) && answer.ok && answer.saved
    requires Next(c, s, op, answer) != op.at && !op.at.Closing? && !op.at.Holding? && !op.at.Calling? && !op.at.Readying?
    ensures
      var b := Account(a.deeds + DeedsOf(c, s.world, op, answer), DecidedOn(s.world, op, a.decided), true);
      Accounted(c, op.(at := Next(c, s, op, answer)), b)
  {
    hide Plan, Needed, Kept, StopsFrom, Brought, NextOfStop;
    assert a.deeds + [] == a.deeds;
    if op.at.Recording? {
      NothingBrought(PlanOf(c, op));
    }
  }

  lemma HoldingAccounts(c: Config, s: State, op: Op, a: Account, answer: Answer)
    requires WellPlaced(c, op) && op.on && Accounted(c, op, a) && answer.ok && answer.saved
    requires Next(c, s, op, answer) != op.at && op.at.Holding?
    ensures
      var b := Account(a.deeds + DeedsOf(c, s.world, op, answer), DecidedOn(s.world, op, a.decided), true);
      Accounted(c, op.(at := Next(c, s, op, answer)), b)
  {
    hide Plan, Needed, Kept, StopsFrom, Brought, NextOfStop;
    var plan, deeds, i := PlanOf(c, op), DeedsOf(c, s.world, op, answer), op.at.i;
    assert a.deeds + [] == a.deeds;
    if deeds != [] {
      HalfMore(a.deeds, plan, i, deeds[0]);
    }
  }

  lemma CallingAccounts(c: Config, s: State, op: Op, a: Account, answer: Answer)
    requires WellPlaced(c, op) && op.on && Accounted(c, op, a) && answer.ok && answer.saved
    requires Next(c, s, op, answer) != op.at && op.at.Calling?
    ensures
      var b := Account(a.deeds + DeedsOf(c, s.world, op, answer), DecidedOn(s.world, op, a.decided), true);
      Accounted(c, op.(at := Next(c, s, op, answer)), b)
  {
    hide Plan, Needed, Kept, StopsFrom, Brought, NextOfStop;
    HalfMore(a.deeds, PlanOf(c, op), op.at.i, DeedsOf(c, s.world, op, answer)[0]);
  }

  lemma ReadyingAccounts(c: Config, s: State, op: Op, a: Account, answer: Answer)
    requires WellPlaced(c, op) && op.on && Accounted(c, op, a) && answer.ok && answer.saved
    requires Next(c, s, op, answer) != op.at && op.at.Readying?
    ensures
      var b := Account(a.deeds + DeedsOf(c, s.world, op, answer), DecidedOn(s.world, op, a.decided), true);
      Accounted(c, op.(at := Next(c, s, op, answer)), b)
  {
    hide Plan, Needed, Kept, StopsFrom, Brought, NextOfStop;
    var i := op.at.i;
    BroughtMore(a.deeds[..2 * i], PlanOf(c, op), i, a.deeds[2 * i], DeedsOf(c, s.world, op, answer)[0]);
    assert a.deeds[..2 * i] + [a.deeds[2 * i]] == a.deeds;
  }

  lemma NothingBrought(plan: seq<Module>)
    ensures Brought([], plan, 0)
  {
  }

  lemma BroughtLength(deeds: seq<Deed>, plan: seq<Module>, i: nat)
    requires Brought(deeds, plan, i)
    ensures |deeds| == 2 * i <= 2 * |plan|
  {
  }

  /** A stop's own step, well answered. */
  lemma StopAccounts(c: Config, s: State, op: Op, a: Account, answer: Answer)
    requires Sound(c.inventory) && WellPlaced(c, op) && !op.on && StopOk(c, s.world, op)
    requires Accounted(c, op, a) && answer.ok && answer.saved && !op.at.Closing? && Next(c, s, op, answer) != op.at
    ensures
      var b := Account(a.deeds + DeedsOf(c, s.world, op, answer), DecidedOn(s.world, op, a.decided), true);
      Accounted(c, op.(at := Next(c, s, op, answer)), b)
  {
    hide Plan, Needed, Services, Sound, StopsFrom, Kept;
    var plan := PlanOf(c, op);
    assert PlanOf(c, op.(at := Next(c, s, op, answer))) == plan;
    assert a.deeds + [] == a.deeds;
    match op.at
    case Deciding =>
      var d := Decision(s.world.containers, s.world.owned, s.world.roots);
      BeforeAnyStop(op.m, NeededFor(c, op.m, d), d.owned, plan);
    case StopNext(d, i) =>
      if i > 0 {
        PlaceIsStopped(c, s.world, op, d, i - 1);
      } else {
        assert plan[0..] == plan;
      }
    case StopCall(d, i) => PlaceIsStopped(c, s.world, op, d, i);
    case _ =>
  }

  /** A place adds its stop to those above it exactly when the stop is made. */
  lemma PlaceIsStopped(c: Config, w: World, op: Op, d: Decision, i: nat)
    requires Sound(c.inventory) && op.m in c.inventory && i < |PlanOf(c, op)|
    requires w.owned == d.owned - Services(ToStop(c, op.m, d, i + 1))
    ensures
      var item := PlanOf(c, op)[i];
      var above := ToStop(c, op.m, d, i + 1);
      && ToStop(c, op.m, d, i) == above + (if Kept(op.m, NeededFor(c, op.m, d), w.owned, item) then [] else [item])
      && item.service !in Services(above) && Services(above + [item]) == Services(above) + {item.service}
      && Downs(above + [item]) == Downs(above) + [Downed(item.service)]
  {
    hide Plan, Needed, StopsFrom, Sound;
    PlanIsListed(c.inventory, op.m);
    NextStop(op.m, NeededFor(c, op.m, d), d.owned, PlanOf(c, op), i);
  }

  lemma AccountStep(c: Config, s: State, e: Event, id: nat, a: Account)
    requires Sound(c.inventory) && Inv(c, s) && AccountOk(c, s, id, a)
    ensures AccountOk(c, Step(c, s, e), id, NextAccount(c, s, e, id, a))
  {
    hide Plan, Sound, LockOk, GatesOk, StartsOk, Next, Effect, GateOf, DeedsOf, Accounted, StopOk, WellPlaced;
    var t, b := Step(c, s, e), NextAccount(c, s, e, id, a);
    match e
    case Request(other, m, on) =>
      if other == id && id !in s.ops {
        StartsAfresh(c, m, on);
      }
    case Advance(other, answer) =>
      if id in t.ops && b.clean && other == id {
        var op := s.ops[id];
        assert WellPlaced(c, op) && StopOk(c, s.world, op);
        if !op.at.Closing? && Next(c, s, op, answer) != op.at {
          if op.on {
            StartAccounts(c, s, op, a, answer);
          } else {
            StopAccounts(c, s, op, a, answer);
          }
        } else {
          BlockedDoesNothing(c, s, op, a, answer);
        }
      }
    case _ =>
  }

  lemma StartsAfresh(c: Config, m: Module, on: bool)
    ensures Accounted(c, Op(m, on, Queued), NOTHING)
  {
  }

  lemma BlockedDoesNothing(c: Config, s: State, op: Op, a: Account, answer: Answer)
    requires WellPlaced(c, op) && Accounted(c, op, a) && !op.at.Closing? && Next(c, s, op, answer) == op.at
    requires answer.ok && answer.saved && a.clean
    ensures Accounted(c, op, Account(a.deeds + DeedsOf(c, s.world, op, answer), DecidedOn(s.world, op, a.decided), true))
  {
    hide Plan, Needed, Kept, StopsFrom, Brought, NeedsCall;
    assert a.deeds + [] == a.deeds;
  }

  lemma {:induction false} RunAccounts(c: Config, s: State, events: seq<Event>, id: nat, a: Account)
    requires Sound(c.inventory) && Inv(c, s) && AccountOk(c, s, id, a)
    ensures AccountOk(c, Run(c, s, events), id, AccountOf(c, s, events, id, a))
    decreases |events|
  {
    hide Inv, Step, AccountOk, NextAccount, Sound;
    if events != [] {
      StepKeepsInv(c, s, events[0]);
      AccountStep(c, s, events[0], id, a);
      RunAccounts(c, Step(c, s, events[0]), events[1..], id, NextAccount(c, s, events[0], id, a));
    }
  }

  /** In every run, whatever else is going on: a start that closes without a failed or unsaved answer has had every entry
      of its plan called or found up, and reported ready, in plan order; a stop that does has stopped exactly what its
      decision says, the last entry first, or was refused because its module is needed. */
  lemma ClosedIsComplete(
    c: Config, containers: Snapshot, stale: set<string>, owned: set<string>, roots: set<string>, events: seq<Event>, id: nat)
    requires Sound(c.inventory)
    ensures
      var start := Idle(containers, stale, owned, roots);
      var s, a := Run(c, start, events), AccountOf(c, start, events, id, NOTHING);
      id in s.ops && s.ops[id].at.Closing? && a.clean ==> Complete(c, s.ops[id], a)
  {
    hide Run, AccountOf, Complete, Plan, Sound;
    var start := Idle(containers, stale, owned, roots);
    assert Inv(c, start);
    RunAccounts(c, start, events, id, NOTHING);
  }

  // ---- one operation alone -----------------------------------------------------------------------------

  /** One worker at its place, and nothing else going on. */
  function Solo(c: Config, m: Module, on: bool, at: Stage, w: World): State {
    State(map[0 := Op(m, on, at)], if at.Closing? then map[] else map[m.name := 0],
          if on && !at.Queued? then {0} else {}, if !on && !at.Queued? then Some(0) else None,
          match GateOf(c, Op(m, on, at)) case Some(service) => map[service := 0] case None => map[], w)
  }

  /** Nothing is going on any more. */
  function Over(w: World): State { State(map[], map[], {}, None, map[], w) }

  predicate Good(answer: Answer) { answer.ok && answer.saved && answer.seen == Container(true, true) }

  function Advances(answers: seq<Answer>): (events: seq<Event>)
    ensures |events| == |answers|
  {
    seq(|answers|, i requires 0 <= i < |answers| => Advance(0, answers[i]))
  }

  lemma SoloPlaced(c: Config, m: Module, on: bool, at: Stage, w: World, next: Stage)
    requires !at.Closing? && !next.Queued?
    requires
      var before, after := GateOf(c, Op(m, on, at)), GateOf(c, Op(m, on, next));
      after.Some? && before != after ==> before == None
    ensures Place(c, Solo(c, m, on, at, w), 0, Op(m, on, at), next) == Solo(c, m, on, next, w)
  {
    hide Plan, GateOf;
  }

  lemma SoloStep(c: Config, m: Module, on: bool, at: Stage, w: World, answer: Answer)
    requires m in c.inventory && WellPlaced(c, Op(m, on, at)) && !at.Closing?
    requires Next(c, Solo(c, m, on, at, w), Op(m, on, at), answer) != at
    ensures
      var next := Next(c, Solo(c, m, on, at, w), Op(m, on, at), answer);
      Step(c, Solo(c, m, on, at, w), Advance(0, answer)) == Solo(c, m, on, next, Effect(c, w, Op(m, on, at), next, answer))
  {
    var s, op := Solo(c, m, on, at, w), Op(m, on, at);
    NextIsPlaced(c, s, op, answer);
    NextRespectsGates(c, s, op, answer);
    hide Plan, Next, Effect, WellPlaced, GateOf;
    SoloPlaced(c, m, on, at, w, Next(c, s, op, answer));
  }

  lemma SoloEnds(c: Config, m: Module, on: bool, w: World, answer: Answer)
    ensures Step(c, Solo(c, m, on, Closing, w), Advance(0, answer)) == Over(w)
  {
    hide Plan;
    var s := Solo(c, m, on, Closing, w);
    assert s.ops - {0} == map[] && s.readers - {0} == {};
  }

  lemma {:induction false} OverStays(c: Config, w: World, answers: seq<Answer>)
    ensures Run(c, Over(w), Advances(answers)) == Over(w)
  {
    hide Next, Effect;
    if answers != [] {
      assert Advances(answers)[1..] == Advances(answers[1..]);
      OverStays(c, w, answers[1..]);
    }
  }

  // A start

  /** The first `i` entries are up and unmarked, those that were not were called and are owned, and nothing else has
      changed. */
  ghost predicate StartedTo(w0: World, w: World, plan: seq<Module>, i: nat) {
    && i <= |plan|
    && w.containers - Services(plan[..i]) == w0.containers - Services(plan[..i])
    && w.stale == w0.stale - Services(plan[..i])
    && w.owned == w0.owned + CalledFor(w0.stale, w0.containers, plan[..i])
    && w.roots == w0.roots
    && forall j :: 0 <= j < i ==> IsUp(w.containers, plan[j])
  }

  ghost predicate StartOk(c: Config, m: Module, w0: World, at: Stage, w: World) {
    var plan := Plan(c.inventory, m.name);
    var rooted := w0.(roots := w0.roots + {m.name});
    match at
    case Queued => w == w0
    case Recalling => w == rooted
    case Recording(own) => w == rooted && own == (m.service in w0.owned)
    case Waiting(i) => StartedTo(rooted, w, plan, i)
    case Holding(i) => i < |plan| && StartedTo(rooted, w, plan, i)
    case Chosen(i) => Owning(rooted, w, plan, i)
    case Calling(i, _) => Owning(rooted, w, plan, i)
    case Readying(i) => i < |plan| && StartedTo(rooted, w, plan, i + 1)
    case Closing => StartedTo(rooted, w, plan, |plan|)
    case _ => false
  }

  /** Entry `i` is about to be called, and already recorded as owned. */
  ghost predicate Owning(w0: World, w: World, plan: seq<Module>, i: nat) {
    && i < |plan| && NeedsCall(w0.stale, w0.containers, plan[i])
    && w.owned == w0.owned + CalledFor(w0.stale, w0.containers, plan[..i + 1])
    && StartedTo(w0, w.(owned := w0.owned + CalledFor(w0.stale, w0.containers, plan[..i])), plan, i)
  }

  ghost predicate Differ(plan: seq<Module>) {
    forall i, j :: 0 <= i < j < |plan| ==> plan[i].service != plan[j].service
  }

  lemma NoneStarted(w: World, plan: seq<Module>)
    ensures StartedTo(w, w, plan, 0)
  {
    NoneCalled(w.stale, w.containers, plan);
  }

  lemma NotYetServed(plan: seq<Module>, i: nat)
    requires Differ(plan) && i < |plan|
    ensures plan[i].service !in Services(plan[..i])
  {
  }

  /** A new entry found up, or called: it and all before it are up, and the rest is as it was. */
  lemma StartedOneMore(w0: World, w: World, plan: seq<Module>, i: nat, t: World)
    requires Differ(plan) && i < |plan| && StartedTo(w0, w, plan, i)
    requires t.containers - {plan[i].service} == w.containers - {plan[i].service} && IsUp(t.containers, plan[i])
    requires t.stale == w.stale - {plan[i].service} && t.roots == w.roots
    requires t.owned == w0.owned + CalledFor(w0.stale, w0.containers, plan[..i + 1])
    ensures StartedTo(w0, t, plan, i + 1)
  {
    CalledAmong(w0.stale, w0.containers, plan, i);
    OneMoreTouched(w0.containers, w.containers, t.containers, Services(plan[..i]), plan[i].service);
    hide CalledFor;
    forall j | 0 <= j < i + 1
      ensures IsUp(t.containers, plan[j])
    {
      if j < i {
        OtherContainer(w.containers, t.containers, plan[i].service, plan[j].service);
      }
    }
  }

  lemma OtherContainer(before: Snapshot, after: Snapshot, service: string, other: string)
    requires after - {service} == before - {service} && other != service
    ensures StateOf(after, other) == StateOf(before, other)
  {
    assert other in after <==> other in after - {service};
    assert other in before <==> other in before - {service};
    assert other in after ==> after[other] == (after - {service})[other];
  }

  lemma NeedsAsAtFirst(w0: World, w: World, plan: seq<Module>, i: nat)
    requires Differ(plan) && i < |plan| && StartedTo(w0, w, plan, i)
    ensures NeedsCall(w.stale, w.containers, plan[i]) == NeedsCall(w0.stale, w0.containers, plan[i])
  {
    NotYetServed(plan, i);
    assert w.stale - Services(plan[..i]) == w0.stale - Services(plan[..i]);
    NeedsCallStays(w0.containers, w0.stale, w.containers, w.stale, Services(plan[..i]), plan[i]);
  }

  lemma HoldingNext(c: Config, m: Module, i: nat, w: World, answer: Answer)
    requires i < |Plan(c.inventory, m.name)| && Good(answer)
    ensures
      var op, item := Op(m, true, Holding(i)), Plan(c.inventory, m.name)[i];
      var next := Next(c, Solo(c, m, true, Holding(i), w), op, answer);
      if NeedsCall(w.stale, w.containers, item) then
        next == Chosen(i) && Effect(c, w, op, next, answer) == w.(owned := w.owned + {item.service})
      else
        next == Readying(i) && Effect(c, w, op, next, answer) == w
  {
    hide Plan, NeedsCall, GateOf;
  }

  lemma HoldingGoesOn(c: Config, m: Module, w0: World, i: nat, w: World, answer: Answer)
    requires Differ(Plan(c.inventory, m.name)) && StartOk(c, m, w0, Holding(i), w) && Good(answer)
    ensures
      var op := Op(m, true, Holding(i));
      var next := Next(c, Solo(c, m, true, Holding(i), w), op, answer);
      next != op.at && StartOk(c, m, w0, next, Effect(c, w, op, next, answer))
  {
    var plan, rooted := Plan(c.inventory, m.name), w0.(roots := w0.roots + {m.name});
    NeedsAsAtFirst(rooted, w, plan, i);
    HoldingNext(c, m, i, w, answer);
    hide Plan, CalledFor, StartedTo, Services, Next, Effect, Solo, NeedsCall, Owning, Differ, Good;
    if NeedsCall(w.stale, w.containers, plan[i]) {
      OwningNow(rooted, w, plan, i);
    } else {
      FoundOneMore(rooted, w, plan, i);
    }
  }

  lemma FoundOneMore(w0: World, w: World, plan: seq<Module>, i: nat)
    requires Differ(plan) && i < |plan| && StartedTo(w0, w, plan, i)
    requires !NeedsCall(w.stale, w.containers, plan[i]) && !NeedsCall(w0.stale, w0.containers, plan[i])
    ensures StartedTo(w0, w, plan, i + 1)
  {
    CalledAmong(w0.stale, w0.containers, plan, i);
    assert w.stale == w.stale - {plan[i].service};
    hide CalledFor;
    StartedOneMore(w0, w, plan, i, w);
  }

  lemma OwningNow(w0: World, w: World, plan: seq<Module>, i: nat)
    requires i < |plan| && StartedTo(w0, w, plan, i) && NeedsCall(w0.stale, w0.containers, plan[i])
    ensures Owning(w0, w.(owned := w.owned + {plan[i].service}), plan, i)
  {
    CalledAmong(w0.stale, w0.containers, plan, i);
    hide CalledFor, Services, NeedsCall;
  }

  lemma CallingNext(c: Config, m: Module, i: nat, recreate: bool, w: World, answer: Answer)
    requires i < |Plan(c.inventory, m.name)| && Good(answer)
    ensures
      var op, item := Op(m, true, Calling(i, recreate)), Plan(c.inventory, m.name)[i];
      var next := Next(c, Solo(c, m, true, op.at, w), op, answer);
      next == Readying(i) && Effect(c, w, op, next, answer) == AfterCall(c, w, item.service, recreate, answer)
  {
    hide Plan, GateOf, AfterCall;
  }

  lemma CallingGoesOn(c: Config, m: Module, w0: World, i: nat, recreate: bool, w: World, answer: Answer)
    requires Differ(Plan(c.inventory, m.name)) && StartOk(c, m, w0, Calling(i, recreate), w) && Good(answer)
    ensures
      var op := Op(m, true, Calling(i, recreate));
      var next := Next(c, Solo(c, m, true, op.at, w), op, answer);
      next != op.at && StartOk(c, m, w0, next, Effect(c, w, op, next, answer))
  {
    var plan, rooted := Plan(c.inventory, m.name), w0.(roots := w0.roots + {m.name});
    var t := AfterCall(c, w, plan[i].service, recreate, answer);
    assert t.containers - {plan[i].service} == w.containers - {plan[i].service};
    assert IsUp(t.containers, plan[i]) && t.stale == w.stale - {plan[i].service} && t.roots == w.roots && t.owned == w.owned;
    CallingNext(c, m, i, recreate, w, answer);
    hide Plan, CalledFor, StartedTo, Services, Next, Effect, Solo, NeedsCall, Differ, Good, AfterCall, IsUp;
    StartedOneMore(rooted, w.(owned := rooted.owned + CalledFor(rooted.stale, rooted.containers, plan[..i])), plan, i, t);
  }

  lemma StartedBound(w0: World, w: World, plan: seq<Module>, i: nat)
    requires StartedTo(w0, w, plan, i)
    ensures i <= |plan|
  {
  }

  lemma OwningBound(w0: World, w: World, plan: seq<Module>, at: Stage)
    ensures at.Chosen? && Owning(w0, w, plan, at.i) ==> at.i < |plan|
    ensures at.Calling? && Owning(w0, w, plan, at.i) ==> at.i < |plan|
  {
  }

  /** Where the next place of a start alone is, and what becomes of the world. */
  ghost predicate StartMoves(c: Config, m: Module, at: Stage, w: World, answer: Answer, next: Stage, t: World) {
    var plan := Plan(c.inventory, m.name);
    match at
    case Queued => next == Recalling && t == w.(roots := w.roots + {m.name})
    case Recalling => next == Recording(m.service in w.owned) && t == w
    case Recording(own) =>
      next == Waiting(0) && t == w.(owned := if own then w.owned + {m.service} else w.owned - {m.service})
    case Waiting(i) => next == (if i < |plan| then Holding(i) else Closing) && t == w
    case Chosen(i) => i < |plan| ==> next == Calling(i, plan[i].service in w.stale) && t == w
    case Readying(i) => next == Waiting(i + 1) && t == w
    case _ => true
  }

  lemma PlainNext(c: Config, m: Module, at: Stage, w: World, answer: Answer)
    requires Good(answer) && !at.Holding? && !at.Calling? && !at.Closing?
    ensures
      var op := Op(m, true, at);
      var next := Next(c, Solo(c, m, true, at, w), op, answer);
      StartMoves(c, m, at, w, answer, next, Effect(c, w, op, next, answer))
  {
    hide Plan;
  }

  lemma StartsArePlaced(c: Config, m: Module, w0: World, at: Stage, w: World)
    requires m in c.inventory && StartOk(c, m, w0, at, w)
    ensures WellPlaced(c, Op(m, true, at))
  {
    hide Plan, CalledFor, Services;
  }

  lemma StartMovesOn(c: Config, m: Module, w0: World, at: Stage, w: World, answer: Answer, next: Stage, t: World)
    requires StartOk(c, m, w0, at, w) && !at.Closing? && !at.Holding? && !at.Calling?
    requires StartMoves(c, m, at, w, answer, next, t)
    ensures next != at && StartOk(c, m, w0, next, t)
  {
    var plan, rooted := Plan(c.inventory, m.name), w0.(roots := w0.roots + {m.name});
    NoneStarted(rooted, plan);
    OwningBound(rooted, w, plan, at);
    hide Plan, StartedTo, Owning;
    match at
    case Waiting(i) => StartedBound(rooted, w, plan, i);
    case Recording(own) =>
      assert (if own then w.owned + {m.service} else w.owned - {m.service}) == w.owned;
    case _ =>
  }

  /** Each step of a start alone, well answered, takes it on. */
  lemma StartGoesOn(c: Config, m: Module, w0: World, at: Stage, w: World, answer: Answer)
    requires Sound(c.inventory) && m in c.inventory && StartOk(c, m, w0, at, w) && Good(answer) && !at.Closing?
    ensures WellPlaced(c, Op(m, true, at))
    ensures
      var next := Next(c, Solo(c, m, true, at, w), Op(m, true, at), answer);
      next != at && StartOk(c, m, w0, next, Effect(c, w, Op(m, true, at), next, answer))
  {
    PlanIsListed(c.inventory, m);
    assert Differ(Plan(c.inventory, m.name));
    hide *;
    StartsArePlaced(c, m, w0, at, w);
    var next := Next(c, Solo(c, m, true, at, w), Op(m, true, at), answer);
    match at
    case Holding(i) => HoldingGoesOn(c, m, w0, i, w, answer);
    case Calling(i, recreate) => CallingGoesOn(c, m, w0, i, recreate, w, answer);
    case _ =>
      PlainNext(c, m, at, w, answer);
      StartMovesOn(c, m, w0, at, w, answer, next, Effect(c, w, Op(m, true, at), next, answer));
  }

  lemma {:induction false} StartEnds(c: Config, m: Module, w0: World, at: Stage, w: World, answers: seq<Answer>) returns (t: World)
    requires Sound(c.inventory) && m in c.inventory && StartOk(c, m, w0, at, w)
    requires (forall a <- answers :: Good(a)) && |answers| > Left(c, Op(m, true, at))
    ensures Run(c, Solo(c, m, true, at, w), Advances(answers)) == Over(t)
    ensures StartedTo(w0.(roots := w0.roots + {m.name}), t, Plan(c.inventory, m.name), |Plan(c.inventory, m.name)|)
    decreases |answers|
  {
    var s, op := Solo(c, m, true, at, w), Op(m, true, at);
    var rest := answers[1..];
    assert Advances(answers)[1..] == Advances(rest) && Advances(answers)[0] == Advance(0, answers[0]);
    assert Run(c, s, Advances(answers)) == Run(c, Step(c, s, Advance(0, answers[0])), Advances(rest));
    hide Plan, Next, Effect, StartedTo, Step, Solo, Over, Left, Good, Sound, WellPlaced, Run, Advances;
    if at.Closing? {
      SoloEnds(c, m, true, w, answers[0]);
      OverStays(c, w, rest);
      t := w;
    } else {
      StartGoesOn(c, m, w0, at, w, answers[0]);
      SoloStep(c, m, true, at, w, answers[0]);
      NextUsesOneUp(c, s, op, answers[0]);
      var next := Next(c, s, op, answers[0]);
      t := StartEnds(c, m, w0, next, Effect(c, w, op, next, answers[0]), rest);
    }
  }

  /** One start from rest, every answer good: it ends, every service of the plan is up and unmarked, exactly those that
      were not are added to what is owned, the module is a root, and nothing else has changed. */
  lemma {:induction false} StartBringsUpItsPlan(
    c: Config, containers: Snapshot, stale: set<string>, owned: set<string>, roots: set<string>, m: Module, answers: seq<Answer>)
    requires Sound(c.inventory) && m in c.inventory
    requires (forall a <- answers :: Good(a)) && |answers| > 5 * |Plan(c.inventory, m.name)| + 10
    ensures
      var plan := Plan(c.inventory, m.name);
      var s := Run(c, Idle(containers, stale, owned, roots), [Request(0, m, true)] + Advances(answers));
      && s == Over(s.world)
      && (forall item <- plan :: IsUp(s.world.containers, item) && item.service !in s.world.stale)
      && s.world.owned == owned + CalledFor(stale, containers, plan)
      && s.world.stale == stale - Services(plan) && s.world.roots == roots + {m.name}
      && s.world.containers - Services(plan) == containers - Services(plan)
  {
    var start := Idle(containers, stale, owned, roots);
    var events := [Request(0, m, true)] + Advances(answers);
    assert events[1..] == Advances(answers);
    assert Step(c, start, events[0]) == Solo(c, m, true, Queued, start.world);
    assert Run(c, start, events) == Run(c, Step(c, start, events[0]), events[1..]);
    hide Run, Step, Good, Advances, Solo, Sound;
    var t := StartEnds(c, m, start.world, Queued, start.world, answers);
    AllStarted(start.world.(roots := roots + {m.name}), t, Plan(c.inventory, m.name));
  }

  lemma AllStarted(w0: World, w: World, plan: seq<Module>)
    requires StartedTo(w0, w, plan, |plan|)
    ensures forall item <- plan :: IsUp(w.containers, item) && item.service !in w.stale
    ensures w.owned == w0.owned + CalledFor(w0.stale, w0.containers, plan) && w.roots == w0.roots
    ensures w.stale == w0.stale - Services(plan) && w.containers - Services(plan) == w0.containers - Services(plan)
  {
    assert plan[..|plan|] == plan;
    hide IsUp, CalledFor;
  }

  // A stop

  /** These are down and no longer owned, the root is given up with its module, and nothing else has changed. */
  ghost predicate StoppedTo(m: Module, w0: World, w: World, done: seq<Module>) {
    && w.containers - Services(done) == w0.containers - Services(done)
    && (forall s <- Services(done) :: !StateOf(w.containers, s).running)
    && w.owned == w0.owned - Services(done) && w.stale == w0.stale
    && w.roots == if m in done then w0.roots - {m.name} else w0.roots
  }

  function Taken(w: World): Decision { Decision(w.containers, w.owned, w.roots) }

  ghost predicate StopsOk(c: Config, m: Module, w0: World, at: Stage, w: World) {
    var plan, d := Plan(c.inventory, m.name), Taken(w0);
    match at
    case Queued => w == w0
    case Announced => w == w0
    case Deciding => w == w0
    case StopNext(e, i) => i <= |plan| && e == d && Allowed(c, m, w0) && StoppedTo(m, w0, w, ToStop(c, m, d, i))
    case StopCall(e, i) =>
      && i < |plan| && e == d && Allowed(c, m, w0) && StoppedTo(m, w0, w, ToStop(c, m, d, i + 1))
      && !Kept(m, Needed(c.inventory, m, d.containers, d.owned, d.roots), w.owned, plan[i])
    case Closing => if Allowed(c, m, w0) then StoppedTo(m, w0, w, ToStop(c, m, d, 0)) else w == w0
    case _ => false
  }

  ghost predicate Allowed(c: Config, m: Module, w0: World) {
    m.service !in Needed(c.inventory, m, w0.containers, w0.owned, w0.roots)
  }

  lemma NoneStopped(c: Config, m: Module, w: World)
    ensures ToStop(c, m, Taken(w), |Plan(c.inventory, m.name)|) == []
    ensures StoppedTo(m, w, w.(outside := {}), [])
  {
    hide Plan, Needed;
  }

  lemma StoppedOneMore(m: Module, w0: World, w: World, done: seq<Module>, item: Module, answer: Answer)
    requires StoppedTo(m, w0, w, done) && Good(answer) && (item.name == m.name <==> item == m)
    requires Services(done + [item]) == Services(done) + {item.service}
    ensures StoppedTo(m, w0, AfterStop(w, m, item, answer), done + [item])
  {
    var t := AfterStop(w, m, item, answer);
    assert t.containers - {item.service} == w.containers - {item.service};
    OneMoreTouched(w0.containers, w.containers, t.containers, Services(done), item.service);
    hide Services;
    forall s | s in Services(done) + {item.service}
      ensures !StateOf(t.containers, s).running
    {
      if s != item.service {
        OtherContainer(w.containers, t.containers, item.service, s);
      }
    }
    assert m in done + [item] <==> m in done || m == item;
  }

  /** Where the next place of a stop alone is, and what becomes of the world. */
  ghost predicate StopMoves(c: Config, m: Module, at: Stage, w: World, answer: Answer, next: Stage, t: World) {
    var plan := Plan(c.inventory, m.name);
    match at
    case Queued => next == Announced && t == w
    case Announced => next == Deciding && t == w
    case Deciding =>
      if Allowed(c, m, w) then next == StopNext(Taken(w), |plan|) && t == w.(outside := {}) else next == Closing && t == w
    case StopNext(d, i) =>
      && t == w
      && (i == 0 ==> next == Closing)
      && (0 < i <= |plan| ==>
            next == if Kept(m, Needed(c.inventory, m, d.containers, d.owned, d.roots), w.owned, plan[i - 1])
                    then StopNext(d, i - 1) else StopCall(d, i - 1))
    case StopCall(d, i) => next == StopNext(d, i) && (i < |plan| ==> t == AfterStop(w, m, plan[i], answer))
    case _ => true
  }

  lemma StopNextIs(c: Config, m: Module, at: Stage, w: World, answer: Answer)
    requires Good(answer) && !at.Closing?
    ensures
      var op := Op(m, false, at);
      var next := Next(c, Solo(c, m, false, at, w), op, answer);
      StopMoves(c, m, at, w, answer, next, Effect(c, w, op, next, answer))
  {
    hide Plan, Needed, Kept, AfterStop;
  }

  lemma HandlingGoesOn(c: Config, m: Module, w0: World, i: nat, w: World)
    requires Sound(c.inventory) && m in c.inventory && i < |Plan(c.inventory, m.name)| && Allowed(c, m, w0)
    requires StoppedTo(m, w0, w, ToStop(c, m, Taken(w0), i + 1))
    ensures
      var d := Taken(w0);
      Kept(m, Needed(c.inventory, m, d.containers, d.owned, d.roots), w.owned, Plan(c.inventory, m.name)[i])
      ==> StoppedTo(m, w0, w, ToStop(c, m, d, i))
  {
    var d, above := Taken(w0), ToStop(c, m, Taken(w0), i + 1);
    StoppedOwned(m, w0, w, above);
    hide Plan, Needed, StopsFrom, Sound, Services, Kept, ToStop, StoppedTo;
    PlaceIsStopped(c, w, Op(m, false, StopNext(d, i + 1)), d, i);
    assert above + [] == above;
  }

  lemma StoppingGoesOn(c: Config, m: Module, w0: World, i: nat, w: World, answer: Answer)
    requires Sound(c.inventory) && m in c.inventory && StopsOk(c, m, w0, StopCall(Taken(w0), i), w) && Good(answer)
    ensures StoppedTo(m, w0, AfterStop(w, m, Plan(c.inventory, m.name)[i], answer), ToStop(c, m, Taken(w0), i))
  {
    var plan, d, above := Plan(c.inventory, m.name), Taken(w0), ToStop(c, m, Taken(w0), i + 1);
    StoppedOwned(m, w0, w, above);
    hide Plan, Needed, StopsFrom, Sound, Services, Kept, ToStop, StoppedTo, AfterStop, Good;
    PlaceIsStopped(c, w, Op(m, false, StopCall(d, i)), d, i);
    OnlyItself(c, m, plan[i]);
    StoppedOneMore(m, w0, w, above, plan[i], answer);
  }

  lemma StopsArePlaced(c: Config, m: Module, w0: World, at: Stage, w: World)
    requires m in c.inventory && StopsOk(c, m, w0, at, w)
    ensures WellPlaced(c, Op(m, false, at))
  {
    hide Plan, Needed, StoppedTo, ToStop, Kept;
  }

  lemma StopMovesOn(c: Config, m: Module, w0: World, at: Stage, w: World, answer: Answer, next: Stage, t: World)
    requires Sound(c.inventory) && m in c.inventory && StopsOk(c, m, w0, at, w) && Good(answer) && !at.Closing?
    requires StopMoves(c, m, at, w, answer, next, t)
    ensures next != at && StopsOk(c, m, w0, next, t)
  {
    NoneStopped(c, m, w0);
    hide Plan, Needed, Sound, Kept, ToStop, StoppedTo, AfterStop, Good, Allowed;
    match at
    case StopNext(_, i) =>
      if i > 0 {
        HandlingGoesOn(c, m, w0, i - 1, w);
      }
    case StopCall(_, i) => StoppingGoesOn(c, m, w0, i, w, answer);
    case _ =>
  }

  /** Each step of a stop alone, well answered, takes it on. */
  lemma StopGoesOn(c: Config, m: Module, w0: World, at: Stage, w: World, answer: Answer)
    requires Sound(c.inventory) && m in c.inventory && StopsOk(c, m, w0, at, w) && Good(answer) && !at.Closing?
    ensures WellPlaced(c, Op(m, false, at))
    ensures
      var next := Next(c, Solo(c, m, false, at, w), Op(m, false, at), answer);
      next != at && StopsOk(c, m, w0, next, Effect(c, w, Op(m, false, at), next, answer))
  {
    hide *;
    var next := Next(c, Solo(c, m, false, at, w), Op(m, false, at), answer);
    StopsArePlaced(c, m, w0, at, w);
    StopNextIs(c, m, at, w, answer);
    StopMovesOn(c, m, w0, at, w, answer, next, Effect(c, w, Op(m, false, at), next, answer));
  }

  lemma StoppedOwned(m: Module, w0: World, w: World, done: seq<Module>)
    requires StoppedTo(m, w0, w, done)
    ensures w.owned == w0.owned - Services(done)
  {
  }

  lemma OnlyItself(c: Config, m: Module, item: Module)
    requires Sound(c.inventory) && m in c.inventory && item in Plan(c.inventory, m.name)
    ensures item.name == m.name <==> item == m
  {
    PlanIsListed(c.inventory, m);
    hide Plan, Acyclic;
    assert Lookup(c.inventory, item.name) == Some(item) && Lookup(c.inventory, m.name) == Some(m);
  }

  lemma {:induction false} StopEnds(c: Config, m: Module, w0: World, at: Stage, w: World, answers: seq<Answer>) returns (t: World)
    requires Sound(c.inventory) && m in c.inventory && StopsOk(c, m, w0, at, w)
    requires (forall a <- answers :: Good(a)) && |answers| > Left(c, Op(m, false, at))
    ensures Run(c, Solo(c, m, false, at, w), Advances(answers)) == Over(t) && StopsOk(c, m, w0, Closing, t)
    decreases |answers|
  {
    var s, op := Solo(c, m, false, at, w), Op(m, false, at);
    var rest := answers[1..];
    assert Advances(answers)[1..] == Advances(rest) && Advances(answers)[0] == Advance(0, answers[0]);
    assert Run(c, s, Advances(answers)) == Run(c, Step(c, s, Advance(0, answers[0])), Advances(rest));
    hide Plan, Next, Effect, StopsOk, Step, Solo, Over, Left, Good, Sound, WellPlaced, Run, Advances;
    if at.Closing? {
      SoloEnds(c, m, false, w, answers[0]);
      OverStays(c, w, rest);
      t := w;
    } else {
      StopGoesOn(c, m, w0, at, w, answers[0]);
      SoloStep(c, m, false, at, w, answers[0]);
      NextUsesOneUp(c, s, op, answers[0]);
      var next := Next(c, s, op, answers[0]);
      t := StopEnds(c, m, w0, next, Effect(c, w, op, next, answers[0]), rest);
    }
  }

  /** One stop from rest, every answer good: it ends; refused, it has changed nothing, and otherwise exactly what it
      decided to stop is down and no longer owned, the module is no root, and nothing else has changed. */
  lemma {:induction false} StopTakesDownItsShare(
    c: Config, containers: Snapshot, stale: set<string>, owned: set<string>, roots: set<string>, m: Module, answers: seq<Answer>)
    requires Sound(c.inventory) && m in c.inventory
    requires (forall a <- answers :: Good(a)) && |answers| > 5 * |Plan(c.inventory, m.name)| + 10
    ensures
      var needed := Needed(c.inventory, m, containers, owned, roots);
      var stops := StopsFrom(m, needed, owned, Plan(c.inventory, m.name));
      var start := Idle(containers, stale, owned, roots);
      var s := Run(c, start, [Request(0, m, false)] + Advances(answers));
      && s == Over(s.world)
      && (m.service in needed ==> s.world == start.world)
      && (m.service !in needed ==>
            && (forall item <- stops :: !StateOf(s.world.containers, item.service).running)
            && s.world.containers - Services(stops) == containers - Services(stops)
            && s.world.owned == owned - Services(stops) && s.world.roots == roots - {m.name} && s.world.stale == stale)
  {
    var start := Idle(containers, stale, owned, roots);
    var events := [Request(0, m, false)] + Advances(answers);
    assert events[1..] == Advances(answers);
    assert Step(c, start, events[0]) == Solo(c, m, false, Queued, start.world);
    assert Run(c, start, events) == Run(c, Step(c, start, events[0]), events[1..]);
    hide Run, Step, Good, Advances, Solo, Sound, Plan, Needed, StopsFrom;
    var t := StopEnds(c, m, start.world, Queued, start.world, answers);
    if Allowed(c, m, start.world) {
      AllStopped(c, m, start.world, t);
    }
  }

  lemma AllStopped(c: Config, m: Module, w0: World, w: World)
    requires Sound(c.inventory) && m in c.inventory && Allowed(c, m, w0)
    requires StoppedTo(m, w0, w, ToStop(c, m, Taken(w0), 0))
    ensures
      var stops := StopsFrom(m, Needed(c.inventory, m, w0.containers, w0.owned, w0.roots), w0.owned, Plan(c.inventory, m.name));
      && (forall item <- stops :: !StateOf(w.containers, item.service).running)
      && w.containers - Services(stops) == w0.containers - Services(stops)
      && w.owned == w0.owned - Services(stops) && w.roots == w0.roots - {m.name} && w.stale == w0.stale
  {
    var plan, needed := Plan(c.inventory, m.name), Needed(c.inventory, m, w0.containers, w0.owned, w0.roots);
    assert plan[0..] == plan;
    PlanIsDistinct(c.inventory, m.name);
    assert Lookup(c.inventory, m.name) == Some(m);
    hide Plan, Needed, Sound;
    StopsFromMembers(m, needed, w0.owned, plan);
    assert m in plan && !Kept(m, needed, w0.owned, m);
    assert m in StopsFrom(m, needed, w0.owned, plan);
    hide StopsFrom;
  }

  // ---- what one answer does ----------------------------------------------------------------------------

  /** The answer fails what the worker is waiting for: a saved record, a status, an engine call, readiness, a gate. */
  ghost predicate Fails(c: Config, s: State, op: Op, answer: Answer) {
    var plan := Plan(c.inventory, op.m.name);
    match op.at
    case Recording(_) => !answer.saved
    case Waiting(i) => i < |plan| && plan[i].service in s.gates && !answer.ok
    case Holding(i) => !answer.ok || (i < |plan| && NeedsCall(s.world.stale, s.world.containers, plan[i]) && !answer.saved)
    case Calling(_, _) => !answer.ok || !answer.saved
    case Readying(_) => !answer.ok
    case Deciding => !answer.ok
    case StopCall(_, _) => !answer.ok || !answer.saved
    case _ => false
  }

  /** After such an answer the operation is over, and its last step releases the lock and touches nothing. */
  lemma FailureEndsTheOperation(c: Config, s: State, id: nat, answer: Answer, last: Answer)
    requires id in s.ops && WellPlaced(c, s.ops[id]) && Fails(c, s, s.ops[id], answer)
    ensures
      var t := Step(c, s, Advance(id, answer));
      && id in t.ops && t.ops[id].at == Closing
      && Step(c, t, Advance(id, last)).world == t.world && Step(c, t, Advance(id, last)).ops == t.ops - {id}
  {
    hide Plan, Needed, Kept, NeedsCall, Effect;
  }

  /** A successful start call of this service, counted. */
  ghost predicate StartsIt(c: Config, s: State, e: Event, service: string) {
    && e.Advance? && e.id in s.ops && e.answer.ok
    && var op := s.ops[e.id];
      && op.on && op.at.Calling? && !op.at.recreate && op.at.i < |Plan(c.inventory, op.m.name)|
      && Plan(c.inventory, op.m.name)[op.at.i].service == service
  }

  /** A stop call that leaves this service down. */
  ghost predicate DownsIt(c: Config, s: State, e: Event, service: string) {
    && e.Advance? && e.id in s.ops
    && var op := s.ops[e.id];
      && !op.on && op.at.StopCall? && op.at.i < |Plan(c.inventory, op.m.name)|
      && Plan(c.inventory, op.m.name)[op.at.i].service == service
      && (e.answer.ok || !e.answer.seen.running || !StateOf(s.world.containers, service).running)
  }

  /** The successful starts of a service since a stop last left it down. */
  ghost function Counted(c: Config, s: State, events: seq<Event>, service: string, n: nat): nat
    decreases |events|
  {
    if events == [] then n
    else
      var m := if StartsIt(c, s, events[0], service) then n + 1 else if DownsIt(c, s, events[0], service) then 0 else n;
      Counted(c, Step(c, s, events[0]), events[1..], service, m)
  }

  lemma OneCounted(c: Config, s: State, e: Event, service: string)
    requires Inv(c, s)
    ensures
      Starts(Step(c, s, e).world, service)
      == if StartsIt(c, s, e, service) then Starts(s.world, service) + 1
         else if DownsIt(c, s, e, service) then 0 else Starts(s.world, service)
  {
    hide Plan, Needed, Kept, NeedsCall, LockOk, GatesOk, StartsOk, StopOk;
    if e.Advance? && e.id in s.ops {
      assert WellPlaced(c, s.ops[e.id]);
    }
  }

  /** The number of starts that `StartedAtMostOnce` bounds is the number of starts there have been. */
  lemma {:induction false} StartsAreCounted(c: Config, s: State, events: seq<Event>, service: string)
    requires Sound(c.inventory) && Inv(c, s)
    ensures Starts(Run(c, s, events).world, service) == Counted(c, s, events, service, Starts(s.world, service))
    decreases |events|
  {
    if events != [] {
      hide Inv, Sound, Starts, StartsIt, DownsIt, Step;
      OneCounted(c, s, events[0], service);
      StepKeepsInv(c, s, events[0]);
      StartsAreCounted(c, Step(c, s, events[0]), events[1..], service);
    }
  }

  /** What the engine, the marks and the records are after a call to start or recreate: that service as the call left
      it, a daemon running if the call succeeded, and its mark gone if so. */
  lemma CallLeaves(c: Config, s: State, id: nat, answer: Answer, i: nat, recreate: bool)
    requires id in s.ops && WellPlaced(c, s.ops[id]) && s.ops[id].at == Calling(i, recreate)
    ensures
      var service := Plan(c.inventory, s.ops[id].m.name)[i].service;
      var w, v := s.world, Step(c, s, Advance(id, answer)).world;
      && v.containers
         == w.containers[service := Container(answer.seen.running || (answer.ok && service in c.daemons), answer.seen.completed)]
      && v.stale == (if answer.ok then w.stale - {service} else w.stale)
      && (v.owned, v.roots, v.outside) == (w.owned, w.roots, w.outside)
  {
    hide Plan, NeedsCall;
  }

  /** After a call to stop: that service down, unless the call failed and left it running; no longer owned if the stop
      is also recorded; and no longer named if it is the module's own. */
  lemma StopLeaves(c: Config, s: State, id: nat, answer: Answer, d: Decision, i: nat)
    requires id in s.ops && WellPlaced(c, s.ops[id]) && s.ops[id].at == StopCall(d, i)
    ensures
      var item := Plan(c.inventory, s.ops[id].m.name)[i];
      var w, v := s.world, Step(c, s, Advance(id, answer)).world;
      var was := StateOf(w.containers, item.service);
      && v.containers
         == w.containers[item.service := Container(was.running && !answer.ok && answer.seen.running, was.completed)]
      && v.owned == (if answer.ok && answer.saved then w.owned - {item.service} else w.owned)
      && v.roots == (if answer.ok && item.name == s.ops[id].m.name then w.roots - {item.name} else w.roots)
      && (v.stale, v.outside) == (w.stale, w.outside)
  {
    hide Plan, Needed, Kept;
  }

  /** Every other step of a worker leaves the containers and the marks alone; what it records is the name of the module
      turned on, the ownership it has read of it, and the ownership of what it is about to start. */
  lemma OtherStepsRecord(c: Config, s: State, id: nat, answer: Answer)
    requires id in s.ops && WellPlaced(c, s.ops[id]) && !s.ops[id].at.Calling? && !s.ops[id].at.StopCall?
    ensures
      var op, plan := s.ops[id], Plan(c.inventory, s.ops[id].m.name);
      var w, v := s.world, Step(c, s, Advance(id, answer)).world;
      && (v.containers, v.stale, v.starts) == (w.containers, w.stale, w.starts)
      && v.roots == (if op.at.Queued? && op.on && s.pending.None? then w.roots + {op.m.name} else w.roots)
      && v.owned
         == match op.at
            case Recording(own) =>
              if !answer.saved then w.owned else if own then w.owned + {op.m.service} else w.owned - {op.m.service}
            case Holding(i) =>
              if i < |plan| && answer.ok && answer.saved && NeedsCall(w.stale, w.containers, plan[i])
              then w.owned + {plan[i].service} else w.owned
            case _ => w.owned
  {
    hide Plan, Needed, Kept, NeedsCall;
  }

  /** What the world does by itself: an exit ends the container of a service that may stop by itself, and leaves every
      other alone; a start from outside brings up one that is down, and it is remembered as such. */
  lemma ExitsAndAppearances(c: Config, s: State, service: string)
    ensures
      var t := Step(c, s, Exit(service));
      && t.(world := s.world) == s && t.world.(containers := s.world.containers) == s.world
      && t.world.containers.Keys == s.world.containers.Keys
      && forall other :: StateOf(t.world.containers, other)
                         == if other == service && service !in c.daemons && service in s.world.containers
                            then Container(false, true) else StateOf(s.world.containers, other)
    ensures
      var t := Step(c, s, Appear(service));
      var was := StateOf(s.world.containers, service).running;
      && t.(world := s.world) == s
      && t.world.(containers := s.world.containers, outside := s.world.outside) == s.world
      && t.world.outside == (if was then s.world.outside else s.world.outside + {service})
      && forall other :: StateOf(t.world.containers, other)
                         == if other == service && !was then Container(true, false)
                            else StateOf(s.world.containers, other)
  {
    var t := Step(c, s, Exit(service));
    if service !in c.daemons && service in s.world.containers {
      assert t.world.containers.Keys == s.world.containers.Keys;
    }
  }
}
