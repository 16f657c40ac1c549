/** What stopping a module may stop: the decision the controller takes from one status snapshot. */
module Stopping {
  import opened Wrappers
  import opened Planning

  datatype Container = Container(running: bool, completed: bool)

  type Snapshot = map<string, Container>

  function StateOf(containers: Snapshot, service: string): Container {
    if service in containers then containers[service] else Container(false, false)
  }

  /** Running, or the initializer and completed. */
  predicate IsUp(containers: Snapshot, item: Module) {
    var state := StateOf(containers, item.service);
    state.running || (item.name == "embedding_init" && state.completed)
  }

  /** What a start has to recreate or to start: marked, or not up. */
  predicate NeedsCall(stale: set<string>, containers: Snapshot, item: Module) {
    item.service in stale || !IsUp(containers, item)
  }

  /** A start is made exactly of what is marked, or does not run and is not the initializer that has completed. */
  lemma NeedsCallExactlyWhen(stale: set<string>, containers: Snapshot, item: Module)
    ensures !NeedsCall(stale, containers, item) <==>
              && item.service !in stale && item.service in containers
              && var c := containers[item.service];
                c.running || (c.completed && item.name in ["embedding_init"])
    ensures item.service !in containers ==> StateOf(containers, item.service) == Container(false, false)
  {
    assert item.name in ["embedding_init"] <==> item.name == "embedding_init";
  }

  /** The services of these that have to be recreated or started. */
  function CalledFor(stale: set<string>, containers: Snapshot, items: seq<Module>): set<string> {
    set item <- items | NeedsCall(stale, containers, item) :: item.service
  }

  lemma CalledAmong(stale: set<string>, containers: Snapshot, items: seq<Module>, i: nat)
    requires i < |items|
    ensures CalledFor(stale, containers, items[..i + 1]) <= CalledFor(stale, containers, items)
    ensures CalledFor(stale, containers, items[..i + 1])
            == CalledFor(stale, containers, items[..i]) + if NeedsCall(stale, containers, items[i]) then {items[i].service} else {}
    ensures Services(items[..i + 1]) == Services(items[..i]) + {items[i].service}
    ensures Services(items[..i + 1]) <= Services(items)
  {
    assert items[..i + 1] == items[..i] + [items[i]];
    CalledForOneMore(stale, containers, items[..i], items[i]);
    hide NeedsCall;
  }

  /** What a start has not come to yet is as it was. */
  lemma NeedsCallStays(before: Snapshot, was: set<string>, after: Snapshot, stale: set<string>, done: set<string>, item: Module)
    requires after - done == before - done && stale - done == was - done && item.service !in done
    ensures NeedsCall(stale, after, item) == NeedsCall(was, before, item)
  {
    var s := item.service;
    assert s in stale <==> s in stale - done;
    assert s in was <==> s in was - done;
    assert s in after <==> s in after - done;
    assert s in before <==> s in before - done;
    assert s in after ==> after[s] == (after - done)[s] && before[s] == (before - done)[s];
  }

  lemma NoneCalled(stale: set<string>, containers: Snapshot, items: seq<Module>)
    ensures items[..0] == [] && CalledFor(stale, containers, []) == {} && Services([]) == {}
  {
  }

  lemma ServiceIsAmong(items: seq<Module>, i: nat)
    requires i < |items|
    ensures items[i].service in Services(items)
  {
  }

  lemma TouchedWithin(first: Snapshot, before: Snapshot, after: Snapshot, all: set<string>, service: string)
    requires before - all == first - all && after - {service} == before - {service} && service in all
    ensures after - all == first - all
  {
    assert after - all == (after - {service}) - all;
    assert before - all == (before - {service}) - all;
  }

  lemma UnmarkedWithin(first: set<string>, before: set<string>, after: set<string>, done: set<string>, service: string)
    requires before - done == first - done && before - {service} <= after <= before
    ensures after - (done + {service}) == first - (done + {service})
  {
    assert after - (done + {service}) == (before - done) - {service};
  }

  lemma OneMoreTouched(first: Snapshot, before: Snapshot, after: Snapshot, done: set<string>, service: string)
    requires before - done == first - done && after - {service} == before - {service}
    ensures after - (done + {service}) == first - (done + {service})
  {
    assert after - (done + {service}) == (after - {service}) - done;
    assert before - (done + {service}) == (before - {service}) - done;
    assert before - (done + {service}) == (before - done) - {service};
    assert first - (done + {service}) == (first - done) - {service};
  }

  lemma CalledForOneMore(stale: set<string>, containers: Snapshot, items: seq<Module>, item: Module)
    ensures CalledFor(stale, containers, items + [item])
            == CalledFor(stale, containers, items) + if NeedsCall(stale, containers, item) then {item.service} else {}
  {
    hide NeedsCall;
  }

  /** The engine's own modules are never counted as users of anything. */
  predicate Uncounted(name: string) { name == "embeddings" || name == "embedding_init" }

  /** A running module whose dependencies must survive stopping `m`. */
  predicate Counts(inventory: seq<Module>, m: Module, containers: Snapshot, owned: set<string>, roots: set<string>, o: Module) {
    && !Uncounted(o.name) && o.name != m.name && StateOf(containers, o.service).running
    && !(o.service in Services(Plan(inventory, m.name)) && o.service in owned && o.name !in roots)
  }

  /** The services some counted module among `users` needs. */
  function NeededBy(inventory: seq<Module>, users: seq<Module>, m: Module, containers: Snapshot, owned: set<string>, roots: set<string>): set<string> {
    set o, dep | o in users && Counts(inventory, m, containers, owned, roots, o) && dep in Plan(inventory, o.name)
      :: dep.service
  }

  function Needed(inventory: seq<Module>, m: Module, containers: Snapshot, owned: set<string>, roots: set<string>): set<string> {
    NeededBy(inventory, inventory, m, containers, owned, roots)
  }

  /** Left alone: needed elsewhere, or a dependency this controller did not start. */
  predicate Kept(m: Module, needed: set<string>, owned: set<string>, item: Module) {
    item.service in needed || (item.name != m.name && item.service !in owned)
  }

  /** The stops of a plan's tail, last entry first. */
  function StopsFrom(m: Module, needed: set<string>, owned: set<string>, tail: seq<Module>): seq<Module> {
    if tail == [] then []
    else
      StopsFrom(m, needed, owned, tail[1..]) + (if Kept(m, needed, owned, tail[0]) then [] else [tail[0]])
  }

  lemma StopsFromMembers(m: Module, needed: set<string>, owned: set<string>, tail: seq<Module>)
    ensures forall item :: item in StopsFrom(m, needed, owned, tail) <==> item in tail && !Kept(m, needed, owned, item)
  {
  }

  /** The stops of a tail are the first stops of the whole plan. */
  lemma {:induction false} TailIsPrefix(m: Module, needed: set<string>, owned: set<string>, plan: seq<Module>, t: nat)
    requires t <= |plan|
    ensures StopsFrom(m, needed, owned, plan[t..]) <= StopsFrom(m, needed, owned, plan)
  {
    if t == 0 {
      assert plan[0..] == plan;
    } else {
      TailIsPrefix(m, needed, owned, plan[1..], t - 1);
      assert plan[1..][t - 1..] == plan[t..];
    }
  }

  /** Every prefix of the stops is the stops of some tail: a failure part way changes nothing else. */
  lemma {:induction false} PrefixIsTail(m: Module, needed: set<string>, owned: set<string>, tail: seq<Module>, k: nat)
    returns (t: nat)
    requires k <= |StopsFrom(m, needed, owned, tail)|
    ensures t <= |tail| && StopsFrom(m, needed, owned, tail[t..]) == StopsFrom(m, needed, owned, tail)[..k]
  {
    var all := StopsFrom(m, needed, owned, tail);
    if k == |all| {
      t := 0;
      assert tail[0..] == tail && all[..k] == all;
    } else {
      assert k <= |StopsFrom(m, needed, owned, tail[1..])|;
      t := PrefixIsTail(m, needed, owned, tail[1..], k);
      assert tail[1..][t..] == tail[t + 1..];
      t := t + 1;
    }
  }

  lemma BeforeAnyStop(m: Module, needed: set<string>, owned: set<string>, plan: seq<Module>)
    ensures StopsFrom(m, needed, owned, plan[|plan|..]) == [] && Services([]) == {}
  {
  }

  /** What the loop does at entry `i`, when everything after it has been handled. */
  lemma NextStop(m: Module, needed: set<string>, owned: set<string>, plan: seq<Module>, i: nat)
    requires i < |plan| && forall a, b :: 0 <= a < b < |plan| ==> plan[a].service != plan[b].service
    ensures
      var item, done := plan[i], StopsFrom(m, needed, owned, plan[i + 1..]);
      && item.service !in Services(done)
      && Services(done + [item]) == Services(done) + {item.service}
      && StopsFrom(m, needed, owned, plan[i..])
         == (if item.service in needed || (item.name != m.name && item.service !in owned) then done else done + [item])
      && done <= StopsFrom(m, needed, owned, plan)
      && StopsFrom(m, needed, owned, plan[i..]) <= StopsFrom(m, needed, owned, plan)
  {
    assert plan[i..][1..] == plan[i + 1..];
    StopsFromMembers(m, needed, owned, plan[i + 1..]);
    TailIsPrefix(m, needed, owned, plan, i);
    TailIsPrefix(m, needed, owned, plan, i + 1);
  }

  /** A plan's entries come from the inventory, no two of them with the same service. */
  lemma PlanIsListed(inventory: seq<Module>, m: Module)
    requires Sound(inventory) && m in inventory
    ensures forall item <- Plan(inventory, m.name) :: item in inventory
    ensures
      var plan := Plan(inventory, m.name);
      forall i, j :: 0 <= i < j < |plan| ==> plan[i].service != plan[j].service
  {
    var plan := Plan(inventory, m.name);
    forall item <- plan
      ensures item in inventory
    {
      PlanIsReachable(inventory, m.name, item);
    }
    PlanIsDistinct(inventory, m.name);
  }

  /** An entry's dependencies stand before it: whatever its plan holds has a smaller or equal place. */
  lemma PlannedEarlier(inventory: seq<Module>, plan: seq<Module>, i: nat, j: nat)
    requires Acyclic(inventory) && Distinct(inventory, plan) && DependenciesFirst(inventory, plan)
    requires i < |plan| && j < |plan| && plan[j] in Plan(inventory, plan[i].name)
    ensures j <= i
  {
    PlanIsReachable(inventory, plan[i].name, plan[j]);
    var path :| PathFromTo(inventory, path, plan[i].name, plan[j].name);
    PathGoesEarlier(inventory, plan, i, j, path);
  }

  lemma {:induction false} PathGoesEarlier(inventory: seq<Module>, plan: seq<Module>, i: nat, j: nat, path: seq<string>)
    requires Distinct(inventory, plan) && DependenciesFirst(inventory, plan)
    requires i < |plan| && j < |plan| && PathFromTo(inventory, path, plan[i].name, plan[j].name)
    ensures j <= i
    decreases |path|
  {
    if |path| > 1 {
      assert Edge(inventory, path[0], path[1]);
      assert path[1] in Names(plan[..i]);
      var entry :| entry in plan[..i] && entry.name == path[1];
      var next :| 0 <= next < i && plan[next] == entry;
      forall n | 0 <= n < |path[1..]| - 1
        ensures Edge(inventory, path[1..][n], path[1..][n + 1])
      {
        assert Edge(inventory, path[n + 1], path[n + 2]);
      }
      PathGoesEarlier(inventory, plan, next, j, path[1..]);
    }
  }

  /** Nothing stopped is in the plan of a module that was running and is not itself stopped. */
  ghost predicate SpareDependencies(inventory: seq<Module>, containers: Snapshot, stopped: set<string>) {
    forall o <- inventory ::
      !Uncounted(o.name) && StateOf(containers, o.service).running && o.service !in stopped
      ==> Services(Plan(inventory, o.name)) !! stopped
  }

  lemma NeededCoversPlans(inventory: seq<Module>, m: Module, containers: Snapshot, owned: set<string>, roots: set<string>,
                          item: Module, dep: Module)
    requires Sound(inventory) && item in inventory
    requires item.service in Needed(inventory, m, containers, owned, roots) && dep in Plan(inventory, item.name)
    ensures dep.service in Needed(inventory, m, containers, owned, roots)
  {
    var o, other :| o in inventory && Counts(inventory, m, containers, owned, roots, o) && other in Plan(inventory, o.name)
                    && other.service == item.service;
    PlanIsReachable(inventory, o.name, other);
    assert other in inventory;
    assert other == item;
    PlanContainsPlans(inventory, o.name, item);
  }

  /** Safe stop, at any point of the stopping loop. */
  lemma TailIsSafe(inventory: seq<Module>, m: Module, containers: Snapshot, owned: set<string>, roots: set<string>, t: nat)
    requires Sound(inventory) && m in inventory && t <= |Plan(inventory, m.name)|
    requires m.service !in Needed(inventory, m, containers, owned, roots)
    ensures
      var needed := Needed(inventory, m, containers, owned, roots);
      SpareDependencies(inventory, containers, Services(StopsFrom(m, needed, owned, Plan(inventory, m.name)[t..])))
  {
    var plan := Plan(inventory, m.name);
    var needed := Needed(inventory, m, containers, owned, roots);
    var stops := StopsFrom(m, needed, owned, plan[t..]);
    StopsFromMembers(m, needed, owned, plan[t..]);
    PlanIsDistinct(inventory, m.name);
    PlanIsOrdered(inventory, m.name);
    forall o <- inventory | !Uncounted(o.name) && StateOf(containers, o.service).running && o.service !in Services(stops)
      ensures Services(Plan(inventory, o.name)) !! Services(stops)
    {
      forall dep <- Plan(inventory, o.name), item <- stops
        ensures dep.service != item.service
      {
        if dep.service == item.service {
          StopIsSpared(inventory, m, containers, owned, roots, t, o, dep, item);
        }
      }
    }
  }

  /** The one case to exclude: a stopped service in the plan of a module left running. */
  lemma StopIsSpared(inventory: seq<Module>, m: Module, containers: Snapshot, owned: set<string>, roots: set<string>,
                     t: nat, o: Module, dep: Module, item: Module)
    requires Sound(inventory) && m in inventory && t <= |Plan(inventory, m.name)|
    requires m.service !in Needed(inventory, m, containers, owned, roots)
    requires o in inventory && !Uncounted(o.name) && StateOf(containers, o.service).running
    requires dep in Plan(inventory, o.name)
    requires item in StopsFrom(m, Needed(inventory, m, containers, owned, roots), owned, Plan(inventory, m.name)[t..])
    requires dep.service == item.service
    ensures o.service in Services(StopsFrom(m, Needed(inventory, m, containers, owned, roots), owned, Plan(inventory, m.name)[t..]))
  {
    hide Counts;
    var plan := Plan(inventory, m.name);
    var needed := Needed(inventory, m, containers, owned, roots);
    StopsFromMembers(m, needed, owned, plan[t..]);
    PlanIsDistinct(inventory, m.name);
    PlanIsOrdered(inventory, m.name);
    PlanIsReachable(inventory, o.name, dep);
    PlanIsReachable(inventory, m.name, item);
    assert dep in inventory && item in inventory;
    assert dep == item;
    assert !Kept(m, needed, owned, item);
    if o == m {
      assert plan[|plan| - 1] == m;
      assert t < |plan|;
      assert plan[t..][|plan| - 1 - t] == m;
      assert m in plan[t..];
    } else if Counts(inventory, m, containers, owned, roots, o) {
      assert false;
    } else {
      SkippedIsPlanned(inventory, m, containers, owned, roots, o);
      if o.service in needed {
        NeededCoversPlans(inventory, m, containers, owned, roots, o, dep);
        assert false;
      }
      StoppedBefore(inventory, m, needed, owned, t, o, item);
    }
  }

  lemma SkippedIsPlanned(inventory: seq<Module>, m: Module, containers: Snapshot, owned: set<string>, roots: set<string>, o: Module)
    requires Sound(inventory) && m in inventory && o in inventory && o != m
    requires !Uncounted(o.name) && StateOf(containers, o.service).running
    requires !Counts(inventory, m, containers, owned, roots, o)
    ensures o in Plan(inventory, m.name) && o.service in owned && o.name !in roots && o.name != m.name
  {
    assert o.name != m.name by {
      assert Lookup(inventory, o.name) == Some(o) && Lookup(inventory, m.name) == Some(m);
    }
    var entry :| entry in Plan(inventory, m.name) && entry.service == o.service;
    PlanIsReachable(inventory, m.name, entry);
    assert entry in inventory;
  }

  /** Safe stop: after each single stop, wherever a later one fails, no stopped service is in the plan
      of a module the snapshot shows running and that is not itself stopped. */
  lemma EveryStopIsSafe(inventory: seq<Module>, m: Module, containers: Snapshot, owned: set<string>, roots: set<string>, k: nat)
    requires Sound(inventory) && m in inventory
    requires m.service !in Needed(inventory, m, containers, owned, roots)
    requires k <= |StopsFrom(m, Needed(inventory, m, containers, owned, roots), owned, Plan(inventory, m.name))|
    ensures
      var needed := Needed(inventory, m, containers, owned, roots);
      SpareDependencies(inventory, containers, Services(StopsFrom(m, needed, owned, Plan(inventory, m.name))[..k]))
  {
    var needed := Needed(inventory, m, containers, owned, roots);
    var t := PrefixIsTail(m, needed, owned, Plan(inventory, m.name), k);
    TailIsSafe(inventory, m, containers, owned, roots, t);
  }

  /** Nothing stopped is in the plan of any module that was running and is not itself stopped, the engine's included. */
  ghost predicate SpareAll(inventory: seq<Module>, containers: Snapshot, stopped: set<string>) {
    forall o <- inventory ::
      StateOf(containers, o.service).running && o.service !in stopped ==> Services(Plan(inventory, o.name)) !! stopped
  }

  /** What can be checked before any stop: whatever a running, uncounted module that stays needs of this plan stays too. */
  ghost predicate EngineStays(inventory: seq<Module>, m: Module, needed: set<string>, containers: Snapshot, owned: set<string>) {
    forall o <- inventory, dep <- Plan(inventory, o.name) ::
      && Uncounted(o.name) && StateOf(containers, o.service).running
      && (o in Plan(inventory, m.name) ==> Kept(m, needed, owned, o)) && dep in Plan(inventory, m.name)
      ==> Kept(m, needed, owned, dep)
  }

  /** What is stopped and stands in the plan of another entry to be stopped is stopped after it. */
  lemma StoppedBefore(inventory: seq<Module>, m: Module, needed: set<string>, owned: set<string>, t: nat, o: Module, item: Module)
    requires Sound(inventory) && t <= |Plan(inventory, m.name)|
    requires o in Plan(inventory, m.name) && !Kept(m, needed, owned, o) && item in Plan(inventory, o.name)
    requires item in StopsFrom(m, needed, owned, Plan(inventory, m.name)[t..])
    ensures o in StopsFrom(m, needed, owned, Plan(inventory, m.name)[t..])
  {
    var plan := Plan(inventory, m.name);
    StopsFromMembers(m, needed, owned, plan[t..]);
    PlanIsDistinct(inventory, m.name);
    PlanIsOrdered(inventory, m.name);
    hide Plan, StopsFrom, Distinct, DependenciesFirst, Kept;
    LaterInTail(inventory, plan, t, o, item);
  }

  lemma LaterInTail(inventory: seq<Module>, plan: seq<Module>, t: nat, o: Module, item: Module)
    requires Acyclic(inventory) && Distinct(inventory, plan) && DependenciesFirst(inventory, plan) && t <= |plan|
    requires o in plan && item in plan[t..] && item in Plan(inventory, o.name)
    ensures o in plan[t..]
  {
    hide Plan, Acyclic, Distinct, DependenciesFirst;
    var i :| 0 <= i < |plan| && plan[i] == o;
    var n :| 0 <= n < |plan[t..]| && plan[t..][n] == item;
    PlannedEarlier(inventory, plan, i, t + n);
    assert plan[t..][i - t] == o;
  }

  lemma EngineKeepsItsOwn(inventory: seq<Module>, m: Module, needed: set<string>, containers: Snapshot, owned: set<string>,
                          t: nat, o: Module, item: Module)
    requires Sound(inventory) && m in inventory && t <= |Plan(inventory, m.name)|
    requires EngineStays(inventory, m, needed, containers, owned)
    requires o in inventory && Uncounted(o.name) && StateOf(containers, o.service).running
    requires item in Plan(inventory, o.name) && item in StopsFrom(m, needed, owned, Plan(inventory, m.name)[t..])
    ensures o in StopsFrom(m, needed, owned, Plan(inventory, m.name)[t..])
  {
    hide Sound, Kept, Plan, StopsFrom;
    StopsFromMembers(m, needed, owned, Plan(inventory, m.name)[t..]);
    assert item in Plan(inventory, m.name) && !Kept(m, needed, owned, item);
    assert o in Plan(inventory, m.name) && !Kept(m, needed, owned, o);
    StoppedBefore(inventory, m, needed, owned, t, o, item);
  }

  lemma TailSparesAll(inventory: seq<Module>, m: Module, containers: Snapshot, owned: set<string>, roots: set<string>, t: nat)
    requires Sound(inventory) && m in inventory && t <= |Plan(inventory, m.name)|
    requires m.service !in Needed(inventory, m, containers, owned, roots)
    requires EngineStays(inventory, m, Needed(inventory, m, containers, owned, roots), containers, owned)
    ensures
      var needed := Needed(inventory, m, containers, owned, roots);
      SpareAll(inventory, containers, Services(StopsFrom(m, needed, owned, Plan(inventory, m.name)[t..])))
  {
    hide Counts, Needed, Sound, Kept, Plan, EngineStays;
    var plan := Plan(inventory, m.name);
    var needed := Needed(inventory, m, containers, owned, roots);
    var stops := StopsFrom(m, needed, owned, plan[t..]);
    TailIsSafe(inventory, m, containers, owned, roots, t);
    StopsFromMembers(m, needed, owned, plan[t..]);
    forall o <- inventory, dep <- Plan(inventory, o.name), item <- stops
      | Uncounted(o.name) && StateOf(containers, o.service).running && o.service !in Services(stops)
      ensures dep.service != item.service
    {
      if dep.service == item.service {
        SameEntry(inventory, m, o, dep, item);
        EngineKeepsItsOwn(inventory, m, needed, containers, owned, t, o, item);
        assert false;
      }
    }
  }

  /** Entries of plans with the same service are the same entry. */
  lemma SameEntry(inventory: seq<Module>, m: Module, o: Module, dep: Module, item: Module)
    requires Sound(inventory) && dep in Plan(inventory, o.name) && item in Plan(inventory, m.name)
    requires dep.service == item.service
    ensures dep == item
  {
    PlanIsReachable(inventory, o.name, dep);
    PlanIsReachable(inventory, m.name, item);
    assert dep in inventory && item in inventory;
  }

  /** Safe stop of every running module, the engine's own included: all stops, and each part of them, spare what runs
      exactly when nothing a remaining module of the engine needs of this plan is to be stopped. */
  lemma SparesAllExactlyWhen(inventory: seq<Module>, m: Module, containers: Snapshot, owned: set<string>, roots: set<string>)
    requires Sound(inventory) && m in inventory
    requires m.service !in Needed(inventory, m, containers, owned, roots)
    ensures
      var needed := Needed(inventory, m, containers, owned, roots);
      var stops := StopsFrom(m, needed, owned, Plan(inventory, m.name));
      && (SpareAll(inventory, containers, Services(stops)) <==> EngineStays(inventory, m, needed, containers, owned))
      && ((forall k :: 0 <= k <= |stops| ==> SpareAll(inventory, containers, Services(stops[..k])))
          <==> EngineStays(inventory, m, needed, containers, owned))
  {
    hide Counts, Needed, Sound, Kept;
    var needed := Needed(inventory, m, containers, owned, roots);
    var stops := StopsFrom(m, needed, owned, Plan(inventory, m.name));
    assert stops[..|stops|] == stops;
    if EngineStays(inventory, m, needed, containers, owned) {
      forall k | 0 <= k <= |stops|
        ensures SpareAll(inventory, containers, Services(stops[..k]))
      {
        var t := PrefixIsTail(m, needed, owned, Plan(inventory, m.name), k);
        TailSparesAll(inventory, m, containers, owned, roots, t);
      }
    } else {
      var o, dep :| o in inventory && dep in Plan(inventory, o.name)
                    && Uncounted(o.name) && StateOf(containers, o.service).running
                    && (o in Plan(inventory, m.name) ==> Kept(m, needed, owned, o)) && dep in Plan(inventory, m.name)
                    && !Kept(m, needed, owned, dep);
      LosesItsOwn(inventory, m, needed, owned, containers, o, dep);
    }
  }

  lemma LosesItsOwn(inventory: seq<Module>, m: Module, needed: set<string>, owned: set<string>, containers: Snapshot, o: Module, dep: Module)
    requires Sound(inventory) && o in inventory && dep in Plan(inventory, o.name) && StateOf(containers, o.service).running
    requires o in Plan(inventory, m.name) ==> Kept(m, needed, owned, o)
    requires dep in Plan(inventory, m.name) && !Kept(m, needed, owned, dep)
    ensures !SpareAll(inventory, containers, Services(StopsFrom(m, needed, owned, Plan(inventory, m.name))))
  {
    var stops := StopsFrom(m, needed, owned, Plan(inventory, m.name));
    hide Kept, Plan, SpareAll;
    StopsFromMembers(m, needed, owned, Plan(inventory, m.name));
    assert dep.service in Services(stops) && dep.service in Services(Plan(inventory, o.name));
    forall item <- stops
      ensures item.service != o.service
    {
      PlanIsReachable(inventory, m.name, item);
    }
    NotSpared(inventory, containers, stops, o);
  }

  lemma NotSpared(inventory: seq<Module>, containers: Snapshot, stops: seq<Module>, o: Module)
    requires o in inventory && StateOf(containers, o.service).running && o.service !in Services(stops)
    requires !(Services(Plan(inventory, o.name)) !! Services(stops))
    ensures !SpareAll(inventory, containers, Services(stops))
  {
  }

  /** The engine's modules are the exception: stopping a module stops an owned engine although the
      initializer, started by someone else, still runs on it. */
  lemma UncountedMayLoseTheirs(inventory: seq<Module>, m: Module, init: Module, engine: Module, containers: Snapshot)
    requires Sound(inventory) && m in inventory && init in inventory && engine in inventory
    requires Uncounted(init.name) && Uncounted(engine.name) && !Uncounted(m.name) && init != engine
    requires Edge(inventory, m.name, init.name) && Edge(inventory, init.name, engine.name)
    requires containers == map[m.service := Container(true, false), init.service := Container(true, false),
                               engine.service := Container(true, false)]
    ensures
      var owned, roots := {m.service, engine.service}, {m.name};
      var needed := Needed(inventory, m, containers, owned, roots);
      var stops := StopsFrom(m, needed, owned, Plan(inventory, m.name));
      && needed == {} && engine in stops && init !in stops
      && StateOf(containers, init.service).running && engine in Plan(inventory, init.name)
      && !SpareAll(inventory, containers, Services(stops))
  {
    var owned, roots := {m.service, engine.service}, {m.name};
    var needed := Needed(inventory, m, containers, owned, roots);
    EngineIsPlanned(inventory, m, init, engine);
    NothingCounts(inventory, m, init, engine, containers);
    hide Counts, Needed, Reaches, Acyclic, Plan, SpareAll;
    assert init.service != m.service && init.service != engine.service && init.name != m.name;
    StopsFromMembers(m, needed, owned, Plan(inventory, m.name));
    LosesItsOwn(inventory, m, needed, owned, containers, init, engine);
  }

  lemma NothingCounts(inventory: seq<Module>, m: Module, init: Module, engine: Module, containers: Snapshot)
    requires Sound(inventory) && m in inventory && init in inventory && engine in inventory
    requires Uncounted(init.name) && Uncounted(engine.name)
    requires containers.Keys == {m.service, init.service, engine.service}
    ensures Needed(inventory, m, containers, {m.service, engine.service}, {m.name}) == {}
  {
    hide Plan, Acyclic;
    forall o <- inventory
      ensures !Counts(inventory, m, containers, {m.service, engine.service}, {m.name}, o)
    {
      if StateOf(containers, o.service).running {
        assert o == m || o == init || o == engine;
      }
    }
  }

  lemma EngineIsPlanned(inventory: seq<Module>, m: Module, init: Module, engine: Module)
    requires Sound(inventory) && m in inventory && init in inventory && engine in inventory
    requires Edge(inventory, m.name, init.name) && Edge(inventory, init.name, engine.name)
    ensures engine in Plan(inventory, m.name) && engine in Plan(inventory, init.name)
  {
    ReachesSelf(inventory, init.name);
    ReachesStep(inventory, init.name, init.name, engine.name);
    ReachesSelf(inventory, m.name);
    ReachesStep(inventory, m.name, m.name, init.name);
    ReachesTransitive(inventory, m.name, init.name, engine.name);
    PlanIsReachable(inventory, init.name, engine);
    PlanIsReachable(inventory, m.name, engine);
  }

  lemma ShippedNames()
    ensures Uncounted(EMBEDDINGS.name) && Uncounted(EMBEDDING_INIT.name) && !Uncounted(MEMORY.name)
    ensures EMBEDDING_INIT != EMBEDDINGS
  {
    assert |MEMORY.name| == 6 && |EMBEDDINGS.name| == 10 && |EMBEDDING_INIT.name| == 14;
  }

  /** The shipped inventory has such a configuration: memory, the initializer and the engine run, and stopping memory
      takes the engine from the initializer. */
  lemma ShippedInitializerMayLoseItsEngine(containers: Snapshot)
    requires
      var up := Container(true, false);
      containers == map[MEMORY.service := up, EMBEDDING_INIT.service := up, EMBEDDINGS.service := up]
    ensures
      var owned, roots := {MEMORY.service, EMBEDDINGS.service}, {MEMORY.name};
      var needed := Needed(INVENTORY, MEMORY, containers, owned, roots);
      var stops := StopsFrom(MEMORY, needed, owned, Plan(INVENTORY, MEMORY.name));
      && needed == {} && EMBEDDINGS in stops && EMBEDDING_INIT !in stops
      && !SpareAll(INVENTORY, containers, Services(stops))
  {
    hide *;
    ShippedInventoryIsSound();
    ShippedEdges();
    ShippedNames();
    UncountedMayLoseTheirs(INVENTORY, MEMORY, EMBEDDING_INIT, EMBEDDINGS, containers);
  }

  // ---- what a stop undoes ------------------------------------------------------------------------------

  function Backwards(plan: seq<Module>): (r: seq<Module>)
    ensures |r| == |plan|
  {
    if plan == [] then [] else Backwards(plan[1..]) + [plan[0]]
  }

  lemma {:induction false} BackwardsAt(plan: seq<Module>, k: nat)
    requires k < |plan|
    ensures Backwards(plan)[k] == plan[|plan| - 1 - k]
  {
    if k < |plan| - 1 {
      BackwardsAt(plan[1..], k);
    }
  }

  lemma ServicesConcat(a: seq<Module>, b: seq<Module>)
    ensures Services(a + b) == Services(a) + Services(b)
  {
    assert forall m :: m in a + b <==> m in a || m in b;
  }

  lemma {:induction false} BackwardsServices(plan: seq<Module>)
    ensures Services(Backwards(plan)) == Services(plan)
  {
    if plan != [] {
      BackwardsServices(plan[1..]);
      assert plan == [plan[0]] + plan[1..];
      ServicesConcat([plan[0]], plan[1..]);
      ServicesConcat(Backwards(plan[1..]), [plan[0]]);
    }
  }

  lemma {:induction false} NoneKept(m: Module, needed: set<string>, owned: set<string>, tail: seq<Module>)
    requires forall item <- tail :: !Kept(m, needed, owned, item)
    ensures StopsFrom(m, needed, owned, tail) == Backwards(tail)
  {
    if tail != [] {
      NoneKept(m, needed, owned, tail[1..]);
    }
  }

  /** When nothing else runs and the whole plan is owned and nobody's wish but this module's, all of it is stopped, the
      last entry first. */
  lemma AllIsStopped(inventory: seq<Module>, m: Module, containers: Snapshot, owned: set<string>, roots: set<string>)
    requires Sound(inventory) && m in inventory
    requires forall o <- inventory :: StateOf(containers, o.service).running ==> o.service in Services(Plan(inventory, m.name))
    requires Services(Plan(inventory, m.name)) <= owned
    requires forall o <- inventory :: o.service in Services(Plan(inventory, m.name)) && o.name in roots ==> o.name == m.name
    ensures
      var needed := Needed(inventory, m, containers, owned, roots);
      needed == {} && StopsFrom(m, needed, owned, Plan(inventory, m.name)) == Backwards(Plan(inventory, m.name))
  {
    var needed := Needed(inventory, m, containers, owned, roots);
    hide Plan, Sound;
    forall o <- inventory
      ensures !Counts(inventory, m, containers, owned, roots, o)
    {
    }
    assert needed == {};
    hide Needed, Counts;
    forall item <- Plan(inventory, m.name)
      ensures !Kept(m, needed, owned, item)
    {
      assert item.service in Services(Plan(inventory, m.name));
    }
    NoneKept(m, needed, owned, Plan(inventory, m.name));
  }

  // ---- what is stopped, told by who runs ---------------------------------------------------------------

  /** A running module that is not the engine's, not the one being stopped, and not a dependency of it that this
      controller started for itself. */
  ghost predicate Uses(
    inventory: seq<Module>, m: Module, containers: Snapshot, owned: set<string>, roots: set<string>, o: Module) {
    && o in inventory && StateOf(containers, o.service).running
    && o.name !in ["embeddings", "embedding_init"] && o.name != m.name
    && (o.name in roots || o.service !in owned || forall item <- Plan(inventory, m.name) :: item.service != o.service)
  }

  lemma UsesIs(inventory: seq<Module>, m: Module, containers: Snapshot, owned: set<string>, roots: set<string>, o: Module)
    requires o in inventory
    ensures Counts(inventory, m, containers, owned, roots, o) <==> Uses(inventory, m, containers, owned, roots, o)
  {
    hide Plan, StateOf;
    assert o.service in Services(Plan(inventory, m.name)) <==>
             exists item <- Plan(inventory, m.name) :: item.service == o.service;
  }

  /** A service is needed, and stopping its module refused, exactly when a module in use has it in its plan. */
  lemma NeededExactlyWhen(
    inventory: seq<Module>, m: Module, containers: Snapshot, owned: set<string>, roots: set<string>, service: string)
    ensures service in Needed(inventory, m, containers, owned, roots) <==>
              exists o, dep :: Uses(inventory, m, containers, owned, roots, o) && dep in Plan(inventory, o.name)
                && dep.service == service
  {
    hide Plan, Counts, Uses;
    forall o | o in inventory
      ensures Counts(inventory, m, containers, owned, roots, o) <==> Uses(inventory, m, containers, owned, roots, o)
    {
      UsesIs(inventory, m, containers, owned, roots, o);
    }
    if o, dep :| Uses(inventory, m, containers, owned, roots, o) && dep in Plan(inventory, o.name) && dep.service == service {
      UserIsListed(inventory, m, containers, owned, roots, o);
    }
  }

  /** Of the plan exactly those are stopped that this controller started, and the named one itself, unless a module in
      use has them in its plan. */
  lemma StoppedExactlyWhen(
    inventory: seq<Module>, m: Module, containers: Snapshot, owned: set<string>, roots: set<string>, item: Module)
    requires item in Plan(inventory, m.name)
    ensures item in StopsFrom(m, Needed(inventory, m, containers, owned, roots), owned, Plan(inventory, m.name)) <==>
              && (item.name == m.name || item.service in owned)
              && forall o :: Uses(inventory, m, containers, owned, roots, o) ==>
                   forall dep <- Plan(inventory, o.name) :: dep.service != item.service
  {
    hide Plan, Counts, Uses, StopsFrom;
    StopsFromMembers(m, Needed(inventory, m, containers, owned, roots), owned, Plan(inventory, m.name));
    forall o | o in inventory
      ensures Counts(inventory, m, containers, owned, roots, o) <==> Uses(inventory, m, containers, owned, roots, o)
    {
      UsesIs(inventory, m, containers, owned, roots, o);
    }
    forall o | Uses(inventory, m, containers, owned, roots, o)
      ensures o in inventory
    {
      UserIsListed(inventory, m, containers, owned, roots, o);
    }
  }

  lemma UserIsListed(
    inventory: seq<Module>, m: Module, containers: Snapshot, owned: set<string>, roots: set<string>, o: Module)
    requires Uses(inventory, m, containers, owned, roots, o)
    ensures o in inventory
  {
  }

  /** What the owner turned on stays: nothing a running named module needs is stopped, not even itself, though it is a
      dependency this controller started. */
  lemma NamedModulesStay(
    inventory: seq<Module>, m: Module, containers: Snapshot, owned: set<string>, roots: set<string>, o: Module, item: Module)
    requires o in inventory && o.name in roots && o.name != m.name && StateOf(containers, o.service).running
    requires o.name != "embeddings" && o.name != "embedding_init"
    requires item in Plan(inventory, m.name) && exists dep <- Plan(inventory, o.name) :: dep.service == item.service
    ensures item !in StopsFrom(m, Needed(inventory, m, containers, owned, roots), owned, Plan(inventory, m.name))
  {
    hide Plan, StopsFrom, Needed;
    StoppedExactlyWhen(inventory, m, containers, owned, roots, item);
    assert Uses(inventory, m, containers, owned, roots, o);
  }
}
