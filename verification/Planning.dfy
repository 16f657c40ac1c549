/** The module inventory and the dependency plan of the local runtime controller. */
module Planning {
  import opened Wrappers

  datatype Module = Module(name: string, service: string, dependencies: seq<string>, isInternal: bool)

  /** The first inventory entry with this name. */
  function Lookup(inventory: seq<Module>, name: string): (found: Option<Module>)
    ensures found.Some? ==> found.value in inventory && found.value.name == name
    ensures found.None? <==> forall m <- inventory :: m.name != name
  {
    if inventory == [] then None
    else if inventory[0].name == name then Some(inventory[0])
    else Lookup(inventory[1..], name)
  }

  function Names(modules: seq<Module>): set<string> {
    set m <- modules :: m.name
  }

  function Services(modules: seq<Module>): set<string> {
    set m <- modules :: m.service
  }

  /** What one visit leaves behind: the names seen so far and the plan built so far. */
  datatype Progress = Progress(seen: set<string>, result: seq<Module>)

  function Unseen(inventory: seq<Module>, seen: set<string>): nat {
    |Names(inventory) - seen|
  }

  lemma UnseenShrinks(inventory: seq<Module>, small: set<string>, large: set<string>)
    requires small <= large
    ensures Unseen(inventory, large) <= Unseen(inventory, small)
    ensures forall name <- Names(inventory) ::
              name in large && name !in small ==> Unseen(inventory, large) < Unseen(inventory, small)
  {
    var a, b := Names(inventory) - large, Names(inventory) - small;
    SubsetSize(a, b);
    forall name <- Names(inventory) | name in large && name !in small
      ensures Unseen(inventory, large) < Unseen(inventory, small)
    {
      SubsetSize(a, b - {name});
    }
  }

  lemma SubsetSize<T>(a: set<T>, b: set<T>)
    requires a <= b
    ensures |a| <= |b|
  {
    if a != {} {
      var x :| x in a;
      SubsetSize(a - {x}, b - {x});
    }
  }

  /** One depth-first visit: an entry joins the plan after everything it depends on. */
  function Visit(inventory: seq<Module>, name: string, p: Progress): (r: Progress)
    ensures p.seen <= r.seen
    decreases Unseen(inventory, p.seen), 0
  {
    var found := Lookup(inventory, name);
    if name in p.seen || found.None? then p
    else
      UnseenShrinks(inventory, p.seen, p.seen + {name});
      var inner := VisitAll(inventory, found.value.dependencies, Progress(p.seen + {name}, p.result));
      Progress(inner.seen, inner.result + [found.value])
  }

  function VisitAll(inventory: seq<Module>, names: seq<string>, p: Progress): (r: Progress)
    ensures p.seen <= r.seen
    decreases Unseen(inventory, p.seen), 1 + |names|
  {
    if names == [] then p
    else
      var first := Visit(inventory, names[0], p);
      UnseenShrinks(inventory, p.seen, first.seen);
      VisitAll(inventory, names[1..], first)
  }

  /** The plan of a module: everything it needs, in the order it is started. */
  function Plan(inventory: seq<Module>, name: string): seq<Module> {
    Visit(inventory, name, Progress({}, [])).result
  }

  /** The planner as the controller runs it: one set and one list, updated by recursive visits. */
  class Planner {
    const inventory: seq<Module>
    var seen: set<string>
    var result: seq<Module>

    constructor (inventory: seq<Module>)
      ensures this.inventory == inventory && seen == {} && result == []
    {
      this.inventory := inventory;
      seen := {};
      result := [];
    }

    method VisitModule(name: string)
      modifies this
      ensures Progress(seen, result) == Visit(inventory, name, Progress(old(seen), old(result)))
      decreases Unseen(inventory, seen)
    {
      if name in seen {
        return;
      }
      var found := Lookup(inventory, name);
      if found.None? {
        return;
      }
      var m := found.value;
      UnseenShrinks(inventory, seen, seen + {name});
      seen := seen + {name};
      ghost var start := Progress(seen, result);
      var i := 0;
      while i < |m.dependencies|
        invariant 0 <= i <= |m.dependencies|
        invariant start.seen <= seen
        invariant VisitAll(inventory, m.dependencies, start)
               == VisitAll(inventory, m.dependencies[i..], Progress(seen, result))
      {
        UnseenShrinks(inventory, start.seen, seen);
        ghost var here := Progress(seen, result);
        VisitModule(m.dependencies[i]);
        assert m.dependencies[i..][1..] == m.dependencies[i + 1..];
        assert here.seen <= seen;
        i := i + 1;
      }
      result := result + [m];
    }
  }

  method PlanFor(inventory: seq<Module>, name: string) returns (plan: seq<Module>)
    ensures plan == Plan(inventory, name)
  {
    var planner := new Planner(inventory);
    planner.VisitModule(name);
    plan := planner.result;
  }

  // ---- what a plan means ----------------------------------------------------------------

  /** `from` names an inventory entry that depends directly on the entry `to`. */
  ghost predicate Edge(inventory: seq<Module>, from: string, to: string) {
    && Lookup(inventory, from).Some?
    && Lookup(inventory, to).Some?
    && to in Lookup(inventory, from).value.dependencies
  }

  ghost predicate IsPath(inventory: seq<Module>, path: seq<string>) {
    && path != []
    && forall i :: 0 <= i < |path| - 1 ==> Edge(inventory, path[i], path[i + 1])
  }

  ghost predicate PathFromTo(inventory: seq<Module>, path: seq<string>, from: string, to: string) {
    IsPath(inventory, path) && path[0] == from && path[|path| - 1] == to
  }

  /** There is a chain of dependencies, possibly empty, from one name to the other. */
  ghost predicate Reaches(inventory: seq<Module>, from: string, to: string) {
    exists path :: PathFromTo(inventory, path, from, to)
  }

  lemma ReachesSelf(inventory: seq<Module>, name: string)
    ensures Reaches(inventory, name, name)
  {
    assert PathFromTo(inventory, [name], name, name);
  }

  lemma ReachesStep(inventory: seq<Module>, from: string, mid: string, to: string)
    requires Reaches(inventory, from, mid) && Edge(inventory, mid, to)
    ensures Reaches(inventory, from, to)
  {
    var path :| PathFromTo(inventory, path, from, mid);
    assert PathFromTo(inventory, path + [to], from, to);
  }

  lemma ReachesTransitive(inventory: seq<Module>, from: string, mid: string, to: string)
    requires Reaches(inventory, from, mid) && Reaches(inventory, mid, to)
    ensures Reaches(inventory, from, to)
  {
    var a :| PathFromTo(inventory, a, from, mid);
    var b :| PathFromTo(inventory, b, mid, to);
    var path := a + b[1..];
    forall i | 0 <= i < |path| - 1
      ensures Edge(inventory, path[i], path[i + 1])
    {
      if i >= |a| - 1 {
        assert path[i] == b[i - |a| + 1] && path[i + 1] == b[i - |a| + 2];
      }
    }
    assert PathFromTo(inventory, path, from, to);
  }

  /** No entry is reached again from one of its own dependencies. */
  ghost predicate Acyclic(inventory: seq<Module>) {
    forall a, b :: Edge(inventory, a, b) ==> !Reaches(inventory, b, a)
  }

  /** A set of names that holds every existing dependency of its members. */
  ghost predicate Closed(inventory: seq<Module>, names: set<string>) {
    forall a, b :: a in names && Edge(inventory, a, b) ==> b in names
  }

  lemma ClosedHoldsReachable(inventory: seq<Module>, names: set<string>, path: seq<string>)
    requires Closed(inventory, names) && IsPath(inventory, path) && path[0] in names
    ensures path[|path| - 1] in names
    decreases |path|
  {
    if |path| > 1 {
      assert Edge(inventory, path[0], path[1]);
      assert IsPath(inventory, path[1..]) by {
        forall i | 0 <= i < |path[1..]| - 1
          ensures Edge(inventory, path[1..][i], path[1..][i + 1])
        {
          assert Edge(inventory, path[i + 1], path[i + 2]);
        }
      }
      ClosedHoldsReachable(inventory, names, path[1..]);
    }
  }

  // ---- the depth-first search ------------------------------------------------------------

  /** Entries of a plan are inventory entries found under their own names, each once. */
  ghost predicate Distinct(inventory: seq<Module>, plan: seq<Module>) {
    && (forall m <- plan :: Lookup(inventory, m.name) == Some(m))
    && (forall i, j :: 0 <= i < j < |plan| ==> plan[i].name != plan[j].name)
  }

  /** Names whose visit has begun and not ended. */
  function Open(p: Progress): set<string> {
    p.seen - Names(p.result)
  }

  ghost predicate Consistent(inventory: seq<Module>, p: Progress) {
    Distinct(inventory, p.result) && Names(p.result) <= p.seen
  }

  lemma ClosingConsistent(inventory: seq<Module>, p: Progress, inner: Progress, m: Module)
    requires Consistent(inventory, p) && Consistent(inventory, inner) && p.result <= inner.result
    requires Lookup(inventory, m.name) == Some(m) && m.name !in p.seen && m.name in inner.seen
    requires Open(inner) == Open(Progress(p.seen + {m.name}, p.result))
    ensures
      var r := Progress(inner.seen, inner.result + [m]);
      Consistent(inventory, r) && Open(r) == Open(p) && p.result <= r.result
  {
    var q, r := Progress(p.seen + {m.name}, p.result), Progress(inner.seen, inner.result + [m]);
    hide Lookup;
    assert m.name in Open(q);
    assert Open(q) - {m.name} == Open(p);
    assert Names(r.result) == Names(inner.result) + {m.name};
  }

  /** A visit keeps the plan's entries distinct, leaves open what was open, and sees its names. */
  lemma {:induction false} VisitConsistent(inventory: seq<Module>, name: string, p: Progress)
    requires Consistent(inventory, p)
    ensures
      var r := Visit(inventory, name, p);
      && Consistent(inventory, r) && Open(r) == Open(p) && p.result <= r.result
      && (Lookup(inventory, name).Some? ==> name in r.seen)
    decreases Unseen(inventory, p.seen), 0
  {
    var found := Lookup(inventory, name);
    if found.Some? && name !in p.seen {
      var q := Progress(p.seen + {name}, p.result);
      assert Consistent(inventory, q) && Lookup(inventory, found.value.name) == found;
      UnseenShrinks(inventory, p.seen, q.seen);
      VisitAllConsistent(inventory, found.value.dependencies, q);
      var inner := VisitAll(inventory, found.value.dependencies, q);
      hide Lookup, Consistent, Open, VisitAll;
      ClosingConsistent(inventory, p, inner, found.value);
    }
  }

  lemma {:induction false} VisitAllConsistent(inventory: seq<Module>, names: seq<string>, p: Progress)
    requires Consistent(inventory, p)
    ensures
      var r := VisitAll(inventory, names, p);
      && Consistent(inventory, r) && Open(r) == Open(p) && p.result <= r.result
      && (forall name <- names :: Lookup(inventory, name).Some? ==> name in r.seen)
    decreases Unseen(inventory, p.seen), 1 + |names|
  {
    if names != [] {
      VisitConsistent(inventory, names[0], p);
      var first := Visit(inventory, names[0], p);
      UnseenShrinks(inventory, p.seen, first.seen);
      VisitAllConsistent(inventory, names[1..], first);
    }
  }

  ghost predicate AllReached(inventory: seq<Module>, root: string, plan: seq<Module>) {
    forall m <- plan :: Reaches(inventory, root, m.name)
  }

  /** Only what the root reaches joins its plan. */
  lemma {:induction false} VisitReached(inventory: seq<Module>, root: string, name: string, p: Progress)
    requires AllReached(inventory, root, p.result)
    requires Lookup(inventory, name).Some? ==> Reaches(inventory, root, name)
    ensures AllReached(inventory, root, Visit(inventory, name, p).result)
    decreases Unseen(inventory, p.seen), 0
  {
    var found := Lookup(inventory, name);
    if found.Some? && name !in p.seen {
      UnseenShrinks(inventory, p.seen, p.seen + {name});
      forall to <- found.value.dependencies | Lookup(inventory, to).Some?
        ensures Reaches(inventory, root, to)
      {
        ReachesStep(inventory, root, name, to);
      }
      VisitAllReached(inventory, root, found.value.dependencies, Progress(p.seen + {name}, p.result));
    }
  }

  lemma {:induction false} VisitAllReached(inventory: seq<Module>, root: string, names: seq<string>, p: Progress)
    requires AllReached(inventory, root, p.result)
    requires forall name <- names :: Lookup(inventory, name).Some? ==> Reaches(inventory, root, name)
    ensures AllReached(inventory, root, VisitAll(inventory, names, p).result)
    decreases Unseen(inventory, p.seen), 1 + |names|
  {
    if names != [] {
      VisitReached(inventory, root, names[0], p);
      var first := Visit(inventory, names[0], p);
      UnseenShrinks(inventory, p.seen, first.seen);
      VisitAllReached(inventory, root, names[1..], first);
    }
  }

  /** Every existing dependency of a finished entry has been seen. */
  ghost predicate DependenciesSeen(inventory: seq<Module>, p: Progress) {
    forall m <- p.result, to <- m.dependencies :: Lookup(inventory, to).Some? ==> to in p.seen
  }

  lemma {:induction false} VisitDependenciesSeen(inventory: seq<Module>, name: string, p: Progress)
    requires Consistent(inventory, p) && DependenciesSeen(inventory, p)
    ensures DependenciesSeen(inventory, Visit(inventory, name, p))
    decreases Unseen(inventory, p.seen), 0
  {
    var found := Lookup(inventory, name);
    if found.Some? && name !in p.seen {
      var q := Progress(p.seen + {name}, p.result);
      UnseenShrinks(inventory, p.seen, q.seen);
      VisitAllConsistent(inventory, found.value.dependencies, q);
      VisitAllDependenciesSeen(inventory, found.value.dependencies, q);
    }
  }

  lemma {:induction false} VisitAllDependenciesSeen(inventory: seq<Module>, names: seq<string>, p: Progress)
    requires Consistent(inventory, p) && DependenciesSeen(inventory, p)
    ensures DependenciesSeen(inventory, VisitAll(inventory, names, p))
    decreases Unseen(inventory, p.seen), 1 + |names|
  {
    if names != [] {
      VisitConsistent(inventory, names[0], p);
      VisitDependenciesSeen(inventory, names[0], p);
      var first := Visit(inventory, names[0], p);
      UnseenShrinks(inventory, p.seen, first.seen);
      VisitAllDependenciesSeen(inventory, names[1..], first);
    }
  }

  /** Every existing dependency of an entry stands before it. */
  ghost predicate DependenciesFirst(inventory: seq<Module>, plan: seq<Module>) {
    forall i, to | 0 <= i < |plan| && Edge(inventory, plan[i].name, to) :: to in Names(plan[..i])
  }

  /** Without cycles nothing open is a dependency, so a finished entry follows all of its own. */
  lemma {:induction false} VisitOrdered(inventory: seq<Module>, name: string, p: Progress)
    requires Consistent(inventory, p) && Acyclic(inventory) && DependenciesFirst(inventory, p.result)
    requires forall g <- Open(p) :: Reaches(inventory, g, name)
    ensures DependenciesFirst(inventory, Visit(inventory, name, p).result)
    decreases Unseen(inventory, p.seen), 0
  {
    var found := Lookup(inventory, name);
    if found.Some? && name !in p.seen {
      var m := found.value;
      var q := Progress(p.seen + {name}, p.result);
      UnseenShrinks(inventory, p.seen, q.seen);
      forall g <- Open(q), to <- m.dependencies | Lookup(inventory, to).Some?
        ensures Reaches(inventory, g, to)
      {
        ReachesSelf(inventory, name);
        ReachesStep(inventory, g, name, to);
      }
      VisitAllOrdered(inventory, m.dependencies, q);
      VisitAllConsistent(inventory, m.dependencies, q);
      var inner := VisitAll(inventory, m.dependencies, q);
      forall to | Edge(inventory, name, to)
        ensures to in Names(inner.result)
      {
        if to in Open(q) {
          ReachesSelf(inventory, name);
          assert false;
        }
        assert to in inner.seen;
      }
      OrderedAppend(inventory, inner.result, m);
    }
  }

  lemma OrderedAppend(inventory: seq<Module>, plan: seq<Module>, m: Module)
    requires DependenciesFirst(inventory, plan)
    requires forall to | Edge(inventory, m.name, to) :: to in Names(plan)
    ensures DependenciesFirst(inventory, plan + [m])
  {
    forall i, to | 0 <= i < |plan + [m]| && Edge(inventory, (plan + [m])[i].name, to)
      ensures to in Names((plan + [m])[..i])
    {
      if i < |plan| {
        assert (plan + [m])[..i] == plan[..i];
      } else {
        assert (plan + [m])[..i] == plan;
      }
    }
  }

  lemma {:induction false} VisitAllOrdered(inventory: seq<Module>, names: seq<string>, p: Progress)
    requires Consistent(inventory, p) && Acyclic(inventory) && DependenciesFirst(inventory, p.result)
    requires forall g <- Open(p), name <- names :: Lookup(inventory, name).Some? ==> Reaches(inventory, g, name)
    ensures DependenciesFirst(inventory, VisitAll(inventory, names, p).result)
    decreases Unseen(inventory, p.seen), 1 + |names|
  {
    if names != [] {
      var first := Visit(inventory, names[0], p);
      if Lookup(inventory, names[0]).Some? {
        VisitOrdered(inventory, names[0], p);
      }
      VisitConsistent(inventory, names[0], p);
      UnseenShrinks(inventory, p.seen, first.seen);
      VisitAllOrdered(inventory, names[1..], first);
    }
  }

  // ---- main results ------------------------------------------------------------------------

  /** A plan has no repeats and ends with the module it was made for. */
  lemma PlanIsDistinct(inventory: seq<Module>, name: string)
    ensures Distinct(inventory, Plan(inventory, name))
    ensures Lookup(inventory, name).None? ==> Plan(inventory, name) == []
    ensures Lookup(inventory, name).Some? ==>
              var plan := Plan(inventory, name);
              plan != [] && plan[|plan| - 1] == Lookup(inventory, name).value
  {
    VisitConsistent(inventory, name, Progress({}, []));
  }

  /** A plan holds exactly the inventory entries its module reaches. */
  lemma PlanIsReachable(inventory: seq<Module>, name: string, m: Module)
    ensures m in Plan(inventory, name) <==>
            && Lookup(inventory, name).Some?
            && Lookup(inventory, m.name) == Some(m)
            && Reaches(inventory, name, m.name)
  {
    var start := Progress({}, []);
    var r := Visit(inventory, name, start);
    VisitConsistent(inventory, name, start);
    ReachesSelf(inventory, name);
    VisitReached(inventory, name, name, start);
    VisitDependenciesSeen(inventory, name, start);
    assert Open(r) == {};
    if Lookup(inventory, name).Some? && Lookup(inventory, m.name) == Some(m) && Reaches(inventory, name, m.name) {
      var path :| PathFromTo(inventory, path, name, m.name);
      assert name in r.seen;
      assert Closed(inventory, r.seen) by {
        forall a, b | a in r.seen && Edge(inventory, a, b)
          ensures b in r.seen
        {
          assert a !in Open(r);
          var entry :| entry in r.result && entry.name == a;
        }
      }
      ClosedHoldsReachable(inventory, r.seen, path);
      assert m.name !in Open(r);
      var entry :| entry in r.result && entry.name == m.name;
    }
  }

  /** In an inventory without cycles a plan puts every dependency before its dependents. */
  lemma PlanIsOrdered(inventory: seq<Module>, name: string)
    requires Acyclic(inventory)
    ensures DependenciesFirst(inventory, Plan(inventory, name))
  {
    VisitOrdered(inventory, name, Progress({}, []));
  }

  /** Whatever a plan holds, it holds that entry's whole plan. */
  lemma PlanContainsPlans(inventory: seq<Module>, name: string, o: Module)
    requires o in Plan(inventory, name)
    ensures forall m <- Plan(inventory, o.name) :: m in Plan(inventory, name)
  {
    PlanIsReachable(inventory, name, o);
    forall m <- Plan(inventory, o.name)
      ensures m in Plan(inventory, name)
    {
      PlanIsReachable(inventory, o.name, m);
      ReachesTransitive(inventory, name, o.name, m.name);
      PlanIsReachable(inventory, name, m);
    }
  }

  /** Two entries never stand in each other's plans, in an inventory without cycles. */
  lemma PlanIsOneWay(inventory: seq<Module>, a: Module, b: Module)
    requires Acyclic(inventory) && a != b && b in Plan(inventory, a.name)
    requires Lookup(inventory, a.name) == Some(a)
    ensures a !in Plan(inventory, b.name)
  {
    if a in Plan(inventory, b.name) {
      PlanIsReachable(inventory, a.name, b);
      PlanIsReachable(inventory, b.name, a);
      var path :| PathFromTo(inventory, path, a.name, b.name);
      assert |path| > 1;
      assert Edge(inventory, path[0], path[1]);
      assert PathFromTo(inventory, path[1..], path[1], b.name) by {
        forall i | 0 <= i < |path[1..]| - 1
          ensures Edge(inventory, path[1..][i], path[1..][i + 1])
        {
          assert Edge(inventory, path[i + 1], path[i + 2]);
        }
      }
      ReachesTransitive(inventory, path[1], b.name, a.name);
      assert false;
    }
  }

  // ---- the shipped inventory -----------------------------------------------------------------

  /** What the controller relies on: names and services identify entries, dependencies exist, no cycles. */
  ghost predicate Sound(inventory: seq<Module>) {
    && (forall m <- inventory :: Lookup(inventory, m.name) == Some(m))
    && (forall m <- inventory, o <- inventory :: m.service == o.service ==> m == o)
    && (forall m <- inventory, to <- m.dependencies :: Lookup(inventory, to).Some?)
    && Acyclic(inventory)
  }

  const EMBEDDINGS := Module("embeddings", "dokja-ollama", [], true)
  const EMBEDDING_INIT := Module("embedding_init", "dokja-embedding-init", ["embeddings"], true)
  const MEMORY := Module("memory", "dokja-memory", ["orchestrator", "embedding_init"], false)

  const INVENTORY: seq<Module> := [
    Module("orchestrator", "dokja-orchestrator", [], false),
    EMBEDDINGS,
    EMBEDDING_INIT,
    MEMORY,
    Module("knowledge", "dokja-knowledge", ["orchestrator", "embedding_init"], false),
    Module("feeds", "dokja-feeds", ["orchestrator"], false),
    Module("voice", "dokja-voice", ["orchestrator"], false),
    Module("communications", "dokja-communications", ["orchestrator"], false),
    Module("discord", "dokja-discord", ["orchestrator", "voice"], false),
    Module("scheduler", "dokja-scheduler", ["orchestrator"], false),
    Module("whatsapp", "dokja-whatsapp", ["orchestrator"], false),
    Module("cli", "dokja-cli", ["orchestrator"], true),
    Module("tui", "dokja-tui", ["orchestrator"], true)
  ]

  /** Every direct dependency of the entry at `i` is listed before it. */
  predicate ListedBefore(inventory: seq<Module>, i: nat)
    requires i < |inventory|
  {
    forall to <- inventory[i].dependencies :: exists j :: 0 <= j < i && inventory[j].name == to
  }

  lemma PathsGoBack(inventory: seq<Module>, path: seq<string>) returns (first: nat, last: nat)
    requires IsPath(inventory, path) && Lookup(inventory, path[0]).Some?
    requires forall i, j :: 0 <= i < j < |inventory| ==> inventory[i].name != inventory[j].name
    requires forall i :: 0 <= i < |inventory| ==> ListedBefore(inventory, i)
    ensures first < |inventory| && inventory[first].name == path[0]
    ensures last < |inventory| && inventory[last].name == path[|path| - 1]
    ensures if |path| == 1 then last == first else last < first
    decreases |path|
  {
    var m := Lookup(inventory, path[0]).value;
    first :| first < |inventory| && inventory[first] == m;
    last := first;
    if |path| > 1 {
      assert Edge(inventory, path[0], path[1]);
      assert IsPath(inventory, path[1..]) by {
        forall i | 0 <= i < |path[1..]| - 1
          ensures Edge(inventory, path[1..][i], path[1..][i + 1])
        {
          assert Edge(inventory, path[i + 1], path[i + 2]);
        }
      }
      assert ListedBefore(inventory, first);
      var next: nat;
      next, last := PathsGoBack(inventory, path[1..]);
    }
  }

  /** An inventory that lists dependencies first has no cycles. */
  lemma ListedFirstIsAcyclic(inventory: seq<Module>)
    requires forall i, j :: 0 <= i < j < |inventory| ==> inventory[i].name != inventory[j].name
    requires forall i :: 0 <= i < |inventory| ==> ListedBefore(inventory, i)
    ensures Acyclic(inventory)
  {
    forall a, b | Edge(inventory, a, b)
      ensures !Reaches(inventory, b, a)
    {
      if Reaches(inventory, b, a) {
        var path :| PathFromTo(inventory, path, b, a);
        assert IsPath(inventory, [a] + path) by {
          forall i | 0 <= i < |[a] + path| - 1
            ensures Edge(inventory, ([a] + path)[i], ([a] + path)[i + 1])
          {
            if i > 0 {
              assert Edge(inventory, path[i - 1], path[i]);
            }
          }
        }
        var first, last := PathsGoBack(inventory, [a] + path);
        assert false;
      }
    }
  }

  /** Distinct entries, each listed after what it needs, make a sound inventory. */
  lemma ListedFirstIsSound(inventory: seq<Module>)
    requires forall i, j :: 0 <= i < j < |inventory| ==> inventory[i].name != inventory[j].name
    requires forall i, j :: 0 <= i < j < |inventory| ==> inventory[i].service != inventory[j].service
    requires forall i :: 0 <= i < |inventory| ==> ListedBefore(inventory, i)
    ensures Sound(inventory)
  {
    ListedFirstIsAcyclic(inventory);
    forall i | 0 <= i < |inventory|
      ensures Lookup(inventory, inventory[i].name) == Some(inventory[i])
    {
    }
    forall i, to | 0 <= i < |inventory| && to in inventory[i].dependencies
      ensures Lookup(inventory, to).Some?
    {
      assert ListedBefore(inventory, i);
    }
  }

  lemma ShippedOrder()
    ensures forall i :: 0 <= i < |INVENTORY| ==> ListedBefore(INVENTORY, i)
  {
    assert INVENTORY[0].name == "orchestrator" && INVENTORY[1].name == "embeddings";
    assert INVENTORY[2].name == "embedding_init" && INVENTORY[6].name == "voice";
  }

  lemma ShippedDiffer()
    ensures forall i, j :: 0 <= i < j < |INVENTORY| ==> INVENTORY[i].name != INVENTORY[j].name
    ensures forall i, j :: 0 <= i < j < |INVENTORY| ==> INVENTORY[i].service != INVENTORY[j].service
  {
  }

  /** The thirteen shipped entries meet every assumption the results below make. */
  lemma ShippedInventoryIsSound()
    ensures Sound(INVENTORY)
  {
    ShippedOrder();
    ShippedDiffer();
    hide *;
    ListedFirstIsSound(INVENTORY);
  }

  lemma DependencyIsEdge(inventory: seq<Module>, m: Module, to: string)
    requires Sound(inventory) && m in inventory && to in m.dependencies
    ensures Edge(inventory, m.name, to)
  {
    hide Acyclic;
  }

  lemma ShippedEngine()
    ensures EMBEDDINGS in INVENTORY && EMBEDDING_INIT in INVENTORY && MEMORY in INVENTORY
  {
    assert INVENTORY[1] == EMBEDDINGS && INVENTORY[2] == EMBEDDING_INIT && INVENTORY[3] == MEMORY;
  }

  lemma ShippedDependencies()
    ensures EMBEDDING_INIT.name in MEMORY.dependencies && EMBEDDINGS.name in EMBEDDING_INIT.dependencies
  {
    assert MEMORY.dependencies[1] == EMBEDDING_INIT.name && EMBEDDING_INIT.dependencies[0] == EMBEDDINGS.name;
  }

  /** Memory needs the initializer, and that the engine. */
  lemma ShippedEdges()
    ensures EMBEDDINGS in INVENTORY && EMBEDDING_INIT in INVENTORY && MEMORY in INVENTORY
    ensures Edge(INVENTORY, MEMORY.name, EMBEDDING_INIT.name) && Edge(INVENTORY, EMBEDDING_INIT.name, EMBEDDINGS.name)
  {
    hide *;
    ShippedInventoryIsSound();
    ShippedEngine();
    ShippedDependencies();
    DependencyIsEdge(INVENTORY, MEMORY, EMBEDDING_INIT.name);
    DependencyIsEdge(INVENTORY, EMBEDDING_INIT, EMBEDDINGS.name);
  }
}
