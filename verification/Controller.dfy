/** The runtime controller as one process runs it: starting, stopping and reconfiguring modules,
    one operation at a time. Overlapping operations are the subject of module Lifecycle. */
module Controller {
  import opened Wrappers
  import opened Planning
  import opened Settings
  import opened Stopping

  datatype Journal = Journal(owned: set<string>, roots: set<string>, stale: set<string>)

  /** What readiness is read from: the initializer has completed, any other service is running. */
  predicate Up(containers: Snapshot, item: Module) {
    var state := StateOf(containers, item.service);
    if item.name == "embedding_init" then state.completed else state.running
  }

  /** The initializer of an engine that memory or knowledge is using. */
  predicate EngineNeeded(containers: Snapshot, m: Module) {
    && m.name == "embedding_init"
    && (StateOf(containers, "dokja-memory").running || StateOf(containers, "dokja-knowledge").running)
  }

  /** The ports of the controller: the container engine, the settings store and the journal file.
      Every call may fail; what a call may do, failed or not, is its contract. */
  class Host {
    var containers: Snapshot
    // The variables each existing container was created with.
    var built: map<string, Settings.Values>
    var settings: Settings.Values
    var journal: Journal
    ghost var journalWorks: bool
    // Nothing but the journal fails.
    const works: bool
    // Every module stopped with success, in order.
    ghost var stops: seq<Module>

    /** What has run has been created. */
    ghost predicate Coherent()
      reads `containers, `built
    {
      forall service <- containers :: containers[service].running || containers[service].completed ==> service in built
    }

    method Status() returns (ok: bool, snapshot: Snapshot)
      ensures works ==> ok
      ensures ok ==> snapshot == containers
    {
      ok, snapshot := *, containers;
      ok := ok || works;
    }

    /** Starts a service without recreating it: an existing container keeps what it was created with. */
    method Start(service: string) returns (ok: bool)
      requires Coherent()
      modifies `containers, `built
      ensures Coherent() && (works ==> ok)
      ensures built - {service} == old(built) - {service} && containers - {service} == old(containers) - {service}
      ensures service in old(built) ==> service in built && built[service] == old(built)[service]
      ensures service !in old(built) && service in built ==> built[service] == settings
      ensures ok ==> service in built
    {
      ok := *;
      ok := ok || works;
      var created: bool := *;
      if (ok || created) && service !in built {
        built := built[service := settings];
      }
      var seen: Container := *;
      if service in built {
        containers := containers[service := seen];
      }
    }

    /** Replaces a service's container. A failed call may have replaced it, removed it or left it. */
    method Recreate(service: string) returns (ok: bool)
      requires Coherent()
      modifies `containers, `built
      ensures Coherent() && (works ==> ok)
      ensures built - {service} == old(built) - {service} && containers - {service} == old(containers) - {service}
      ensures service in built ==> built[service] == settings || (service in old(built) && built[service] == old(built)[service])
      ensures ok ==> service in built && built[service] == settings
    {
      ok := *;
      ok := ok || works;
      var removed: bool, replaced: bool := *, *;
      if ok || replaced {
        built := built[service := settings];
      } else if removed {
        built := built - {service};
        containers := containers - {service};
      }
      var seen: Container := *;
      if service in built {
        containers := containers[service := seen];
      }
    }

    /** Waits for a service to come up: it is reported ready only when it is up. */
    method Ready(item: Module) returns (ok: bool)
      requires Coherent()
      modifies `containers
      ensures Coherent() && (works && item.service in built ==> ok)
      ensures containers - {item.service} == old(containers) - {item.service}
      ensures ok ==> Up(containers, item)
    {
      var seen: Container := *;
      if works {
        seen := Container(item.name != "embedding_init", item.name == "embedding_init");
      }
      if item.service in built {
        containers := containers[item.service := seen];
      }
      ok := *;
      ok := ok || works;
      if !Up(containers, item) {
        ok := false;
      }
    }

    /** Stops a module's service; a failed call may have stopped it too. */
    method Stop(item: Module) returns (ok: bool)
      requires Coherent()
      modifies `containers, `stops
      ensures Coherent() && (works ==> ok)
      ensures containers - {item.service} == old(containers) - {item.service}
      ensures ok ==> !StateOf(containers, item.service).running
      ensures stops == if ok then old(stops) + [item] else old(stops)
    {
      ok := *;
      ok := ok || works;
      var down: bool := *;
      if (ok || down) && item.service in containers {
        containers := containers[item.service := containers[item.service].(running := false)];
      }
      if ok {
        stops := stops + [item];
      }
    }

    method ReadSettings() returns (ok: bool, values: Settings.Values)
      ensures works ==> ok
      ensures ok ==> values == settings
    {
      ok, values := *, settings;
      ok := ok || works;
    }

    method WriteSettings(values: Settings.Values) returns (ok: bool)
      modifies `settings
      ensures works ==> ok
      ensures settings == if ok then old(settings) + values else old(settings)
    {
      ok := *;
      ok := ok || works;
      if ok {
        settings := settings + values;
      }
    }

    method Save(next: Journal) returns (ok: bool)
      modifies `journal
      ensures journalWorks ==> ok
      ensures journal == if ok then next else old(journal)
    {
      ok := true;
      journal := next;
    }
  }

  /** The modules whose containers are replaced at once when one of their settings changes. */
  predicate Returns(containers: Snapshot, affected: set<string>, m: Module) {
    m.name in affected && (StateOf(containers, m.service).running || EngineNeeded(containers, m))
  }

  /** A reader that runs is replaced at once, and besides those only the initializer while memory or knowledge run. */
  lemma ReturnsExactlyWhen(containers: Snapshot, affected: set<string>, m: Module)
    ensures Returns(containers, affected, m) && !StateOf(containers, m.service).running <==>
              && m.name in affected && m.name == "embedding_init" && !StateOf(containers, m.service).running
              && exists user <- ["dokja-memory", "dokja-knowledge"] :: StateOf(containers, user).running
    ensures m.name in affected && StateOf(containers, m.service).running ==> Returns(containers, affected, m)
    ensures m.name !in affected ==> !Returns(containers, affected, m)
  {
    hide StateOf;
    assert "dokja-memory" in ["dokja-memory", "dokja-knowledge"] && "dokja-knowledge" in ["dokja-memory", "dokja-knowledge"];
  }

  function ReadersOf(inventory: seq<Module>, affected: set<string>): set<string> {
    set m <- inventory | m.name in affected :: m.service
  }

  function ReturnedOf(inventory: seq<Module>, affected: set<string>, containers: Snapshot): set<string> {
    set m <- inventory | Returns(containers, affected, m) :: m.service
  }

  /** The marks after a change: those there were, and at most the readers; of the readers replaced some may be gone. */
  ghost predicate MarksWithin(
    inventory: seq<Module>, affected: set<string>, containers: Snapshot, before: set<string>, after: set<string>) {
    before - ReturnedOf(inventory, affected, containers) <= after <= before + ReadersOf(inventory, affected)
  }

  // ---- settings and the containers that read them ------------------------------------------------

  /** An existing container created with another value of a setting its module reads. */
  ghost predicate Outdated(catalog: seq<Setting>, built: map<string, Settings.Values>, settings: Settings.Values, m: Module) {
    && m.service in built
    && exists s <- catalog :: m.name in s.affects && Get(built[m.service], s.env) != Get(settings, s.env)
  }

  /** Created, and with the current value of everything its module reads. */
  ghost predicate UpToDate(catalog: seq<Setting>, built: map<string, Settings.Values>, settings: Settings.Values, m: Module) {
    m.service in built && !Outdated(catalog, built, settings, m)
  }

  /** Every outdated container is marked to be recreated. */
  ghost predicate AllMarked(catalog: seq<Setting>, inventory: seq<Module>, built: map<string, Settings.Values>,
                            settings: Settings.Values, stale: set<string>) {
    forall m <- inventory :: Outdated(catalog, built, settings, m) ==> m.service in stale
  }

  /** Changes checked against the catalogue: the variables to write and the modules that read them. */
  datatype Checked = Checked(values: Settings.Values, affected: set<string>)

  function LookupSetting(catalog: seq<Setting>, id: string): (found: Option<Setting>)
    ensures found.Some? ==> found.value in catalog && found.value.id == id
    ensures found.None? <==> id !in Ids(catalog)
  {
    if catalog == [] then None
    else if catalog[0].id == id then Some(catalog[0])
    else LookupSetting(catalog[1..], id)
  }

  predicate Acceptable(catalog: seq<Setting>, id: string, raw: string) {
    var s := LookupSetting(catalog, id);
    s.Some? && !s.value.readOnly && Parse(s.value.kind, raw).Some?
  }

  ghost predicate AllAcceptable(catalog: seq<Setting>, changes: Settings.Values) {
    forall id <- changes :: Acceptable(catalog, id, changes[id])
  }

  /** Nothing is written and nobody is named but through a change. */
  ghost predicate OnlyFrom(catalog: seq<Setting>, changes: Settings.Values, c: Checked)
    requires AllAcceptable(catalog, changes)
  {
    && (forall env <- c.values :: exists id <- changes :: LookupSetting(catalog, id).value.env == env)
    && (forall name <- c.affected :: exists id <- changes :: name in LookupSetting(catalog, id).value.affects)
  }

  /** Every change writes its setting's variable and names its readers, and nothing else does. */
  ghost predicate ChecksTo(catalog: seq<Setting>, changes: Settings.Values, c: Checked) {
    && AllAcceptable(catalog, changes)
    && OnlyFrom(catalog, changes, c)
    && (forall id <- changes ::
          var s := LookupSetting(catalog, id).value;
          s.env in c.values && Some(c.values[s.env]) == Parse(s.kind, changes[id]) && forall name <- s.affects :: name in c.affected)
  }

  /** Checking collects a change at a time; the order of the changes does not matter. */
  method CheckChanges(catalog: seq<Setting>, changes: Settings.Values) returns (checked: Option<Checked>)
    requires SoundCatalog(catalog)
    ensures checked.None? <==> exists id <- changes :: !Acceptable(catalog, id, changes[id])
    ensures checked.Some? ==> ChecksTo(catalog, changes, checked.value)
  {
    hide Parse;
    var values: Settings.Values := map[];
    var affected: set<string> := {};
    var left := changes.Keys;
    while left != {}
      invariant left <= changes.Keys
      invariant ChecksTo(catalog, changes - left, Checked(values, affected))
      decreases |left|
    {
      var id :| id in left;
      var s := LookupSetting(catalog, id);
      if s.None? || s.value.readOnly {
        return None;
      }
      var value := Parse(s.value.kind, changes[id]);
      if value.None? {
        return None;
      }
      ghost var before := Checked(values, affected);
      values := values[s.value.env := value.value];
      affected := affected + set name <- s.value.affects;
      CheckedOneMore(catalog, changes, left, id, before, Checked(values, affected));
      left := left - {id};
    }
    assert changes - {} == changes;
    return Some(Checked(values, affected));
  }

  /** A change is acceptable exactly when the catalogue has a setting of that name that may be changed, and its parser
      takes the value. */
  lemma AcceptableExactlyWhen(catalog: seq<Setting>, id: string, raw: string)
    requires SoundCatalog(catalog)
    ensures Acceptable(catalog, id, raw) <==>
              exists s <- catalog :: s.id == id && !s.readOnly && Parse(s.kind, raw).Some?
  {
    hide Parse;
    if s :| s in catalog && s.id == id && !s.readOnly && Parse(s.kind, raw).Some? {
      OnlySetting(catalog, s);
    }
  }

  lemma {:induction false} OnlySetting(catalog: seq<Setting>, s: Setting)
    requires SoundCatalog(catalog) && s in catalog
    ensures LookupSetting(catalog, s.id) == Some(s)
  {
    var i :| 0 <= i < |catalog| && catalog[i] == s;
    if i > 0 {
      assert catalog[0].id != catalog[i].id;
      assert catalog[1..][i - 1] == s;
      forall j, k | 0 <= j < k < |catalog[1..]|
        ensures catalog[1..][j].id != catalog[1..][k].id && catalog[1..][j].env != catalog[1..][k].env
      {
        assert catalog[1..][j] == catalog[j + 1] && catalog[1..][k] == catalog[k + 1];
      }
      OnlySetting(catalog[1..], s);
    }
  }

  /** What checked changes write and whom they name, setting by setting: a changed one gets what its parser made of the
      new value, any other stays, and exactly the readers of changed settings are named. */
  lemma CheckedIs(catalog: seq<Setting>, changes: Settings.Values, c: Checked, before: Settings.Values)
    requires SoundCatalog(catalog) && ChecksTo(catalog, changes, c)
    ensures forall s <- catalog ::
              if s.id in changes then !s.readOnly && Parse(s.kind, changes[s.id]) == Some(Get(before + c.values, s.env))
              else Get(before + c.values, s.env) == Get(before, s.env)
    ensures forall env :: env in c.values ==> exists s <- catalog :: s.env == env && s.id in changes
    ensures forall name :: name in c.affected <==> exists s <- catalog :: s.id in changes && name in s.affects
  {
    hide Parse, LookupSetting;
    forall s <- catalog
      ensures LookupSetting(catalog, s.id) == Some(s)
    {
      OnlySetting(catalog, s);
    }
    forall env | env in c.values
      ensures exists s <- catalog :: s.env == env && s.id in changes
    {
      var id :| id in changes && LookupSetting(catalog, id).value.env == env;
      assert Acceptable(catalog, id, changes[id]);
      assert LookupSetting(catalog, id).value in catalog;
    }
    forall s <- catalog
      ensures if s.id in changes then !s.readOnly && Parse(s.kind, changes[s.id]) == Some(Get(before + c.values, s.env))
              else Get(before + c.values, s.env) == Get(before, s.env)
    {
      if s.id in changes {
        assert Acceptable(catalog, s.id, changes[s.id]);
      } else if s.env in c.values {
        OneSettingOfEnv(catalog, s);
      }
    }
    forall name
      ensures name in c.affected <==> exists s <- catalog :: s.id in changes && name in s.affects
    {
      if name in c.affected {
        var id :| id in changes && name in LookupSetting(catalog, id).value.affects;
        assert Acceptable(catalog, id, changes[id]);
        assert LookupSetting(catalog, id).value in catalog;
      }
    }
  }

  lemma OneSettingOfEnv(catalog: seq<Setting>, s: Setting)
    requires SoundCatalog(catalog) && s in catalog
    ensures forall other <- catalog :: other.env == s.env ==> other == s
  {
    forall other | other in catalog && other.env == s.env
      ensures other == s
    {
      var i :| 0 <= i < |catalog| && catalog[i] == s;
      var j :| 0 <= j < |catalog| && catalog[j] == other;
      assert i < j || j < i || i == j;
    }
  }

  lemma CheckedOneMore(catalog: seq<Setting>, changes: Settings.Values, left: set<string>, id: string, before: Checked, after: Checked)
    requires left <= changes.Keys && id in left && Acceptable(catalog, id, changes[id])
    requires ChecksTo(catalog, changes - left, before)
    requires
      var s := LookupSetting(catalog, id).value;
      && (forall other <- changes - left :: LookupSetting(catalog, other).value.env != s.env)
      && after == Checked(before.values[s.env := Parse(s.kind, changes[id]).value], before.affected + set name <- s.affects)
    ensures ChecksTo(catalog, changes - (left - {id}), after)
  {
    hide Parse, LookupSetting, OnlyFrom;
    var fewer, more := changes - left, changes - (left - {id});
    assert more == fewer[id := changes[id]];
    assert AllAcceptable(catalog, more);
    NothingElseChecked(catalog, fewer, more, id, before, after);
  }

  lemma NothingElseChecked(catalog: seq<Setting>, fewer: Settings.Values, more: Settings.Values, id: string, before: Checked, after: Checked)
    requires more.Keys == fewer.Keys + {id} && AllAcceptable(catalog, more) && AllAcceptable(catalog, fewer)
    requires OnlyFrom(catalog, fewer, before)
    requires
      var s := LookupSetting(catalog, id).value;
      after.values.Keys == before.values.Keys + {s.env} && after.affected == before.affected + set name <- s.affects
    ensures OnlyFrom(catalog, more, after)
  {
    hide Parse, LookupSetting;
    forall env <- after.values
      ensures exists k <- more :: LookupSetting(catalog, k).value.env == env
    {
      if env in before.values {
        var k :| k in fewer && LookupSetting(catalog, k).value.env == env;
        assert k in more;
      } else {
        assert id in more;
      }
    }
    forall name <- after.affected
      ensures exists k <- more :: name in LookupSetting(catalog, k).value.affects
    {
      if name in before.affected {
        var k :| k in fewer && name in LookupSetting(catalog, k).value.affects;
        assert k in more;
      } else {
        assert id in more;
      }
    }
  }

  // ---- the controller ------------------------------------------------------------------------------

  datatype Result = Succeeded | Refused | Failed

  class Domain {
    const inventory: seq<Module>
    const catalog: seq<Setting>
    const host: Host
    var owned: set<string>
    var roots: set<string>
    var stopped: set<string>
    var stale: set<string>

    /** A journal is still input: names outside the inventory are dropped. */
    constructor (inventory: seq<Module>, catalog: seq<Setting>, host: Host)
      ensures this.inventory == inventory && this.catalog == catalog && this.host == host
      ensures owned == host.journal.owned * Services(inventory)
      ensures stale == host.journal.stale * Services(inventory)
      ensures roots == set m <- inventory | !m.isInternal && m.name in host.journal.roots :: m.name
    {
      this.inventory := inventory;
      this.catalog := catalog;
      this.host := host;
      owned := set m <- inventory | m.service in host.journal.owned :: m.service;
      roots := set m <- inventory | !m.isInternal && m.name in host.journal.roots :: m.name;
      stale := set m <- inventory | m.service in host.journal.stale :: m.service;
      stopped := {};
    }

    ghost predicate Sane()
      reads host`containers, host`built
    {
      Sound(inventory) && SoundCatalog(catalog) && host.Coherent()
    }

    /** Every outdated container is marked to be recreated on its next start. */
    ghost predicate Marked()
      reads `stale, host`built, host`settings
    {
      AllMarked(catalog, inventory, host.built, host.settings, stale)
    }

    /** The saved journal holds the marks in memory, so a restart keeps them. */
    ghost predicate MarksSaved()
      reads `stale, host`journal
    {
      stale == host.journal.stale * Services(inventory)
    }

    ghost predicate Current(m: Module)
      reads host`built, host`settings
    {
      UpToDate(catalog, host.built, host.settings, m)
    }

    /** Up, as the engine reports it. */
    ghost predicate Runs(m: Module)
      reads host`containers
    {
      Up(host.containers, m)
    }

    method Remember(service: string, own: bool) returns (ok: bool)
      modifies `owned, host`journal
      ensures owned == if !ok then old(owned) else if own then old(owned) + {service} else old(owned) - {service}
      ensures host.journalWorks ==> ok
      ensures host.journal == if ok then Journal(owned, roots, stale) else old(host.journal)
    {
      var previous := service in owned;
      owned := if own then owned + {service} else owned - {service};
      ok := host.Save(Journal(owned, roots, stale));
      if !ok {
        owned := if previous then owned + {service} else owned - {service};
      }
    }

    /** The mark stays in memory even when the journal cannot be saved. */
    method MarkStale(service: string, mark: bool) returns (ok: bool)
      modifies `stale, host`journal
      ensures stale == if mark then old(stale) + {service} else old(stale) - {service}
      ensures host.journalWorks ==> ok
      ensures host.journal == Journal(owned, roots, stale) || host.journal == old(host.journal)
      ensures ok && stale != old(stale) ==> host.journal == Journal(owned, roots, stale)
    {
      if (service in stale) == mark {
        return true;
      }
      stale := if mark then stale + {service} else stale - {service};
      ok := host.Save(Journal(owned, roots, stale));
    }

    /** Recreates a marked service or starts one that is down, and clears its mark. */
    method CallEngine(item: Module) returns (ok: bool)
      requires Sane() && item in inventory
      modifies this, host
      ensures Sane() && host.settings == old(host.settings) && host.journalWorks == old(host.journalWorks)
      ensures roots == old(roots) && host.stops == old(host.stops)
      ensures host.containers - {item.service} == old(host.containers) - {item.service}
      ensures old(Marked()) ==> Marked()
      ensures old(MarksSaved()) && host.journalWorks ==> MarksSaved()
      ensures ok && old(Marked()) ==> Current(item)
      ensures ok ==> owned == old(owned) + {item.service} && stale == old(stale) - {item.service} && item.service in host.built
      ensures ok ==> host.journal.owned == owned && host.journal.roots == roots
      ensures old(owned) <= owned <= old(owned) + {item.service} && old(stale) - {item.service} <= stale <= old(stale)
      ensures ok ==> stopped == old(stopped) - {item.service}
      ensures host.works && host.journalWorks ==> ok
      ensures forall m <- inventory :: m.service != item.service && old(Current(m)) ==> Current(m)
    {
      hide SoundCatalog, Outdated, AllMarked, UpToDate, Sound, Services;
      ok := Remember(item.service, true);
      if !ok {
        return;
      }
      stopped := stopped - {item.service};
      if item.service in stale {
        ok := host.Recreate(item.service);
      } else {
        ok := host.Start(item.service);
      }
      RebuiltAlone(catalog, inventory, old(host.built), host.built, host.settings, item);
      if old(Marked()) {
        RebuiltStaysMarked(catalog, inventory, old(host.built), host.built, host.settings, item, stale);
      }
      if !ok {
        return;
      }
      assert item.service !in stale ==> stale - {item.service} == stale;
      ok := MarkStale(item.service, false);
    }

    /** Brings one service up: recreated when marked, started when it is not running. */
    method StartService(item: Module) returns (ok: bool)
      requires Sane() && item in inventory
      modifies this, host
      ensures Sane() && host.settings == old(host.settings) && host.journalWorks == old(host.journalWorks)
      ensures roots == old(roots) && host.stops == old(host.stops)
      ensures old(Marked()) ==> Marked()
      ensures old(MarksSaved()) && host.journalWorks ==> MarksSaved()
      ensures host.containers - {item.service} == old(host.containers) - {item.service}
      ensures old(owned) <= owned <= old(owned) + {item.service} && old(stale) - {item.service} <= stale <= old(stale)
      ensures
        if old(NeedsCall(stale, host.containers, item)) then
          ok ==> owned == old(owned) + {item.service} && host.journal.owned == owned && host.journal.roots == roots
        else
          owned == old(owned) && host.journal == old(host.journal)
      ensures ok ==> item.service !in stale
      ensures host.works && host.journalWorks ==> ok
      ensures ok ==> Runs(item) && (old(Marked()) ==> Current(item))
      ensures forall m <- inventory :: m.service != item.service && old(Current(m)) ==> Current(m)
      ensures forall m <- inventory :: m.service != item.service && old(Runs(m)) ==> Runs(m)
    {
      hide SoundCatalog, Outdated, AllMarked, UpToDate, Sound, Up, Services;
      var known, containers := host.Status();
      if !known {
        return false;
      }
      var state := StateOf(containers, item.service);
      if item.service in stale || (!state.running && !(item.name == "embedding_init" && state.completed)) {
        ok := CallEngine(item);
        if !ok {
          OthersStay(old(host.containers), host.containers, item.service);
          return;
        }
      } else if Marked() {
        UnmarkedIsCurrent(catalog, inventory, host.built, host.settings, item, stale);
      }
      ok := host.Ready(item);
      OthersStay(old(host.containers), host.containers, item.service);
    }

    /** Starts everything a module needs, in plan order. */
    method TurnOn(m: Module) returns (result: Result)
      requires Sane() && m in inventory
      modifies this, host
      ensures Sane() && host.settings == old(host.settings) && host.journalWorks == old(host.journalWorks)
      ensures host.stops == old(host.stops)
      ensures old(Marked()) ==> Marked()
      ensures old(MarksSaved()) && host.journalWorks ==> MarksSaved()
      ensures result == Succeeded ==>
                forall item <- Plan(inventory, m.name) :: Runs(item) && (old(Marked()) ==> Current(item))
      ensures result != Refused && roots == old(roots) + {m.name}
      ensures host.containers - Services(Plan(inventory, m.name)) == old(host.containers) - Services(Plan(inventory, m.name))
      ensures
        var called := old(CalledFor(stale, host.containers, Plan(inventory, m.name)));
        && old(owned) <= owned <= old(owned) + called
        && (result == Succeeded ==> owned == old(owned) + called && host.journal.owned == owned && host.journal.roots == roots)
      ensures host.works && host.journalWorks ==> result == Succeeded
    {
      hide Sound, SoundCatalog, UpToDate, Up, AllMarked, Plan, NeedsCall, CalledFor;
      var plan := PlanFor(inventory, m.name);
      PlanIsListed(inventory, m);
      roots := roots + {m.name};
      NoneCalled(old(stale), old(host.containers), plan);
      var ok := Remember(m.service, m.service in owned);
      if !ok {
        return Failed;
      }
      var i := 0;
      while i < |plan|
        invariant 0 <= i <= |plan|
        invariant Sane() && host.settings == old(host.settings) && host.journalWorks == old(host.journalWorks)
        invariant roots == old(roots) + {m.name} && host.stops == old(host.stops)
        invariant host.containers - Services(plan[..i]) == old(host.containers) - Services(plan[..i])
        invariant host.containers - Services(plan) == old(host.containers) - Services(plan)
        invariant stale - Services(plan[..i]) == old(stale) - Services(plan[..i]) && stale <= old(stale)
        invariant owned == old(owned) + CalledFor(old(stale), old(host.containers), plan[..i])
        invariant host.journal.owned == owned && host.journal.roots == roots
        invariant old(Marked()) ==> Marked()
        invariant old(MarksSaved()) && host.journalWorks ==> MarksSaved()
        invariant forall item <- plan[..i] :: Runs(item) && (old(Marked()) ==> Current(item))
      {
        CalledAmong(old(stale), old(host.containers), plan, i);
        assert plan[i].service !in Services(plan[..i]);
        NeedsCallStays(old(host.containers), old(stale), host.containers, stale, Services(plan[..i]), plan[i]);
        ghost var before, marks := host.containers, stale;
        ok := StartService(plan[i]);
        OneMoreTouched(old(host.containers), before, host.containers, Services(plan[..i]), plan[i].service);
        TouchedWithin(old(host.containers), before, host.containers, Services(plan), plan[i].service);
        UnmarkedWithin(old(stale), marks, stale, Services(plan[..i]), plan[i].service);
        if !ok {
          return Failed;
        }
        assert plan[..i + 1] == plan[..i] + [plan[i]];
        i := i + 1;
      }
      assert plan[..i] == plan;
      return Succeeded;
    }

    /** The services that counted modules need, read off one status snapshot. */
    method FindNeeded(m: Module, plan: seq<Module>, containers: Snapshot) returns (needed: set<string>)
      requires plan == Plan(inventory, m.name)
      ensures needed == Needed(inventory, m, containers, owned, roots)
    {
      hide Counts, Plan;
      needed := {};
      for i := 0 to |inventory|
        invariant needed == NeededBy(inventory, inventory[..i], m, containers, owned, roots)
      {
        assert inventory[..i + 1] == inventory[..i] + [inventory[i]];
        if Counts(inventory, m, containers, owned, roots, inventory[i]) {
          var others := PlanFor(inventory, inventory[i].name);
          needed := needed + Services(others);
        }
      }
      assert inventory[..|inventory|] == inventory;
    }

    /** Stops a module and, in reverse plan order, the dependencies this controller started for it.
        `snapshot` is what the status call returned. */
    method TurnOff(m: Module) returns (result: Result, ghost snapshot: Snapshot)
      requires Sane() && m in inventory
      modifies this, host
      ensures Sane() && host.settings == old(host.settings) && host.journalWorks == old(host.journalWorks)
      ensures host.built == old(host.built) && stale == old(stale)
      ensures old(MarksSaved()) && host.journalWorks ==> MarksSaved()
      ensures snapshot == old(host.containers) && old(host.stops) <= host.stops
      ensures
        var needed := Needed(inventory, m, snapshot, old(owned), old(roots));
        var order := StopsFrom(m, needed, old(owned), Plan(inventory, m.name));
        var done := host.stops[|old(host.stops)|..];
        && (result == Refused ==> m.service in needed)
        && (m.service in needed ==> result != Succeeded && done == [])
        && done <= order
        && (forall k :: 0 <= k <= |done| ==> SpareDependencies(inventory, snapshot, Services(done[..k])))
        && (result == Succeeded ==> done == order != [] && owned == old(owned) - Services(order))
        && old(owned) - Services(done) <= owned <= old(owned)
        && stopped == old(stopped) + Services(done)
        && host.containers - Services(Plan(inventory, m.name)) == old(host.containers) - Services(Plan(inventory, m.name))
        && (result == Succeeded ==>
              && host.containers - Services(order) == old(host.containers) - Services(order)
              && (forall s <- Services(order) :: !StateOf(host.containers, s).running)
              && host.journal == Journal(owned, roots, stale))
        && (host.works && host.journalWorks ==> result == if m.service in needed then Refused else Succeeded)
        && roots == (if done == [] then old(roots) else old(roots) - {m.name})
    {
      var plan := PlanFor(inventory, m.name);
      var known, containers := host.Status();
      snapshot := host.containers;
      if !known {
        return Failed, snapshot;
      }
      var needed := FindNeeded(m, plan, containers);
      if m.service in needed {
        return Refused, snapshot;
      }
      result := StopPlanned(m, plan, needed);
      forall k | 0 <= k <= |host.stops[|old(host.stops)|..]|
        ensures SpareDependencies(inventory, snapshot, Services(host.stops[|old(host.stops)|..][..k]))
      {
        EveryStopIsSafe(inventory, m, snapshot, old(owned), old(roots), k);
        assert host.stops[|old(host.stops)|..][..k] == StopsFrom(m, needed, old(owned), plan)[..k];
      }
    }

    /** One stop and its record; a failed record leaves the service stopped and owned. */
    method StopOne(m: Module, item: Module) returns (ok: bool)
      requires host.Coherent()
      modifies this, host
      ensures host.Coherent() && host.settings == old(host.settings) && host.journalWorks == old(host.journalWorks)
      ensures host.built == old(host.built) && stale == old(stale)
      ensures old(MarksSaved()) && host.journalWorks ==> MarksSaved()
      ensures host.stops == old(host.stops) + [item] || (!ok && host.stops == old(host.stops))
      ensures owned == if ok then old(owned) - {item.service} else old(owned)
      ensures stopped == if host.stops == old(host.stops) then old(stopped) else old(stopped) + {item.service}
      ensures host.containers - {item.service} == old(host.containers) - {item.service}
      ensures ok ==> !StateOf(host.containers, item.service).running && host.journal == Journal(owned, roots, stale)
      ensures host.works && host.journalWorks ==> ok
      ensures roots == if host.stops != old(host.stops) && item.name == m.name then old(roots) - {m.name} else old(roots)
    {
      ok := host.Stop(item);
      if !ok {
        return;
      }
      stopped := stopped + {item.service};
      if item.name == m.name {
        roots := roots - {m.name};
      }
      ok := Remember(item.service, false);
    }

    method StopPlanned(m: Module, plan: seq<Module>, needed: set<string>) returns (result: Result)
      requires Sane() && m in inventory && plan == Plan(inventory, m.name) && m.service !in needed
      modifies this, host
      ensures host.Coherent() && host.settings == old(host.settings) && host.journalWorks == old(host.journalWorks)
      ensures host.built == old(host.built) && stale == old(stale)
      ensures old(MarksSaved()) && host.journalWorks ==> MarksSaved()
      ensures old(host.stops) <= host.stops && result != Refused
      ensures
        var order := StopsFrom(m, needed, old(owned), plan);
        var done := host.stops[|old(host.stops)|..];
        && done <= order
        && (result == Succeeded ==> done == order != [] && owned == old(owned) - Services(order))
        && old(owned) - Services(done) <= owned <= old(owned)
        && stopped == old(stopped) + Services(done)
        && host.containers - Services(plan) == old(host.containers) - Services(plan)
        && (result == Succeeded ==>
              && host.containers - Services(order) == old(host.containers) - Services(order)
              && (forall s <- Services(order) :: !StateOf(host.containers, s).running)
              && host.journal == Journal(owned, roots, stale))
        && (host.works && host.journalWorks ==> result == Succeeded)
        && roots == (if done == [] then old(roots) else old(roots) - {m.name})
    {
      hide Plan, Sound, StopsFrom, Kept, Services;
      PlanIsListed(inventory, m);
      PlanEndsWithItself(inventory, m);
      ghost var done: seq<Module> := [];
      BeforeAnyStop(m, needed, owned, plan);
      var i := |plan|;
      while i > 0
        invariant 0 <= i <= |plan|
        invariant host.Coherent() && host.settings == old(host.settings) && host.journalWorks == old(host.journalWorks)
        invariant host.built == old(host.built) && stale == old(stale)
        invariant old(MarksSaved()) && host.journalWorks ==> MarksSaved()
        invariant host.stops == old(host.stops) + done
        invariant done == StopsFrom(m, needed, old(owned), plan[i..])
        invariant owned == old(owned) - Services(done) && stopped == old(stopped) + Services(done)
        invariant host.containers - Services(done) == old(host.containers) - Services(done)
        invariant host.containers - Services(plan) == old(host.containers) - Services(plan)
        invariant forall s <- Services(done) :: !StateOf(host.containers, s).running
        invariant done != [] ==> host.journal == Journal(owned, roots, stale)
        invariant i < |plan| ==> done != []
        invariant roots == if done == [] then old(roots) else old(roots) - {m.name}
      {
        i := i - 1;
        var item := plan[i];
        NextStop(m, needed, old(owned), plan, i);
        if item.service in needed || (item.name != m.name && item.service !in owned) {
          continue;
        }
        ghost var before := host.containers;
        ServiceIsAmong(plan, i);
        var ok := StopOne(m, item);
        OneMoreTouched(old(host.containers), before, host.containers, Services(done), item.service);
        TouchedWithin(old(host.containers), before, host.containers, Services(plan), item.service);
        OthersStay(before, host.containers, item.service);
        if !ok {
          assert host.stops[|old(host.stops)|..] == if |host.stops| == |old(host.stops)| + |done| then done else done + [item];
          return Failed;
        }
        done := done + [item];
      }
      assert plan[0..] == plan;
      return Succeeded;
    }

    ghost predicate OnlyReadersOutdated(affected: set<string>)
      reads `stale, host`built, host`settings
    {
      forall m <- inventory ::
        Outdated(catalog, host.built, host.settings, m) ==> m.service in stale || m.name in affected
    }

    /** Marks every module that reads a changed setting before anything is recreated. */
    method MarkReaders(affected: set<string>) returns (ok: bool)
      requires Sane()
      modifies `stale, host`journal
      ensures host.journalWorks ==> ok
      ensures old(stale) <= stale <= old(stale) + ReadersOf(inventory, affected)
      ensures ok ==> stale == old(stale) + ReadersOf(inventory, affected)
      ensures ok ==> forall m <- inventory :: m.name in affected ==> m.service in stale
      ensures old(MarksSaved()) && host.journalWorks ==> MarksSaved()
    {
      hide SoundCatalog, Sound;
      for i := 0 to |inventory|
        invariant old(stale) <= stale <= old(stale) + ReadersOf(inventory, affected)
        invariant forall j :: 0 <= j < i && inventory[j].name in affected ==> inventory[j].service in stale
        invariant old(MarksSaved()) && host.journalWorks ==> MarksSaved()
      {
        if inventory[i].name in affected {
          ok := MarkStale(inventory[i].service, true);
          if !ok {
            return;
          }
        }
      }
      return true;
    }

    /** Replaces one module's container and clears its mark once it is ready. */
    method RecreateOne(m: Module) returns (ok: bool)
      requires Sane() && m in inventory
      modifies `stale, host`journal, host`containers, host`built
      ensures Sane()
      ensures old(Marked()) && (m.service in old(stale) || old(Current(m))) ==> Marked()
      ensures old(stale) - {m.service} <= stale
      ensures old(MarksSaved()) && host.journalWorks ==> MarksSaved()
      ensures ok ==> forall o <- inventory :: o.service == m.service ==> Runs(o) && Current(o)
      ensures forall o <- inventory :: o.service != m.service && old(Current(o)) ==> Current(o)
      ensures forall o <- inventory :: o.service != m.service && old(Runs(o)) ==> Runs(o)
      ensures host.containers - {m.service} == old(host.containers) - {m.service}
      ensures host.built - {m.service} == old(host.built) - {m.service}
      ensures ok ==> m.service !in stale
      ensures stale <= old(stale) && (host.works && host.journalWorks ==> ok)
    {
      hide SoundCatalog, Outdated, AllMarked, UpToDate, Sound, Up;
      ServicesTell(inventory);
      ok := host.Recreate(m.service);
      RebuiltAlone(catalog, inventory, old(host.built), host.built, host.settings, m);
      if old(Marked()) {
        RebuiltStaysMarked(catalog, inventory, old(host.built), host.built, host.settings, m, stale);
      }
      OthersStay(old(host.containers), host.containers, m.service);
      if !ok {
        return;
      }
      ok := host.Ready(m);
      OthersStay(old(host.containers), host.containers, m.service);
      if !ok {
        return;
      }
      ok := MarkStale(m.service, false);
    }

    /** What holds between two readers: the marks are as good as they were, no container but those that return has
        changed, and the other readers are marked. */
    ghost predicate Recovering(marked: bool, saved: bool, affected: set<string>, first: Snapshot, had: map<string, Settings.Values>)
      reads `stale, host`built, host`containers, host`settings, host`journal, host`journalWorks
    {
      && Sane() && (marked ==> Marked()) && (saved && host.journalWorks ==> MarksSaved())
      && RestIsSame(inventory, affected, first, had, host.containers, host.built)
      && RestIsMarked(inventory, affected, first, stale)
    }

    /** Every reader that is to return has, or is still marked. */
    ghost predicate Returning(affected: set<string>, first: Snapshot)
      reads `stale, host`built, host`containers, host`settings
    {
      forall o <- inventory :: Returns(first, affected, o) ==> o.service in stale || (Runs(o) && Current(o))
    }

    lemma NoneReturned(affected: set<string>)
      requires Sane() && forall m <- inventory :: m.name in affected ==> m.service in stale
      ensures Recovering(Marked(), MarksSaved(), affected, host.containers, host.built) && Returning(affected, host.containers)
    {
      SameAtFirst(host.containers, host.built);
      hide Same;
    }

    lemma AllReturned(affected: set<string>, first: Snapshot)
      requires Returning(affected, first)
      requires forall j :: 0 <= j < |inventory| && Returns(first, affected, inventory[j]) ==> inventory[j].service !in stale
      ensures forall m <- inventory :: Returns(first, affected, m) ==> Runs(m) && Current(m)
    {
      hide Returns, Up, UpToDate;
    }

    /** Brings one reader back. */
    method ReturnOne(m: Module, ghost marked: bool, ghost saved: bool, affected: set<string>, first: Snapshot,
                     ghost had: map<string, Settings.Values>)
      returns (ok: bool)
      requires m in inventory && Returns(first, affected, m)
      requires Recovering(marked, saved, affected, first, had) && Returning(affected, first)
      modifies `stale, host`journal, host`containers, host`built
      ensures Recovering(marked, saved, affected, first, had)
      ensures ok ==> Returning(affected, first) && m.service !in stale
      ensures old(stale) - {m.service} <= stale <= old(stale) && (host.works && host.journalWorks ==> ok)
    {
      hide Sound, SoundCatalog, AllMarked, UpToDate, Up, Services, Returns, RestIsSame, RestIsMarked;
      assert m.service in stale || Current(m);
      ok := RecreateOne(m);
      OthersAreSame(inventory, affected, first, had, old(host.containers), old(host.built), host.containers, host.built, m);
      OthersAreMarked(inventory, affected, first, old(stale), stale, m);
    }

    /** Recreates the readers that are to return, one after the other. */
    method RecreateAll(affected: set<string>, containers: Snapshot, ghost marked: bool, ghost saved: bool) returns (ok: bool)
      requires Recovering(marked, saved, affected, containers, host.built) && Returning(affected, containers)
      modifies `stale, host`journal, host`containers, host`built
      ensures Recovering(marked, saved, affected, containers, old(host.built))
      ensures ok ==> forall m <- inventory :: Returns(containers, affected, m) ==> Runs(m) && Current(m)
      ensures host.works && host.journalWorks ==> ok
      ensures old(stale) - ReturnedOf(inventory, affected, containers) <= stale <= old(stale)
      ensures ok ==> stale == old(stale) - ReturnedOf(inventory, affected, containers)
    {
      hide Recovering, Returning, Returns, Up, UpToDate;
      ghost var had := host.built;
      for i := 0 to |inventory|
        invariant Recovering(marked, saved, affected, containers, had) && Returning(affected, containers)
        invariant old(stale) - ReturnedOf(inventory, affected, containers) <= stale <= old(stale)
        invariant forall j :: 0 <= j < i && Returns(containers, affected, inventory[j]) ==> inventory[j].service !in stale
      {
        if Returns(containers, affected, inventory[i]) {
          ok := ReturnOne(inventory[i], marked, saved, affected, containers, had);
          if !ok {
            return;
          }
        }
      }
      AllReturned(affected, containers);
      return true;
    }

    /** Brings the running readers of changed settings back with them; the others stay marked. */
    method RecreateReaders(affected: set<string>) returns (ok: bool)
      requires Sane()
      modifies `stale, host`journal, host`containers, host`built
      ensures Sane()
      ensures old(OnlyReadersOutdated(affected)) && (ok || host.journalWorks) ==> Marked()
      ensures old(MarksSaved()) && host.journalWorks ==> MarksSaved()
      ensures ok ==> forall m <- inventory :: m.name in affected ==>
                if Returns(old(host.containers), affected, m) then Runs(m) && Current(m) else m.service in stale
      ensures forall m <- inventory :: !Returns(old(host.containers), affected, m) ==>
                Same(old(host.containers), old(host.built), host.containers, host.built, m.service)
      ensures host.works && host.journalWorks ==> ok
      ensures MarksWithin(inventory, affected, old(host.containers), old(stale), stale)
      ensures ok ==>
                stale == old(stale) + ReadersOf(inventory, affected) - ReturnedOf(inventory, affected, old(host.containers))
    {
      hide SoundCatalog, Outdated, Acyclic, Lookup, Up, Returns, Same;
      SameAtFirst(host.containers, host.built);
      ok := MarkReaders(affected);
      if !ok {
        return;
      }
      var known, containers := host.Status();
      if !known {
        return false;
      }
      NoneReturned(affected);
      ok := RecreateAll(affected, containers, Marked(), MarksSaved());
    }

    /** Checks every change, saves them all, then recreates their readers. Refused, it writes nothing. */
    method SetSettings(changes: Settings.Values) returns (result: Result, ghost checked: Checked)
      requires Sane()
      modifies this, host
      ensures Sane() && host.journalWorks == old(host.journalWorks) && host.stops == old(host.stops)
      ensures result == Refused ==>
                host.settings == old(host.settings) && host.built == old(host.built) && host.containers == old(host.containers)
      ensures (exists id <- changes :: !Acceptable(catalog, id, changes[id])) ==>
                result != Succeeded && host.settings == old(host.settings) && stale == old(stale)
      ensures host.settings == old(host.settings)
              || (ChecksTo(catalog, changes, checked) && host.settings == old(host.settings) + checked.values)
      ensures result == Succeeded ==>
                && host.settings == old(host.settings) + checked.values
                && forall m <- inventory :: m.name in checked.affected ==>
                     if Returns(old(host.containers), checked.affected, m) then Runs(m) && Current(m) else m.service in stale
      ensures forall m <- inventory :: !Returns(old(host.containers), checked.affected, m) ==>
                Same(old(host.containers), old(host.built), host.containers, host.built, m.service)
      ensures result == Refused ==> stale == old(stale)
      ensures MarksWithin(inventory, checked.affected, old(host.containers), old(stale), stale)
      ensures result == Succeeded ==>
                stale == old(stale) + ReadersOf(inventory, checked.affected)
                         - ReturnedOf(inventory, checked.affected, old(host.containers))
      // Calls that work leave one reason to refuse changes that are acceptable.
      ensures host.works && host.journalWorks ==>
                && result != Failed
                && (result == Refused <==>
                      || changes == map[] || (exists id <- changes :: !Acceptable(catalog, id, changes[id]))
                      || (ChecksTo(catalog, changes, checked)
                          && var after := old(host.settings) + checked.values;
                             && Get(after, "DOKJA_WHATSAPP_SELF_CHAT") == "false"
                             && Get(after, "DOKJA_WHATSAPP_ALLOW_FROM") == ""
                             && Get(after, "DOKJA_WHATSAPP_ALLOWED_GROUPS") == ""))
      ensures old(Marked()) && host.journalWorks ==> Marked()
      ensures old(MarksSaved()) && host.journalWorks ==> MarksSaved()
    {
      hide Sound, Outdated, Acceptable, Parse, Up, ChecksTo, Returns, Same;
      SameAtFirst(host.containers, host.built);
      checked := Checked(map[], {});
      if changes == map[] {
        return Refused, checked;
      }
      var readable, current := host.ReadSettings();
      if !readable {
        return Refused, checked;
      }
      var c := CheckChanges(catalog, changes);
      if c.None? {
        return Refused, checked;
      }
      checked := c.value;
      if AnswersNobody(current + c.value.values) {
        return Refused, checked;
      }
      ghost var before := host.settings;
      var ok := host.WriteSettings(c.value.values);
      if !ok {
        return Failed, checked;
      }
      WritingOutdatesReaders(catalog, changes, c.value, host.built, before);
      ok := RecreateReaders(c.value.affected);
      return (if ok then Succeeded else Failed), checked;
    }

    /** The operation an interface asks for: only known modules that are not internal. */
    method Set(name: string, enabled: bool) returns (result: Result)
      requires Sane()
      modifies this, host
      ensures Sane() && host.settings == old(host.settings) && host.journalWorks == old(host.journalWorks)
      ensures old(Marked()) ==> Marked()
      ensures old(MarksSaved()) && host.journalWorks ==> MarksSaved()
      ensures
        var m := Lookup(inventory, name);
        m.None? || m.value.isInternal ==>
          && result == Refused && host.containers == old(host.containers) && host.stops == old(host.stops)
          && owned == old(owned) && roots == old(roots)
      ensures
        var m := Lookup(inventory, name);
        var called := old(CalledFor(stale, host.containers, Plan(inventory, name)));
        m.Some? && !m.value.isInternal && enabled ==>
          && host.stops == old(host.stops) && roots == old(roots) + {name}
          && host.containers - Services(Plan(inventory, name)) == old(host.containers) - Services(Plan(inventory, name))
          && old(owned) <= owned <= old(owned) + called
          && (result == Succeeded ==> owned == old(owned) + called && host.journal.owned == owned && host.journal.roots == roots)
          && (result == Succeeded ==>
                forall item <- Plan(inventory, name) :: Runs(item) && (old(Marked()) ==> Current(item)))
          && (host.works && host.journalWorks ==> result == Succeeded)
      ensures
        var m := Lookup(inventory, name);
        m.Some? && !m.value.isInternal && !enabled ==>
          var needed := Needed(inventory, m.value, old(host.containers), old(owned), old(roots));
          var order := StopsFrom(m.value, needed, old(owned), Plan(inventory, name));
          && (m.value.service in needed ==> result != Succeeded && host.stops == old(host.stops) && owned == old(owned))
          && (m.value.service !in needed ==> result != Refused && host.stops <= old(host.stops) + order)
          && (result == Succeeded ==>
                && host.stops == old(host.stops) + order && owned == old(owned) - Services(order)
                && roots == old(roots) - {name} && host.journal == Journal(owned, roots, stale)
                && (forall s <- Services(order) :: !StateOf(host.containers, s).running)
                && host.containers - Services(order) == old(host.containers) - Services(order))
          && (host.works && host.journalWorks ==> result == if m.value.service in needed then Refused else Succeeded)
    {
      hide Sound, Outdated, UpToDate, SpareDependencies, Plan, Needed, StopsFrom, CalledFor, AllMarked, Up;
      var found := Lookup(inventory, name);
      if found.None? || found.value.isInternal {
        return Refused;
      }
      if enabled {
        result := TurnOn(found.value);
      } else {
        ghost var snapshot: Snapshot;
        ghost var before := host.stops;
        result, snapshot := TurnOff(found.value);
        assert host.stops == before + host.stops[|before|..];
      }
    }

  }

  /** The service's container is the one it was, as it was. */
  ghost predicate Same(before: Snapshot, was: map<string, Settings.Values>, after: Snapshot, built: map<string, Settings.Values>,
                       service: string) {
    && StateOf(after, service) == StateOf(before, service)
    && (service in built <==> service in was) && (service in was ==> built[service] == was[service])
  }

  lemma SameAtFirst(containers: Snapshot, built: map<string, Settings.Values>)
    ensures forall service :: Same(containers, built, containers, built, service)
  {
  }

  /** Every container that does not return is the one it was. */
  ghost predicate RestIsSame(
    inventory: seq<Module>, affected: set<string>, first: Snapshot, had: map<string, Settings.Values>, after: Snapshot,
    built: map<string, Settings.Values>) {
    forall o <- inventory :: !Returns(first, affected, o) ==> Same(first, had, after, built, o.service)
  }

  /** Every reader that does not return is marked. */
  ghost predicate RestIsMarked(inventory: seq<Module>, affected: set<string>, first: Snapshot, stale: set<string>) {
    forall o <- inventory :: o.name in affected && !Returns(first, affected, o) ==> o.service in stale
  }

  lemma OthersAreSame(
    inventory: seq<Module>, affected: set<string>, first: Snapshot, had: map<string, Settings.Values>, before: Snapshot,
    was: map<string, Settings.Values>, after: Snapshot, built: map<string, Settings.Values>, m: Module)
    requires Sound(inventory) && m in inventory && Returns(first, affected, m)
    requires after - {m.service} == before - {m.service} && built - {m.service} == was - {m.service}
    requires RestIsSame(inventory, affected, first, had, before, was)
    ensures RestIsSame(inventory, affected, first, had, after, built)
  {
    ServicesTell(inventory);
    OthersStay(before, after, m.service);
    hide Sound, Returns, StateOf;
    forall o <- inventory | !Returns(first, affected, o)
      ensures Same(first, had, after, built, o.service)
    {
      assert o.service != m.service;
      assert o.service in built <==> o.service in built - {m.service};
      assert o.service in was <==> o.service in was - {m.service};
      assert o.service in was ==> built[o.service] == (built - {m.service})[o.service] == was[o.service];
    }
  }

  lemma OthersAreMarked(
    inventory: seq<Module>, affected: set<string>, first: Snapshot, marks: set<string>, stale: set<string>, m: Module)
    requires Sound(inventory) && m in inventory && Returns(first, affected, m) && marks - {m.service} <= stale
    requires RestIsMarked(inventory, affected, first, marks)
    ensures RestIsMarked(inventory, affected, first, stale)
  {
    ServicesTell(inventory);
    hide Sound, Returns;
  }

  /** What is known of one service leaves every other as it was. */
  lemma OthersStay(before: Snapshot, after: Snapshot, service: string)
    requires after - {service} == before - {service}
    ensures forall other: string :: other != service ==> StateOf(after, other) == StateOf(before, other)
    ensures forall m: Module :: m.service != service ==> Up(after, m) == Up(before, m)
  {
    forall other: string | other != service
      ensures StateOf(after, other) == StateOf(before, other)
    {
      assert other in after <==> other in after - {service};
      assert other in before <==> other in before - {service};
      if other in after {
        assert after[other] == (after - {service})[other];
      }
    }
  }

  /** Replacing one container, with the current settings or with what it had, outdates none. */
  lemma RebuiltAlone(catalog: seq<Setting>, inventory: seq<Module>, before: map<string, Settings.Values>,
                     after: map<string, Settings.Values>, settings: Settings.Values, item: Module)
    requires Sound(inventory) && item in inventory
    requires after - {item.service} == before - {item.service}
    requires item.service in after ==>
               after[item.service] == settings || (item.service in before && after[item.service] == before[item.service])
    ensures forall m <- inventory :: Outdated(catalog, after, settings, m) ==> Outdated(catalog, before, settings, m)
    ensures forall m <- inventory :: m.service != item.service && UpToDate(catalog, before, settings, m) ==>
              UpToDate(catalog, after, settings, m)
    ensures item.service in after && after[item.service] == settings ==> UpToDate(catalog, after, settings, item)
  {
    hide Acyclic;
    forall m <- inventory
      ensures Outdated(catalog, after, settings, m) ==> Outdated(catalog, before, settings, m)
      ensures m.service != item.service ==> (m.service in after <==> m.service in before)
    {
      if m.service != item.service {
        assert m.service in after <==> m.service in after - {item.service};
        assert m.service in before <==> m.service in before - {item.service};
        if m.service in after {
          assert after[m.service] == (after - {item.service})[m.service];
          assert before[m.service] == (before - {item.service})[m.service];
        }
      }
    }
  }

  /** With one container replaced the marks still cover what is outdated, and its own mark may go if it is current. */
  lemma RebuiltStaysMarked(catalog: seq<Setting>, inventory: seq<Module>, before: map<string, Settings.Values>,
                           after: map<string, Settings.Values>, settings: Settings.Values, item: Module, stale: set<string>)
    requires Sound(inventory) && item in inventory
    requires after - {item.service} == before - {item.service}
    requires item.service in after ==>
               after[item.service] == settings || (item.service in before && after[item.service] == before[item.service])
    requires AllMarked(catalog, inventory, before, settings, stale)
    ensures AllMarked(catalog, inventory, after, settings, stale)
    ensures item.service in after && after[item.service] == settings ==>
              AllMarked(catalog, inventory, after, settings, stale - {item.service})
    ensures item.service in after && item.service !in stale ==> UpToDate(catalog, after, settings, item)
  {
    RebuiltAlone(catalog, inventory, before, after, settings, item);
    hide Acyclic, Outdated, Lookup;
  }

  lemma UnmarkedIsCurrent(catalog: seq<Setting>, inventory: seq<Module>, built: map<string, Settings.Values>,
                          settings: Settings.Values, item: Module, stale: set<string>)
    requires AllMarked(catalog, inventory, built, settings, stale) && item in inventory
    requires item.service in built && item.service !in stale
    ensures UpToDate(catalog, built, settings, item)
  {
    hide Outdated;
  }

  lemma ServicesTell(inventory: seq<Module>)
    requires Sound(inventory)
    ensures forall m <- inventory, o <- inventory :: m.service == o.service ==> m == o
  {
    hide Acyclic, Lookup;
  }

  lemma PlanEndsWithItself(inventory: seq<Module>, m: Module)
    requires Sound(inventory) && m in inventory
    ensures
      var plan := Plan(inventory, m.name);
      && plan != [] && plan[|plan| - 1] == m
      && forall i :: 0 <= i < |plan| - 1 ==> plan[i].name != m.name
  {
    PlanIsDistinct(inventory, m.name);
  }

  /** WhatsApp with its own chat off and neither people nor groups listed. */
  predicate AnswersNobody(settings: Settings.Values) {
    && Get(settings, "DOKJA_WHATSAPP_SELF_CHAT") == "false"
    && Get(settings, "DOKJA_WHATSAPP_ALLOW_FROM") == []
    && Get(settings, "DOKJA_WHATSAPP_ALLOWED_GROUPS") == []
  }

  lemma OneSettingPerVariable(catalog: seq<Setting>, s: Setting, t: Setting)
    requires SoundCatalog(catalog) && s in catalog && t in catalog && s.env == t.env
    ensures s == t
  {
    var i :| 0 <= i < |catalog| && catalog[i] == s;
    var j :| 0 <= j < |catalog| && catalog[j] == t;
    assert i == j;
  }

  lemma WrittenReader(catalog: seq<Setting>, changes: Settings.Values, c: Checked, s: Setting)
    requires SoundCatalog(catalog) && ChecksTo(catalog, changes, c) && s in catalog && s.env in c.values
    ensures forall name <- s.affects :: name in c.affected
  {
    hide Parse, LookupSetting, SoundCatalog;
    var id :| id in changes && LookupSetting(catalog, id).value.env == s.env;
    assert Acceptable(catalog, id, changes[id]);
    OneSettingPerVariable(catalog, s, LookupSetting(catalog, id).value);
  }

  /** Saved changes outdate the containers of their readers only. */
  lemma WritingOutdatesReaders(catalog: seq<Setting>, changes: Settings.Values, c: Checked,
                               built: map<string, Settings.Values>, before: Settings.Values)
    requires SoundCatalog(catalog) && ChecksTo(catalog, changes, c)
    ensures forall m: Module :: Outdated(catalog, built, before + c.values, m) ==>
              Outdated(catalog, built, before, m) || m.name in c.affected
  {
    hide ChecksTo, SoundCatalog;
    var after := before + c.values;
    forall m: Module | Outdated(catalog, built, after, m)
      ensures Outdated(catalog, built, before, m) || m.name in c.affected
    {
      var s :| s in catalog && m.name in s.affects && Get(built[m.service], s.env) != Get(after, s.env);
      if s.env in c.values {
        WrittenReader(catalog, changes, c, s);
      }
    }
  }

  /** What a start from nothing records is all of its plan. */
  lemma AllIsCalled(stale: set<string>, containers: Snapshot, items: seq<Module>)
    requires forall item <- items ::
               !StateOf(containers, item.service).running && !StateOf(containers, item.service).completed
    ensures CalledFor(stale, containers, items) == Services(items)
  {
  }

  lemma OnlyThesRun(before: Snapshot, after: Snapshot, services: set<string>, m: Module)
    requires after - services == before - services && !StateOf(before, m.service).running
    ensures StateOf(after, m.service).running ==> m.service in services
  {
    if m.service !in services {
      assert m.service in after <==> m.service in after - services;
      assert m.service in before <==> m.service in before - services;
      assert m.service in after ==> after[m.service] == (after - services)[m.service] == before[m.service];
    }
  }

  lemma OnlyPlannedRun(inventory: seq<Module>, before: Snapshot, after: Snapshot, services: set<string>)
    requires after - services == before - services && forall o <- inventory :: !StateOf(before, o.service).running
    ensures forall o <- inventory :: StateOf(after, o.service).running ==> o.service in services
  {
    forall o <- inventory
      ensures StateOf(after, o.service).running ==> o.service in services
    {
      OnlyThesRun(before, after, services, o);
    }
  }

  lemma NoneRuns(inventory: seq<Module>, before: Snapshot, after: Snapshot, services: set<string>)
    requires after - services == before - services && (forall s <- services :: !StateOf(after, s).running)
    requires forall o <- inventory :: StateOf(before, o.service).running ==> o.service in services
    ensures forall o <- inventory :: !StateOf(after, o.service).running
  {
    forall o <- inventory
      ensures !StateOf(after, o.service).running
    {
      if o.service !in services {
        OnlyThesRun(before, after, services, o);
      }
    }
  }

  lemma RootsOfPlan(inventory: seq<Module>, m: Module, roots: set<string>)
    requires Sound(inventory) && m in inventory
    requires forall item <- Plan(inventory, m.name) :: item.name in roots ==> item.name == m.name
    ensures forall o <- inventory :: o.service in Services(Plan(inventory, m.name)) && o.name in roots ==> o.name == m.name
  {
    ServicesTell(inventory);
    PlanIsListed(inventory, m);
    hide Sound, Plan;
  }

  ghost predicate Known(d: Domain, name: string)
    reads d
  {
    Lookup(d.inventory, name).Some? && !Lookup(d.inventory, name).value.isInternal
  }

  /** Nobody asked for anything else in this plan. */
  ghost predicate OnlyRoot(d: Domain, name: string)
    reads d
  {
    forall item <- Plan(d.inventory, name) :: item.name in d.roots ==> item.name == name
  }

  ghost predicate RunsWithin(d: Domain, services: set<string>)
    reads d, d.host
  {
    forall item <- d.inventory :: StateOf(d.host.containers, item.service).running ==> item.service in services
  }

  method OnFromNothing(d: Domain, name: string) returns (on: Result)
    requires d.Sane() && Known(d, name)
    requires forall item <- d.inventory ::
               !StateOf(d.host.containers, item.service).running && !StateOf(d.host.containers, item.service).completed
    modifies d, d.host
    ensures d.Sane() && d.host.stops == old(d.host.stops) && d.host.journalWorks == old(d.host.journalWorks)
    ensures on == Succeeded ==>
              && d.owned == old(d.owned) + Services(Plan(d.inventory, name)) && d.roots == old(d.roots) + {name}
              && RunsWithin(d, Services(Plan(d.inventory, name)))
    ensures d.host.works && d.host.journalWorks ==> on == Succeeded
  {
    ghost var plan := Plan(d.inventory, name);
    PlanIsListed(d.inventory, Lookup(d.inventory, name).value);
    AllIsCalled(d.stale, d.host.containers, plan);
    hide Plan, CalledFor, Up, Sound, SoundCatalog, StateOf, Services, StopsFrom, Needed;
    on := d.Set(name, true);
    OnlyPlannedRun(d.inventory, old(d.host.containers), d.host.containers, Services(plan));
  }

  method OffAlone(d: Domain, name: string) returns (off: Result)
    requires d.Sane() && Known(d, name) && RunsWithin(d, Services(Plan(d.inventory, name)))
    requires Services(Plan(d.inventory, name)) <= d.owned && OnlyRoot(d, name)
    modifies d, d.host
    ensures d.Sane() && d.host.journalWorks == old(d.host.journalWorks)
    ensures off == Succeeded ==>
              && d.host.stops == old(d.host.stops) + Backwards(Plan(d.inventory, name))
              && d.owned == old(d.owned) - Services(Plan(d.inventory, name)) && d.roots == old(d.roots) - {name}
              && RunsWithin(d, {})
    ensures d.host.works && d.host.journalWorks ==> off == Succeeded
  {
    ghost var m, plan := Lookup(d.inventory, name).value, Plan(d.inventory, name);
    RootsOfPlan(d.inventory, m, d.roots);
    BackwardsServices(plan);
    AllIsStopped(d.inventory, m, d.host.containers, d.owned, d.roots);
    hide Plan, Up, Sound, SoundCatalog, StateOf, Services, StopsFrom, Needed, Backwards, CalledFor;
    off := d.Set(name, false);
    if off == Succeeded {
      NoneRuns(d.inventory, old(d.host.containers), d.host.containers, Services(plan));
    }
  }

  /** Turning a module on with nothing up and off again with nothing else running stops what was started, all of it and
      nothing else, in the opposite order. */
  method OnThenOff(d: Domain, name: string) returns (on: Result, off: Result)
    requires d.Sane() && Known(d, name) && OnlyRoot(d, name)
    requires forall item <- d.inventory ::
               !StateOf(d.host.containers, item.service).running && !StateOf(d.host.containers, item.service).completed
    modifies d, d.host
    ensures d.Sane()
    ensures on == Succeeded && off == Succeeded ==>
              && d.host.stops == old(d.host.stops) + Backwards(Plan(d.inventory, name))
              && d.owned == old(d.owned) - Services(Plan(d.inventory, name)) && d.roots == old(d.roots) - {name}
              && RunsWithin(d, {})
    ensures d.host.works && d.host.journalWorks ==> on == Succeeded && off == Succeeded
  {
    hide Plan, Services, Backwards, RunsWithin, Sound, SoundCatalog;
    off := Failed;
    on := OnFromNothing(d, name);
    if on == Succeeded {
      off := OffAlone(d, name);
      assert old(d.owned) + Services(Plan(d.inventory, name)) - Services(Plan(d.inventory, name))
             == old(d.owned) - Services(Plan(d.inventory, name));
      assert old(d.roots) + {name} - {name} == old(d.roots) - {name};
    }
  }

  // ---- whole runs --------------------------------------------------------------------------------

  datatype Operation = Switch(name: string, on: bool) | Configure(changes: Settings.Values) | Restart

  /** No stale readiness over a whole run: after any sequence of operations that do not overlap, with a
      working journal, across restarts and whatever call failed, each outdated container is marked. */
  method Operate(inventory: seq<Module>, catalog: seq<Setting>, host: Host, operations: seq<Operation>)
    returns (d: Domain)
    requires Sound(inventory) && SoundCatalog(catalog) && host.Coherent() && host.journalWorks
    requires AllMarked(catalog, inventory, host.built, host.settings, host.journal.stale)
    modifies host
    ensures d.host == host && d.inventory == inventory && d.catalog == catalog
    ensures d.Sane() && d.Marked() && d.MarksSaved()
  {
    hide Sound, SoundCatalog, Outdated;
    d := new Domain(inventory, catalog, host);
    for i := 0 to |operations|
      invariant d.host == host && d.inventory == inventory && d.catalog == catalog && fresh(d)
      invariant host.journalWorks && d.Sane() && d.Marked() && d.MarksSaved()
    {
      match operations[i]
      case Switch(name, on) =>
        var result := d.Set(name, on);
      case Configure(changes) =>
        var result;
        ghost var checked;
        result, checked := d.SetSettings(changes);
      case Restart =>
        d := new Domain(inventory, catalog, host);
    }
  }
}
