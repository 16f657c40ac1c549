/** The settings port every operator client shares: stored identifiers outside, variables inside. */
module DatabaseSettings {
  import opened Wrappers
  import opened Settings
  import opened ConfigurationStore

  /** Every catalogue setting has a stored value. */
  ghost predicate Complete(catalog: seq<Setting>, c: Option<Configuration>) {
    c.Some? && Ids(catalog) <= c.value.values.Keys
  }

  /** A complete configuration whose projection is these variables. */
  ghost predicate Shows(catalog: seq<Setting>, c: Option<Configuration>, vars: Settings.Values) {
    Complete(catalog, c) && ProjectedAs(catalog, c.value.values, vars)
  }

  /** The first snapshot an environment imports to. */
  ghost predicate Imports(catalog: seq<Setting>, env: Settings.Values, c: Configuration) {
    c.version == 1 && c.revision == 1 && ImportedAs(catalog, env, c.values)
  }

  /** The stored snapshot with what the catalogue gained since, if anything, taken from an environment. */
  ghost predicate Gains(catalog: seq<Setting>, stored: Configuration, env: Settings.Values, c: Configuration) {
    && MergedAs(catalog, stored.values, env, c.values)
    && if Ids(catalog) <= stored.values.Keys then c == stored
       else c.version == 1 && c.revision == stored.revision + 1
  }

  /** A complete snapshot stays as it is. */
  lemma CompleteGainsNothing(catalog: seq<Setting>, stored: Option<Configuration>, legacy: Option<Settings.Values>)
    ensures Complete(catalog, stored) && legacy.Some? ==> Gains(catalog, stored.value, legacy.value, stored.value)
  {
    if Complete(catalog, stored) && legacy.Some? {
      forall s <- catalog
        ensures s.id in stored.value.values
      {
        assert s.id in Ids(catalog);
      }
    }
  }

  /** The snapshot that follows when these changes are saved. */
  ghost predicate Saves(
    catalog: seq<Setting>, stored: Configuration, vars: Settings.Values, changes: Settings.Values, next: Configuration)
  {
    && changes.Keys <= Envs(catalog) && next.version == 1 && next.revision == stored.revision + 1
    && exists imported :: ImportedAs(catalog, vars + changes, imported) && next.values == stored.values + imported
  }

  lemma SavesIs(
    catalog: seq<Setting>, stored: Configuration, vars: Settings.Values, changes: Settings.Values,
    values: Option<Settings.Values>)
    requires changes.Keys <= Envs(catalog)
    requires values.Some? ==> ImportedAs(catalog, vars + changes, values.value)
    requires values.None? <==> exists s <- catalog :: ImportSetting(s, vars + changes).None?
    ensures values.Some? ==> Complete(catalog, Some(Configuration(1, stored.revision + 1, stored.values + values.value)))
    ensures forall next :: Saves(catalog, stored, vars, changes, next) <==>
              values.Some? && next == Configuration(1, stored.revision + 1, stored.values + values.value)
  {
    hide ImportSetting, ImportedAs, Ids;
    var env := vars + changes;
    ImportIs(catalog, env, values);
    forall next | Saves(catalog, stored, vars, changes, next)
      ensures values.Some? && next == Configuration(1, stored.revision + 1, stored.values + values.value)
    {
      var imported :| ImportedAs(catalog, env, imported) && next.values == stored.values + imported;
      assert Imports(catalog, env, Configuration(1, 1, imported));
    }
  }

  /** An environment imports to one snapshot, or to none. */
  lemma ImportIs(catalog: seq<Setting>, env: Settings.Values, values: Option<Settings.Values>)
    requires values.Some? ==> ImportedAs(catalog, env, values.value)
    requires values.None? <==> exists s <- catalog :: ImportSetting(s, env).None?
    ensures values.Some? ==> values.value.Keys == Ids(catalog)
    ensures forall c :: Imports(catalog, env, c) <==> values.Some? && c == Configuration(1, 1, values.value)
  {
    hide ImportSetting;
    forall c | Imports(catalog, env, c)
      ensures values.Some? && c.values == values.value
    {
      forall id <- c.values
        ensures values.Some? && values.value[id] == c.values[id]
      {
        var s :| s in catalog && s.id == id;
        assert ImportSetting(s, env) == Some(c.values[id]);
      }
    }
  }

  lemma MergedIs(
    catalog: seq<Setting>, stored: Configuration, env: Settings.Values, merged: Option<Settings.Values>, added: bool)
    requires merged.Some? ==> MergedAs(catalog, stored.values, env, merged.value)
    requires merged.Some? ==> (added <==> !(Ids(catalog) <= stored.values.Keys))
    requires merged.None? <==> exists s <- catalog :: s.id !in stored.values && ImportSetting(s, env).None?
    ensures merged.Some? ==> Ids(catalog) <= merged.value.Keys && stored.values + merged.value == merged.value
    ensures forall c :: Gains(catalog, stored, env, c) <==>
              merged.Some? && c == if added then Configuration(1, stored.revision + 1, merged.value) else stored
  {
    hide ImportSetting;
    forall c | Gains(catalog, stored, env, c)
      ensures merged.Some? && c.values == merged.value
    {
      forall id <- c.values
        ensures merged.Some? && id in merged.value && merged.value[id] == c.values[id]
      {
        if id !in stored.values {
          var s :| s in catalog && s.id == id;
          assert ImportSetting(s, env) == Some(c.values[id]);
        }
      }
    }
    if merged.Some? && Ids(catalog) <= stored.values.Keys {
      assert merged.value == stored.values;
    }
  }

  /** A configuration has one projection. */
  lemma ProjectionIsUnique(catalog: seq<Setting>, values: Settings.Values, a: Settings.Values, b: Settings.Values)
    requires ProjectedAs(catalog, values, a) && ProjectedAs(catalog, values, b)
    ensures a == b
  {
    hide StoredValue;
    forall env <- a.Keys
      ensures a[env] == b[env]
    {
      var s :| s in catalog && s.env == env;
      assert StoredValue(s, values) == Some(a[env]);
    }
  }

  lemma ProjectionIs(catalog: seq<Setting>, values: Settings.Values, vars: Option<Settings.Values>)
    requires vars.Some? ==> ProjectedAs(catalog, values, vars.value)
    requires vars.None? <==> !(values.Keys <= Ids(catalog)) || exists s <- catalog :: StoredValue(s, values).None?
    ensures forall p :: ProjectedAs(catalog, values, p) <==> vars == Some(p)
  {
    hide StoredValue;
    if vars.Some? {
      forall p | ProjectedAs(catalog, values, p)
        ensures p == vars.value
      {
        ProjectionIsUnique(catalog, values, vars.value, p);
      }
    } else if values.Keys <= Ids(catalog) {
      var s :| s in catalog && StoredValue(s, values).None?;
      assert forall p :: !ProjectedAs(catalog, values, p);
    }
  }

  lemma ShownIs(catalog: seq<Setting>, c: Option<Configuration>, vars: Settings.Values)
    ensures Shows(catalog, c, vars) ==> Complete(catalog, c) && c.Some? && ProjectedAs(catalog, c.value.values, vars)
  {
  }

  lemma ProjectedKeys(catalog: seq<Setting>, values: Settings.Values, vars: Settings.Values)
    requires ProjectedAs(catalog, values, vars)
    ensures vars.Keys == Envs(catalog)
  {
  }

  lemma UnknownIsNotSaved(
    catalog: seq<Setting>, stored: Configuration, vars: Settings.Values, changes: Settings.Values)
    requires !(changes.Keys <= Envs(catalog))
    ensures forall next :: !Saves(catalog, stored, vars, changes, next)
  {
  }

  /** What saved parsed changes show. */
  lemma SavedShows(
    catalog: seq<Setting>, stored: Configuration, vars: Settings.Values, changes: Settings.Values,
    imported: Settings.Values)
    requires SoundCatalog(catalog) && ProjectedAs(catalog, stored.values, vars)
    requires ImportedAs(catalog, vars + changes, imported)
    ensures ParsedChanges(catalog, changes) ==>
              Shows(catalog, Some(Configuration(1, stored.revision + 1, stored.values + imported)), vars + changes)
  {
    hide ImportSetting, ProjectedAs, SoundCatalog, ParsedChanges;
    if ParsedChanges(catalog, changes) {
      SavingProjectsTheChanges(catalog, stored.values, vars, changes, imported);
    }
  }

  class SettingsPort {
    const catalog: seq<Setting>
    const db: Database

    constructor (catalog: seq<Setting>, db: Database)
      ensures this.catalog == catalog && this.db == db
    {
      this.catalog := catalog;
      this.db := db;
    }

    /** Loads the configuration, importing what is missing from the legacy environment, once. */
    method Snapshot(legacy: Option<Settings.Values>) returns (result: Option<Configuration>)
      requires SoundCatalog(catalog) && Lawful(db.codec)
      modifies db
      ensures result.Some? ==> Complete(catalog, result) && db.Current() == result
      ensures old(Complete(catalog, db.Current())) ==> db.row == old(db.row)
      // Nothing stored yet: the whole environment is imported, as the first revision.
      ensures old(db.row).None? && result.Some? ==> legacy.Some? && Imports(catalog, legacy.value, result.value)
      ensures db.works && legacy.Some? && old(db.row).None? && result.None? ==>
                forall c :: Imports(catalog, legacy.value, c) ==> !InBounds(db.codec, 1, c.values)
      // Something stored: it stays, and what the catalogue gained since is imported as one revision more.
      ensures old(db.row).Some? && result.Some? ==>
                && legacy.Some? && old(db.Current()).Some?
                && Gains(catalog, old(db.Current()).value, legacy.value, result.value)
      ensures db.works && legacy.Some? && old(db.Current()).Some? && result.None? ==>
                forall c :: Gains(catalog, old(db.Current()).value, legacy.value, c) ==>
                  c.revision != old(db.Current()).value.revision && !InBounds(db.codec, c.revision, c.values)
    {
      hide ImportSetting, ImportedAs, MergedAs, FromText, SoundCatalog;
      if legacy.None? {
        return None;
      }
      var ok, found := db.Load();
      if !ok {
        return None;
      }
      if found.Some? {
        var merged, added := NewSettings(catalog, found.value.values, legacy.value);
        MergedIs(catalog, found.value, legacy.value, merged, added);
        if merged.None? {
          return None;
        }
        if added {
          var outcome := db.Update(found.value.revision, merged.value);
          if !outcome.Done? {
            return None;
          }
          return Some(outcome.configuration);
        }
        return found;
      }
      var values := ImportSettings(catalog, legacy.value);
      ImportIs(catalog, legacy.value, values);
      if values.None? {
        return None;
      }
      var outcome := db.Initialize(values.value);
      result := if outcome.Done? then Some(outcome.configuration) else None;
    }

    method Read(legacy: Option<Settings.Values>) returns (vars: Option<Settings.Values>)
      requires SoundCatalog(catalog) && Lawful(db.codec)
      modifies db
      ensures vars.Some? ==> Shows(catalog, db.Current(), vars.value)
      ensures old(Complete(catalog, db.Current())) ==> db.row == old(db.row)
      ensures vars.Some? ==>
                && legacy.Some?
                && if old(db.row).None? then Imports(catalog, legacy.value, db.Current().value)
                   else old(db.Current()).Some? && Gains(catalog, old(db.Current()).value, legacy.value, db.Current().value)
      ensures db.works && legacy.Some? && old(Complete(catalog, db.Current())) ==>
                forall p :: ProjectedAs(catalog, old(db.Current()).value.values, p) ==> vars == Some(p)
    {
      hide StoredValue, ImportSetting, ImportedAs, MergedAs, SoundCatalog, InBounds;
      CompleteGainsNothing(catalog, db.Current(), legacy);
      var c := Snapshot(legacy);
      if c.None? {
        return None;
      }
      vars := SettingsVariables(catalog, c.value.values);
      ProjectionIs(catalog, c.value.values, vars);
    }

    /** Saves changes keyed by variable. `shown` is what a read before this write returns. */
    method Write(legacy: Option<Settings.Values>, changes: Settings.Values, ghost shown: Settings.Values)
      returns (ok: bool)
      requires SoundCatalog(catalog) && Lawful(db.codec)
      modifies db
      ensures ok ==> Complete(catalog, db.Current()) && changes.Keys <= Envs(catalog)
      ensures db.works && legacy.Some? && old(Shows(catalog, db.Current(), shown)) && !ok ==>
                forall next :: Saves(catalog, old(db.Current()).value, shown, changes, next) ==>
                  !InBounds(db.codec, next.revision, next.values)
      ensures old(Shows(catalog, db.Current(), shown)) && ok ==>
                Saves(catalog, old(db.Current()).value, shown, changes, db.Current().value)
      ensures old(Shows(catalog, db.Current(), shown)) ==>
                && (ok ==> db.Current().value.revision == old(db.Current()).value.revision + 1)
                && (ok && ParsedChanges(catalog, changes) ==> Shows(catalog, db.Current(), shown + changes))
                && (!ok ==> db.row == old(db.row))
    {
      hide *;
      ghost var before := db.Current();
      CompleteGainsNothing(catalog, before, legacy);
      ShownIs(catalog, before, shown);
      var c := Snapshot(legacy);
      if c.None? {
        return false;
      }
      var stored := c.value.values;
      var vars := SettingsVariables(catalog, stored);
      ProjectionIs(catalog, stored, vars);
      if vars.None? {
        return false;
      }
      ProjectedKeys(catalog, stored, vars.value);
      if !(changes.Keys <= vars.value.Keys) {
        UnknownIsNotSaved(catalog, c.value, vars.value, changes);
        return false;
      }
      var values := ImportSettings(catalog, vars.value + changes);
      SavesIs(catalog, c.value, vars.value, changes, values);
      if values.None? {
        return false;
      }
      SavedShows(catalog, c.value, vars.value, changes, values.value);
      var outcome := db.Update(c.value.revision, values.value);
      if c.value.revision == 0xFFFF_FFFF_FFFF_FFFF {
        LastRevision(db.codec, c.value.revision, stored + values.value);
      }
      ok := outcome.Done?;
    }
  }
}
