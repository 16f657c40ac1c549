/** The optimistic configuration store: one row per key, replaced by compare-and-set on its whole text. */
module ConfigurationStore {
  import opened Wrappers

  type Values = map<string, string>

  datatype Configuration = Configuration(version: int, revision: nat, values: Values)

  const MAX_REVISION: nat := 0xFFFF_FFFF_FFFF_FFFF
  const MAX_ENTRIES := 64
  const MAX_KEY := 128
  const MAX_VALUE := 4096
  const MAX_TEXT := 32768

  /** The JSON codec, and the length of a string in bytes. */
  datatype Codec = Codec(encode: Configuration -> string, decode: string -> Option<Configuration>, bytes: string -> nat)

  /** Decoding gives back what was encoded. */
  ghost predicate Lawful(codec: Codec) {
    forall c: Configuration :: codec.decode(codec.encode(c)) == Some(c)
  }

  predicate Accepted(codec: Codec, c: Configuration) {
    && c.version == 1 && 1 <= c.revision <= MAX_REVISION && |c.values| <= MAX_ENTRIES
    && (forall key <- c.values :: key != [] && codec.bytes(key) <= MAX_KEY && codec.bytes(c.values[key]) <= MAX_VALUE)
    && codec.bytes(codec.encode(c)) <= MAX_TEXT
  }

  /** The stored text of an acceptable snapshot. */
  function ToText(codec: Codec, c: Configuration): Option<string> {
    if Accepted(codec, c) then Some(codec.encode(c)) else None
  }

  function FromText(codec: Codec, text: string): Option<Configuration> {
    if codec.bytes(text) > MAX_TEXT then None
    else
      match codec.decode(text)
      case None => None
      case Some(c) => if Accepted(codec, c) then Some(c) else None
  }

  /** The snapshot an update would write over the text it read, or nothing when it is refused. */
  function Prepared(codec: Codec, text: string, revision: nat, changes: Values): Option<Configuration> {
    match FromText(codec, text)
    case None => None
    case Some(c) =>
      if c.revision != revision || revision == MAX_REVISION then None
      else
        var next := c.(values := c.values + changes, revision := c.revision + 1);
        if Accepted(codec, next) then Some(next) else None
  }

  /** A snapshot within the bounds every stored configuration keeps. */
  ghost predicate InBounds(codec: Codec, revision: nat, values: Values) {
    && 1 <= revision <= 0xFFFF_FFFF_FFFF_FFFF && |values| <= 64
    && (forall key <- values :: key != "" && codec.bytes(key) <= 128 && codec.bytes(values[key]) <= 4096)
    && codec.bytes(codec.encode(Configuration(1, revision, values))) <= 32768
  }

  lemma AcceptedIsInBounds(codec: Codec, c: Configuration)
    ensures Accepted(codec, c) <==> c.version == 1 && InBounds(codec, c.revision, c.values)
  {
  }

  lemma LastRevision(codec: Codec, revision: nat, values: Values)
    requires revision >= 0xFFFF_FFFF_FFFF_FFFF
    ensures !InBounds(codec, revision + 1, values)
  {
  }

  /** A stored text is read exactly when it is short enough and holds a snapshot within the bounds. */
  lemma TextReadsExactlyWhen(codec: Codec, text: string, c: Configuration)
    ensures FromText(codec, text) == Some(c) <==>
              && codec.bytes(text) <= 32768 && codec.decode(text) == Some(c)
              && c.version == 1 && InBounds(codec, c.revision, c.values)
  {
    AcceptedIsInBounds(codec, c);
  }

  lemma PreparedExactlyWhen(codec: Codec, text: string, c: Configuration, revision: nat, changes: Values)
    requires FromText(codec, text) == Some(c)
    ensures Prepared(codec, text, revision, changes)
         == if c.revision == revision && InBounds(codec, revision + 1, c.values + changes)
            then Some(Configuration(1, revision + 1, c.values + changes)) else None
  {
    ReadIsVersionOne(codec, text);
    hide FromText;
    AcceptedIsInBounds(codec, Configuration(1, revision + 1, c.values + changes));
    hide Accepted;
    assert c.(values := c.values + changes, revision := c.revision + 1)
        == Configuration(1, c.revision + 1, c.values + changes);
  }

  lemma ReadIsVersionOne(codec: Codec, text: string)
    ensures FromText(codec, text).Some? ==> FromText(codec, text).value.version == 1
  {
  }

  lemma PreparedIs(codec: Codec, text: string, revision: nat, changes: Values, c: Configuration)
    requires FromText(codec, text) == Some(c) && c.revision == revision && revision != MAX_REVISION
    ensures
      var next := c.(values := c.values + changes, revision := revision + 1);
      Accepted(codec, next) ==>
        Prepared(codec, text, revision, changes) == Some(next) && next == Configuration(1, revision + 1, c.values + changes)
  {
    ReadIsVersionOne(codec, text);
    hide FromText, Accepted;
    assert c.version == 1;
  }

  // ---- one process ---------------------------------------------------------------------------

  datatype Outcome = Done(configuration: Configuration) | Conflict | Failed

  /** One key of the settings table; where it works, no statement fails by itself. */
  class Database {
    const codec: Codec
    const works: bool
    var row: Option<string>

    constructor (codec: Codec, works: bool)
      ensures this.codec == codec && this.works == works && row == None
    {
      this.codec := codec;
      this.works := works;
      row := None;
    }

    /** The stored snapshot, if there is a readable one. */
    ghost function Current(): Option<Configuration>
      reads `row
    {
      if row.None? then None else FromText(codec, row.value)
    }

    /** A read that may fail on its own; it changes nothing. */
    method Load() returns (ok: bool, found: Option<Configuration>)
      ensures ok ==> found == Current() && (row.Some? ==> found.Some?)
      ensures works ==> (ok <==> row.Some? ==> Current().Some?)
    {
      ok, found := *, None;
      ok := ok || works;
      if ok && row.Some? {
        found := FromText(codec, row.value);
        ok := found.Some?;
      }
    }

    /** INSERT ... ON CONFLICT DO NOTHING. */
    method InsertIfAbsent(text: string) returns (ok: bool)
      modifies this
      ensures row == if ok && old(row).None? then Some(text) else old(row)
      ensures works ==> ok
    {
      ok := *;
      ok := ok || works;
      if ok && row.None? {
        row := Some(text);
      }
    }

    /** UPDATE ... WHERE value = old; reports how many rows changed. */
    method ReplaceIfSame(previous: string, text: string) returns (ok: bool, count: nat)
      modifies this
      ensures row == if ok && old(row) == Some(previous) then Some(text) else old(row)
      ensures ok ==> count == if old(row) == Some(previous) then 1 else 0
      ensures works ==> ok
    {
      ok, count := *, 0;
      ok := ok || works;
      if ok && row == Some(previous) {
        row := Some(text);
        count := 1;
      }
    }

    method Initialize(values: Values) returns (outcome: Outcome)
      requires Lawful(codec)
      modifies this
      ensures old(row).Some? ==> row == old(row)
      ensures outcome.Done? ==> Current() == Some(outcome.configuration)
      ensures outcome.Done? && old(row).None? ==> outcome.configuration == Configuration(1, 1, values)
      ensures row != old(row) ==> Current() == Some(Configuration(1, 1, values))
      ensures !InBounds(codec, 1, values) ==> outcome == Failed && row == old(row)
      ensures works && InBounds(codec, 1, values) ==>
                (outcome.Done? <==> old(row).Some? ==> old(Current()).Some?)
      // The import step of the machine below, which a failed call may not have reached.
      ensures forall s: State :: s.row == old(row) ==>
                row == old(row) || (row == Step(codec, s, Import(values)).row && old(row) == None)
      ensures outcome.Done? ==> forall s: State :: s.row == old(row) ==> row == Step(codec, s, Import(values)).row
    {
      AcceptedIsInBounds(codec, Configuration(1, 1, values));
      var text := ToText(codec, Configuration(1, 1, values));
      if text.None? {
        return Failed;
      }
      var inserted := InsertIfAbsent(text.value);
      if !inserted {
        return Failed;
      }
      var ok, found := Load();
      outcome := if ok && found.Some? then Done(found.value) else Failed;
    }

    method Update(revision: nat, changes: Values) returns (outcome: Outcome)
      requires Lawful(codec)
      modifies this
      ensures outcome.Done? ==>
                && old(Current()).Some? && old(Current()).value.revision == revision
                && outcome.configuration == Configuration(1, revision + 1, old(Current()).value.values + changes)
                && Current() == Some(outcome.configuration)
      ensures !outcome.Done? ==> row == old(row)
      ensures works ==>
                outcome == match old(Current())
                           case None => Failed
                           case Some(c) =>
                             if c.revision != revision || revision == 0xFFFF_FFFF_FFFF_FFFF then Conflict
                             else if !InBounds(codec, revision + 1, c.values + changes) then Failed
                             else Done(Configuration(1, revision + 1, c.values + changes))
      // The read step and then the write step of the machine below.
      ensures outcome.Done? ==> forall s: State, process: nat :: s.row == old(row) && process !in s.pending ==>
                var t := Updated(codec, s, process, revision, changes);
                t.row == row && t.log == s.log + [Success(revision, changes)] && t.pending == s.pending
    {
      hide Updated, Lawful, Prepared, FromText, Accepted, InBounds;
      var found := *;
      found := found || works;
      if !found || row.None? {
        return Failed;
      }
      var read := row.value;
      var c := FromText(codec, read);
      if c.None? {
        return Failed;
      }
      if c.value.revision != revision || revision == MAX_REVISION {
        return Conflict;
      }
      var next := c.value.(values := c.value.values + changes, revision := c.value.revision + 1);
      PreparedIs(codec, read, revision, changes, c.value);
      ReadIsVersionOne(codec, read);
      AcceptedIsInBounds(codec, next);
      var text := ToText(codec, next);
      if text.None? {
        return Failed;
      }
      var ok, count := ReplaceIfSame(read, text.value);
      if !ok {
        return Failed;
      }
      outcome := if count != 1 then Conflict else Done(next);
      if outcome.Done? {
        AlwaysReadThenWrite(codec, read, revision, changes, next);
        StoredTextReads(codec, next);
      }
    }
  }

  // ---- any number of processes -----------------------------------------------------------------

  /** An update that has read the row and has not written yet. */
  datatype Pending = Pending(read: string, revision: nat, changes: Values)

  /** A successful update: the revision its caller named, and what it changed. */
  datatype Success = Success(revision: nat, changes: Values)

  /** The row, the processes between their read and their write, and what has succeeded so far. */
  datatype State = State(
    row: Option<string>, pending: map<nat, Pending>, first: Option<Values>, log: seq<Success>)

  datatype Event =
    | Import(values: Values)
    | Read(process: nat, revision: nat, changes: Values)
    | Write(process: nat)
    | Abandon(process: nat)

  const Empty := State(None, map[], None, [])

  function Step(codec: Codec, s: State, e: Event): State {
    match e
    case Import(values) =>
      var text := ToText(codec, Configuration(1, 1, values));
      if text.None? || s.row.Some? then s else s.(row := text, first := Some(values))
    case Read(process, revision, changes) =>
      if process in s.pending || s.row.None? || Prepared(codec, s.row.value, revision, changes).None? then s
      else s.(pending := s.pending[process := Pending(s.row.value, revision, changes)])
    case Write(process) =>
      if process !in s.pending then s
      else
        var p := s.pending[process];
        var next := Prepared(codec, p.read, p.revision, p.changes);
        var idle := s.(pending := s.pending - {process});
        if next.None? || s.row != Some(p.read) then idle
        else idle.(row := Some(codec.encode(next.value)), log := s.log + [Success(p.revision, p.changes)])
    case Abandon(process) => s.(pending := s.pending - {process})
  }

  /** An update nothing comes between: its read, then its write. */
  function Updated(codec: Codec, s: State, process: nat, revision: nat, changes: Values): State {
    Step(codec, Step(codec, s, Read(process, revision, changes)), Write(process))
  }

  /** Uninterrupted, an update is recorded exactly when the row read is of its revision and the result is accepted. */
  lemma ReadThenWrite(codec: Codec, s: State, process: nat, revision: nat, changes: Values)
    requires process !in s.pending
    ensures
      var next := if s.row.None? then None else Prepared(codec, s.row.value, revision, changes);
      Updated(codec, s, process, revision, changes)
      == if next.None? then s
         else s.(row := Some(codec.encode(next.value)), log := s.log + [Success(revision, changes)])
  {
    hide Prepared;
    assert s.pending - {process} == s.pending;
    if s.row.Some? {
      assert s.pending[process := Pending(s.row.value, revision, changes)] - {process} == s.pending;
    }
  }

  lemma AlwaysReadThenWrite(codec: Codec, text: string, revision: nat, changes: Values, next: Configuration)
    requires Prepared(codec, text, revision, changes) == Some(next)
    ensures forall s: State, process: nat :: s.row == Some(text) && process !in s.pending ==>
              Updated(codec, s, process, revision, changes)
              == s.(row := Some(codec.encode(next)), log := s.log + [Success(revision, changes)])
  {
    hide Prepared, Updated;
    forall s: State, process: nat | s.row == Some(text) && process !in s.pending
      ensures Updated(codec, s, process, revision, changes)
              == s.(row := Some(codec.encode(next)), log := s.log + [Success(revision, changes)])
    {
      ReadThenWrite(codec, s, process, revision, changes);
    }
  }

  function Run(codec: Codec, s: State, events: seq<Event>): State
    decreases |events|
  {
    if events == [] then s else Run(codec, Step(codec, s, events[0]), events[1..])
  }

  /** The first snapshot with every successful change laid over it, in order. */
  function Overlaid(first: Values, log: seq<Success>): Values {
    if log == [] then first else Overlaid(first, log[..|log| - 1]) + log[|log| - 1].changes
  }

  /** The snapshot the history accounts for. */
  ghost function Recorded(s: State): Configuration
    requires s.first.Some?
  {
    Configuration(1, 1 + |s.log|, Overlaid(s.first.value, s.log))
  }

  /** The stored snapshot is exactly the history of successful updates, one revision each. */
  ghost predicate RowIsRecorded(codec: Codec, s: State) {
    && (s.row.Some? <==> s.first.Some?)
    && (s.row.None? ==> s.log == [] && s.pending == map[])
    && (forall i :: 0 <= i < |s.log| ==> s.log[i].revision == 1 + i)
    && (s.row.Some? ==> Accepted(codec, Recorded(s)) && s.row == Some(codec.encode(Recorded(s))))
  }

  /** A pending update read an accepted snapshot of its own revision, no newer than the current one. */
  ghost predicate Started(codec: Codec, s: State, p: Pending) {
    && Prepared(codec, p.read, p.revision, p.changes).Some?
    && 1 <= p.revision <= 1 + |s.log|
    && (s.row == Some(p.read) <==> p.revision == 1 + |s.log|)
  }

  ghost predicate Faithful(codec: Codec, s: State) {
    RowIsRecorded(codec, s) && forall process <- s.pending :: Started(codec, s, s.pending[process])
  }

  lemma StoredTextReads(codec: Codec, c: Configuration)
    requires Lawful(codec) && Accepted(codec, c)
    ensures FromText(codec, codec.encode(c)) == Some(c)
  {
    assert codec.decode(codec.encode(c)) == Some(c);
  }

  lemma ReadIsFaithful(codec: Codec, s: State, process: nat, revision: nat, changes: Values)
    requires Lawful(codec) && Faithful(codec, s)
    ensures Faithful(codec, Step(codec, s, Read(process, revision, changes)))
  {
    hide Accepted;
    if s.row.Some? {
      StoredTextReads(codec, Recorded(s));
      var t := Step(codec, s, Read(process, revision, changes));
      forall other <- t.pending
        ensures Started(codec, t, t.pending[other])
      {
        if other in s.pending {
          assert Started(codec, s, s.pending[other]);
        }
      }
    }
  }

  /** A write over the text it read records the next revision. */
  lemma WriteRecords(codec: Codec, s: State, process: nat)
    requires Lawful(codec) && RowIsRecorded(codec, s) && process in s.pending
    requires Started(codec, s, s.pending[process]) && s.row == Some(s.pending[process].read)
    ensures
      var t := Step(codec, s, Write(process));
      && RowIsRecorded(codec, t) && FromText(codec, t.row.value) == Some(Recorded(t))
      && t.log == s.log + [Success(1 + |s.log|, s.pending[process].changes)]
  {
    hide Accepted;
    var t, p := Step(codec, s, Write(process)), s.pending[process];
    StoredTextReads(codec, Recorded(s));
    assert t.log[..|t.log| - 1] == s.log;
    assert Prepared(codec, p.read, p.revision, p.changes) == Some(Recorded(t));
    StoredTextReads(codec, Recorded(t));
  }

  lemma WriteIsFaithful(codec: Codec, s: State, process: nat)
    requires Lawful(codec) && Faithful(codec, s) && process in s.pending
    ensures Faithful(codec, Step(codec, s, Write(process)))
    ensures Step(codec, s, Write(process)).log
         == if s.pending[process].revision == 1 + |s.log|
            then s.log + [Success(1 + |s.log|, s.pending[process].changes)] else s.log
  {
    hide Accepted;
    var t, p := Step(codec, s, Write(process)), s.pending[process];
    assert Started(codec, s, p);
    if s.row == Some(p.read) {
      WriteRecords(codec, s, process);
    }
    forall other <- t.pending
      ensures Started(codec, t, t.pending[other])
    {
      assert Started(codec, s, s.pending[other]);
    }
  }

  lemma StepIsFaithful(codec: Codec, s: State, e: Event)
    requires Lawful(codec) && Faithful(codec, s)
    ensures Faithful(codec, Step(codec, s, e))
  {
    hide Accepted;
    match e
    case Import(values) =>
    case Read(process, revision, changes) => ReadIsFaithful(codec, s, process, revision, changes);
    case Write(process) =>
      if process in s.pending {
        WriteIsFaithful(codec, s, process);
      }
    case Abandon(process) =>
      var t := Step(codec, s, e);
      forall other <- t.pending
        ensures Started(codec, t, t.pending[other])
      {
        assert Started(codec, s, s.pending[other]);
      }
  }

  /** Any interleaving of any number of processes leaves the row equal to the history it records. */
  lemma {:induction false} RunIsFaithful(codec: Codec, s: State, events: seq<Event>)
    requires Lawful(codec) && Faithful(codec, s)
    ensures Faithful(codec, Run(codec, s, events))
    decreases |events|
  {
    if events != [] {
      StepIsFaithful(codec, s, events[0]);
      RunIsFaithful(codec, Step(codec, s, events[0]), events[1..]);
    }
  }

  /** What a reader finds after any run: the first snapshot, the successful changes, one revision each. */
  lemma StoredIsHistory(codec: Codec, events: seq<Event>)
    requires Lawful(codec)
    ensures
      var s := Run(codec, Empty, events);
      && (s.row.None? ==> s.log == [])
      && (s.row.Some? ==>
            && s.first.Some?
            && FromText(codec, s.row.value)
               == Some(Configuration(1, 1 + |s.log|, Overlaid(s.first.value, s.log))))
      && (forall i, j :: 0 <= i < j < |s.log| ==> s.log[i].revision < s.log[j].revision)
  {
    RunIsFaithful(codec, Empty, events);
    var s := Run(codec, Empty, events);
    if s.row.Some? {
      StoredTextReads(codec, Recorded(s));
    }
  }

  /** A pending update succeeds exactly when no other update has succeeded since it read. */
  lemma WriteSucceedsIffUnchanged(codec: Codec, events: seq<Event>, process: nat)
    requires Lawful(codec) && process in Run(codec, Empty, events).pending
    ensures
      var s := Run(codec, Empty, events);
      Step(codec, s, Write(process)).log
      == if s.pending[process].revision == 1 + |s.log|
         then s.log + [Success(1 + |s.log|, s.pending[process].changes)] else s.log
  {
    RunIsFaithful(codec, Empty, events);
    WriteIsFaithful(codec, Run(codec, Empty, events), process);
  }

  // ---- what is taken ---------------------------------------------------------------------------

  /** On an empty key the first import within the bounds is stored and read back, and no other. */
  lemma ImportTakenExactlyWhen(codec: Codec, s: State, values: Values)
    requires Lawful(codec) && s.row.None?
    ensures
      var t := Step(codec, s, Import(values));
      if InBounds(codec, 1, values)
      then t.row.Some? && t.first == Some(values) && FromText(codec, t.row.value) == Some(Configuration(1, 1, values))
      else t == s
  {
    AcceptedIsInBounds(codec, Configuration(1, 1, values));
    assert codec.decode(codec.encode(Configuration(1, 1, values))) == Some(Configuration(1, 1, values));
  }

  /** After any run, an update no other one comes between is recorded exactly when its caller names the
      revision reached and the result is within the bounds. */
  lemma UpdateTakenExactlyWhen(codec: Codec, events: seq<Event>, process: nat, revision: nat, changes: Values)
    requires Lawful(codec) && process !in Run(codec, Empty, events).pending
    ensures
      var s := Run(codec, Empty, events);
      var t := Updated(codec, s, process, revision, changes);
      var c := if s.row.None? then None else FromText(codec, s.row.value);
      if c.Some? && revision == c.value.revision && InBounds(codec, revision + 1, c.value.values + changes)
      then
        && t.log == s.log + [Success(revision, changes)] && t.row.Some?
        && FromText(codec, t.row.value) == Some(Configuration(1, revision + 1, c.value.values + changes))
      else t == s
  {
    hide Prepared, Accepted, InBounds, Updated;
    var s := Run(codec, Empty, events);
    RunIsFaithful(codec, Empty, events);
    ReadThenWrite(codec, s, process, revision, changes);
    if s.row.Some? {
      StoredTextReads(codec, Recorded(s));
      PreparedExactlyWhen(codec, s.row.value, Recorded(s), revision, changes);
      var next := Configuration(1, revision + 1, Recorded(s).values + changes);
      if InBounds(codec, revision + 1, Recorded(s).values + changes) {
        AcceptedIsInBounds(codec, next);
        StoredTextReads(codec, next);
      }
    }
  }

  /** Once anything is stored, an import changes nothing at all. */
  lemma {:induction false} LaterImportIsIgnored(codec: Codec, s: State, events: seq<Event>, values: Values)
    requires s.row.Some?
    ensures Step(codec, Run(codec, s, events), Import(values)) == Run(codec, s, events)
    ensures Run(codec, s, events).first == s.first
    decreases |events|
  {
    if events != [] {
      LaterImportIsIgnored(codec, Step(codec, s, events[0]), events[1..], values);
    }
  }
}
