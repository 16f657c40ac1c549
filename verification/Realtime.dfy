/** The realtime conversation journal: bounded, ordered, revisioned messages for each session, kept only while their
    speakers consent. Strings are sequences of bytes; which of them are UTF-8, and how a display name is cleaned,
    are parameters. Times are nanoseconds. */
module Realtime {
  datatype Message = Message(
    sequence: int, id: string, session: string, speaker: string, name: string, start: int, end: int,
    text: string, status: string, revision: int, threads: seq<string>, replyTo: string)

  datatype Session = Session(
    channelWide: bool, startedBy: string, id: string, guild: string, channel: string, origin: string,
    mode: string, active: bool, consenting: seq<string>, messages: seq<Message>, updatedAt: int)

  type Sessions = map<string, Session>

  datatype Result = Done | Refused | Full

  datatype Outcome = Outcome(sessions: Sessions, result: Result)

  const SECOND := 1_000_000_000
  const ZERO_TIME := 0
  const IDLE := 15 * 60 * SECOND
  const MAX_SESSIONS := 32
  const MAX_SPEAKERS := 16
  const MAX_MESSAGES := 512
  const MAX_TEXT := 8000
  const MAX_BYTES := 256000

  type Utf8 = string -> bool
  type Clean = string -> string

  predicate Bounded(utf8: Utf8, v: string, n: nat) { v != "" && |v| <= n && utf8(v) }

  // ---- what each operation does ------------------------------------------------------------------------

  datatype Event =
    | Start(now: int, id: string, guild: string, channel: string, origin: string, speaker: string, channelWide: bool)
    | Consent(now: int, id: string, guild: string, origin: string, speaker: string, join: bool)
    | Observe(now: int, guild: string, origin: string, message: Message)
    | Stop(id: string, guild: string, origin: string, speaker: string)
    | Read(now: int)

  function Step(utf8: Utf8, clean: Clean, sessions: Sessions, e: Event): Outcome {
    match e
    case Start(now, id, guild, channel, origin, speaker, channelWide) =>
      Started(utf8, sessions, now, id, guild, channel, origin, speaker, channelWide)
    case Consent(now, id, guild, origin, speaker, join) => Consented(utf8, sessions, now, id, guild, origin, speaker, join)
    case Observe(now, guild, origin, m) =>
      if Acceptable(utf8, m) then Observed(sessions, now, guild, origin, Admitted(clean, m)) else Outcome(sessions, Refused)
    case Stop(id, guild, origin, speaker) => Stopped(utf8, sessions, id, guild, origin, speaker)
    case Read(now) => Outcome(Pruned(sessions, now), Done)
  }

  predicate Fresh(s: Session, now: int) { now - s.updatedAt <= IDLE }

  /** Sessions nobody touched for fifteen minutes are forgotten. */
  function Pruned(sessions: Sessions, now: int): Sessions {
    map id | id in sessions && Fresh(sessions[id], now) :: sessions[id]
  }

  function Opened(
    now: int, id: string, guild: string, channel: string, origin: string, speaker: string, channelWide: bool): Session {
    Session(channelWide, speaker, id, guild, channel, origin, "observer", true, [speaker], [], now)
  }

  function Started(
    utf8: Utf8, sessions: Sessions, now: int, id: string, guild: string, channel: string, origin: string,
    speaker: string, channelWide: bool): Outcome {
    if !(Bounded(utf8, id, 128) && Bounded(utf8, guild, 100) && Bounded(utf8, channel, 100)
         && Bounded(utf8, origin, 100) && Bounded(utf8, speaker, 100)) then Outcome(sessions, Refused)
    else
      var live := Pruned(sessions, now);
      if id in live then
        Outcome(live, if SameStart(live[id], guild, channel, origin, speaker, channelWide) then Done else Refused)
      else if |live| >= MAX_SESSIONS then Outcome(live, Full)
      else Outcome(live[id := Opened(now, id, guild, channel, origin, speaker, channelWide)], Done)
  }

  predicate SameStart(s: Session, guild: string, channel: string, origin: string, speaker: string, channelWide: bool) {
    s.guild == guild && s.channel == channel && s.origin == origin && s.startedBy == speaker
    && s.channelWide == channelWide && s.active
  }

  function Filtered<T>(xs: seq<T>, keep: T -> bool): seq<T> {
    if xs == [] then []
    else
      var n := |xs| - 1;
      if keep(xs[n]) then Filtered(xs[..n], keep) + [xs[n]] else Filtered(xs[..n], keep)
  }

  function Without(names: seq<string>, speaker: string): seq<string> {
    Filtered(names, (name: string) => name != speaker)
  }

  function Unspoken(messages: seq<Message>, speaker: string): seq<Message> {
    Filtered(messages, (m: Message) => m.speaker != speaker)
  }

  function Consented(
    utf8: Utf8, sessions: Sessions, now: int, id: string, guild: string, origin: string, speaker: string, join: bool): Outcome {
    var live := Pruned(sessions, now);
    if id !in live || !live[id].active || live[id].channelWide || live[id].guild != guild
       || live[id].origin != origin || !Bounded(utf8, speaker, 100) then Outcome(live, Refused)
    else
      var s := live[id];
      if join then
        if speaker in s.consenting then Outcome(live[id := s.(updatedAt := now)], Done)
        else if |s.consenting| >= MAX_SPEAKERS then Outcome(live, Refused)
        else Outcome(live[id := s.(consenting := s.consenting + [speaker], updatedAt := now)], Done)
      else
        Outcome(live[id := s.(consenting := Without(s.consenting, speaker), messages := Unspoken(s.messages, speaker),
                              updatedAt := now)], Done)
  }

  predicate Acceptable(utf8: Utf8, m: Message) {
    && 0 <= m.sequence <= 1_000_000_000
    && Bounded(utf8, m.id, 128) && Bounded(utf8, m.text, MAX_TEXT) && Bounded(utf8, m.speaker, 100)
    && m.status == "final" && m.revision >= 1
    && m.start != ZERO_TIME && m.start <= m.end && m.end - m.start <= 30 * SECOND
    && utf8(m.name)
  }

  /** What the interface says about a message's meaning is never kept. */
  function Admitted(clean: Clean, m: Message): Message {
    m.(name := clean(m.name), threads := [], replyTo := "")
  }

  /** The place of the message with this id; the length when there is none. */
  function Place(messages: seq<Message>, id: string): (i: nat)
    ensures i <= |messages|
    ensures i < |messages| ==> messages[i].id == id
    ensures forall j :: 0 <= j < i ==> messages[j].id != id
  {
    if messages == [] || messages[0].id == id then 0 else 1 + Place(messages[1..], id)
  }

  /** A message goes after those captured no later. */
  function Inserted(messages: seq<Message>, m: Message): seq<Message> {
    if messages == [] || messages[|messages| - 1].sequence <= m.sequence then messages + [m]
    else Inserted(messages[..|messages| - 1], m) + [messages[|messages| - 1]]
  }

  /** A stable sort by capture sequence. */
  function Arranged(messages: seq<Message>): seq<Message> {
    if messages == [] then []
    else Inserted(Arranged(messages[..|messages| - 1]), messages[|messages| - 1])
  }

  function Total(messages: seq<Message>): nat {
    if messages == [] then 0 else Total(messages[..|messages| - 1]) + |messages[|messages| - 1].text|
  }

  predicate Fits(messages: seq<Message>) { |messages| <= MAX_MESSAGES && Total(messages) <= MAX_BYTES }

  function Trimmed(messages: seq<Message>): seq<Message> {
    if messages == [] || Fits(messages) then messages else Trimmed(messages[1..])
  }

  datatype Admission = Rejected | Known | Changed(session: Session)

  function Members(s: Session, speaker: string): seq<string> {
    if speaker in s.consenting then s.consenting else s.consenting + [speaker]
  }

  function Admit(s: Session, m: Message, now: int): Admission {
    if m.speaker !in s.consenting && (!s.channelWide || |s.consenting| >= MAX_SPEAKERS) then Rejected
    else
      var i := Place(s.messages, m.id);
      if i < |s.messages| then
        var prior := s.messages[i];
        if prior.speaker != m.speaker || prior.sequence != m.sequence then Rejected
        else if m.revision == prior.revision then
          if prior.text == m.text && prior.start == m.start && prior.end == m.end then Known else Rejected
        else if m.revision != prior.revision + 1 then Rejected
        else Changed(s.(consenting := Members(s, m.speaker), messages := s.messages[i := m], updatedAt := now))
      else if m.revision != 1 then Rejected
      else Changed(s.(consenting := Members(s, m.speaker), messages := Trimmed(Arranged(s.messages + [m])), updatedAt := now))
  }

  function Observed(sessions: Sessions, now: int, guild: string, origin: string, m: Message): Outcome {
    var live := Pruned(sessions, now);
    if m.session !in live || !live[m.session].active || live[m.session].guild != guild || live[m.session].origin != origin
    then Outcome(live, Refused)
    else
      match Admit(live[m.session], m, now)
      case Rejected => Outcome(live, Refused)
      case Known => Outcome(live, Done)
      case Changed(s) => Outcome(live[m.session := s], Done)
  }

  function Stopped(utf8: Utf8, sessions: Sessions, id: string, guild: string, origin: string, speaker: string): Outcome {
    if id !in sessions || sessions[id].guild != guild || sessions[id].origin != origin || !Bounded(utf8, speaker, 100)
       || (!sessions[id].channelWide && speaker !in sessions[id].consenting) then Outcome(sessions, Refused)
    else Outcome(sessions - {id}, Done)
  }

  // ---- what every reachable journal keeps --------------------------------------------------------------

  predicate InOrder(messages: seq<Message>) {
    forall i, j :: 0 <= i < j < |messages| ==> messages[i].sequence <= messages[j].sequence
  }

  predicate DistinctIds(messages: seq<Message>) {
    forall i, j :: 0 <= i < j < |messages| ==> messages[i].id != messages[j].id
  }

  predicate DistinctNames(names: seq<string>) {
    forall i, j :: 0 <= i < j < |names| ==> names[i] != names[j]
  }

  /** Whole evidence: a bounded text of this session, and nothing said about its meaning. */
  predicate Evidence(m: Message, session: string) {
    m.session == session && 0 < |m.text| <= MAX_TEXT && m.revision >= 1 && m.threads == [] && m.replyTo == ""
  }

  predicate Spoken(messages: seq<Message>, consenting: seq<string>, session: string) {
    forall i :: 0 <= i < |messages| ==> Evidence(messages[i], session) && messages[i].speaker in consenting
  }

  predicate Orderly(s: Session) {
    && InOrder(s.messages) && DistinctIds(s.messages) && |s.messages| <= MAX_MESSAGES
    && DistinctNames(s.consenting) && |s.consenting| <= MAX_SPEAKERS
    && Spoken(s.messages, s.consenting, s.id)
  }

  predicate Inv(sessions: Sessions) {
    |sessions| <= MAX_SESSIONS && forall id :: id in sessions ==> sessions[id].id == id && Orderly(sessions[id])
  }

  // Filtering

  lemma {:induction false} FilteredMembers<T>(xs: seq<T>, keep: T -> bool)
    ensures |Filtered(xs, keep)| <= |xs|
    ensures forall x :: x in Filtered(xs, keep) <==> x in xs && keep(x)
  {
    if xs != [] {
      var n := |xs| - 1;
      FilteredMembers(xs[..n], keep);
      assert xs == xs[..n] + [xs[n]];
    }
  }

  ghost predicate Pairwise<T(!new)>(xs: seq<T>, r: (T, T) -> bool) {
    forall i, j :: 0 <= i < j < |xs| ==> r(xs[i], xs[j])
  }

  /** What holds of every two elements, in their order, holds of those kept. */
  lemma {:induction false} FilteredPairs<T(!new)>(xs: seq<T>, keep: T -> bool, r: (T, T) -> bool)
    requires Pairwise(xs, r)
    ensures Pairwise(Filtered(xs, keep), r)
  {
    if xs != [] {
      var n := |xs| - 1;
      FilteredPairs(xs[..n], keep, r);
      FilteredMembers(xs[..n], keep);
      var rest := Filtered(xs[..n], keep);
      forall i | 0 <= i < |rest| ensures r(rest[i], xs[n]) {
        assert rest[i] in xs[..n];
        var j :| 0 <= j < n && xs[..n][j] == rest[i];
      }
    }
  }

  lemma {:induction false} WithoutKeeps(names: seq<string>, speaker: string)
    requires DistinctNames(names)
    ensures DistinctNames(Without(names, speaker)) && |Without(names, speaker)| <= |names|
    ensures forall x :: x in Without(names, speaker) <==> x in names && x != speaker
  {
    FilteredMembers(names, (name: string) => name != speaker);
    FilteredPairs(names, (name: string) => name != speaker, (a: string, b: string) => a != b);
  }

  lemma {:induction false} UnspokenKeeps(messages: seq<Message>, speaker: string)
    requires InOrder(messages) && DistinctIds(messages)
    ensures |Unspoken(messages, speaker)| <= |messages|
    ensures forall m :: m in Unspoken(messages, speaker) <==> m in messages && m.speaker != speaker
    ensures InOrder(Unspoken(messages, speaker)) && DistinctIds(Unspoken(messages, speaker))
  {
    var keep := (m: Message) => m.speaker != speaker;
    FilteredMembers(messages, keep);
    FilteredPairs(messages, keep, (a: Message, b: Message) => a.sequence <= b.sequence);
    FilteredPairs(messages, keep, (a: Message, b: Message) => a.id != b.id);
  }

  // Sorting

  lemma {:induction false} InsertedMembers(messages: seq<Message>, m: Message)
    ensures multiset(Inserted(messages, m)) == multiset(messages) + multiset{m}
  {
    if messages != [] && messages[|messages| - 1].sequence > m.sequence {
      var n := |messages| - 1;
      InsertedMembers(messages[..n], m);
      assert messages == messages[..n] + [messages[n]];
    }
  }

  lemma {:induction false} InsertedHas(messages: seq<Message>, m: Message)
    ensures forall x <- Inserted(messages, m) :: x in messages || x == m
  {
    InsertedMembers(messages, m);
    hide Inserted;
    forall x <- Inserted(messages, m)
      ensures x in messages || x == m
    {
      assert x in multiset(messages) + multiset{m};
    }
  }

  lemma {:induction false} InsertedInOrder(messages: seq<Message>, m: Message)
    requires InOrder(messages)
    ensures InOrder(Inserted(messages, m))
  {
    if messages != [] && messages[|messages| - 1].sequence > m.sequence {
      var n := |messages| - 1;
      InsertedInOrder(messages[..n], m);
      InsertedHas(messages[..n], m);
      var front := Inserted(messages[..n], m);
      assert Inserted(messages, m) == front + [messages[n]];
      hide Inserted;
      assert forall i :: 0 <= i < |front| ==> front[i] in messages[..n] || front[i] == m;
    }
  }

  lemma {:induction false} ArrangedSorts(messages: seq<Message>)
    ensures InOrder(Arranged(messages)) && multiset(Arranged(messages)) == multiset(messages)
  {
    if messages != [] {
      var n := |messages| - 1;
      ArrangedSorts(messages[..n]);
      InsertedInOrder(Arranged(messages[..n]), messages[n]);
      InsertedMembers(Arranged(messages[..n]), messages[n]);
      assert messages == messages[..n] + [messages[n]];
    }
  }

  lemma ArrangedMore(front: seq<Message>, last: Message)
    ensures Arranged(front + [last]) == Inserted(Arranged(front), last)
  {
    hide Inserted;
    assert (front + [last])[..|front|] == front;
  }

  lemma InsertedLast(front: seq<Message>, last: Message)
    requires InOrder(front + [last])
    ensures InOrder(front) && Inserted(front, last) == front + [last]
  {
    var all := front + [last];
    assert all[|front|] == last && forall i :: 0 <= i < |front| ==> all[i] == front[i];
  }

  /** Messages already in order stay as they are. */
  lemma {:induction false} ArrangedIsStable(messages: seq<Message>)
    requires InOrder(messages)
    ensures Arranged(messages) == messages
  {
    assert Arranged([]) == [];
    hide Arranged, Inserted, InOrder;
    if messages != [] {
      var front, last := messages[..|messages| - 1], messages[|messages| - 1];
      assert messages == front + [last];
      InsertedLast(front, last);
      ArrangedIsStable(front);
      ArrangedMore(front, last);
    }
  }

  lemma {:induction false} DistinctIsAboutContents(a: seq<Message>, b: seq<Message>)
    requires multiset(a) == multiset(b) && DistinctIds(a)
    ensures DistinctIds(b)
  {
    forall i, j | 0 <= i < j < |b| ensures b[i].id != b[j].id {
      if b[i].id == b[j].id {
        assert b[i] in multiset(b) && b[j] in multiset(b);
        assert b[i] in a && b[j] in a;
        if b[i] == b[j] {
          TwiceIn(b, i, j);
          OnceIn(a, b[i]);
          assert false;
        }
      }
    }
  }

  lemma TwiceIn<T>(b: seq<T>, i: int, j: int)
    requires 0 <= i < j < |b| && b[i] == b[j]
    ensures multiset(b)[b[i]] >= 2
  {
    assert b == b[..i] + [b[i]] + b[i + 1..j] + [b[j]] + b[j + 1..];
  }

  lemma {:induction false} OnceIn(a: seq<Message>, m: Message)
    requires DistinctIds(a)
    ensures multiset(a)[m] <= 1
  {
    if a != [] {
      var n := |a| - 1;
      OnceIn(a[..n], m);
      assert a == a[..n] + [a[n]];
      assert a[n] !in a[..n];
    }
  }

  // Trimming

  lemma {:induction false} TotalFront(messages: seq<Message>)
    requires messages != []
    ensures Total(messages) == |messages[0].text| + Total(messages[1..])
  {
    var n := |messages| - 1;
    if n > 0 {
      TotalFront(messages[..n]);
      assert messages[1..][..n - 1] == messages[..n][1..];
    }
  }

  /** What is dropped is the oldest, and no more of it than the two limits ask for. */
  lemma {:induction false} TrimmedIsLongestEnd(messages: seq<Message>) returns (k: nat)
    ensures k <= |messages| && Trimmed(messages) == messages[k..] && Fits(Trimmed(messages))
    ensures forall j :: 0 <= j < k ==> !Fits(messages[j..])
  {
    if messages == [] || Fits(messages) {
      k := 0;
    } else {
      var later := TrimmedIsLongestEnd(messages[1..]);
      k := later + 1;
      forall j | 0 <= j < k ensures !Fits(messages[j..]) {
        if j == 0 {
          assert messages[0..] == messages;
        } else {
          assert messages[1..][j - 1..] == messages[j..];
        }
      }
    }
  }

  // Each operation

  lemma {:induction false} PrunedKeepsInv(sessions: Sessions, now: int)
    requires Inv(sessions)
    ensures Inv(Pruned(sessions, now)) && Pruned(sessions, now).Keys <= sessions.Keys
  {
    CountMonotone(Pruned(sessions, now).Keys, sessions.Keys);
    assert forall m: Sessions {:trigger |m|} :: |m| == |m.Keys|;
  }

  lemma CountMonotone<T>(a: set<T>, b: set<T>)
    requires a <= b
    ensures |a| <= |b|
  {
    assert b == a + (b - a);
  }

  lemma {:induction false} SameContentsSpoken(a: seq<Message>, b: seq<Message>, names: seq<string>, session: string)
    requires multiset(a) == multiset(b) && Spoken(a, names, session)
    ensures Spoken(b, names, session)
  {
    forall i | 0 <= i < |b| ensures Evidence(b[i], session) && b[i].speaker in names {
      assert b[i] in multiset(b);
      assert b[i] in a;
    }
  }

  lemma {:induction false} ArrivedKeeps(s: Session, m: Message)
    requires Orderly(s) && Evidence(m, s.id) && Place(s.messages, m.id) == |s.messages|
    ensures var kept := Trimmed(Arranged(s.messages + [m]));
      InOrder(kept) && DistinctIds(kept) && Fits(kept) && Spoken(kept, Members(s, m.speaker), s.id)
  {
    hide Trimmed, Arranged, Evidence;
    var all := s.messages + [m];
    assert DistinctIds(all) && Spoken(all, Members(s, m.speaker), s.id);
    ArrangedSorts(all);
    DistinctIsAboutContents(all, Arranged(all));
    SameContentsSpoken(all, Arranged(all), Members(s, m.speaker), s.id);
    var k := TrimmedIsLongestEnd(Arranged(all));
  }

  lemma {:induction false} RevisedKeeps(s: Session, m: Message)
    requires Orderly(s) && Evidence(m, s.id) && Place(s.messages, m.id) < |s.messages|
    requires s.messages[Place(s.messages, m.id)].sequence == m.sequence
    ensures var revised := s.messages[Place(s.messages, m.id) := m];
      InOrder(revised) && DistinctIds(revised) && Spoken(revised, Members(s, m.speaker), s.id)
  {
  }

  lemma {:induction false} AdmitKeepsOrder(s: Session, m: Message, now: int)
    requires Orderly(s) && Evidence(m, s.id)
    ensures Admit(s, m, now).Changed? ==> Orderly(Admit(s, m, now).session) && Admit(s, m, now).session.id == s.id
  {
    hide Trimmed, Arranged, Evidence, Spoken;
    if Place(s.messages, m.id) < |s.messages| {
      if s.messages[Place(s.messages, m.id)].sequence == m.sequence {
        RevisedKeeps(s, m);
      }
    } else {
      ArrivedKeeps(s, m);
    }
  }

  lemma {:induction false} ConsentKeepsOrder(s: Session, speaker: string, now: int)
    requires Orderly(s)
    ensures Orderly(s.(consenting := Without(s.consenting, speaker), messages := Unspoken(s.messages, speaker), updatedAt := now))
    ensures speaker !in s.consenting && |s.consenting| < MAX_SPEAKERS
      ==> Orderly(s.(consenting := s.consenting + [speaker], updatedAt := now))
  {
    hide Evidence;
    WithoutKeeps(s.consenting, speaker);
    UnspokenKeeps(s.messages, speaker);
    var rest := Unspoken(s.messages, speaker);
    forall i | 0 <= i < |rest| ensures Evidence(rest[i], s.id) && rest[i].speaker in Without(s.consenting, speaker) {
      assert rest[i] in s.messages;
    }
  }

  lemma {:induction false} PutKeepsInv(live: Sessions, id: string, s: Session)
    requires Inv(live) && (id in live || |live| < MAX_SESSIONS) && s.id == id && Orderly(s)
    ensures Inv(live[id := s])
  {
    hide Orderly;
    assert live[id := s].Keys == live.Keys + {id};
    assert |live[id := s]| == |live[id := s].Keys| && |live| == |live.Keys|;
  }

  lemma {:induction false} ConsentedKeepsInv(
    utf8: Utf8, sessions: Sessions, now: int, id: string, guild: string, origin: string, speaker: string, join: bool)
    requires Inv(sessions)
    ensures Inv(Consented(utf8, sessions, now, id, guild, origin, speaker, join).sessions)
  {
    hide Orderly, Pruned, Unspoken, Without;
    PrunedKeepsInv(sessions, now);
    var live := Pruned(sessions, now);
    if id in live {
      var s := live[id];
      hide Inv;
      ConsentKeepsOrder(s, speaker, now);
      TouchedIsOrderly(s, now);
      PutKeepsInv(live, id, s.(updatedAt := now));
      PutKeepsInv(live, id, s.(consenting := Without(s.consenting, speaker), messages := Unspoken(s.messages, speaker), updatedAt := now));
      if speaker !in s.consenting && |s.consenting| < MAX_SPEAKERS {
        PutKeepsInv(live, id, s.(consenting := s.consenting + [speaker], updatedAt := now));
      }
    }
  }

  lemma {:induction false} ObservedKeepsInv(sessions: Sessions, now: int, guild: string, origin: string, m: Message)
    requires Inv(sessions) && Evidence(m, m.session)
    ensures Inv(Observed(sessions, now, guild, origin, m).sessions)
  {
    hide Orderly, Pruned, Admit;
    PrunedKeepsInv(sessions, now);
    var live := Pruned(sessions, now);
    if m.session in live {
      AdmitKeepsOrder(live[m.session], m, now);
      if Admit(live[m.session], m, now).Changed? {
        PutKeepsInv(live, m.session, Admit(live[m.session], m, now).session);
      }
    }
  }

  lemma {:induction false} StartedKeepsInv(
    utf8: Utf8, sessions: Sessions, now: int, id: string, guild: string, channel: string, origin: string,
    speaker: string, channelWide: bool)
    requires Inv(sessions)
    ensures Inv(Started(utf8, sessions, now, id, guild, channel, origin, speaker, channelWide).sessions)
  {
    hide Inv, Orderly, Pruned, Opened;
    PrunedKeepsInv(sessions, now);
    OpenedIsOrderly(now, id, guild, channel, origin, speaker, channelWide);
    if |Pruned(sessions, now)| < MAX_SESSIONS {
      PutKeepsInv(Pruned(sessions, now), id, Opened(now, id, guild, channel, origin, speaker, channelWide));
    }
  }

  lemma {:induction false} LessKeepsInv(sessions: Sessions, id: string)
    requires Inv(sessions)
    ensures Inv(sessions - {id})
  {
    hide Orderly;
    var fewer := sessions - {id};
    CountMonotone(fewer.Keys, sessions.Keys);
    assert |fewer| == |fewer.Keys| && |sessions| == |sessions.Keys|;
  }

  /** No operation, at any time, breaks what the journal keeps. */
  lemma {:induction false} StepKeepsInv(utf8: Utf8, clean: Clean, sessions: Sessions, e: Event)
    requires Inv(sessions)
    ensures Inv(Step(utf8, clean, sessions, e).sessions)
  {
    hide Inv, Pruned, Observed, Consented, Started;
    match e
    case Start(now, id, guild, channel, origin, speaker, channelWide) =>
      StartedKeepsInv(utf8, sessions, now, id, guild, channel, origin, speaker, channelWide);
    case Consent(now, id, guild, origin, speaker, join) =>
      ConsentedKeepsInv(utf8, sessions, now, id, guild, origin, speaker, join);
    case Observe(now, guild, origin, m) =>
      if Acceptable(utf8, m) {
        ObservedKeepsInv(sessions, now, guild, origin, Admitted(clean, m));
      }
    case Stop(id, guild, origin, speaker) =>
      LessKeepsInv(sessions, id);
    case Read(now) =>
      PrunedKeepsInv(sessions, now);
  }

  lemma OpenedIsOrderly(
    now: int, id: string, guild: string, channel: string, origin: string, speaker: string, channelWide: bool)
    ensures Orderly(Opened(now, id, guild, channel, origin, speaker, channelWide))
    ensures Opened(now, id, guild, channel, origin, speaker, channelWide).id == id
  {
  }

  lemma TouchedIsOrderly(s: Session, now: int)
    requires Orderly(s)
    ensures Orderly(s.(updatedAt := now))
  {
  }

  function Run(utf8: Utf8, clean: Clean, sessions: Sessions, events: seq<Event>): Sessions
    decreases |events|
  {
    if events == [] then sessions else Run(utf8, clean, Step(utf8, clean, sessions, events[0]).sessions, events[1..])
  }

  lemma {:induction false} RunMore(utf8: Utf8, clean: Clean, sessions: Sessions, events: seq<Event>, e: Event)
    ensures Run(utf8, clean, sessions, events + [e]) == Step(utf8, clean, Run(utf8, clean, sessions, events), e).sessions
    decreases |events|
  {
    hide Step;
    if events == [] {
      assert events + [e] == [e] && [e][1..] == [];
    } else {
      RunMore(utf8, clean, Step(utf8, clean, sessions, events[0]).sessions, events[1..], e);
      assert (events + [e])[1..] == events[1..] + [e];
    }
  }

  /** Every reachable journal, whatever is asked of it and however the clock moves. */
  lemma {:induction false} RunKeepsInv(utf8: Utf8, clean: Clean, sessions: Sessions, events: seq<Event>)
    requires Inv(sessions)
    ensures Inv(Run(utf8, clean, sessions, events))
    decreases |events|
  {
    hide Inv, Step;
    if events != [] {
      StepKeepsInv(utf8, clean, sessions, events[0]);
      RunKeepsInv(utf8, clean, Step(utf8, clean, sessions, events[0]).sessions, events[1..]);
    }
  }

  lemma {:induction false} ReachableIsOrderly(utf8: Utf8, clean: Clean, events: seq<Event>)
    ensures Inv(Run(utf8, clean, map[], events))
  {
    RunKeepsInv(utf8, clean, map[], events);
  }

  // ---- what happens to one message ---------------------------------------------------------------------

  predicate Holds(sessions: Sessions, session: string, id: string) {
    session in sessions && Place(sessions[session].messages, id) < |sessions[session].messages|
  }

  function Held(sessions: Sessions, session: string, id: string): Message
    requires Holds(sessions, session, id)
  {
    sessions[session].messages[Place(sessions[session].messages, id)]
  }

  /** Later evidence about the same utterance: the same, or its next revision. */
  predicate Follows(a: Message, b: Message) {
    b == a || (b.speaker == a.speaker && b.sequence == a.sequence && b.revision == a.revision + 1)
  }

  lemma {:induction false} PlaceOf(messages: seq<Message>, i: nat)
    requires DistinctIds(messages) && i < |messages|
    ensures Place(messages, messages[i].id) == i
  {
  }

  lemma {:induction false} SameIfAmong(messages: seq<Message>, few: seq<Message>, id: string)
    requires DistinctIds(messages) && Place(messages, id) < |messages| && Place(few, id) < |few|
    requires few[Place(few, id)] in messages
    ensures few[Place(few, id)] == messages[Place(messages, id)]
  {
    var j :| 0 <= j < |messages| && messages[j] == few[Place(few, id)];
    PlaceOf(messages, j);
  }

  lemma {:induction false} ArrivedFollows(s: Session, m: Message, id: string)
    requires Orderly(s) && Place(s.messages, id) < |s.messages| && Place(s.messages, m.id) == |s.messages|
    ensures
      var after := Trimmed(Arranged(s.messages + [m]));
      Place(after, id) < |after| ==> Follows(s.messages[Place(s.messages, id)], after[Place(after, id)])
  {
    hide Trimmed, Arranged, Spoken, InOrder;
    var all := s.messages + [m];
    var after := Trimmed(Arranged(all));
    if Place(after, id) < |after| {
      ArrangedSorts(all);
      var k := TrimmedIsLongestEnd(Arranged(all));
      var kept := after[Place(after, id)];
      assert kept in multiset(Arranged(all));
      assert kept in all;
      SameIfAmong(s.messages, after, id);
    }
  }

  lemma {:induction false} AdmitFollows(s: Session, m: Message, now: int, id: string)
    requires Orderly(s) && Place(s.messages, id) < |s.messages|
    ensures
      Admit(s, m, now).Changed? ==>
      var after := Admit(s, m, now).session.messages;
      Place(after, id) < |after| ==> Follows(s.messages[Place(s.messages, id)], after[Place(after, id)])
  {
    hide Trimmed, Arranged, Spoken;
    var i := Place(s.messages, m.id);
    if Admit(s, m, now).Changed? {
      var after := Admit(s, m, now).session.messages;
      if i < |s.messages| {
        var k := Place(s.messages, id);
        assert after == s.messages[i := m];
        assert DistinctIds(after);
        PlaceOf(after, k);
      } else {
        ArrivedFollows(s, m, id);
      }
    }
  }

  lemma {:induction false} ConsentFollows(s: Session, speaker: string, id: string)
    requires Orderly(s) && Place(s.messages, id) < |s.messages|
    ensures var rest := Unspoken(s.messages, speaker);
      Place(rest, id) < |rest| ==> rest[Place(rest, id)] == s.messages[Place(s.messages, id)]
  {
    hide Spoken;
    UnspokenKeeps(s.messages, speaker);
    var rest := Unspoken(s.messages, speaker);
    if Place(rest, id) < |rest| {
      assert rest[Place(rest, id)] in rest;
      SameIfAmong(s.messages, rest, id);
    }
  }

  /** While it is stored, a message keeps its speaker and its capture sequence, and moves one revision at a time. */
  lemma {:induction false} StepFollows(utf8: Utf8, clean: Clean, sessions: Sessions, e: Event, session: string, id: string)
    requires Inv(sessions)
    requires Holds(sessions, session, id) && Holds(Step(utf8, clean, sessions, e).sessions, session, id)
    ensures Follows(Held(sessions, session, id), Held(Step(utf8, clean, sessions, e).sessions, session, id))
  {
    hide Orderly, Follows, Admit, Unspoken, Without;
    var s := sessions[session];
    assert Follows(Held(sessions, session, id), Held(sessions, session, id)) by {
      FollowsItself(Held(sessions, session, id));
    }
    match e
    case Start(_, _, _, _, _, _, _) =>
    case Consent(now, _, _, _, speaker, _) =>
      ConsentFollows(s, speaker, id);
    case Observe(now, _, _, m) =>
      AdmitFollows(s, Admitted(clean, m), now, id);
    case Stop(_, _, _, _) =>
    case Read(_) =>
  }

  lemma FollowsItself(m: Message)
    ensures Follows(m, m)
  {
  }

  ghost predicate HeldThroughout(
    utf8: Utf8, clean: Clean, sessions: Sessions, events: seq<Event>, session: string, id: string)
    decreases |events|
  {
    Holds(sessions, session, id)
    && (events != [] ==> HeldThroughout(utf8, clean, Step(utf8, clean, sessions, events[0]).sessions, events[1..], session, id))
  }

  lemma {:induction false} RunFollows(
    utf8: Utf8, clean: Clean, sessions: Sessions, events: seq<Event>, session: string, id: string)
    requires Inv(sessions) && HeldThroughout(utf8, clean, sessions, events, session, id)
    ensures Holds(Run(utf8, clean, sessions, events), session, id)
    ensures
      var a, b := Held(sessions, session, id), Held(Run(utf8, clean, sessions, events), session, id);
      && b.speaker == a.speaker && b.sequence == a.sequence
      && a.revision <= b.revision <= a.revision + |events|
      && (b.revision == a.revision ==> b == a)
    decreases |events|
  {
    hide Inv, Step, Holds, Held;
    if events != [] {
      var next := Step(utf8, clean, sessions, events[0]).sessions;
      StepKeepsInv(utf8, clean, sessions, events[0]);
      assert HeldThroughout(utf8, clean, next, events[1..], session, id);
      StepFollows(utf8, clean, sessions, events[0], session, id);
      RunFollows(utf8, clean, next, events[1..], session, id);
    }
  }

  // ---- consent -----------------------------------------------------------------------------------------

  /** Nothing of a speaker is left in a session, and nothing of them would be taken. */
  predicate Absent(s: Session, speaker: string) {
    && !s.channelWide && speaker !in s.consenting
    && forall i :: 0 <= i < |s.messages| ==> s.messages[i].speaker != speaker
  }

  predicate Gone(sessions: Sessions, session: string, speaker: string) {
    session in sessions ==> Absent(sessions[session], speaker)
  }

  /** Withdrawing leaves none of the speaker's messages, and keeps everybody else's. */
  lemma {:induction false} WithdrawnIsGone(
    utf8: Utf8, clean: Clean, sessions: Sessions, now: int, id: string, guild: string, origin: string, speaker: string)
    requires Inv(sessions)
    ensures
      var after := Step(utf8, clean, sessions, Consent(now, id, guild, origin, speaker, false));
      after.result == Done ==>
      && id in after.sessions && Gone(after.sessions, id, speaker)
      && forall m: Message :: m.speaker != speaker ==> (m in after.sessions[id].messages <==> m in sessions[id].messages)
  {
    hide Spoken;
    if id in sessions {
      var s := sessions[id];
      WithoutKeeps(s.consenting, speaker);
      UnspokenKeeps(s.messages, speaker);
      assert forall i :: 0 <= i < |Unspoken(s.messages, speaker)| ==> Unspoken(s.messages, speaker)[i] in Unspoken(s.messages, speaker);
    }
  }

  /** The speaker joins this session again, or a new session takes its name. */
  predicate Invites(e: Event, session: string, speaker: string) {
    (e.Consent? && e.join && e.id == session && e.speaker == speaker) || (e.Start? && e.id == session)
  }

  lemma {:induction false} AdmitKeepsAbsent(s: Session, m: Message, now: int, speaker: string)
    requires Orderly(s) && Absent(s, speaker)
    ensures Admit(s, m, now).Changed? ==> Absent(Admit(s, m, now).session, speaker)
  {
    hide Trimmed, Arranged, Spoken;
    if Admit(s, m, now).Changed? && Place(s.messages, m.id) == |s.messages| {
      var all := s.messages + [m];
      ArrangedSorts(all);
      var k := TrimmedIsLongestEnd(Arranged(all));
      var after := Admit(s, m, now).session.messages;
      forall i | 0 <= i < |after| ensures after[i].speaker != speaker {
        assert Arranged(all)[k + i] in multiset(Arranged(all));
        assert after[i] in all;
      }
    }
  }

  lemma {:induction false} ConsentKeepsAbsent(s: Session, other: string, speaker: string)
    requires Orderly(s) && Absent(s, speaker)
    ensures speaker !in Without(s.consenting, other)
    ensures forall i :: 0 <= i < |Unspoken(s.messages, other)| ==> Unspoken(s.messages, other)[i].speaker != speaker
  {
    hide Spoken;
    WithoutKeeps(s.consenting, other);
    UnspokenKeeps(s.messages, other);
    assert forall i :: 0 <= i < |Unspoken(s.messages, other)| ==> Unspoken(s.messages, other)[i] in s.messages;
  }

  lemma {:induction false} StepKeepsGone(
    utf8: Utf8, clean: Clean, sessions: Sessions, e: Event, session: string, speaker: string)
    requires Inv(sessions) && Gone(sessions, session, speaker) && !Invites(e, session, speaker)
    ensures Gone(Step(utf8, clean, sessions, e).sessions, session, speaker)
  {
    hide Orderly, Admit, Unspoken, Without;
    if session in sessions {
      match e
      case Start(_, _, _, _, _, _, _) =>
      case Consent(_, _, _, _, other, _) =>
        ConsentKeepsAbsent(sessions[session], other, speaker);
      case Observe(now, _, _, m) =>
        AdmitKeepsAbsent(sessions[session], Admitted(clean, m), now, speaker);
      case Stop(_, _, _, _) =>
      case Read(_) =>
    }
  }

  /** Once withdrawn, nothing a speaker says is kept until they are let in again. */
  lemma {:induction false} RunKeepsGone(
    utf8: Utf8, clean: Clean, sessions: Sessions, events: seq<Event>, session: string, speaker: string)
    requires Inv(sessions) && Gone(sessions, session, speaker)
    requires forall i :: 0 <= i < |events| ==> !Invites(events[i], session, speaker)
    ensures Gone(Run(utf8, clean, sessions, events), session, speaker)
    decreases |events|
  {
    hide Inv, Step, Gone, Invites;
    if events != [] {
      StepKeepsInv(utf8, clean, sessions, events[0]);
      StepKeepsGone(utf8, clean, sessions, events[0], session, speaker);
      RunKeepsGone(utf8, clean, Step(utf8, clean, sessions, events[0]).sessions, events[1..], session, speaker);
    }
  }

  // ---- repetition and size -----------------------------------------------------------------------------

  lemma {:induction false} ArrivedIsItself(s: Session, m: Message)
    requires Place(s.messages, m.id) == |s.messages|
    ensures
      var kept := Trimmed(Arranged(s.messages + [m]));
      Place(kept, m.id) < |kept| ==> kept[Place(kept, m.id)] == m
  {
    hide Trimmed, Arranged;
    var all := s.messages + [m];
    var kept := Trimmed(Arranged(all));
    ArrangedSorts(all);
    var k := TrimmedIsLongestEnd(Arranged(all));
    if Place(kept, m.id) < |kept| {
      assert kept[Place(kept, m.id)] in multiset(Arranged(all));
      assert kept[Place(kept, m.id)] in all;
    }
  }

  /** Evidence that arrives again while it is stored changes nothing, and is not an error. */
  lemma {:induction false} RepeatedIsKnown(s: Session, m: Message, now: int, later: int)
    requires Orderly(s) && Evidence(m, s.id) && Admit(s, m, now).Changed?
    ensures
      var after := Admit(s, m, now).session;
      Place(after.messages, m.id) < |after.messages| ==> Admit(after, m, later) == Known
  {
    hide Trimmed, Arranged, Spoken, InOrder;
    var i := Place(s.messages, m.id);
    if i < |s.messages| {
      var after := s.messages[i := m];
      assert DistinctIds(after);
      PlaceOf(after, i);
    } else {
      ArrivedIsItself(s, m);
    }
  }

  /** Admitting a repeated message early forgets no new speaker: its speaker had consented already. */
  lemma {:induction false} KnownSpeakersHaveConsented(s: Session, m: Message, now: int)
    requires Orderly(s) && Admit(s, m, now) == Known
    ensures m.speaker in s.consenting && Members(s, m.speaker) == s.consenting
  {
    assert s.messages[Place(s.messages, m.id)].speaker in s.consenting;
  }

  lemma {:induction false} TotalUpdate(messages: seq<Message>, i: nat, m: Message)
    requires i < |messages|
    ensures Total(messages[i := m]) == Total(messages) - |messages[i].text| + |m.text|
  {
    var n := |messages| - 1;
    if i == n {
      assert messages[i := m][..n] == messages[..n];
    } else {
      TotalUpdate(messages[..n], i, m);
      assert messages[i := m][..n] == messages[..n][i := m];
    }
  }

  /** A new message leaves the session within its limits; a revision does exactly when the change in its text allows. */
  lemma {:induction false} BytesAfterObserving(s: Session, m: Message, now: int)
    requires Orderly(s) && Evidence(m, s.id) && Admit(s, m, now).Changed?
    ensures
      var i := Place(s.messages, m.id);
      Fits(Admit(s, m, now).session.messages)
      <==> (i < |s.messages| ==> Total(s.messages) - |s.messages[i].text| + |m.text| <= MAX_BYTES)
  {
    hide Trimmed, Arranged, Spoken;
    var i := Place(s.messages, m.id);
    if i < |s.messages| {
      TotalUpdate(s.messages, i, m);
    } else {
      ArrivedKeeps(s, m);
    }
  }

  function Repeated(n: nat): (r: string)
    ensures |r| == n
  {
    seq(n, _ => 'x')
  }

  function Utterance(i: nat): Message {
    Message(i, Repeated(i + 1), "s", "a", "", 1, 1, Repeated(if i < 2 then 1 else MAX_TEXT), "final", 1, [], "")
  }

  function Talk(n: nat): (r: seq<Message>)
    ensures |r| == n && forall i :: 0 <= i < n ==> r[i] == Utterance(i)
    ensures Total(r) == if n < 2 then n else 2 + (n - 2) * MAX_TEXT
  {
    if n == 0 then []
    else
      assert (Talk(n - 1) + [Utterance(n - 1)])[..n - 1] == Talk(n - 1);
      Talk(n - 1) + [Utterance(n - 1)]
  }

  lemma {:induction false} TalkIsOrderly(n: nat)
    ensures InOrder(Talk(n)) && DistinctIds(Talk(n)) && Spoken(Talk(n), ["a"], "s")
  {
    hide Repeated, Total;
    var messages := Talk(n);
    assert forall i :: 0 <= i < n ==> messages[i].sequence == i && |messages[i].id| == i + 1;
    assert forall i :: 0 <= i < n ==> Evidence(messages[i], "s") && messages[i].speaker == ["a"][0];
  }

  predicate Plain(v: string) { forall i :: 0 <= i < |v| ==> 'a' <= v[i] <= 'z' }

  /** Plain letters are UTF-8, and an empty name needs no cleaning. */
  ghost predicate Usual(utf8: Utf8, clean: Clean) { clean("") == "" && forall v :: Plain(v) ==> utf8(v) }

  const OPENING := Start(0, "s", "g", "c", "o", "a", false)

  function Conversation(n: nat): (events: seq<Event>)
    ensures |events| == n + 1
  {
    if n == 0 then [OPENING] else Conversation(n - 1) + [Observe(0, "g", "o", Utterance(n - 1))]
  }

  function Talking(messages: seq<Message>): Session {
    Session(false, "a", "s", "g", "c", "o", "observer", true, ["a"], messages, 0)
  }

  /** Enough utterances to come near the limit. */
  const MANY: nat := 33

  /** The first utterance again, grown to the longest text a message may have. */
  function Growth(): Message { Utterance(0).(text := Repeated(MAX_TEXT), revision := 2) }

  lemma UtteranceIsAccepted(utf8: Utf8, clean: Clean, i: nat, m: Message)
    requires Usual(utf8, clean) && i < 128
    requires m == Utterance(i) || m == Growth()
    ensures Acceptable(utf8, m) && Admitted(clean, m) == m && m.session == "s"
  {
    assert Plain(m.id) && Plain(m.text) && Plain("a") && Plain("");
  }

  lemma {:induction false} NextIsNew(n: nat)
    ensures Place(Talk(n), Utterance(n).id) == n
  {
    hide Total, Repeated;
    assert forall j :: 0 <= j < n ==> |Talk(n)[j].id| < |Utterance(n).id|;
  }

  lemma {:induction false} NextIsAdmitted(n: nat)
    requires n < 33
    ensures Admit(Talking(Talk(n)), Utterance(n), 0) == Changed(Talking(Talk(n + 1)))
  {
    var s, m := Talking(Talk(n)), Utterance(n);
    NextIsNew(n);
    TalkIsOrderly(n + 1);
    assert s.messages + [m] == Talk(n + 1);
    assert s.consenting[0] == "a";
    hide Talk, Place, Arranged, Inserted, Total, Repeated, InOrder, Spoken, DistinctIds;
    ArrangedIsStable(Talk(n + 1));
    assert Members(s, "a") == ["a"];
    assert Trimmed(Talk(n + 1)) == Talk(n + 1);
  }

  /** An accepted observation of the one session there is does to it what admission says. */
  lemma ObserveOnly(utf8: Utf8, clean: Clean, s: Session, m: Message, next: Session)
    requires Acceptable(utf8, m) && Admitted(clean, m) == m && m.session == "s"
    requires s.active && s.guild == "g" && s.origin == "o" && s.updatedAt == 0
    requires Admit(s, m, 0) == Changed(next)
    ensures Step(utf8, clean, map["s" := s], Observe(0, "g", "o", m)) == Outcome(map["s" := next], Done)
  {
    hide Acceptable, Admitted, Admit;
    assert Pruned(map["s" := s], 0) == map["s" := s];
  }

  lemma {:induction false} TalkIsReached(utf8: Utf8, clean: Clean, n: nat)
    requires Usual(utf8, clean) && n <= 33
    ensures Run(utf8, clean, map[], Conversation(n)) == map["s" := Talking(Talk(n))]
  {
    if n == 0 {
      OpeningOpens(utf8, clean);
    } else {
      hide Step, Talk, Talking, Usual;
      TalkIsReached(utf8, clean, n - 1);
      RunMore(utf8, clean, map[], Conversation(n - 1), Observe(0, "g", "o", Utterance(n - 1)));
      UtteranceIsObserved(utf8, clean, n - 1);
    }
  }

  lemma UtteranceIsObserved(utf8: Utf8, clean: Clean, n: nat)
    requires Usual(utf8, clean) && n < 33
    ensures Step(utf8, clean, map["s" := Talking(Talk(n))], Observe(0, "g", "o", Utterance(n)))
            == Outcome(map["s" := Talking(Talk(n + 1))], Done)
  {
    UtteranceIsAccepted(utf8, clean, n, Utterance(n));
    NextIsAdmitted(n);
    hide Step, Talk, Admit, Acceptable, Admitted, Repeated;
    ObserveOnly(utf8, clean, Talking(Talk(n)), Utterance(n), Talking(Talk(n + 1)));
  }

  lemma OpeningOpens(utf8: Utf8, clean: Clean)
    requires Usual(utf8, clean)
    ensures Run(utf8, clean, map[], [OPENING]) == map["s" := Talking([])]
  {
    assert Plain("s") && Plain("g") && Plain("c") && Plain("o") && Plain("a");
    assert Pruned(map[], 0) == map[];
    assert Step(utf8, clean, map[], OPENING).sessions == map["s" := Talking([])];
    hide Step;
    RunMore(utf8, clean, map[], [], OPENING);
  }

  /** The first utterance grows to the longest text a message may have. */
  lemma {:induction false} GrownIsAdmitted(messages: seq<Message>, m: Message)
    requires messages != [] && messages[0] == Utterance(0) && Orderly(Talking(messages)) && Fits(messages)
    requires m == Growth() && Total(messages) > MAX_BYTES - MAX_TEXT + 1
    ensures Admit(Talking(messages), m, 0).Changed? && !Fits(Admit(Talking(messages), m, 0).session.messages)
  {
    hide Trimmed, Arranged, Inserted, Repeated, Total;
    PlaceOf(messages, 0);
    assert Talking(messages).consenting[0] == "a";
    hide InOrder, Spoken, DistinctIds, Fits;
    BytesAfterObserving(Talking(messages), m, 0);
  }

  lemma {:induction false} TalkIsFull()
    ensures Talk(MANY) != [] && Talk(MANY)[0] == Utterance(0) && Orderly(Talking(Talk(MANY))) && Fits(Talk(MANY))
    ensures Total(Talk(MANY)) > MAX_BYTES - MAX_TEXT + 1
  {
    hide Talk, Utterance, Total, InOrder, Spoken, DistinctIds;
    TalkIsOrderly(MANY);
  }

  lemma TalkingIsOpen(messages: seq<Message>)
    ensures
      var s := Talking(messages);
      && s.active && s.guild == "g" && s.origin == "o" && s.updatedAt == 0 && s.messages == messages
  {
  }

  lemma GrownIsObserved(utf8: Utf8, clean: Clean, m: Message) returns (next: Session)
    requires Usual(utf8, clean) && m == Growth()
    ensures Step(utf8, clean, map["s" := Talking(Talk(MANY))], Observe(0, "g", "o", m)) == Outcome(map["s" := next], Done)
    ensures !Fits(next.messages)
  {
    var s := Talking(Talk(MANY));
    hide *;
    TalkingIsOpen(Talk(MANY));
    UtteranceIsAccepted(utf8, clean, 0, m);
    TalkIsFull();
    GrownIsAdmitted(s.messages, m);
    next := Admit(s, m, 0).session;
    ObserveOnly(utf8, clean, s, m, next);
  }

  /** A revision can outgrow the limit: after a start, thirty-one long messages and two short ones, one of which grows. */
  lemma {:induction false} RevisionMayOutgrow(utf8: Utf8, clean: Clean) returns (events: seq<Event>, revision: Event)
    requires Usual(utf8, clean)
    ensures
      var before := Run(utf8, clean, map[], events);
      var outcome := Step(utf8, clean, before, revision);
      && "s" in before && Fits(before["s"].messages)
      && outcome.result == Done && "s" in outcome.sessions && !Fits(outcome.sessions["s"].messages)
  {
    events, revision := Conversation(MANY), Observe(0, "g", "o", Growth());
    assert Talking(Talk(MANY)).messages == Talk(MANY);
    TalkIsReached(utf8, clean, MANY);
    hide *;
    TalkIsFull();
    var next := GrownIsObserved(utf8, clean, Growth());
  }

  // ---- what is refused, and what is kept ---------------------------------------------------------------

  /** One to `n` bytes of UTF-8. */
  ghost predicate Given(utf8: Utf8, v: string, n: nat) { 1 <= |v| <= n && utf8(v) }

  /** What an interface may report as said. */
  ghost predicate Reportable(utf8: Utf8, m: Message) {
    && 0 <= m.sequence <= 1_000_000_000 && m.revision >= 1 && m.status == "final"
    && Given(utf8, m.id, 128) && Given(utf8, m.text, 8000) && Given(utf8, m.speaker, 100) && utf8(m.name)
    && m.start != 0 && m.start <= m.end <= m.start + 30_000_000_000
  }

  /** Touched within the last fifteen minutes. */
  ghost predicate Live(sessions: Sessions, id: string, now: int) {
    id in sessions && now - sessions[id].updatedAt <= 900_000_000_000
  }

  ghost predicate Listens(sessions: Sessions, id: string, now: int, guild: string, origin: string) {
    Live(sessions, id, now) && sessions[id].active && sessions[id].guild == guild && sessions[id].origin == origin
  }

  /** The speaker has consented, or the whole channel is heard and has room for one more. */
  ghost predicate MaySpeak(s: Session, speaker: string) {
    speaker in s.consenting || (s.channelWide && |s.consenting| < 16)
  }

  /** Says something else than what is stored, under the same speaker, place and revision, or skips a revision. */
  ghost predicate Contradicts(prior: Message, m: Message) {
    || prior.speaker != m.speaker || prior.sequence != m.sequence
    || (m.revision == prior.revision && (prior.text != m.text || prior.start != m.start || prior.end != m.end))
    || (m.revision != prior.revision && m.revision != prior.revision + 1)
  }

  ghost predicate Unheard(s: Session, id: string) { forall i :: 0 <= i < |s.messages| ==> s.messages[i].id != id }

  /** A message is refused by the session it is for. */
  ghost predicate Unfit(s: Session, m: Message) {
    || !MaySpeak(s, m.speaker)
    || (Unheard(s, m.id) && m.revision != 1)
    || exists i :: 0 <= i < |s.messages| && s.messages[i].id == m.id && Contradicts(s.messages[i], m)
  }

  /** As it is stored: the name cleaned, nothing about its meaning. */
  function Stored(clean: Clean, m: Message): Message { m.(name := clean(m.name), threads := [], replyTo := "") }

  /** The sessions but this one are as they were, less those nobody touched. */
  ghost predicate OthersStay(sessions: Sessions, after: Sessions, id: string, now: int) {
    forall other :: other != id ==>
      && (other in after <==> Live(sessions, other, now))
      && (other in after ==> after[other] == sessions[other])
  }

  lemma PrunedIsLive(sessions: Sessions, now: int)
    ensures forall id :: id in Pruned(sessions, now) <==> Live(sessions, id, now)
    ensures forall id :: id in Pruned(sessions, now) ==> Pruned(sessions, now)[id] == sessions[id]
  {
  }

  lemma {:induction false} RejectedExactlyWhen(s: Session, m: Message, now: int)
    requires DistinctIds(s.messages)
    ensures Admit(s, m, now) == Rejected <==> Unfit(s, m)
  {
    hide Trimmed, Arranged;
    var at := Place(s.messages, m.id);
    if at < |s.messages| {
      forall i | 0 <= i < |s.messages| && s.messages[i].id == m.id ensures i == at {
        PlaceOf(s.messages, i);
      }
      assert !Unheard(s, m.id);
    }
  }

  /** Which observations are refused. */
  lemma {:induction false} ObservationIsRefusedExactlyWhen(
    utf8: Utf8, clean: Clean, sessions: Sessions, now: int, guild: string, origin: string, m: Message)
    requires Inv(sessions)
    ensures
      var r := Step(utf8, clean, sessions, Observe(now, guild, origin, m)).result;
      && (r == Refused <==>
            || !Reportable(utf8, m) || !Listens(sessions, m.session, now, guild, origin)
            || Unfit(sessions[m.session], m))
      && r != Full
  {
    ReportableIsAcceptable(utf8, m);
    PrunedIsLive(sessions, now);
    hide Admit, Pruned, Acceptable, Reportable, Unfit, Orderly, Inv;
    if m.session in Pruned(sessions, now) {
      InvIsOrderly(sessions, m.session);
      RejectedExactlyWhen(sessions[m.session], Stored(clean, m), now);
      SameFit(sessions[m.session], m, Stored(clean, m));
    }
  }

  lemma ReportableIsAcceptable(utf8: Utf8, m: Message)
    ensures Acceptable(utf8, m) <==> Reportable(utf8, m)
  {
  }

  lemma InvIsOrderly(sessions: Sessions, id: string)
    requires Inv(sessions) && id in sessions
    ensures Orderly(sessions[id]) && sessions[id].id == id
    ensures DistinctIds(sessions[id].messages) && InOrder(sessions[id].messages)
  {
  }

  lemma SameFit(s: Session, m: Message, n: Message)
    requires n == m.(name := n.name, threads := n.threads, replyTo := n.replyTo)
    ensures Unfit(s, m) <==> Unfit(s, n)
  {
    assert forall prior :: Contradicts(prior, m) <==> Contradicts(prior, n);
    hide Contradicts, MaySpeak, Unheard;
  }

  /** The session as the observation leaves it, whatever its messages. */
  ghost predicate Touched(s: Session, after: Session, m: Message, now: int) {
    after == s.(consenting := if m.speaker in s.consenting then s.consenting else s.consenting + [m.speaker],
                messages := after.messages, updatedAt := now)
  }

  lemma ObservedIs(utf8: Utf8, clean: Clean, sessions: Sessions, now: int, guild: string, origin: string, m: Message)
    requires Inv(sessions) && Step(utf8, clean, sessions, Observe(now, guild, origin, m)).result == Done
    ensures
      var after := Step(utf8, clean, sessions, Observe(now, guild, origin, m)).sessions;
      && m.session in sessions && m.session in after && Orderly(sessions[m.session])
      && OthersStay(sessions, after, m.session, now)
      && var a := Admit(sessions[m.session], Stored(clean, m), now);
         && !Unfit(sessions[m.session], Stored(clean, m))
         && after[m.session] == if a.Changed? then a.session else sessions[m.session]
  {
    PrunedIsLive(sessions, now);
    hide Admit, Pruned, Acceptable, Unfit, Orderly, Inv;
    InvIsOrderly(sessions, m.session);
    RejectedExactlyWhen(sessions[m.session], Stored(clean, m), now);
  }

  /** Evidence stored already changes nothing. */
  lemma {:induction false} RepetitionChangesNothing(
    utf8: Utf8, clean: Clean, sessions: Sessions, now: int, guild: string, origin: string, m: Message, i: nat)
    requires Inv(sessions) && Step(utf8, clean, sessions, Observe(now, guild, origin, m)).result == Done
    requires m.session in sessions && i < |sessions[m.session].messages|
    requires sessions[m.session].messages[i].id == m.id && sessions[m.session].messages[i].revision == m.revision
    ensures
      var after := Step(utf8, clean, sessions, Observe(now, guild, origin, m)).sessions;
      && m.session in after && after[m.session] == sessions[m.session]
      && OthersStay(sessions, after, m.session, now)
  {
    ObservedIs(utf8, clean, sessions, now, guild, origin, m);
    hide Step, Inv, OthersStay, Trimmed, Arranged, InOrder, Spoken;
    PlaceOf(sessions[m.session].messages, i);
  }

  /** The next revision replaces exactly the message it revises. */
  lemma {:induction false} RevisionReplaces(
    utf8: Utf8, clean: Clean, sessions: Sessions, now: int, guild: string, origin: string, m: Message, i: nat)
    requires Inv(sessions) && Step(utf8, clean, sessions, Observe(now, guild, origin, m)).result == Done
    requires m.session in sessions && i < |sessions[m.session].messages|
    requires sessions[m.session].messages[i].id == m.id && sessions[m.session].messages[i].revision != m.revision
    ensures
      var s, after := sessions[m.session], Step(utf8, clean, sessions, Observe(now, guild, origin, m)).sessions;
      && m.session in after && Touched(s, after[m.session], m, now)
      && after[m.session].messages == s.messages[i := Stored(clean, m)]
      && OthersStay(sessions, after, m.session, now)
  {
    ObservedIs(utf8, clean, sessions, now, guild, origin, m);
    hide Step, Inv, OthersStay, Trimmed, Arranged, InOrder, Spoken;
    PlaceOf(sessions[m.session].messages, i);
  }

  lemma {:induction false} InsertedSplits(messages: seq<Message>, m: Message) returns (at: nat)
    requires InOrder(messages)
    ensures at <= |messages| && Inserted(messages, m) == messages[..at] + [m] + messages[at..]
    ensures forall j :: 0 <= j < |messages| ==> (j < at <==> messages[j].sequence <= m.sequence)
  {
    at := |messages|;
    if messages != [] && messages[|messages| - 1].sequence > m.sequence {
      var n := |messages| - 1;
      at := InsertedSplits(messages[..n], m);
      assert messages[..n][..at] == messages[..at] && messages[at..] == messages[..n][at..] + [messages[n]];
    }
  }

  /** At most 512 messages and 256000 bytes. */
  ghost predicate Modest(messages: seq<Message>) { |messages| <= 512 && Total(messages) <= 256_000 }

  /** `kept` is the longest end of `all` within the limits. */
  ghost predicate LongestEnd(all: seq<Message>, kept: seq<Message>, k: nat) {
    k <= |all| && kept == all[k..] && Modest(kept) && forall j :: 0 <= j < k ==> !Modest(all[j..])
  }

  /** A new message goes to its place in capture order, and the oldest give way to both limits. */
  lemma {:induction false} NewMessageIsPlaced(
    utf8: Utf8, clean: Clean, sessions: Sessions, now: int, guild: string, origin: string, m: Message)
    returns (at: nat, k: nat)
    requires Inv(sessions) && Step(utf8, clean, sessions, Observe(now, guild, origin, m)).result == Done
    requires m.session in sessions && Unheard(sessions[m.session], m.id)
    ensures
      var s, after := sessions[m.session], Step(utf8, clean, sessions, Observe(now, guild, origin, m)).sessions;
      && m.session in after && Touched(s, after[m.session], m, now)
      && at <= |s.messages|
      && (forall j :: 0 <= j < |s.messages| ==> (j < at <==> s.messages[j].sequence <= m.sequence))
      && LongestEnd(s.messages[..at] + [Stored(clean, m)] + s.messages[at..], after[m.session].messages, k)
      && OthersStay(sessions, after, m.session, now)
  {
    var s, n := sessions[m.session], Stored(clean, m);
    ObservedIs(utf8, clean, sessions, now, guild, origin, m);
    at, k := ArrivesInOrder(s, n);
    assert Place(s.messages, n.id) == |s.messages|;
    hide Step, Inv, OthersStay, Trimmed, Arranged, Orderly, LongestEnd, Place;
  }

  lemma {:induction false} ArrivesInOrder(s: Session, m: Message) returns (at: nat, k: nat)
    requires Orderly(s)
    ensures at <= |s.messages|
    ensures forall j :: 0 <= j < |s.messages| ==> (j < at <==> s.messages[j].sequence <= m.sequence)
    ensures LongestEnd(s.messages[..at] + [m] + s.messages[at..], Trimmed(Arranged(s.messages + [m])), k)
  {
    hide Arranged, Inserted, Trimmed, Total, Spoken;
    ArrangedMore(s.messages, m);
    ArrangedIsStable(s.messages);
    at := InsertedSplits(s.messages, m);
    k := TrimmedIsLongestEnd(Arranged(s.messages + [m]));
  }

  /** Consent and withdrawal are refused exactly for sessions that do not ask for it, and joining when there is no room. */
  lemma ConsentIsAnswered(
    utf8: Utf8, clean: Clean, sessions: Sessions, now: int, id: string, guild: string, origin: string, speaker: string,
    join: bool)
    ensures
      var o := Step(utf8, clean, sessions, Consent(now, id, guild, origin, speaker, join));
      && OthersStay(sessions, o.sessions, id, now) && o.result != Full && (id in o.sessions <==> Live(sessions, id, now))
      && (o.result == Done <==>
            && Listens(sessions, id, now, guild, origin) && !sessions[id].channelWide && Given(utf8, speaker, 100)
            && (!join || speaker in sessions[id].consenting || |sessions[id].consenting| < 16))
      && (o.result == Refused && id in o.sessions ==> o.sessions[id] == sessions[id])
      && (o.result == Done ==> o.sessions[id].updatedAt == now)
      && (o.result == Done && join ==>
            var s := sessions[id];
            o.sessions[id] == s.(consenting := if speaker in s.consenting then s.consenting else s.consenting + [speaker],
                                 updatedAt := now))
  {
    PrunedIsLive(sessions, now);
    hide Pruned, Live, Without, Unspoken;
  }

  /** Only a session of this guild and place is stopped, by someone who has consented or for the whole channel; it is
      forgotten, and nothing else is. */
  lemma StopIsAnswered(
    utf8: Utf8, clean: Clean, sessions: Sessions, id: string, guild: string, origin: string, speaker: string)
    ensures
      var o := Step(utf8, clean, sessions, Stop(id, guild, origin, speaker));
      && (o.result == Done <==>
            && id in sessions && sessions[id].guild == guild && sessions[id].origin == origin
            && Given(utf8, speaker, 100) && (sessions[id].channelWide || speaker in sessions[id].consenting))
      && o.result != Full
      && (forall other :: other in o.sessions <==> other in sessions && !(other == id && o.result == Done))
      && (forall other :: other in o.sessions ==> o.sessions[other] == sessions[other])
  {
  }

  /** A session starts with its starter's consent and no messages; a second start of the same one changes nothing. */
  lemma StartIsAnswered(
    utf8: Utf8, clean: Clean, sessions: Sessions, now: int, id: string, guild: string, channel: string, origin: string,
    speaker: string, channelWide: bool)
    requires Given(utf8, id, 128) && Given(utf8, guild, 100) && Given(utf8, channel, 100) && Given(utf8, origin, 100)
    requires Given(utf8, speaker, 100)
    ensures
      var o := Step(utf8, clean, sessions, Start(now, id, guild, channel, origin, speaker, channelWide));
      && OthersStay(sessions, o.sessions, id, now)
      && (Live(sessions, id, now) ==>
            && id in o.sessions && o.sessions[id] == sessions[id] && o.result != Full
            && var s := sessions[id];
               (o.result == Done <==> s.active && (s.guild, s.channel, s.origin, s.startedBy, s.channelWide)
                                                  == (guild, channel, origin, speaker, channelWide)))
      && (!Live(sessions, id, now) ==>
            && (id in o.sessions <==> o.result == Done)
            && (o.result == Full <==> |Pruned(sessions, now)| >= 32) && o.result != Refused
            && (o.result == Done ==>
                  o.sessions[id] == Session(channelWide, speaker, id, guild, channel, origin, "observer", true, [speaker], [], now)))
  {
    PrunedIsLive(sessions, now);
    hide Pruned, Live;
  }

  lemma StartsAreWhole(
    utf8: Utf8, clean: Clean, sessions: Sessions, now: int, id: string, guild: string, channel: string, origin: string,
    speaker: string, channelWide: bool)
    requires !(Given(utf8, id, 128) && Given(utf8, guild, 100) && Given(utf8, channel, 100) && Given(utf8, origin, 100)
               && Given(utf8, speaker, 100))
    ensures Step(utf8, clean, sessions, Start(now, id, guild, channel, origin, speaker, channelWide))
            == Outcome(sessions, Refused)
  {
  }

  // ---- what a snapshot shows ---------------------------------------------------------------------------

  /** The end of the messages that what is left of the budgets allows. */
  function Visible(messages: seq<Message>, remaining: nat, budget: nat): (r: seq<Message>)
    ensures |r| <= remaining && Total(r) <= budget
  {
    if messages == [] then []
    else
      var n := |messages| - 1;
      if remaining == 0 || |messages[n].text| > budget then []
      else Visible(messages[..n], remaining - 1, budget - |messages[n].text|) + [messages[n]]
  }

  lemma TotalBack(messages: seq<Message>, m: Message)
    ensures Total(messages + [m]) == Total(messages) + |m.text|
  {
    assert (messages + [m])[..|messages|] == messages;
  }

  lemma VisibleNone(messages: seq<Message>, remaining: nat, budget: nat)
    requires messages == [] || remaining == 0 || |messages[|messages| - 1].text| > budget
    ensures Visible(messages, remaining, budget) == []
  {
  }

  lemma VisibleOne(messages: seq<Message>, remaining: nat, budget: nat)
    requires messages != [] && remaining > 0 && |messages[|messages| - 1].text| <= budget
    ensures
      var n := |messages| - 1;
      Visible(messages, remaining, budget)
      == Visible(messages[..n], remaining - 1, budget - |messages[n].text|) + [messages[n]]
  {
    hide Total;
  }

  /** `k` is where the longest end within the budgets starts. */
  predicate EndsAt(messages: seq<Message>, remaining: nat, budget: nat, shown: seq<Message>, k: nat) {
    && k <= |messages| && shown == messages[k..]
    && (k > 0 ==> |shown| == remaining || |messages[k - 1].text| + Total(shown) > budget)
  }

  lemma {:induction false} EndStops(messages: seq<Message>, remaining: nat, budget: nat)
    requires messages == [] || remaining == 0 || |messages[|messages| - 1].text| > budget
    ensures EndsAt(messages, remaining, budget, Visible(messages, remaining, budget), |messages|)
  {
    VisibleNone(messages, remaining, budget);
  }

  lemma {:induction false} EndGrows(front: seq<Message>, m: Message, remaining: nat, budget: nat, shown: seq<Message>, k: nat)
    requires EndsAt(front, remaining, budget, shown, k)
    ensures EndsAt(front + [m], remaining + 1, budget + |m.text|, shown + [m], k)
  {
    hide Total;
    TotalBack(shown, m);
    assert (front + [m])[k..] == shown + [m];
  }

  /** Nothing newer is left out, and nothing older that there was room for. */
  lemma {:induction false} VisibleIsLongestEnd(messages: seq<Message>, remaining: nat, budget: nat) returns (k: nat)
    ensures EndsAt(messages, remaining, budget, Visible(messages, remaining, budget), k)
  {
    hide *;
    if messages == [] || remaining == 0 || |messages[|messages| - 1].text| > budget {
      EndStops(messages, remaining, budget);
      k := |messages|;
    } else {
      VisibleOne(messages, remaining, budget);
      var n := |messages| - 1;
      var m := messages[n];
      k := VisibleIsLongestEnd(messages[..n], remaining - 1, budget - |m.text|);
      EndGrows(messages[..n], m, remaining - 1, budget - |m.text|, Visible(messages[..n], remaining - 1, budget - |m.text|), k);
      assert messages[..n] + [m] == messages;
    }
  }

  /** Sessions share the budgets, in the order given. */
  function Shown(sessions: Sessions, ids: seq<string>, remaining: nat, budget: nat): seq<Session>
    requires forall i :: 0 <= i < |ids| ==> ids[i] in sessions
  {
    if ids == [] then []
    else
      var s := sessions[ids[0]];
      var visible := Visible(s.messages, remaining, budget);
      [s.(messages := visible)] + Shown(sessions, ids[1..], remaining - |visible|, budget - Total(visible))
  }

  function Count(shown: seq<Session>): nat {
    if shown == [] then 0 else |shown[0].messages| + Count(shown[1..])
  }

  function Bytes(shown: seq<Session>): nat {
    if shown == [] then 0 else Total(shown[0].messages) + Bytes(shown[1..])
  }

  lemma NothingCounted()
    ensures Count([]) == 0 && Bytes([]) == 0
  {
  }

  lemma CountedOneMore(first: Session, rest: seq<Session>)
    ensures Count([first] + rest) == |first.messages| + Count(rest)
    ensures Bytes([first] + rest) == Total(first.messages) + Bytes(rest)
  {
    hide Total;
    assert ([first] + rest)[1..] == rest;
  }

  /** All that is shown together is within the two budgets. */
  lemma {:induction false} ShownWithinBudgets(sessions: Sessions, ids: seq<string>, remaining: nat, budget: nat)
    requires forall i :: 0 <= i < |ids| ==> ids[i] in sessions
    ensures
      var shown := Shown(sessions, ids, remaining, budget);
      |shown| == |ids| && Count(shown) <= remaining && Bytes(shown) <= budget
  {
    hide Visible, Count, Bytes, Total;
    NothingCounted();
    if ids != [] {
      var visible := Visible(sessions[ids[0]].messages, remaining, budget);
      ShownWithinBudgets(sessions, ids[1..], remaining - |visible|, budget - Total(visible));
      var rest := Shown(sessions, ids[1..], remaining - |visible|, budget - Total(visible));
      CountedOneMore(sessions[ids[0]].(messages := visible), rest);
    }
  }

  /** Each session shows the newest of its own messages, and is otherwise as it is. */
  lemma {:induction false} ShownAreEnds(sessions: Sessions, ids: seq<string>, remaining: nat, budget: nat, i: nat)
    requires forall i :: 0 <= i < |ids| ==> ids[i] in sessions
    requires i < |ids|
    ensures
      var shown := Shown(sessions, ids, remaining, budget);
      i < |shown| && IsEnd(shown[i], sessions[ids[i]])
  {
    hide Visible, IsEnd;
    var s := sessions[ids[0]];
    var visible := Visible(s.messages, remaining, budget);
    if i == 0 {
      var k := VisibleIsLongestEnd(s.messages, remaining, budget);
      EndOf(s, k);
    } else {
      ShownAreEnds(sessions, ids[1..], remaining - |visible|, budget - Total(visible), i - 1);
    }
  }

  /** The same session with only the newest of its messages. */
  ghost predicate IsEnd(shown: Session, s: Session) {
    exists k: nat :: k <= |s.messages| && shown == s.(messages := s.messages[k..])
  }

  lemma EndOf(s: Session, k: nat)
    requires k <= |s.messages|
    ensures IsEnd(s.(messages := s.messages[k..]), s)
  {
  }

  /** All the sessions, the latest touched first. */
  predicate NewestFirst(sessions: Sessions, ids: seq<string>) {
    && DistinctNames(ids)
    && (forall i :: 0 <= i < |ids| ==> ids[i] in sessions)
    && (forall id :: id in sessions ==> id in ids)
    && (forall i, j :: 0 <= i < j < |ids| ==>
        ids[i] in sessions && ids[j] in sessions && sessions[ids[j]].updatedAt <= sessions[ids[i]].updatedAt)
  }

  // ---- the engine --------------------------------------------------------------------------------------

  class ConversationContextEngine {
    const utf8: Utf8
    const clean: Clean
    var sessions: Sessions

    constructor (utf8: Utf8, clean: Clean)
      ensures this.utf8 == utf8 && this.clean == clean && sessions == map[]
    {
      this.utf8 := utf8;
      this.clean := clean;
      sessions := map[];
    }

    method Prune(now: int)
      modifies `sessions
      ensures sessions == Pruned(old(sessions), now)
    {
      ghost var all := sessions;
      var ids := sessions.Keys;
      while ids != {}
        invariant ids <= all.Keys && sessions.Keys <= all.Keys
        invariant forall id :: id in sessions ==> sessions[id] == all[id]
        invariant forall id :: id in ids ==> id in sessions
        invariant forall id :: id in all && id !in ids ==> (id in sessions <==> Fresh(all[id], now))
        decreases |ids|
      {
        var id :| id in ids;
        if now - sessions[id].updatedAt > IDLE {
          sessions := sessions - {id};
        }
        ids := ids - {id};
      }
      assert sessions == Pruned(all, now);
    }

    static method Allowed(s: Session, speaker: string) returns (found: bool)
      ensures found == (speaker in s.consenting)
    {
      for i := 0 to |s.consenting|
        invariant forall j :: 0 <= j < i ==> s.consenting[j] != speaker
      {
        if s.consenting[i] == speaker {
          return true;
        }
      }
      return false;
    }

    method StartSession(
      now: int, id: string, guild: string, channel: string, origin: string, speaker: string, channelWide: bool)
      returns (r: Result)
      modifies `sessions
      ensures Outcome(sessions, r) == Step(utf8, clean, old(sessions), Start(now, id, guild, channel, origin, speaker, channelWide))
    {
      if !Bounded(utf8, id, 128) || !Bounded(utf8, guild, 100) || !Bounded(utf8, channel, 100)
         || !Bounded(utf8, origin, 100) || !Bounded(utf8, speaker, 100) {
        return Refused;
      }
      Prune(now);
      if id in sessions {
        var prior := sessions[id];
        if prior.guild == guild && prior.channel == channel && prior.origin == origin && prior.startedBy == speaker
           && prior.channelWide == channelWide && prior.active {
          return Done;
        }
        return Refused;
      }
      if |sessions| >= MAX_SESSIONS {
        return Full;
      }
      sessions := sessions[id := Session(channelWide, speaker, id, guild, channel, origin, "observer", true, [speaker], [], now)];
      return Done;
    }

    static method MembersWithout(s: Session, speaker: string) returns (members: seq<string>)
      ensures members == Without(s.consenting, speaker)
    {
      members := [];
      for i := 0 to |s.consenting|
        invariant members == Without(s.consenting[..i], speaker)
      {
        assert s.consenting[..i + 1][..i] == s.consenting[..i];
        if s.consenting[i] != speaker {
          members := members + [s.consenting[i]];
        }
      }
      assert s.consenting[..|s.consenting|] == s.consenting;
    }

    static method MessagesWithout(s: Session, speaker: string) returns (messages: seq<Message>)
      ensures messages == Unspoken(s.messages, speaker)
    {
      messages := [];
      for i := 0 to |s.messages|
        invariant messages == Unspoken(s.messages[..i], speaker)
      {
        assert s.messages[..i + 1][..i] == s.messages[..i];
        if s.messages[i].speaker != speaker {
          messages := messages + [s.messages[i]];
        }
      }
      assert s.messages[..|s.messages|] == s.messages;
    }

    method ConsentTo(now: int, id: string, guild: string, origin: string, speaker: string, join: bool) returns (r: Result)
      modifies `sessions
      ensures Outcome(sessions, r) == Step(utf8, clean, old(sessions), Consent(now, id, guild, origin, speaker, join))
    {
      hide Pruned, Without, Unspoken;
      Prune(now);
      if id !in sessions {
        return Refused;
      }
      var s := sessions[id];
      if !s.active || s.channelWide || s.guild != guild || s.origin != origin || !Bounded(utf8, speaker, 100) {
        return Refused;
      }
      if join {
        var already := Allowed(s, speaker);
        if !already {
          if |s.consenting| >= MAX_SPEAKERS {
            return Refused;
          }
          s := s.(consenting := s.consenting + [speaker]);
        }
      } else {
        var members := MembersWithout(s, speaker);
        var messages := MessagesWithout(s, speaker);
        s := s.(consenting := members, messages := messages);
      }
      s := s.(updatedAt := now);
      sessions := sessions[id := s];
      return Done;
    }

    /** The oldest messages give way until both limits are met. */
    static method Evict(messages: seq<Message>) returns (kept: seq<Message>)
      ensures kept == Trimmed(messages)
    {
      var total := 0;
      for i := 0 to |messages|
        invariant total == Total(messages[..i])
      {
        assert messages[..i + 1][..i] == messages[..i];
        total := total + |messages[i].text|;
      }
      assert messages[..|messages|] == messages;
      kept := messages;
      while |kept| > MAX_MESSAGES || total > MAX_BYTES
        invariant total == Total(kept) && Trimmed(kept) == Trimmed(messages)
        decreases |kept|
      {
        TotalFront(kept);
        total := total - |kept[0].text|;
        kept := kept[1..];
      }
    }

    /** What one observation does to its session. */
    static method Take(s: Session, m: Message, now: int) returns (a: Admission)
      ensures a == Admit(s, m, now)
    {
      hide Arranged, Trimmed;
      var allowed := Allowed(s, m.speaker);
      var consenting := s.consenting;
      if !allowed {
        if !s.channelWide || |s.consenting| >= MAX_SPEAKERS {
          return Rejected;
        }
        consenting := consenting + [m.speaker];
      }
      for i := 0 to |s.messages|
        invariant forall j :: 0 <= j < i ==> s.messages[j].id != m.id
      {
        var prior := s.messages[i];
        if prior.id == m.id {
          assert Place(s.messages, m.id) == i;
          if prior.speaker != m.speaker || prior.sequence != m.sequence {
            return Rejected;
          }
          if m.revision == prior.revision {
            if prior.text == m.text && prior.start == m.start && prior.end == m.end {
              return Known;
            }
            return Rejected;
          }
          if m.revision != prior.revision + 1 {
            return Rejected;
          }
          return Changed(s.(consenting := consenting, messages := s.messages[i := m], updatedAt := now));
        }
      }
      assert Place(s.messages, m.id) == |s.messages|;
      if m.revision != 1 {
        return Rejected;
      }
      var messages := Evict(Arranged(s.messages + [m]));
      return Changed(s.(consenting := consenting, messages := messages, updatedAt := now));
    }

    method ObserveMessage(now: int, guild: string, origin: string, message: Message) returns (r: Result)
      modifies `sessions
      ensures Outcome(sessions, r) == Step(utf8, clean, old(sessions), Observe(now, guild, origin, message))
    {
      hide Pruned, Admit;
      var m := message;
      if m.sequence < 0 || m.sequence > 1_000_000_000 || !Bounded(utf8, m.id, 128) || !Bounded(utf8, m.text, MAX_TEXT)
         || !Bounded(utf8, m.speaker, 100) || m.status != "final" || m.revision < 1 || m.start == ZERO_TIME
         || m.end < m.start || m.end - m.start > 30 * SECOND {
        return Refused;
      }
      if !utf8(m.name) {
        return Refused;
      }
      m := m.(name := clean(m.name), threads := [], replyTo := "");
      Prune(now);
      if m.session !in sessions {
        return Refused;
      }
      var s := sessions[m.session];
      if !s.active || s.guild != guild || s.origin != origin {
        return Refused;
      }
      var a := Take(s, m, now);
      match a {
        case Rejected => return Refused;
        case Known => return Done;
        case Changed(after) =>
          sessions := sessions[m.session := after];
          return Done;
      }
    }

    method StopSession(id: string, guild: string, origin: string, speaker: string) returns (r: Result)
      modifies `sessions
      ensures Outcome(sessions, r) == Step(utf8, clean, old(sessions), Stop(id, guild, origin, speaker))
    {
      if id !in sessions {
        return Refused;
      }
      var s := sessions[id];
      var allowed := Allowed(s, speaker);
      if s.guild != guild || s.origin != origin || !Bounded(utf8, speaker, 100) || (!s.channelWide && !allowed) {
        return Refused;
      }
      sessions := sessions - {id};
      return Done;
    }

    /** The sessions' names, the latest touched first; the order of equals is not determined. */
    method Newest() returns (ordered: seq<string>)
      ensures NewestFirst(sessions, ordered)
    {
      var ids := sessions.Keys;
      ordered := [];
      while ids != {}
        invariant Listing(sessions, ordered, ids)
        decreases |ids|
      {
        LatestExists(sessions, ids);
        var id :| id in ids && Latest(sessions, ids, id);
        ListingGrows(sessions, ordered, ids, id);
        ordered := ordered + [id];
        ids := ids - {id};
      }
    }

    /** The newest messages the budgets allow, gathered from the end and then turned round. */
    static method ShowEnd(messages: seq<Message>, remaining: nat, budget: nat)
      returns (visible: seq<Message>, left: nat, bytes: nat)
      ensures visible == Visible(messages, remaining, budget)
      ensures left == remaining - |visible| && bytes == budget - Total(visible)
    {
      hide *;
      var backwards: seq<Message> := [];
      left, bytes := remaining, budget;
      var i := |messages|;
      WalkStarts(messages, remaining, budget);
      while i > 0
        invariant 0 <= i <= |messages| && Walked(messages, remaining, budget, i, left, bytes, backwards)
      {
        var m := messages[i - 1];
        if left == 0 || |m.text| > bytes {
          break;
        }
        WalkGoesOn(messages, remaining, budget, i, left, bytes, backwards);
        bytes := bytes - |m.text|;
        left := left - 1;
        backwards := backwards + [m];
        i := i - 1;
      }
      WalkEnds(messages, remaining, budget, i, left, bytes, backwards);
      visible := TurnRound(backwards);
    }

    static method TurnRound(v: seq<Message>) returns (w: seq<Message>)
      ensures w == Reversed(v)
    {
      hide Reversed;
      w := v;
      var n := |v|;
      var i, j := 0, n - 1;
      while i < j
        invariant |w| == n && 0 <= i <= j + 1 && i + j == n - 1
        invariant forall k :: 0 <= k < i ==> w[k] == v[n - 1 - k]
        invariant forall k :: j < k < n ==> w[k] == v[n - 1 - k]
        invariant forall k :: i <= k <= j ==> w[k] == v[k]
      {
        w := w[i := w[j]][j := w[i]];
        i, j := i + 1, j - 1;
      }
      TurnedIsReversed(v, w);
    }

    method Snapshot(now: int) returns (out: seq<Session>, ghost ordered: seq<string>)
      modifies `sessions
      ensures sessions == Pruned(old(sessions), now)
      ensures NewestFirst(sessions, ordered) && out == Shown(sessions, ordered, MAX_MESSAGES, MAX_BYTES)
    {
      hide Pruned, Visible, Total, NewestFirst, Shown;
      Prune(now);
      ghost var live := sessions;
      var ids := Newest();
      ordered := ids;
      NewestAreLive(sessions, ids);
      out := [];
      var remaining, budget := MAX_MESSAGES, MAX_BYTES;
      assert ids[0..] == ids;
      for i := 0 to |ids|
        invariant sessions == live && 0 <= remaining && 0 <= budget
        invariant out + Shown(live, ids[i..], remaining, budget) == Shown(live, ids, MAX_MESSAGES, MAX_BYTES)
      {
        var s := sessions[ids[i]];
        var visible, left, bytes := ShowEnd(s.messages, remaining, budget);
        ShownOne(live, ids, i, remaining, budget);
        out := out + [s.(messages := visible)];
        remaining, budget := left, bytes;
      }
      NoneShown(live, ids[|ids|..], remaining, budget);
    }
  }

  lemma NewestAreLive(sessions: Sessions, ids: seq<string>)
    requires NewestFirst(sessions, ids)
    ensures forall i :: 0 <= i < |ids| ==> ids[i] in sessions
  {
  }

  lemma NoneShown(sessions: Sessions, ids: seq<string>, remaining: nat, budget: nat)
    requires ids == []
    ensures Shown(sessions, ids, remaining, budget) == []
  {
  }

  /** The names listed so far are newer than those still to be listed. */
  predicate Listing(sessions: Sessions, ordered: seq<string>, ids: set<string>) {
    && ids <= sessions.Keys && DistinctNames(ordered)
    && (forall i :: 0 <= i < |ordered| ==> ordered[i] in sessions && ordered[i] !in ids)
    && (forall id :: id in sessions ==> id in ids || id in ordered)
    && (forall i, j :: 0 <= i < j < |ordered| ==> sessions[ordered[j]].updatedAt <= sessions[ordered[i]].updatedAt)
    && (forall i, id :: 0 <= i < |ordered| && id in ids ==> sessions[id].updatedAt <= sessions[ordered[i]].updatedAt)
  }

  lemma {:induction false} ListingGrows(sessions: Sessions, ordered: seq<string>, ids: set<string>, id: string)
    requires Listing(sessions, ordered, ids) && id in ids && Latest(sessions, ids, id)
    ensures Listing(sessions, ordered + [id], ids - {id})
  {
    var longer := ordered + [id];
    assert longer[|ordered|] == id && forall i :: 0 <= i < |ordered| ==> longer[i] == ordered[i];
    assert DistinctNames(longer);
    hide DistinctNames;
    forall other | other in sessions && other !in ids - {id} ensures other in longer {
      if other != id {
        assert other in ordered;
      }
    }
  }

  predicate Latest(sessions: Sessions, ids: set<string>, id: string)
    requires ids <= sessions.Keys
  {
    id in sessions && forall other :: other in ids ==> sessions[other].updatedAt <= sessions[id].updatedAt
  }

  lemma {:induction false} LatestExists(sessions: Sessions, ids: set<string>)
    requires ids <= sessions.Keys && ids != {}
    ensures exists id :: id in ids && Latest(sessions, ids, id)
    decreases |ids|
  {
    var some :| some in ids;
    var rest := ids - {some};
    var id := some;
    if rest != {} {
      LatestExists(sessions, rest);
      var best :| best in rest && Latest(sessions, rest, best);
      if sessions[best].updatedAt > sessions[some].updatedAt {
        id := best;
      }
    }
    assert forall other :: other in ids ==> other == some || other in rest;
    assert Latest(sessions, ids, id);
  }

  function Reversed(v: seq<Message>): seq<Message> {
    if v == [] then [] else [v[|v| - 1]] + Reversed(v[..|v| - 1])
  }

  lemma {:induction false} ReversedLength(v: seq<Message>)
    ensures |Reversed(v)| == |v|
  {
    if v != [] {
      ReversedLength(v[..|v| - 1]);
    }
  }

  lemma {:induction false} ReversedAt(v: seq<Message>, k: nat)
    requires k < |v|
    ensures |Reversed(v)| == |v| && Reversed(v)[k] == v[|v| - 1 - k]
  {
    ReversedLength(v);
    if k > 0 {
      ReversedAt(v[..|v| - 1], k - 1);
    }
  }

  lemma {:induction false} TurnedIsReversed(v: seq<Message>, w: seq<Message>)
    requires |w| == |v| && forall k :: 0 <= k < |v| ==> w[k] == v[|v| - 1 - k]
    ensures w == Reversed(v)
  {
    if v != [] {
      TurnedIsReversed(v[..|v| - 1], w[1..]);
      assert w == [w[0]] + w[1..];
    }
  }

  /** What a walk back through the messages still has to find, before what it has found. */
  function Gathered(messages: seq<Message>, left: nat, bytes: nat, backwards: seq<Message>): seq<Message> {
    Visible(messages, left, bytes) + Reversed(backwards)
  }

  lemma GatheredStart(messages: seq<Message>, left: nat, bytes: nat)
    ensures Gathered(messages, left, bytes, []) == Visible(messages, left, bytes) && Total(Reversed([])) == 0
  {
  }

  lemma GatheredEnd(messages: seq<Message>, left: nat, bytes: nat, backwards: seq<Message>)
    requires messages == [] || left == 0 || |messages[|messages| - 1].text| > bytes
    ensures Gathered(messages, left, bytes, backwards) == Reversed(backwards) && |Reversed(backwards)| == |backwards|
  {
    VisibleNone(messages, left, bytes);
    ReversedLength(backwards);
  }

  /** Between the start and `i`, the walk back still has to find what the budgets left allow. */
  predicate Walked(messages: seq<Message>, remaining: nat, budget: nat, i: nat, left: nat, bytes: nat, backwards: seq<Message>) {
    && i <= |messages| && left == remaining - |backwards| && bytes == budget - Total(Reversed(backwards))
    && Gathered(messages[..i], left, bytes, backwards) == Visible(messages, remaining, budget)
  }

  lemma WalkStarts(messages: seq<Message>, remaining: nat, budget: nat)
    ensures Walked(messages, remaining, budget, |messages|, remaining, budget, [])
  {
    assert messages[..|messages|] == messages;
    GatheredStart(messages, remaining, budget);
    hide Gathered, Visible;
  }

  lemma {:induction false} WalkGoesOn(
    messages: seq<Message>, remaining: nat, budget: nat, i: nat, left: nat, bytes: nat, backwards: seq<Message>)
    requires Walked(messages, remaining, budget, i, left, bytes, backwards)
    requires i > 0 && left > 0 && |messages[i - 1].text| <= bytes
    ensures Walked(messages, remaining, budget, i - 1, left - 1, bytes - |messages[i - 1].text|, backwards + [messages[i - 1]])
  {
    hide Gathered, Visible, Total, Reversed;
    assert messages[..i][..i - 1] == messages[..i - 1] && messages[..i][i - 1] == messages[i - 1];
    OneMoreBack(messages[..i], left, bytes, backwards);
  }

  lemma {:induction false} WalkEnds(
    messages: seq<Message>, remaining: nat, budget: nat, i: nat, left: nat, bytes: nat, backwards: seq<Message>)
    requires Walked(messages, remaining, budget, i, left, bytes, backwards)
    requires i == 0 || left == 0 || |messages[i - 1].text| > bytes
    ensures Reversed(backwards) == Visible(messages, remaining, budget)
    ensures var r := Reversed(backwards); left == remaining - |r| && bytes == budget - Total(r)
  {
    hide Gathered, Visible, Total, Reversed;
    GatheredEnd(messages[..i], left, bytes, backwards);
  }

  lemma ShownOne(sessions: Sessions, ids: seq<string>, i: nat, remaining: nat, budget: nat)
    requires forall i :: 0 <= i < |ids| ==> ids[i] in sessions
    requires i < |ids|
    ensures
      var s := sessions[ids[i]];
      var visible := Visible(s.messages, remaining, budget);
      Shown(sessions, ids[i..], remaining, budget)
      == [s.(messages := visible)] + Shown(sessions, ids[i + 1..], remaining - |visible|, budget - Total(visible))
  {
    hide Visible, Total;
    assert ids[i..][1..] == ids[i + 1..];
  }

  lemma {:induction false} ReversedMore(backwards: seq<Message>, m: Message)
    ensures Reversed(backwards + [m]) == [m] + Reversed(backwards)
    ensures Total(Reversed(backwards + [m])) == |m.text| + Total(Reversed(backwards))
  {
    assert (backwards + [m])[..|backwards|] == backwards;
    assert Reversed(backwards + [m]) == [m] + Reversed(backwards);
    hide Total, Reversed;
    TotalFront([m] + Reversed(backwards));
    assert ([m] + Reversed(backwards))[1..] == Reversed(backwards);
  }

  lemma {:induction false} OneMoreBack(messages: seq<Message>, left: nat, bytes: nat, backwards: seq<Message>)
    requires messages != [] && left > 0 && |messages[|messages| - 1].text| <= bytes
    ensures
      var n := |messages| - 1;
      var m := messages[n];
      && Gathered(messages, left, bytes, backwards) == Gathered(messages[..n], left - 1, bytes - |m.text|, backwards + [m])
      && Total(Reversed(backwards + [m])) == |m.text| + Total(Reversed(backwards))
  {
    VisibleOne(messages, left, bytes);
    hide Total, Reversed, Visible;
    ReversedMore(backwards, messages[|messages| - 1]);
  }
}
