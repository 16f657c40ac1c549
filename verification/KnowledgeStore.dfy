/** The knowledge store's tables with the triggers that keep the keyword index, and the service's cached matrix of
    embeddings. */
module KnowledgeStore {
  import opened Wrappers

  /** A stored vector; what is in it does not matter here. */
  type Vector = seq<int>

  datatype Document = Document(id: int, title: string, kind: string, hash: string, metadata: string)

  datatype Row = Row(document: int, position: nat, heading: string, text: string, embedding: Option<Vector>, model: string)

  /** What the keyword index holds of a chunk. */
  datatype Entry = Entry(text: string, heading: string)

  type Index = map<int, multiset<Entry>>

  datatype Tables = Tables(documents: map<string, Document>, rows: map<int, Row>, index: Index, version: nat)

  datatype NewChunk = NewChunk(position: nat, heading: string, text: string)

  // ---- rows in their order -----------------------------------------------------------------------------

  predicate Least(ids: set<int>, m: int) { m in ids && forall x :: x in ids ==> m <= x }

  lemma SomeIn(ids: set<int>)
    ensures ids == {} || exists x :: x in ids
  {
    if forall x :: x !in ids {
      assert ids == {};
    }
  }

  lemma {:induction false} LeastExists(ids: set<int>)
    requires ids != {}
    ensures exists m :: Least(ids, m)
    decreases |ids|
  {
    SomeIn(ids);
    var x :| x in ids;
    var rest := ids - {x};
    assert forall y :: y in ids <==> y == x || y in rest;
    if rest == {} {
      assert Least(ids, x);
    } else {
      LeastExists(rest);
      var m :| Least(rest, m);
      assert Least(ids, if x < m then x else m);
    }
  }

  /** The numbers in increasing order. */
  function Sorted(ids: set<int>): seq<int>
    decreases |ids|
  {
    if ids == {} then []
    else
      LeastExists(ids);
      var m :| Least(ids, m);
      [m] + Sorted(ids - {m})
  }

  predicate Increasing(xs: seq<int>) {
    forall i, j :: 0 <= i < j < |xs| ==> xs[i] < xs[j]
  }

  lemma {:induction false} SortedIs(ids: set<int>)
    ensures Increasing(Sorted(ids)) && forall x :: x in Sorted(ids) <==> x in ids
    decreases |ids|
  {
    if ids != {} {
      LeastExists(ids);
      var m :| Least(ids, m);
      SortedIs(ids - {m});
      var rest := Sorted(ids - {m});
      assert Sorted(ids) == [m] + rest;
      forall j | 0 <= j < |rest| ensures m < rest[j] {
        assert rest[j] in rest;
      }
    }
  }

  lemma LeastIsFirst(xs: seq<int>, ids: set<int>, m: int)
    requires Increasing(xs) && (forall x :: x in xs <==> x in ids) && Least(ids, m)
    ensures xs != [] && xs[0] == m && forall x :: x in xs[1..] <==> x in ids - {m}
  {
    var k :| 0 <= k < |xs| && xs[k] == m;
    assert xs[0] in ids;
    forall x ensures x in xs[1..] <==> x in ids - {m} {
      if x in ids - {m} {
        var j :| 0 <= j < |xs| && xs[j] == x;
        assert xs[1..][j - 1] == x;
      }
    }
  }

  /** One increasing list for a set of numbers. */
  lemma {:induction false} SortedIsOnly(xs: seq<int>, ids: set<int>)
    requires Increasing(xs) && forall x :: x in xs <==> x in ids
    ensures Sorted(ids) == xs
    decreases |ids|
  {
    assert |xs| > 0 ==> xs[0] in xs && xs[0] in ids;
    if ids != {} {
      LeastExists(ids);
      var m :| Least(ids, m);
      LeastIsFirst(xs, ids, m);
      hide Least;
      SortedIsOnly(xs[1..], ids - {m});
      assert xs == [m] + xs[1..];
    }
  }

  function NextId(ids: set<int>): int {
    if ids == {} then 1 else var xs := Sorted(ids); if xs == [] then 1 else xs[|xs| - 1] + 1
  }

  lemma NextIdIsNew(ids: set<int>)
    ensures NextId(ids) !in ids && forall x :: x in ids ==> x < NextId(ids)
  {
    SortedIs(ids);
    var xs := Sorted(ids);
    forall x | x in ids ensures x < NextId(ids) {
      assert x in xs;
      var i :| 0 <= i < |xs| && xs[i] == x;
    }
  }

  // ---- the triggers ------------------------------------------------------------------------------------

  function Entries(index: Index, id: int): multiset<Entry> { if id in index then index[id] else multiset{} }

  function EntryOf(r: Row): Entry { Entry(r.text, r.heading) }

  function Indexed(index: Index, id: int, e: Entry): Index { index[id := Entries(index, id) + multiset{e}] }

  function Unindexed(index: Index, id: int, e: Entry): Index { index[id := Entries(index, id) - multiset{e}] }

  /** One entry for every chunk, of its current text and heading; none for anything else. */
  ghost predicate Mirrors(index: Index, rows: map<int, Row>) {
    forall id :: Entries(index, id) == if id in rows then multiset{Entry(rows[id].text, rows[id].heading)} else multiset{}
  }

  function InsertRow(t: Tables, id: int, r: Row): Tables {
    t.(rows := t.rows[id := r], index := Indexed(t.index, id, EntryOf(r)))
  }

  function DeleteRow(t: Tables, id: int): Tables {
    if id in t.rows then t.(rows := t.rows - {id}, index := Unindexed(t.index, id, EntryOf(t.rows[id]))) else t
  }

  lemma InsertKeepsMirror(t: Tables, id: int, r: Row)
    requires Mirrors(t.index, t.rows) && id !in t.rows
    ensures Mirrors(InsertRow(t, id, r).index, InsertRow(t, id, r).rows)
  {
  }

  lemma DeleteKeepsMirror(t: Tables, id: int)
    requires Mirrors(t.index, t.rows)
    ensures Mirrors(DeleteRow(t, id).index, DeleteRow(t, id).rows)
  {
  }

  // ---- the statements ----------------------------------------------------------------------------------

  function RowsOf(t: Tables, document: int): set<int> {
    set id | id in t.rows && t.rows[id].document == document
  }

  /** One row after the other, in the order of their numbers, each firing the trigger. */
  function DeleteAll(t: Tables, ids: seq<int>): Tables {
    if ids == [] then t else DeleteRow(DeleteAll(t, ids[..|ids| - 1]), ids[|ids| - 1])
  }

  function DeleteRows(t: Tables, document: int): Tables { DeleteAll(t, Sorted(RowsOf(t, document))) }

  function NewRow(document: int, c: NewChunk): Row { Row(document, c.position, c.heading, c.text, None, "") }

  function InsertRows(t: Tables, document: int, chunks: seq<NewChunk>): Tables {
    if chunks == [] then t
    else
      var before := InsertRows(t, document, chunks[..|chunks| - 1]);
      InsertRow(before, NextId(before.rows.Keys), NewRow(document, chunks[|chunks| - 1]))
  }

  function DocumentIds(documents: map<string, Document>): set<int> {
    set source | source in documents :: documents[source].id
  }

  function Replaced(
    t: Tables, source: string, title: string, kind: string, hash: string, chunks: seq<NewChunk>, metadata: string): Tables {
    if source in t.documents then
      var d := Document(t.documents[source].id, title, kind, hash, metadata);
      var u := InsertRows(DeleteRows(t, d.id), d.id, chunks);
      u.(documents := u.documents[source := d], version := u.version + 1)
    else
      var d := Document(NextId(DocumentIds(t.documents)), title, kind, hash, metadata);
      var u := InsertRows(t, d.id, chunks);
      u.(documents := u.documents[source := d], version := u.version + 1)
  }

  function Deleted(t: Tables, source: string): Tables {
    if source !in t.documents then t
    else
      var u := DeleteRows(t, t.documents[source].id);
      u.(documents := u.documents - {source}, version := u.version + 1)
  }

  function Embed(rows: map<int, Row>, ids: seq<int>, vectors: seq<Vector>, model: string): map<int, Row>
    requires |ids| == |vectors|
  {
    if ids == [] then rows
    else
      var n := |ids| - 1;
      var before := Embed(rows, ids[..n], vectors[..n], model);
      if ids[n] in before then before[ids[n] := before[ids[n]].(embedding := Some(vectors[n]), model := model)] else before
  }

  function Embedded(t: Tables, ids: seq<int>, vectors: seq<Vector>, model: string): Tables
    requires |ids| == |vectors|
  {
    t.(rows := Embed(t.rows, ids, vectors, model), version := t.version + 1)
  }

  /** Metadata alone: the chunks, their vectors and the version stay. */
  function Described(t: Tables, source: string, metadata: string): Tables {
    if source in t.documents then t.(documents := t.documents[source := t.documents[source].(metadata := metadata)]) else t
  }

  // ---- the cached matrix -------------------------------------------------------------------------------

  /** Every chunk embedded by the model, in the order of their numbers. */
  function Matrix(rows: map<int, Row>, model: string): seq<(int, Vector)> {
    Pairs(rows, Sorted(With(rows, model)))
  }

  function With(rows: map<int, Row>, model: string): set<int> {
    set id | id in rows && rows[id].embedding.Some? && rows[id].model == model
  }

  function Pairs(rows: map<int, Row>, ids: seq<int>): seq<(int, Vector)> {
    if ids == [] then []
    else
      var n := |ids| - 1;
      Pairs(rows, ids[..n])
      + if ids[n] in rows && rows[ids[n]].embedding.Some? then [(ids[n], rows[ids[n]].embedding.value)] else []
  }

  datatype Cache = Cache(version: int, matrix: seq<(int, Vector)>)

  /** What an unfiltered search uses. */
  function Refreshed(t: Tables, cache: Cache, model: string): Cache {
    if cache.version != t.version then Cache(t.version, Matrix(t.rows, model)) else cache
  }

  predicate Agrees(t: Tables, cache: Cache, model: string) {
    cache.version <= t.version && (cache.version == t.version ==> cache.matrix == Matrix(t.rows, model))
  }

  // ---- the index and the tables ------------------------------------------------------------------------

  lemma {:induction false} DeleteAllIs(t: Tables, ids: seq<int>)
    ensures var u := DeleteAll(t, ids);
      && u.documents == t.documents && u.version == t.version
      && u.rows == (map id | id in t.rows && id !in ids :: t.rows[id])
      && (Mirrors(t.index, t.rows) ==> Mirrors(u.index, u.rows))
  {
    hide Mirrors, Unindexed;
    if ids == [] {
      assert t.rows == map id | id in t.rows && id !in ids :: t.rows[id];
    } else {
      var n := |ids| - 1;
      DeleteAllIs(t, ids[..n]);
      assert ids == ids[..n] + [ids[n]];
      var u := DeleteAll(t, ids[..n]);
      if Mirrors(t.index, t.rows) {
        DeleteKeepsMirror(u, ids[n]);
      }
    }
  }

  lemma {:induction false} DeleteRowsIs(t: Tables, document: int)
    ensures var u := DeleteRows(t, document);
      && u.documents == t.documents && u.version == t.version
      && u.rows == (map id | id in t.rows && t.rows[id].document != document :: t.rows[id])
      && (Mirrors(t.index, t.rows) ==> Mirrors(u.index, u.rows))
  {
    hide Mirrors, DeleteAll, Sorted;
    var ids := Sorted(RowsOf(t, document));
    SortedIs(RowsOf(t, document));
    DeleteAllIs(t, ids);
    assert forall id :: id in ids <==> id in RowsOf(t, document);
    assert forall id :: id in t.rows ==> (id in ids <==> t.rows[id].document == document);
    assert (map id | id in t.rows && id !in ids :: t.rows[id])
        == (map id | id in t.rows && t.rows[id].document != document :: t.rows[id]);
  }

  /** Where the chunks went: after every row there was, in their order. */
  ghost predicate Appended(before: map<int, Row>, after: map<int, Row>, document: int, chunks: seq<NewChunk>, ids: seq<int>) {
    && |ids| == |chunks| && Increasing(ids)
    && (forall i :: 0 <= i < |ids| ==> ids[i] !in before && ids[i] in after && after[ids[i]] == Row(document, chunks[i].position, chunks[i].heading, chunks[i].text, None, ""))
    && (forall id :: id in before ==> id in after && after[id] == before[id])
    && (forall id :: id in after ==> id in before || id in ids)
  }

  lemma {:induction false} AppendOne(
    before: map<int, Row>, after: map<int, Row>, document: int, chunks: seq<NewChunk>, ids: seq<int>, c: NewChunk, id: int)
    requires Appended(before, after, document, chunks, ids) && id !in after && forall x :: x in after.Keys ==> x < id
    ensures Appended(before, after[id := NewRow(document, c)], document, chunks + [c], ids + [id])
  {
    assert forall i :: 0 <= i < |ids| ==> ids[i] in after.Keys;
  }

  lemma NoneAppended(rows: map<int, Row>, document: int)
    ensures Appended(rows, rows, document, [], [])
  {
  }

  lemma {:induction false} InsertRowsIs(t: Tables, document: int, chunks: seq<NewChunk>) returns (ids: seq<int>)
    ensures var u := InsertRows(t, document, chunks);
      && u.documents == t.documents && u.version == t.version
      && Appended(t.rows, u.rows, document, chunks, ids)
      && (Mirrors(t.index, t.rows) ==> Mirrors(u.index, u.rows))
  {
    hide Mirrors, Indexed, NextId, Appended, NewRow, Increasing;
    if chunks == [] {
      ids := [];
      NoneAppended(t.rows, document);
    } else {
      var n := |chunks| - 1;
      var before := InsertRowsIs(t, document, chunks[..n]);
      var u := InsertRows(t, document, chunks[..n]);
      var id := NextId(u.rows.Keys);
      NextIdIsNew(u.rows.Keys);
      ids := before + [id];
      if Mirrors(t.index, t.rows) {
        InsertKeepsMirror(u, id, NewRow(document, chunks[n]));
      }
      AppendOne(t.rows, u.rows, document, chunks[..n], before, chunks[n], id);
      assert chunks == chunks[..n] + [chunks[n]];
    }
  }

  /** Documents have different numbers, and every chunk belongs to one of them. */
  ghost predicate Related(t: Tables) {
    && (forall a, b :: a in t.documents && b in t.documents && a != b ==> t.documents[a].id != t.documents[b].id)
    && (forall id :: id in t.rows ==> exists source :: source in t.documents && t.documents[source].id == t.rows[id].document)
  }

  ghost predicate Sound(t: Tables) { Mirrors(t.index, t.rows) && Related(t) }

  lemma {:induction false} OtherDocument(t: Tables, source: string)
    requires Related(t) && source !in t.documents
    ensures forall other :: other in t.documents ==> t.documents[other].id != NextId(DocumentIds(t.documents))
  {
    hide NextId;
    NextIdIsNew(DocumentIds(t.documents));
    forall other | other in t.documents ensures t.documents[other].id in DocumentIds(t.documents) {
    }
  }

  /** Replacing a document keeps the tables sound; the document's chunks are exactly the new ones, none of them with a
      vector, and no other document's chunk changes. */
  lemma {:induction false} ReplacedIs(
    t: Tables, source: string, title: string, kind: string, hash: string, chunks: seq<NewChunk>, metadata: string)
    returns (ids: seq<int>)
    requires Sound(t)
    ensures
      var u := Replaced(t, source, title, kind, hash, chunks, metadata);
      && Sound(u) && u.version == t.version + 1 && source in u.documents
      && Appended(map id | id in t.rows && t.rows[id].document != u.documents[source].id :: t.rows[id], u.rows,
                  u.documents[source].id, chunks, ids)
  {
    hide Mirrors, InsertRows, DeleteRows, NextId, Increasing;
    if source in t.documents {
      var document := t.documents[source].id;
      DeleteRowsIs(t, document);
      ids := InsertRowsIs(DeleteRows(t, document), document, chunks);
    } else {
      OtherDocument(t, source);
      var document := NextId(DocumentIds(t.documents));
      ids := InsertRowsIs(t, document, chunks);
      forall id | id in t.rows ensures t.rows[id].document != document {
        var other :| other in t.documents && t.documents[other].id == t.rows[id].document;
      }
      assert t.rows == map id | id in t.rows && t.rows[id].document != document :: t.rows[id];
    }
    var u := Replaced(t, source, title, kind, hash, chunks, metadata);
    RelatedAfter(t, u, source, ids);
  }

  lemma {:induction false} RelatedAfter(t: Tables, u: Tables, source: string, ids: seq<int>)
    requires Related(t) && source in u.documents
    requires forall other :: other in t.documents && other != source ==> t.documents[other].id != u.documents[source].id
    requires u.documents == t.documents[source := u.documents[source]]
    requires source in t.documents ==> t.documents[source].id == u.documents[source].id
    requires forall id :: id in u.rows ==> (id in t.rows && u.rows[id] == t.rows[id]) || u.rows[id].document == u.documents[source].id
    ensures Related(u)
  {
    forall id | id in u.rows
      ensures exists other :: other in u.documents && u.documents[other].id == u.rows[id].document
    {
      if u.rows[id].document != u.documents[source].id {
        var other :| other in t.documents && t.documents[other].id == t.rows[id].document;
        assert other in u.documents;
      }
    }
  }

  lemma {:induction false} DeletedIs(t: Tables, source: string)
    requires Sound(t)
    ensures
      var u := Deleted(t, source);
      && Sound(u) && source !in u.documents && (source !in t.documents ==> u == t)
      && (source in t.documents ==>
          && u.version == t.version + 1 && u.documents == t.documents - {source}
          && u.rows == (map id | id in t.rows && t.rows[id].document != t.documents[source].id :: t.rows[id]))
  {
    hide Mirrors, DeleteRows;
    if source in t.documents {
      DeleteRowsIs(t, t.documents[source].id);
      var u := Deleted(t, source);
      forall id | id in u.rows
        ensures exists other :: other in u.documents && u.documents[other].id == u.rows[id].document
      {
        var other :| other in t.documents && t.documents[other].id == t.rows[id].document;
        assert other in u.documents;
      }
    }
  }

  lemma {:induction false} EmbedKeeps(rows: map<int, Row>, ids: seq<int>, vectors: seq<Vector>, model: string)
    requires |ids| == |vectors|
    ensures
      var after := Embed(rows, ids, vectors, model);
      && after.Keys == rows.Keys
      && forall id :: id in rows ==>
           after[id].(embedding := None, model := "") == rows[id].(embedding := None, model := "")
           && (id !in ids ==> after[id] == rows[id])
           && (id in ids ==> after[id].embedding.Some? && after[id].model == model)
  {
    if ids != [] {
      var n := |ids| - 1;
      EmbedKeeps(rows, ids[..n], vectors[..n], model);
      assert ids == ids[..n] + [ids[n]];
    }
  }

  lemma {:induction false} EmbeddedIsSound(t: Tables, ids: seq<int>, vectors: seq<Vector>, model: string)
    requires Sound(t) && |ids| == |vectors|
    ensures Sound(Embedded(t, ids, vectors, model))
  {
    EmbedKeeps(t.rows, ids, vectors, model);
    hide Embed;
    var u := Embedded(t, ids, vectors, model);
    forall id | id in u.rows
      ensures exists other :: other in u.documents && u.documents[other].id == u.rows[id].document
    {
      var other :| other in t.documents && t.documents[other].id == t.rows[id].document;
      assert other in u.documents;
    }
  }

  lemma {:induction false} DescribedIsSound(t: Tables, source: string, metadata: string)
    requires Sound(t)
    ensures Sound(Described(t, source, metadata))
  {
    hide Mirrors;
    if source in t.documents {
      RelatedAfter(t, Described(t, source, metadata), source, []);
    }
  }

  // ---- the service -------------------------------------------------------------------------------------

  /** The chunks with no vector of this model, in the order of their numbers. */
  function Needing(rows: map<int, Row>, model: string): seq<int> { Sorted(Without(rows, model)) }

  function Without(rows: map<int, Row>, model: string): set<int> {
    set id | id in rows && (rows[id].embedding.None? || rows[id].model != model)
  }

  function Batch(rows: map<int, Row>, model: string, limit: Option<nat>): seq<int> {
    var ids := Needing(rows, model);
    if limit.Some? && limit.value < |ids| then ids[..limit.value] else ids
  }

  datatype Request =
    | Ingest(source: string, title: string, kind: string, hash: string, chunks: seq<NewChunk>, metadata: Option<string>)
    | Remove(source: string)
    | EmbedSome(limit: Option<nat>, vectors: Option<seq<Vector>>)
    | Describe(source: string, patched: string)
    | Search

  datatype Service = Service(tables: Tables, cache: Cache)

  function Ingested(t: Tables, source: string, title: string, kind: string, hash: string, chunks: seq<NewChunk>, metadata: Option<string>): Tables {
    if source in t.documents && t.documents[source].hash == hash then
      if metadata.Some? then Described(t, source, metadata.value) else t
    else if chunks == [] then t
    else Replaced(t, source, title, kind, hash, chunks, if metadata.Some? then metadata.value else "{}")
  }

  /** The embedder answers with one vector for each text, or fails. */
  function Pending(t: Tables, model: string, limit: Option<nat>, vectors: Option<seq<Vector>>): Tables {
    var ids := Batch(t.rows, model, limit);
    if ids == [] || vectors.None? || |vectors.value| != |ids| then t else Embedded(t, ids, vectors.value, model)
  }

  function Step(s: Service, model: string, r: Request): Service {
    match r
    case Ingest(source, title, kind, hash, chunks, metadata) =>
      s.(tables := Ingested(s.tables, source, title, kind, hash, chunks, metadata))
    case Remove(source) => s.(tables := Deleted(s.tables, source))
    case EmbedSome(limit, vectors) => s.(tables := Pending(s.tables, model, limit, vectors))
    case Describe(source, metadata) => s.(tables := Described(s.tables, source, metadata))
    case Search => s.(cache := Refreshed(s.tables, s.cache, model))
  }

  ghost predicate Inv(s: Service, model: string) { Sound(s.tables) && Agrees(s.tables, s.cache, model) }

  /** The rows change only with the version. */
  lemma {:induction false} StepVersion(s: Service, model: string, r: Request)
    requires Sound(s.tables)
    ensures var u := Step(s, model, r);
      u.tables.version > s.tables.version || (u.tables.version == s.tables.version && u.tables.rows == s.tables.rows)
  {
    hide Mirrors, Replaced, Deleted, Embed, Batch, Matrix;
    match r
    case Ingest(source, title, kind, hash, chunks, metadata) =>
      var ids := ReplacedIs(s.tables, source, title, kind, hash, chunks, if metadata.Some? then metadata.value else "{}");
    case Remove(source) =>
      DeletedIs(s.tables, source);
      if source !in s.tables.documents {
        NothingDeleted(s.tables, source);
      }
    case _ =>
  }

  lemma NothingDeleted(t: Tables, source: string)
    requires source !in t.documents
    ensures Deleted(t, source) == t
  {
  }

  lemma {:induction false} StepIsSound(s: Service, model: string, r: Request)
    requires Sound(s.tables)
    ensures Sound(Step(s, model, r).tables)
  {
    hide Sound, Replaced, Deleted, Embedded, Described, Batch, Matrix;
    match r
    case Ingest(source, title, kind, hash, chunks, metadata) =>
      var ids := ReplacedIs(s.tables, source, title, kind, hash, chunks, if metadata.Some? then metadata.value else "{}");
      if metadata.Some? {
        DescribedIsSound(s.tables, source, metadata.value);
      }
    case Remove(source) => DeletedIs(s.tables, source);
    case EmbedSome(limit, vectors) =>
      if vectors.Some? && |vectors.value| == |Batch(s.tables.rows, model, limit)| {
        EmbeddedIsSound(s.tables, Batch(s.tables.rows, model, limit), vectors.value, model);
      }
    case Describe(source, metadata) => DescribedIsSound(s.tables, source, metadata);
    case Search =>
  }

  lemma {:induction false} StepKeepsInv(s: Service, model: string, r: Request)
    requires Inv(s, model)
    ensures Inv(Step(s, model, r), model)
  {
    StepVersion(s, model, r);
    StepIsSound(s, model, r);
    hide Sound, Ingested, Deleted, Pending, Described, Matrix;
  }

  function Run(s: Service, model: string, requests: seq<Request>): Service
    decreases |requests|
  {
    if requests == [] then s else Run(Step(s, model, requests[0]), model, requests[1..])
  }

  lemma {:induction false} RunKeepsInv(s: Service, model: string, requests: seq<Request>)
    requires Inv(s, model)
    ensures Inv(Run(s, model, requests), model)
    decreases |requests|
  {
    hide Inv, Step;
    if requests != [] {
      StepKeepsInv(s, model, requests[0]);
      RunKeepsInv(Step(s, model, requests[0]), model, requests[1..]);
    }
  }

  /** A store nobody has written to. */
  const NEW := Tables(map[], map[], map[], 0)

  /** The service opened on what a store holds: no matrix has been read. */
  function Opened(t: Tables): Service { Service(t, Cache(-1, [])) }

  /** After any run of a service opened on any sound store, a new one or one an earlier run has left, a search uses
      exactly the matrix the store would give now, and the keyword index holds one entry for every chunk. */
  lemma {:induction false} SearchIsCurrent(t: Tables, model: string, requests: seq<Request>)
    requires Sound(t)
    ensures
      var s := Run(Opened(t), model, requests);
      && Step(s, model, Search).cache.matrix == Matrix(s.tables.rows, model)
      && Mirrors(s.tables.index, s.tables.rows) && Sound(s.tables)
  {
    RunKeepsInv(Opened(t), model, requests);
    hide Run, Matrix, Mirrors;
  }

  lemma NewIsSound()
    ensures Sound(NEW)
  {
  }

  lemma {:induction false} PairsIs(rows: map<int, Row>, ids: seq<int>)
    requires forall i :: 0 <= i < |ids| ==> ids[i] in rows && rows[ids[i]].embedding.Some?
    ensures |Pairs(rows, ids)| == |ids|
    ensures forall i :: 0 <= i < |ids| ==> Pairs(rows, ids)[i] == (ids[i], rows[ids[i]].embedding.value)
  {
    if ids != [] {
      PairsIs(rows, ids[..|ids| - 1]);
    }
  }

  /** The matrix has, in the order of their numbers, exactly the chunks the model embedded, each with its vector. */
  lemma {:induction false} MatrixIsExact(rows: map<int, Row>, model: string) returns (ids: seq<int>)
    ensures Increasing(ids)
    ensures forall id :: id in ids <==> id in rows && rows[id].embedding.Some? && rows[id].model == model
    ensures var m := Matrix(rows, model);
      |m| == |ids| && forall i :: 0 <= i < |ids| ==> ids[i] in rows && Some(m[i].1) == rows[ids[i]].embedding && m[i].0 == ids[i]
  {
    hide Sorted, Pairs;
    ids := Sorted(With(rows, model));
    SortedIs(With(rows, model));
    forall i | 0 <= i < |ids| ensures ids[i] in With(rows, model) {
      assert ids[i] in ids;
    }
    PairsIs(rows, ids);
  }

  /** A pass that succeeds embeds the chunks it took and leaves exactly the others waiting. */
  lemma {:induction false} PassLeavesTheRest(t: Tables, model: string, limit: Option<nat>, vectors: seq<Vector>)
    requires |vectors| == |Batch(t.rows, model, limit)|
    ensures
      var k := |Batch(t.rows, model, limit)|;
      k <= |Needing(t.rows, model)|
      && Needing(Pending(t, model, limit, Some(vectors)).rows, model) == Needing(t.rows, model)[k..]
  {
    hide Embed, Sorted;
    var all, taken := Needing(t.rows, model), Batch(t.rows, model, limit);
    SortedIs(Without(t.rows, model));
    if taken == [] {
      assert all[0..] == all;
    } else {
      var after := Embed(t.rows, taken, vectors, model);
      EmbedKeeps(t.rows, taken, vectors, model);
      var rest := all[|taken|..];
      assert all == taken + rest;
      forall id ensures id in rest <==> id in Without(after, model) {
        TakenOrRest(all, taken, rest, id);
        assert id in all <==> id in Without(t.rows, model);
      }
      SortedIsOnly(rest, Without(after, model));
    }
  }

  lemma TakenOrRest(all: seq<int>, taken: seq<int>, rest: seq<int>, id: int)
    requires all == taken + rest && Increasing(all)
    ensures id in rest <==> id in all && id !in taken
  {
    if id in rest {
      var i :| 0 <= i < |rest| && rest[i] == id;
      assert all[|taken| + i] == id;
      forall j | 0 <= j < |taken| ensures taken[j] != id {
        assert taken[j] == all[j];
      }
    }
  }

  /** Reindexing everything leaves no chunk without a vector of the model. */
  lemma {:induction false} ReindexCompletes(t: Tables, model: string, vectors: seq<Vector>)
    requires |vectors| == |Needing(t.rows, model)|
    ensures
      var u := Pending(t, model, None, Some(vectors));
      Needing(u.rows, model) == [] && With(u.rows, model) == u.rows.Keys
  {
    hide Embed, Sorted, Needing;
    PassLeavesTheRest(t, model, None, vectors);
    var u := Pending(t, model, None, Some(vectors));
    NoneNeeding(u.rows, model);
  }

  lemma NoneNeeding(rows: map<int, Row>, model: string)
    requires Needing(rows, model) == []
    ensures With(rows, model) == rows.Keys
  {
    hide Sorted;
    SortedIs(Without(rows, model));
    forall id | id in rows ensures id in With(rows, model) {
      assert id !in Without(rows, model);
    }
  }

  // ---- what each request does --------------------------------------------------------------------------

  /** What an ingest makes of the documents: only this one changes, and its number stays or is new. */
  ghost predicate Files(t: Tables, u: Tables, source: string, title: string, kind: string, hash: string, metadata: string) {
    && source in u.documents && t.documents.Keys + {source} == u.documents.Keys
    && (forall other <- t.documents :: other != source ==> u.documents[other] == t.documents[other])
    && u.documents[source] == Document(u.documents[source].id, title, kind, hash, metadata)
    && (source in t.documents ==> u.documents[source].id == t.documents[source].id)
    && (source !in t.documents ==> forall other <- t.documents :: t.documents[other].id != u.documents[source].id)
  }

  /** Text stored before under the same hash changes at most its metadata; a text without chunks changes nothing; any
      other text is filed with exactly its chunks, which wait for their vectors. */
  lemma IngestStores(
    t: Tables, source: string, title: string, kind: string, hash: string, chunks: seq<NewChunk>, metadata: Option<string>)
    returns (ids: seq<int>)
    requires Sound(t)
    ensures
      var u := Ingested(t, source, title, kind, hash, chunks, metadata);
      if source in t.documents && t.documents[source].hash == hash then
        var d := t.documents[source];
        && (u.rows, u.index, u.version) == (t.rows, t.index, t.version)
        && u.documents == t.documents[source := if metadata.Some? then d.(metadata := metadata.value) else d]
      else if |chunks| == 0 then u == t
      else
        && Files(t, u, source, title, kind, hash, if metadata.Some? then metadata.value else "{}")
        && Appended(map id | id in t.rows && t.rows[id].document != u.documents[source].id :: t.rows[id], u.rows,
                    u.documents[source].id, chunks, ids)
  {
    hide Sound, Replaced, Appended, Files;
    if source in t.documents && t.documents[source].hash == hash {
      ids := [];
    } else {
      var text := if metadata.Some? then metadata.value else "{}";
      ids := ReplacedIs(t, source, title, kind, hash, chunks, text);
      ReplacedFiles(t, source, title, kind, hash, chunks, text);
    }
  }

  lemma ReplacedFiles(
    t: Tables, source: string, title: string, kind: string, hash: string, chunks: seq<NewChunk>, metadata: string)
    requires Sound(t)
    ensures Files(t, Replaced(t, source, title, kind, hash, chunks, metadata), source, title, kind, hash, metadata)
  {
    hide Mirrors, DeleteRows, InsertRows, NextId;
    if source in t.documents {
      var document := t.documents[source].id;
      DeleteRowsIs(t, document);
      var ids := InsertRowsIs(DeleteRows(t, document), document, chunks);
    } else {
      OtherDocument(t, source);
      var ids := InsertRowsIs(t, NextId(DocumentIds(t.documents)), chunks);
    }
  }

  /** A patch of metadata changes that and nothing else. */
  lemma DescribeChanges(t: Tables, source: string, metadata: string)
    ensures
      var u := Described(t, source, metadata);
      && (u.rows, u.index, u.version) == (t.rows, t.index, t.version) && u.documents.Keys == t.documents.Keys
      && (forall other <- t.documents :: other != source ==> u.documents[other] == t.documents[other])
      && (source in t.documents ==>
            var d := t.documents[source];
            u.documents[source] == Document(d.id, d.title, d.kind, d.hash, metadata))
  {
  }

  lemma NeedingIs(rows: map<int, Row>, model: string)
    ensures var ids := Needing(rows, model);
      && Increasing(ids)
      && forall id :: id in ids <==> id in rows && (rows[id].embedding.None? || rows[id].model != model)
  {
    hide Sorted;
    SortedIs(Without(rows, model));
  }

  lemma {:induction false} EmbedGives(rows: map<int, Row>, ids: seq<int>, vectors: seq<Vector>, model: string, k: nat)
    requires |ids| == |vectors| && k < |ids| && Increasing(ids) && ids[k] in rows
    ensures ids[k] in Embed(rows, ids, vectors, model)
    ensures Embed(rows, ids, vectors, model)[ids[k]] == rows[ids[k]].(embedding := Some(vectors[k]), model := model)
  {
    var n := |ids| - 1;
    EmbedKeeps(rows, ids[..n], vectors[..n], model);
    if k < n {
      EmbedGives(rows, ids[..n], vectors[..n], model, k);
    }
  }

  /** A pass takes the first chunks that need a vector, as many as the limit allows, and gives each its own; no other
      chunk changes, and without an answer of that length nothing does. */
  lemma PassGivesEachItsVector(t: Tables, model: string, limit: Option<nat>, vectors: Option<seq<Vector>>, id: int)
    requires id in t.rows
    ensures
      var all, u := Needing(t.rows, model), Pending(t, model, limit, vectors);
      var count := if limit.Some? && limit.value <= |all| then limit.value else |all|;
      if vectors.Some? && |vectors.value| == count && count > 0 then
        && u.documents == t.documents && u.index == t.index && u.version > t.version && u.rows.Keys == t.rows.Keys
        && (forall k :: 0 <= k < count && all[k] == id ==>
              u.rows[id] == t.rows[id].(embedding := Some(vectors.value[k]), model := model))
        && (id !in all[..count] ==> u.rows[id] == t.rows[id])
      else u == t
  {
    hide Embed, Needing;
    var all, ids := Needing(t.rows, model), Batch(t.rows, model, limit);
    NeedingIs(t.rows, model);
    assert ids == all[..|ids|];
    if vectors.Some? && |vectors.value| == |ids| {
      EmbedKeeps(t.rows, ids, vectors.value, model);
      forall k | 0 <= k < |ids| && ids[k] == id
        ensures Embed(t.rows, ids, vectors.value, model)[id]
             == t.rows[id].(embedding := Some(vectors.value[k]), model := model)
      {
        EmbedGives(t.rows, ids, vectors.value, model, k);
      }
    }
  }

  // ---- the classes -------------------------------------------------------------------------------------

  class Store {
    var documents: map<string, Document>
    var rows: map<int, Row>
    var index: Index
    var version: nat

    constructor ()
      ensures View() == NEW
    {
      documents, rows, index, version := map[], map[], map[], 0;
    }

    function View(): Tables
      reads this
    {
      Tables(documents, rows, index, version)
    }

    /** A row and its trigger. */
    method Insert(id: int, r: Row)
      modifies `rows, `index
      ensures View() == InsertRow(old(View()), id, r)
    {
      rows := rows[id := r];
      index := Indexed(index, id, EntryOf(r));
    }

    method DeleteChunks(document: int)
      modifies `rows, `index
      ensures View() == DeleteRows(old(View()), document)
    {
      hide Sorted;
      var ids := Sorted(RowsOf(View(), document));
      ghost var before := View();
      for i := 0 to |ids|
        invariant View() == DeleteAll(before, ids[..i])
      {
        assert ids[..i + 1][..i] == ids[..i];
        if ids[i] in rows {
          var e := EntryOf(rows[ids[i]]);
          rows := rows - {ids[i]};
          index := Unindexed(index, ids[i], e);
        }
      }
      assert ids[..|ids|] == ids;
    }

    method InsertChunks(document: int, chunks: seq<NewChunk>)
      modifies `rows, `index
      ensures View() == InsertRows(old(View()), document, chunks)
    {
      hide NextId, InsertRow;
      ghost var before := View();
      for i := 0 to |chunks|
        invariant View() == InsertRows(before, document, chunks[..i])
      {
        assert chunks[..i + 1][..i] == chunks[..i];
        Insert(NextId(rows.Keys), NewRow(document, chunks[i]));
      }
      assert chunks[..|chunks|] == chunks;
    }

    method ReplaceDocument(source: string, title: string, kind: string, hash: string, chunks: seq<NewChunk>, metadata: string)
      returns (document: int, created: bool)
      modifies this
      ensures View() == Replaced(old(View()), source, title, kind, hash, chunks, metadata)
      ensures created == (source !in old(documents)) && source in documents && document == documents[source].id
    {
      hide DeleteRows, InsertRows, NextId;
      if source !in documents {
        document, created := NextId(DocumentIds(documents)), true;
      } else {
        document, created := documents[source].id, false;
        DeleteChunks(document);
      }
      InsertChunks(document, chunks);
      documents := documents[source := Document(document, title, kind, hash, metadata)];
      version := version + 1;
    }

    method DeleteDocument(source: string) returns (deleted: bool)
      modifies this
      ensures View() == Deleted(old(View()), source) && deleted == (source in old(documents))
    {
      hide DeleteRows;
      if source !in documents {
        return false;
      }
      DeleteChunks(documents[source].id);
      documents := documents - {source};
      version := version + 1;
      return true;
    }

    method WriteMetadata(source: string, metadata: string)
      modifies `documents
      ensures View() == Described(old(View()), source, metadata)
    {
      if source in documents {
        documents := documents[source := documents[source].(metadata := metadata)];
      }
    }

    method SetEmbeddings(ids: seq<int>, vectors: seq<Vector>, model: string)
      requires |ids| == |vectors|
      modifies `rows, `version
      ensures View() == Embedded(old(View()), ids, vectors, model)
    {
      ghost var before := rows;
      for i := 0 to |ids|
        invariant version == old(version) && rows == Embed(before, ids[..i], vectors[..i], model)
      {
        assert ids[..i + 1][..i] == ids[..i] && vectors[..i + 1][..i] == vectors[..i];
        if ids[i] in rows {
          rows := rows[ids[i] := rows[ids[i]].(embedding := Some(vectors[i]), model := model)];
        }
      }
      assert ids[..|ids|] == ids && vectors[..|vectors|] == vectors;
      version := version + 1;
    }

    method EmbeddingMatrix(model: string) returns (matrix: seq<(int, Vector)>)
      ensures matrix == Matrix(rows, model)
    {
      hide Sorted;
      var ids := Sorted(With(rows, model));
      matrix := [];
      for i := 0 to |ids|
        invariant matrix == Pairs(rows, ids[..i])
      {
        assert ids[..i + 1][..i] == ids[..i];
        if ids[i] in rows && rows[ids[i]].embedding.Some? {
          matrix := matrix + [(ids[i], rows[ids[i]].embedding.value)];
        }
      }
      assert ids[..|ids|] == ids;
    }
  }

  class KnowledgeService {
    const store: Store
    const model: string
    var matrixVersion: int
    var matrix: seq<(int, Vector)>

    constructor (store: Store, model: string)
      ensures this.store == store && this.model == model && matrixVersion == -1 && matrix == []
    {
      this.store, this.model, matrixVersion, matrix := store, model, -1, [];
    }

    function View(): Service
      reads this, store
    {
      Service(store.View(), Cache(matrixVersion, matrix))
    }

    method StoreDocument(source: string, title: string, kind: string, hash: string, chunks: seq<NewChunk>, metadata: Option<string>)
      returns (changed: bool)
      modifies store
      ensures View() == Step(old(View()), model, Ingest(source, title, kind, hash, chunks, metadata))
      ensures changed <==>
                (source in old(store.documents) ==> old(store.documents)[source].hash != hash) && |chunks| > 0
    {
      hide Replaced, Described;
      if source in store.documents && store.documents[source].hash == hash {
        if metadata.Some? {
          store.WriteMetadata(source, metadata.value);
        }
        return false;
      }
      if chunks == [] {
        return false;
      }
      var _, _ := store.ReplaceDocument(source, title, kind, hash, chunks, if metadata.Some? then metadata.value else "{}");
      return true;
    }

    method RemoveDocument(source: string) returns (deleted: bool)
      modifies store
      ensures View() == Step(old(View()), model, Remove(source)) && deleted == (source in old(store.documents))
    {
      hide Deleted;
      deleted := store.DeleteDocument(source);
    }

    /** `vectors` is the embedder's answer for the chunks taken. */
    method EmbedPending(limit: Option<nat>, vectors: Option<seq<Vector>>) returns (embedded: nat)
      modifies store
      ensures View() == Step(old(View()), model, EmbedSome(limit, vectors))
      ensures embedded == if vectors.Some? && |vectors.value| == |Batch(old(store.rows), model, limit)| then |vectors.value| else 0
    {
      hide Batch, Embedded;
      var ids := Batch(store.rows, model, limit);
      if ids == [] {
        return 0;
      }
      if vectors.None? || |vectors.value| != |ids| {
        return 0;
      }
      store.SetEmbeddings(ids, vectors.value, model);
      return |ids|;
    }

    method Patch(source: string, patched: string)
      modifies store
      ensures View() == Step(old(View()), model, Describe(source, patched))
    {
      hide Described;
      store.WriteMetadata(source, patched);
    }

    method Embeddings() returns (m: seq<(int, Vector)>)
      modifies this
      ensures View() == Step(old(View()), model, Search) && m == matrix
    {
      hide Matrix;
      if matrixVersion != store.version {
        matrix := store.EmbeddingMatrix(model);
        matrixVersion := store.version;
      }
      return matrix;
    }
  }
}
