/** The catalog's tables, what its operations do to them, and what every run keeps. */
module CatalogState {

  /** A schema's name within its database. */
  datatype SchemaName = SchemaName(database: string, schema: string)

  datatype Database = Database(objectId: nat, databaseAlias: string)

  /** The databases and schemas that the analysis of a script refers to, with their object ids. */
  class AnalyzedScript {
    const databases: map<string, Database>
    const schemas: map<SchemaName, nat>

    constructor (databases: map<string, Database>, schemas: map<SchemaName, nat>)
      ensures this.databases == databases && this.schemas == schemas
    {
      this.databases := databases;
      this.schemas := schemas;
    }

    /** Name resolution registers a schema together with its database, and no database alone. */
    ghost predicate Valid() {
      && (forall q :: q in schemas ==> q.database in databases)
      && (forall d :: d in databases ==> exists q :: q in schemas && q.database == d)
    }
  }

  /** The key of the index by qualified schema, and of the index by schema name alone. */
  datatype QualifiedKey = QualifiedKey(name: SchemaName, rank: nat, id: nat)
  datatype SchemaKey = SchemaKey(schema: string, rank: nat, id: nat)

  datatype EntryInfo = EntryInfo(entryId: nat, schemaId: nat)

  datatype Ranked = Ranked(rank: nat, id: nat)

  /** What is registered for a script. */
  datatype ScriptEntry = ScriptEntry(id: nat, analyzed: AnalyzedScript, rank: nat)

  /** The catalog's tables. Scripts are known by a handle `H`. */
  datatype State<!H> = State(
    version: nat,
    entries: map<nat, AnalyzedScript>,
    scriptEntries: map<H, ScriptEntry>,
    entriesRanked: set<Ranked>,
    byQualified: map<QualifiedKey, EntryInfo>,
    bySchema: map<SchemaKey, EntryInfo>,
    databases: map<string, Database>,
    schemas: map<SchemaName, nat>
  )

  // ---------------------------------------------------------------- keys

  function QualifiedKeys(names: set<SchemaName>, rank: nat, id: nat): (r: set<QualifiedKey>)
    ensures forall k :: k in r <==> k.name in names && k.rank == rank && k.id == id
  {
    set q | q in names :: QualifiedKey(q, rank, id)
  }

  ghost predicate HasSchema(names: set<SchemaName>, schema: string) {
    exists q :: q in names && q.schema == schema
  }

  function SchemaKeys(names: set<SchemaName>, rank: nat, id: nat): (r: set<SchemaKey>)
    ensures forall k :: k in r <==> HasSchema(names, k.schema) && k.rank == rank && k.id == id
  {
    set q | q in names :: SchemaKey(q.schema, rank, id)
  }

  function InfosOf(a: AnalyzedScript, names: set<SchemaName>, rank: nat, id: nat): (r: map<QualifiedKey, EntryInfo>)
    requires names <= a.schemas.Keys
    ensures r.Keys == QualifiedKeys(names, rank, id)
    ensures forall k :: k in r ==> r[k] == EntryInfo(id, a.schemas[k.name])
  {
    map k | k in QualifiedKeys(names, rank, id) :: EntryInfo(id, a.schemas[k.name])
  }

  predicate SomeoneHasSchema(index: map<QualifiedKey, EntryInfo>, q: SchemaName) {
    exists k :: k in index && k.name == q
  }

  predicate SomeoneHasDatabase(index: map<QualifiedKey, EntryInfo>, d: string) {
    exists k :: k in index && k.name.database == d
  }

  // ---------------------------------------------------------------- what every run keeps

  ghost predicate HasHandle<H>(scriptEntries: map<H, ScriptEntry>, id: nat) {
    exists h :: h in scriptEntries && scriptEntries[h].id == id
  }

  /** The three tables of entries hold the same entries. */
  ghost predicate EntriesAgree<H>(
      entries: map<nat, AnalyzedScript>, scriptEntries: map<H, ScriptEntry>, ranked: set<Ranked>) {
    && (forall h :: h in scriptEntries ==>
          var e := scriptEntries[h];
          e.id in entries && entries[e.id] == e.analyzed && Ranked(e.rank, e.id) in ranked)
    && (forall g, h :: g in scriptEntries && h in scriptEntries && scriptEntries[g].id == scriptEntries[h].id
          ==> g == h)
    && (forall id :: id in entries ==> HasHandle(scriptEntries, id))
    && (forall p :: p in ranked ==> p.id in entries)
    && (forall p, q :: p in ranked && q in ranked && p.id == q.id ==> p == q)
  }

  /** The index by qualified schema has exactly the schemas of the registered analyses. */
  ghost predicate QualifiedExact(
      entries: map<nat, AnalyzedScript>, ranked: set<Ranked>, index: map<QualifiedKey, EntryInfo>) {
    forall k :: k in index <==>
      Ranked(k.rank, k.id) in ranked && k.id in entries && k.name in entries[k.id].schemas
  }

  ghost predicate RefersTo(entries: map<nat, AnalyzedScript>, ranked: set<Ranked>, k: SchemaKey) {
    Ranked(k.rank, k.id) in ranked && k.id in entries && HasSchema(entries[k.id].schemas.Keys, k.schema)
  }

  /** Likewise for the keys of the index by schema name. */
  ghost predicate SchemaExact(entries: map<nat, AnalyzedScript>, ranked: set<Ranked>, keys: set<SchemaKey>) {
    forall k :: k in keys <==> RefersTo(entries, ranked, k)
  }

  /** Everything that a registered analysis refers to is declared. */
  ghost predicate SchemasDeclared(entries: map<nat, AnalyzedScript>, schemas: map<SchemaName, nat>) {
    forall id, q :: id in entries && q in entries[id].schemas ==> q in schemas
  }

  ghost predicate DatabasesDeclared(entries: map<nat, AnalyzedScript>, databases: map<string, Database>) {
    forall id, d :: id in entries && d in entries[id].databases ==> d in databases
  }

  ghost predicate AnalysesValid(entries: map<nat, AnalyzedScript>) {
    forall id :: id in entries ==> entries[id].Valid()
  }

  ghost predicate Valid<H>(s: State<H>) {
    && EntriesAgree(s.entries, s.scriptEntries, s.entriesRanked)
    && QualifiedExact(s.entries, s.entriesRanked, s.byQualified)
    && SchemasDeclared(s.entries, s.schemas) && DatabasesDeclared(s.entries, s.databases)
    && AnalysesValid(s.entries)
  }

  // ---------------------------------------------------------------- the operations

  function Empty<H>(): State<H> {
    State(1, map[], map[], {}, map[], map[], map[], map[])
  }

  function Cleared<H>(s: State<H>): State<H> {
    State(s.version + 1, map[], map[], {}, map[], map[], s.databases, s.schemas)
  }

  function Dropped<H>(s: State<H>, h: H): State<H> {
    if h !in s.scriptEntries then s
    else
      var e := s.scriptEntries[h];
      State(s.version + 1, s.entries - {e.id}, s.scriptEntries - {h}, s.entriesRanked - {Ranked(e.rank, e.id)},
        s.byQualified - QualifiedKeys(e.analyzed.schemas.Keys, e.rank, e.id),
        s.bySchema - SchemaKeys(e.analyzed.schemas.Keys, e.rank, e.id),
        s.databases, s.schemas)
  }

  /** No name of the analysis is declared under another id. */
  ghost predicate InSync<H>(s: State<H>, a: AnalyzedScript) {
    && (forall d :: d in a.databases && d in s.databases ==> s.databases[d].objectId == a.databases[d].objectId)
    && (forall q :: q in a.schemas && q in s.schemas ==> s.schemas[q] == a.schemas[q])
  }

  ghost predicate DatabasesGrow(before: map<string, Database>, after: map<string, Database>, a: AnalyzedScript) {
    && (forall d :: d in before ==> d in after && after[d] == before[d])
    && (forall d :: d in after && d !in before ==> d in a.databases && after[d] == a.databases[d])
  }

  ghost predicate SchemasGrow(before: map<SchemaName, nat>, after: map<SchemaName, nat>, a: AnalyzedScript) {
    && (forall q :: q in before ==> q in after && after[q] == before[q])
    && (forall q :: q in after && q !in before ==> q in a.schemas && after[q] == a.schemas[q])
  }

  /** The info of a new key in the index by schema name is that of one of the schemas with this name. */
  ghost predicate IsSchemaInfo(info: EntryInfo, a: AnalyzedScript, schema: string, id: nat) {
    && info.entryId == id
    && exists q :: q in a.schemas && q.schema == schema && a.schemas[q] == info.schemaId
  }

  ghost predicate SchemaKeysInserted(
      before: map<SchemaKey, EntryInfo>, after: map<SchemaKey, EntryInfo>, a: AnalyzedScript, names: set<SchemaName>,
      rank: nat, id: nat)
  {
    && after.Keys == before.Keys + SchemaKeys(names, rank, id)
    && (forall k :: k in before ==> after[k] == before[k])
    && (forall k :: k in after && k !in before ==> IsSchemaInfo(after[k], a, k.schema, id))
  }

  ghost predicate KeysInserted(
      before: map<QualifiedKey, EntryInfo>, after: map<QualifiedKey, EntryInfo>, a: AnalyzedScript,
      names: set<SchemaName>, rank: nat, id: nat)
    requires names <= a.schemas.Keys
  {
    after == before + InfosOf(a, names, rank, id)
  }

  /** Declarations are only added, and only those of the analysis. */
  ghost predicate DeclaresSome<H>(s: State<H>, t: State<H>, a: AnalyzedScript) {
    DatabasesGrow(s.databases, t.databases, a) && SchemasGrow(s.schemas, t.schemas, a)
  }

  /** The load found an id out of sync: what was declared on the way stays declared. */
  ghost predicate LoadFailed<H>(s: State<H>, t: State<H>, a: AnalyzedScript) {
    && !InSync(s, a) && DeclaresSome(s, t, a)
    && t == s.(databases := t.databases, schemas := t.schemas)
  }

  /** The script is registered in the three tables of entries. */
  ghost predicate EntriesLoaded<H>(s: State<H>, t: State<H>, h: H, e: ScriptEntry) {
    && t.version == s.version + 1
    && t.entries == s.entries[e.id := e.analyzed]
    && t.scriptEntries == s.scriptEntries[h := e]
    && t.entriesRanked == s.entriesRanked + {Ranked(e.rank, e.id)}
  }

  ghost predicate AllDeclared<H>(t: State<H>, a: AnalyzedScript) {
    && (forall d :: d in a.databases ==> d in t.databases)
    && (forall q :: q in a.schemas ==> q in t.schemas)
  }

  /** A new script was registered. */
  ghost predicate Loaded<H>(s: State<H>, t: State<H>, h: H, e: ScriptEntry) {
    && InSync(s, e.analyzed) && DeclaresSome(s, t, e.analyzed) && AllDeclared(t, e.analyzed)
    && EntriesLoaded(s, t, h, e)
    && KeysInserted(s.byQualified, t.byQualified, e.analyzed, e.analyzed.schemas.Keys, e.rank, e.id)
    && SchemaKeysInserted(s.bySchema, t.bySchema, e.analyzed, e.analyzed.schemas.Keys, e.rank, e.id)
  }

  /** The schemas that an update removes and adds. */
  function Vanished(was: AnalyzedScript, a: AnalyzedScript): set<SchemaName> {
    was.schemas.Keys - a.schemas.Keys
  }

  function Added(was: AnalyzedScript, a: AnalyzedScript): set<SchemaName> {
    a.schemas.Keys - was.schemas.Keys
  }

  /** The index by qualified schema after an update: only the difference is touched. */
  function UpdatedIndex(index: map<QualifiedKey, EntryInfo>, was: AnalyzedScript, a: AnalyzedScript, rank: nat, id: nat)
    : map<QualifiedKey, EntryInfo>
  {
    index - QualifiedKeys(Vanished(was, a), rank, id) + InfosOf(a, Added(was, a), rank, id)
  }

  /** Schemas that nobody refers to any more lose their declaration; new ones get one. */
  ghost predicate SchemasUpdated(
      before: map<SchemaName, nat>, after: map<SchemaName, nat>, index: map<QualifiedKey, EntryInfo>,
      was: AnalyzedScript, a: AnalyzedScript)
  {
    && (forall q :: q in after <==>
          (q in before && (q in Vanished(was, a) ==> SomeoneHasSchema(index, q))) || q in Added(was, a))
    && (forall q :: q in after ==> after[q] == if q in before then before[q] else a.schemas[q])
  }

  ghost predicate DatabasesUpdated(
      before: map<string, Database>, after: map<string, Database>, index: map<QualifiedKey, EntryInfo>,
      was: AnalyzedScript, a: AnalyzedScript)
  {
    && (forall d :: d in after <==>
          (d in before && (d in was.databases && d !in a.databases ==> SomeoneHasDatabase(index, d)))
          || (d in a.databases && d !in was.databases))
    && (forall d :: d in after ==>
          after[d] == if d in before then before[d] else Database(a.databases[d].objectId, ""))
  }

  ghost predicate EntriesUpdated<H>(s: State<H>, t: State<H>, h: H, e: ScriptEntry, a: AnalyzedScript) {
    && t.version == s.version + 1
    && t.entries == s.entries[e.id := a]
    && t.scriptEntries == s.scriptEntries[h := ScriptEntry(e.id, a, e.rank)]
    && t.entriesRanked == s.entriesRanked
  }

  ghost predicate SchemaIndexUpdated(
      before: map<SchemaKey, EntryInfo>, after: map<SchemaKey, EntryInfo>, e: ScriptEntry, a: AnalyzedScript)
  {
    SchemaKeysInserted(
      before - SchemaKeys(Vanished(e.analyzed, a), e.rank, e.id), after, a, Added(e.analyzed, a), e.rank, e.id)
  }

  /** The analysis of a registered script was replaced. */
  ghost predicate Replaced<H>(s: State<H>, t: State<H>, h: H, e: ScriptEntry, a: AnalyzedScript) {
    && EntriesUpdated(s, t, h, e, a)
    && t.byQualified == UpdatedIndex(s.byQualified, e.analyzed, a, e.rank, e.id)
    && SchemaIndexUpdated(s.bySchema, t.bySchema, e, a)
    && SchemasUpdated(s.schemas, t.schemas, t.byQualified, e.analyzed, a)
    && DatabasesUpdated(s.databases, t.databases, t.byQualified, e.analyzed, a)
  }

  /** A registered script was loaded again. */
  ghost predicate Updated<H>(s: State<H>, t: State<H>, h: H, a: AnalyzedScript)
    requires h in s.scriptEntries
  {
    var e := s.scriptEntries[h];
    if e.analyzed == a then t == s else Replaced(s, t, h, e, a)
  }

  // ---------------------------------------------------------------- every operation keeps the tables consistent

  lemma {:induction false} HandleKept<H>(was: map<H, ScriptEntry>, now: map<H, ScriptEntry>, id: nat)
    requires HasHandle(was, id)
    requires forall h :: h in was && was[h].id == id ==> h in now && now[h].id == id
    ensures HasHandle(now, id)
  {
    var h :| h in was && was[h].id == id;
    assert now[h].id == id;
  }

  lemma {:induction false} DropKeepsEntries<H>(
      entries: map<nat, AnalyzedScript>, scriptEntries: map<H, ScriptEntry>, ranked: set<Ranked>, h: H)
    requires EntriesAgree(entries, scriptEntries, ranked) && h in scriptEntries
    ensures
      var e := scriptEntries[h];
      EntriesAgree(entries - {e.id}, scriptEntries - {h}, ranked - {Ranked(e.rank, e.id)})
  {
    var e := scriptEntries[h];
    forall id | id in entries - {e.id}
      ensures HasHandle(scriptEntries - {h}, id)
    {
      HandleKept(scriptEntries, scriptEntries - {h}, id);
    }
  }

  lemma {:induction false} DropKeepsQualified(
      entries: map<nat, AnalyzedScript>, ranked: set<Ranked>, index: map<QualifiedKey, EntryInfo>, rank: nat, id: nat)
    requires QualifiedExact(entries, ranked, index) && id in entries
    requires forall p :: p in ranked && p.id == id ==> p.rank == rank
    ensures QualifiedExact(entries - {id}, ranked - {Ranked(rank, id)},
              index - QualifiedKeys(entries[id].schemas.Keys, rank, id))
  {
    var next := index - QualifiedKeys(entries[id].schemas.Keys, rank, id);
    forall k: QualifiedKey
      ensures k in next <==>
        Ranked(k.rank, k.id) in ranked - {Ranked(rank, id)} && k.id in entries - {id} && k.name in entries[k.id].schemas
    {
      if k in index && k.id == id {
        assert Ranked(k.rank, k.id).rank == rank;
      }
    }
  }

  lemma {:induction false} DropKeepsValid<H>(s: State<H>, h: H)
    requires Valid(s)
    ensures Valid(Dropped(s, h))
  {
    if h in s.scriptEntries {
      var e := s.scriptEntries[h];
      DropKeepsEntries(s.entries, s.scriptEntries, s.entriesRanked, h);
      assert Ranked(e.rank, e.id) in s.entriesRanked;
      DropKeepsQualified(s.entries, s.entriesRanked, s.byQualified, e.rank, e.id);
    }
  }

  lemma {:induction false} LoadKeepsEntries<H>(
      entries: map<nat, AnalyzedScript>, scriptEntries: map<H, ScriptEntry>, ranked: set<Ranked>, h: H, e: ScriptEntry)
    requires EntriesAgree(entries, scriptEntries, ranked) && h !in scriptEntries && e.id !in entries
    ensures EntriesAgree(entries[e.id := e.analyzed], scriptEntries[h := e], ranked + {Ranked(e.rank, e.id)})
  {
    var next := scriptEntries[h := e];
    assert next[h].id == e.id;
    forall id | id in entries
      ensures HasHandle(next, id)
    {
      HandleKept(scriptEntries, next, id);
    }
  }

  lemma {:induction false} LoadKeepsQualified(
      entries: map<nat, AnalyzedScript>, ranked: set<Ranked>, index: map<QualifiedKey, EntryInfo>,
      a: AnalyzedScript, rank: nat, id: nat)
    requires QualifiedExact(entries, ranked, index) && id !in entries
    requires forall p :: p in ranked ==> p.id in entries
    ensures QualifiedExact(entries[id := a], ranked + {Ranked(rank, id)}, index + InfosOf(a, a.schemas.Keys, rank, id))
  {
    var next := index + InfosOf(a, a.schemas.Keys, rank, id);
    forall k: QualifiedKey
      ensures k in next <==>
        Ranked(k.rank, k.id) in ranked + {Ranked(rank, id)} && k.id in entries[id := a]
        && k.name in entries[id := a][k.id].schemas
    {
      if k.id == id {
        assert Ranked(k.rank, k.id) !in ranked;
      }
    }
  }

  lemma {:induction false} LoadKeepsDeclared<H>(s: State<H>, t: State<H>, e: ScriptEntry)
    requires SchemasDeclared(s.entries, s.schemas) && DatabasesDeclared(s.entries, s.databases)
    requires DeclaresSome(s, t, e.analyzed) && AllDeclared(t, e.analyzed)
    ensures SchemasDeclared(s.entries[e.id := e.analyzed], t.schemas)
    ensures DatabasesDeclared(s.entries[e.id := e.analyzed], t.databases)
  {
  }

  lemma {:induction false} LoadKeepsValid<H>(s: State<H>, t: State<H>, h: H, e: ScriptEntry)
    requires Valid(s) && h !in s.scriptEntries && e.id !in s.entries && e.analyzed.Valid()
    requires Loaded(s, t, h, e)
    ensures Valid(t)
  {
    LoadKeepsEntries(s.entries, s.scriptEntries, s.entriesRanked, h, e);
    LoadKeepsQualified(s.entries, s.entriesRanked, s.byQualified, e.analyzed, e.rank, e.id);
    LoadKeepsDeclared(s, t, e);
  }

  lemma {:induction false} UpdateKeepsEntries<H>(
      entries: map<nat, AnalyzedScript>, scriptEntries: map<H, ScriptEntry>, ranked: set<Ranked>, h: H,
      a: AnalyzedScript)
    requires EntriesAgree(entries, scriptEntries, ranked) && h in scriptEntries
    ensures
      var e := scriptEntries[h];
      EntriesAgree(entries[e.id := a], scriptEntries[h := ScriptEntry(e.id, a, e.rank)], ranked)
  {
    var e := scriptEntries[h];
    var next := scriptEntries[h := ScriptEntry(e.id, a, e.rank)];
    forall id | id in entries
      ensures HasHandle(next, id)
    {
      HandleKept(scriptEntries, next, id);
    }
  }

  lemma {:induction false} UpdateKeepsQualified(
      entries: map<nat, AnalyzedScript>, ranked: set<Ranked>, index: map<QualifiedKey, EntryInfo>,
      a: AnalyzedScript, rank: nat, id: nat)
    requires QualifiedExact(entries, ranked, index) && id in entries && Ranked(rank, id) in ranked
    requires forall p :: p in ranked && p.id == id ==> p.rank == rank
    ensures QualifiedExact(entries[id := a], ranked, UpdatedIndex(index, entries[id], a, rank, id))
  {
    var next := UpdatedIndex(index, entries[id], a, rank, id);
    forall k: QualifiedKey
      ensures k in next <==>
        Ranked(k.rank, k.id) in ranked && k.id in entries[id := a] && k.name in entries[id := a][k.id].schemas
    {
      if k.id == id && Ranked(k.rank, k.id) in ranked {
        assert Ranked(k.rank, k.id).rank == rank;
      }
    }
  }

  /** A registered analysis has a key in the index for each of its schemas. */
  lemma {:induction false} KeyOf<H>(
      entries: map<nat, AnalyzedScript>, scriptEntries: map<H, ScriptEntry>, ranked: set<Ranked>,
      index: map<QualifiedKey, EntryInfo>, id: nat, q: SchemaName)
    requires EntriesAgree(entries, scriptEntries, ranked) && QualifiedExact(entries, ranked, index)
    requires id in entries && q in entries[id].schemas
    ensures SomeoneHasSchema(index, q) && SomeoneHasDatabase(index, q.database)
  {
    assert HasHandle(scriptEntries, id);
    var h :| h in scriptEntries && scriptEntries[h].id == id;
    var k := QualifiedKey(q, scriptEntries[h].rank, id);
    assert k in index;
  }

  lemma {:induction false} UpdateKeepsSchemas<H>(
      s: State<H>, t: State<H>, h: H, id: nat, was: AnalyzedScript, a: AnalyzedScript)
    requires SchemasDeclared(s.entries, s.schemas) && id in s.entries && s.entries[id] == was
    requires t.entries == s.entries[id := a] && SchemasUpdated(s.schemas, t.schemas, t.byQualified, was, a)
    requires EntriesAgree(t.entries, t.scriptEntries, t.entriesRanked)
    requires QualifiedExact(t.entries, t.entriesRanked, t.byQualified)
    ensures SchemasDeclared(t.entries, t.schemas)
  {
    forall i, q | i in t.entries && q in t.entries[i].schemas
      ensures q in t.schemas
    {
      KeyOf(t.entries, t.scriptEntries, t.entriesRanked, t.byQualified, i, q);
      assert q in s.schemas || q in Added(was, a);
    }
  }

  lemma {:induction false} DatabaseHasKey<H>(
      entries: map<nat, AnalyzedScript>, scriptEntries: map<H, ScriptEntry>, ranked: set<Ranked>,
      index: map<QualifiedKey, EntryInfo>, id: nat, d: string)
    requires EntriesAgree(entries, scriptEntries, ranked) && QualifiedExact(entries, ranked, index)
    requires AnalysesValid(entries) && id in entries && d in entries[id].databases
    ensures SomeoneHasDatabase(index, d)
  {
    assert entries[id].Valid();
    var q :| q in entries[id].schemas && q.database == d;
    KeyOf(entries, scriptEntries, ranked, index, id, q);
  }

  lemma {:induction false} DatabaseKept(
      before: map<string, Database>, after: map<string, Database>, index: map<QualifiedKey, EntryInfo>,
      was: AnalyzedScript, a: AnalyzedScript, d: string)
    requires DatabasesUpdated(before, after, index, was, a) && SomeoneHasDatabase(index, d)
    requires d in before || (d in a.databases && d !in was.databases)
    ensures d in after
  {
  }

  lemma {:induction false} UpdateKeepsDatabases<H>(
      s: State<H>, t: State<H>, h: H, id: nat, was: AnalyzedScript, a: AnalyzedScript)
    requires DatabasesDeclared(s.entries, s.databases) && id in s.entries && s.entries[id] == was
    requires t.entries == s.entries[id := a] && DatabasesUpdated(s.databases, t.databases, t.byQualified, was, a)
    requires EntriesAgree(t.entries, t.scriptEntries, t.entriesRanked)
    requires QualifiedExact(t.entries, t.entriesRanked, t.byQualified) && AnalysesValid(t.entries)
    ensures DatabasesDeclared(t.entries, t.databases)
  {
    forall i, d | i in t.entries && d in t.entries[i].databases
      ensures d in t.databases
    {
      DatabaseHasKey(t.entries, t.scriptEntries, t.entriesRanked, t.byQualified, i, d);
      assert d in s.databases || (d in a.databases && d !in was.databases);
      DatabaseKept(s.databases, t.databases, t.byQualified, was, a, d);
    }
  }

  lemma {:induction false} ReplaceKeepsIndex<H>(s: State<H>, t: State<H>, h: H, e: ScriptEntry, a: AnalyzedScript)
    requires EntriesAgree(s.entries, s.scriptEntries, s.entriesRanked)
    requires QualifiedExact(s.entries, s.entriesRanked, s.byQualified)
    requires h in s.scriptEntries && s.scriptEntries[h] == e && Replaced(s, t, h, e, a)
    ensures e.id in s.entries && s.entries[e.id] == e.analyzed
    ensures EntriesAgree(t.entries, t.scriptEntries, t.entriesRanked)
    ensures QualifiedExact(t.entries, t.entriesRanked, t.byQualified)
  {
    UpdateKeepsEntries(s.entries, s.scriptEntries, s.entriesRanked, h, a);
    assert Ranked(e.rank, e.id) in s.entriesRanked;
    UpdateKeepsQualified(s.entries, s.entriesRanked, s.byQualified, a, e.rank, e.id);
  }

  lemma {:induction false} ReplaceKeepsAnalyses(entries: map<nat, AnalyzedScript>, id: nat, a: AnalyzedScript)
    requires AnalysesValid(entries) && a.Valid()
    ensures AnalysesValid(entries[id := a])
  {
  }

  lemma {:induction false} ReplaceKeepsValid<H>(s: State<H>, t: State<H>, h: H, e: ScriptEntry, a: AnalyzedScript)
    requires Valid(s) && h in s.scriptEntries && s.scriptEntries[h] == e && a.Valid()
    requires Replaced(s, t, h, e, a)
    ensures Valid(t)
  {
    ReplaceKeepsIndex(s, t, h, e, a);
    ReplaceKeepsAnalyses(s.entries, e.id, a);
    UpdateKeepsSchemas(s, t, h, e.id, e.analyzed, a);
    UpdateKeepsDatabases(s, t, h, e.id, e.analyzed, a);
  }

  lemma {:induction false} UpdateKeepsValid<H>(s: State<H>, t: State<H>, h: H, a: AnalyzedScript)
    requires Valid(s) && h in s.scriptEntries && a.Valid()
    requires Updated(s, t, h, a)
    ensures Valid(t)
  {
    if s.scriptEntries[h].analyzed != a {
      ReplaceKeepsValid(s, t, h, s.scriptEntries[h], a);
    }
  }
}
