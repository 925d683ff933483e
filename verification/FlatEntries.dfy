/** Flattening the entries of a catalog, and the runs in which its ids allow it. */
module FlatEntries {
  import opened NameTables
  import CatalogState
  import CatalogRuns
  import CatalogIds
  import opened CatalogTree
  import opened CatalogTreeBuild
  import opened CatalogTables
  import opened RankOrder
  import opened CatalogContents
  import opened FlatLayout
  import opened FlatIndex
  import opened FlatCatalogs

  type Ranked = CatalogState.Ranked

  /** Ids and names identify each other, and everything that is used is referred to. */
  ghost predicate ContentsOk(contents: map<nat, Contents>) {
    && OneIdPerDatabase(AllDatabases(contents)) && OneIdPerSchema(AllSchemas(contents))
    && (forall id :: id in contents ==> HasDatabases(contents[id]))
    && (forall id, d :: id in contents && d in contents[id].tables ==> IsSchemaOf(AllSchemas(contents), d.schemaId))
  }

  lemma {:induction false} DeclarationsHaveSchemas(order: seq<Ranked>, contents: map<nat, Contents>)
    requires ContentsOk(contents) && forall p :: p in order ==> p.id in contents
    ensures forall k :: 0 <= k < |DeclarationsOf(order, contents)| ==>
      IsSchemaOf(AllSchemas(contents), DeclarationsOf(order, contents)[k].schemaId)
  {
    if order != [] {
      var front: seq<Ranked>, tables := order[..|order| - 1], contents[order[|order| - 1].id].tables;
      DeclarationsHaveSchemas(front, contents);
      var ds := DeclarationsOf(front, contents);
      var all: seq<TableDecl> := ds + tables;
      forall k | 0 <= k < |all|
        ensures IsSchemaOf(AllSchemas(contents), all[k].schemaId)
      {
        if k >= |ds| {
          assert all[k] == tables[k - |ds|] && tables[k - |ds|] in tables;
        }
      }
    }
  }

  /** The arrays list exactly what the entries hold: of every table the first declaration by rank, id and position. */
  ghost predicate ListsContents(
      flat: Flat, names: seq<string>, contents: map<nat, Contents>, ranked: set<Ranked>)
  {
    && (forall ref :: ref in AllDatabases(contents) <==> exists q :: IsFlatDatabase(flat, names, q, ref))
    && (forall ref :: ref in AllSchemas(contents) <==> exists q :: IsFlatSchema(flat, names, q, ref))
    && (forall d :: IsFirst(contents, ranked, d) <==> exists q :: IsFlatTable(flat, names, q, d))
  }

  /** The arrays are as long as what they list. */
  ghost predicate Counts(flat: Flat, contents: map<nat, Contents>, order: seq<Ranked>)
    requires forall p :: p in order ==> p.id in contents
  {
    && |flat.databases| == |AllDatabases(contents)| && |flat.schemas| == |AllSchemas(contents)|
    && |flat.tables| == WinningTables(DeclarationsOf(order, contents))
    && |flat.columns| == WinningColumns(DeclarationsOf(order, contents))
  }

  lemma {:induction false} ListedContents(
      flat: Flat, names: seq<string>, contents: map<nat, Contents>, ranked: set<Ranked>, order: seq<Ranked>)
    requires IsRankOrder(order, ranked) && forall p :: p in ranked ==> p.id in contents
    requires Lists(
      flat, names, AllDatabases(contents), AllSchemas(contents), DeclarationsOf(order, contents))
    ensures ListsContents(flat, names, contents, ranked)
  {
    forall d: TableDecl
      ensures IsFirst(contents, ranked, d) <==> exists q :: IsFlatTable(flat, names, q, d)
    {
      WinnersAreFirst(order, ranked, contents, d);
    }
  }

  /** Flatten the entries of a catalog. */
  method FlattenEntries(contents: map<nat, Contents>, ranked: set<Ranked>)
    returns (r: FlatCatalog, ghost order: seq<Ranked>)
    requires ContentsOk(contents) && forall p :: p in ranked ==> p.id in contents
    ensures Distinct(r.names) && Partitioned(r.flat)
    ensures BackIndexed(r.flat.databases, r.flat.schemas) && BackIndexed(r.flat.schemas, r.flat.tables)
    ensures BackIndexed(r.flat.tables, r.flat.columns)
    ensures ListsContents(r.flat, r.names, contents, ranked) && TablesOnce(r.flat, r.names)
    ensures IsRankOrder(order, ranked) && Counts(r.flat, contents, order)
    ensures IsIndexOf(r.databasesById, r.flat.databases) && IsIndexOf(r.schemasById, r.flat.schemas)
    ensures IsIndexOf(r.tablesById, r.flat.tables)
  {
    var references := CollectReferences(contents);
    var listed := ListRanked(ranked);
    order := listed;
    var ds := CollectDeclarations(listed, contents);
    DeclarationsHaveSchemas(listed, contents);
    r := Flatten(references, ds);
    ListedContents(r.flat, r.names, contents, ranked, order);
  }

  // ---------------------------------------------------------------- ids of a catalog

  /** The entry holds the databases and schemas of the analysis, under the analysis's ids. */
  ghost predicate HoldsAnalysis(c: Contents, a: CatalogState.AnalyzedScript) {
    && (forall ref :: ref in c.databases <==>
          ref.name in a.databases && a.databases[ref.name].objectId == ref.databaseId)
    && (forall ref :: ref in c.schemas <==> exists q :: IsSchemaRef(a, q, ref))
  }

  ghost predicate IsSchemaRef(a: CatalogState.AnalyzedScript, q: CatalogState.SchemaName, ref: SchemaRef) {
    && q in a.schemas && q.schema == ref.name && a.schemas[q] == ref.schemaId
    && q.database in a.databases && a.databases[q.database].objectId == ref.databaseId
  }

  ghost predicate HoldsEntries(contents: map<nat, Contents>, entries: map<nat, CatalogState.AnalyzedScript>) {
    contents.Keys == entries.Keys && forall id :: id in entries ==> HoldsAnalysis(contents[id], entries[id])
  }

  /** No id is given to two names. */
  ghost predicate IdsIdentify(contents: map<nat, Contents>) {
    && (forall a, b :: a in AllDatabases(contents) && b in AllDatabases(contents) && a.databaseId == b.databaseId ==>
          a.name == b.name)
    && (forall a, b :: a in AllSchemas(contents) && b in AllSchemas(contents) && a.schemaId == b.schemaId ==>
          a.databaseId == b.databaseId && a.name == b.name)
  }

  lemma {:induction false} DatabaseRefDeclared<H>(
      s: CatalogState.State<H>, contents: map<nat, Contents>, ref: DatabaseRef)
    requires CatalogState.Valid(s) && CatalogIds.IdsInSync(s) && HoldsEntries(contents, s.entries)
    requires ref in AllDatabases(contents)
    ensures ref.name in s.databases && s.databases[ref.name].objectId == ref.databaseId
  {
    var id :| id in contents && ref in contents[id].databases;
    assert HoldsAnalysis(contents[id], s.entries[id]);
    assert CatalogState.InSync(s, s.entries[id]);
  }

  lemma {:induction false} SchemaRefDeclared<H>(
      s: CatalogState.State<H>, contents: map<nat, Contents>, ref: SchemaRef)
    returns (q: CatalogState.SchemaName)
    requires CatalogState.Valid(s) && CatalogIds.IdsInSync(s) && HoldsEntries(contents, s.entries)
    requires ref in AllSchemas(contents)
    ensures q in s.schemas && s.schemas[q] == ref.schemaId && q.schema == ref.name
    ensures DatabaseRef(ref.databaseId, q.database) in AllDatabases(contents)
  {
    var id :| id in contents && ref in contents[id].schemas;
    assert HoldsAnalysis(contents[id], s.entries[id]);
    assert CatalogState.InSync(s, s.entries[id]);
    q :| IsSchemaRef(s.entries[id], q, ref);
    assert DatabaseRef(ref.databaseId, q.database) in contents[id].databases;
  }

  /** If the registered analyses have the declared ids, a name has one id. */
  lemma {:induction false} OneIdPerName<H>(s: CatalogState.State<H>, contents: map<nat, Contents>)
    requires CatalogState.Valid(s) && CatalogIds.IdsInSync(s) && HoldsEntries(contents, s.entries)
    requires IdsIdentify(contents)
    ensures OneIdPerDatabase(AllDatabases(contents)) && OneIdPerSchema(AllSchemas(contents))
  {
    forall a, b | a in AllDatabases(contents) && b in AllDatabases(contents)
      ensures a.databaseId == b.databaseId <==> a.name == b.name
    {
      DatabaseRefDeclared(s, contents, a);
      DatabaseRefDeclared(s, contents, b);
    }
    forall a, b | a in AllSchemas(contents) && b in AllSchemas(contents)
      ensures a.schemaId == b.schemaId <==> a.databaseId == b.databaseId && a.name == b.name
    {
      var p := SchemaRefDeclared(s, contents, a);
      var q := SchemaRefDeclared(s, contents, b);
      if a.databaseId == b.databaseId && a.name == b.name {
        SameDatabaseName(contents, a.databaseId, p.database, q.database);
        assert p == q;
      }
    }
  }

  lemma {:induction false} SameDatabaseName(contents: map<nat, Contents>, id: nat, d: string, e: string)
    requires IdsIdentify(contents)
    requires DatabaseRef(id, d) in AllDatabases(contents) && DatabaseRef(id, e) in AllDatabases(contents)
    ensures d == e
  {
    assert DatabaseRef(id, d).databaseId == DatabaseRef(id, e).databaseId;
  }

  lemma {:induction false} AnalysisHasDatabases(c: Contents, a: CatalogState.AnalyzedScript)
    requires HoldsAnalysis(c, a)
    ensures HasDatabases(c)
  {
    forall ref | ref in c.schemas
      ensures exists d :: d in c.databases && d.databaseId == ref.databaseId
    {
      var q :| IsSchemaRef(a, q, ref);
      assert DatabaseRef(ref.databaseId, q.database) in c.databases;
    }
  }

  /**
    Whenever every update of a run has its ids in sync, the catalog can be flattened: names have one id, and
    every ranked entry is registered.
  */
  lemma {:induction false} RunCanBeFlattened<H>(
      states: seq<CatalogState.State<H>>, actions: seq<CatalogRuns.Action<H>>, n: nat, contents: map<nat, Contents>)
    requires CatalogRuns.IsRun(states, actions) && n < |states|
    requires forall i :: 0 <= i < n ==> CatalogIds.UpdatesInSync(states[i], actions[i])
    requires HoldsEntries(contents, states[n].entries) && IdsIdentify(contents)
    requires forall id, d :: id in contents && d in contents[id].tables ==>
      IsSchemaOf(AllSchemas(contents), d.schemaId)
    ensures ContentsOk(contents)
    ensures forall p :: p in states[n].entriesRanked ==> p.id in contents
  {
    CatalogRuns.EveryRunIsConsistent(states, actions, n);
    CatalogIds.RunKeepsIdsIff(states, actions, n);
    assert CatalogIds.IdsInSync(states[n]);
    OneIdPerName(states[n], contents);
    forall id | id in contents
      ensures HasDatabases(contents[id])
    {
      AnalysisHasDatabases(contents[id], states[n].entries[id]);
    }
  }
}
