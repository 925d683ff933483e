/** The catalog's operations, in place on its tables. */
module Catalogs {
  import opened CatalogState
  import opened Collections
  import opened CatalogRuns

  class Script {
    const entryId: nat
    const catalog: Catalog
    /** The current analysis; analyzing the script again replaces it. */
    var analyzed: AnalyzedScript?

    constructor (entryId: nat, catalog: Catalog)
      ensures this.entryId == entryId && this.catalog == catalog && analyzed == null
    {
      this.entryId, this.catalog, this.analyzed := entryId, catalog, null;
    }
  }

  /** Scripts are registered under their own entry id. */
  ghost predicate OwnIds(scriptEntries: map<Script, ScriptEntry>) {
    forall script :: script in scriptEntries ==> scriptEntries[script].id == script.entryId
  }

  // ---------------------------------------------------------------- what the steps of an update do

  ghost predicate DatabasesInserted(
      before: map<string, Database>, after: map<string, Database>, was: AnalyzedScript, a: AnalyzedScript)
  {
    && (forall d :: d in after <==> d in before || (d in a.databases && d !in was.databases))
    && (forall d :: d in after ==>
          after[d] == if d in before then before[d] else Database(a.databases[d].objectId, ""))
  }

  ghost predicate DatabasesErased(
      before: map<string, Database>, after: map<string, Database>, index: map<QualifiedKey, EntryInfo>,
      names: set<string>)
  {
    && (forall d :: d in after <==> d in before && (d in names ==> SomeoneHasDatabase(index, d)))
    && (forall d :: d in after ==> after[d] == before[d])
  }

  ghost predicate SchemasErased(
      before: map<SchemaName, nat>, after: map<SchemaName, nat>, index: map<QualifiedKey, EntryInfo>,
      names: set<SchemaName>)
  {
    && (forall q :: q in after <==> q in before && (q in names ==> SomeoneHasSchema(index, q)))
    && (forall q :: q in after ==> after[q] == before[q])
  }

  ghost predicate SchemasInserted(
      before: map<SchemaName, nat>, after: map<SchemaName, nat>, a: AnalyzedScript, names: set<SchemaName>)
    requires names <= a.schemas.Keys
  {
    && (forall q :: q in after <==> q in before || q in names)
    && (forall q :: q in after ==> after[q] == if q in before then before[q] else a.schemas[q])
  }

  lemma {:induction false} NothingInserted(
      index: map<QualifiedKey, EntryInfo>, schemaIndex: map<SchemaKey, EntryInfo>, declared: map<SchemaName, nat>,
      a: AnalyzedScript, rank: nat, id: nat)
    ensures KeysInserted(index, index, a, {}, rank, id) && SchemaKeysInserted(schemaIndex, schemaIndex, a, {}, rank, id)
    ensures SchemasInserted(declared, declared, a, {})
  {
  }

  lemma {:induction false} NextQualifiedKey(
      before: map<QualifiedKey, EntryInfo>, after: map<QualifiedKey, EntryInfo>, a: AnalyzedScript,
      names: set<SchemaName>, q: SchemaName, rank: nat, id: nat)
    requires names <= a.schemas.Keys && q in a.schemas && q !in names
    requires QualifiedKey(q, rank, id) !in before && KeysInserted(before, after, a, names, rank, id)
    ensures QualifiedKey(q, rank, id) !in after
    ensures KeysInserted(
      before, after[QualifiedKey(q, rank, id) := EntryInfo(id, a.schemas[q])], a, names + {q}, rank, id)
  {
    var key := QualifiedKey(q, rank, id);
    var more := InfosOf(a, names + {q}, rank, id);
    assert more == InfosOf(a, names, rank, id)[key := EntryInfo(id, a.schemas[q])];
  }

  lemma {:induction false} NextSchemaKey(
      before: map<SchemaKey, EntryInfo>, after: map<SchemaKey, EntryInfo>, a: AnalyzedScript, names: set<SchemaName>,
      q: SchemaName, rank: nat, id: nat)
    requires q in a.schemas && SchemaKeysInserted(before, after, a, names, rank, id)
    ensures
      var key := SchemaKey(q.schema, rank, id);
      var next := if key in after then after else after[key := EntryInfo(id, a.schemas[q])];
      SchemaKeysInserted(before, next, a, names + {q}, rank, id)
  {
    NextKeys(names, q, rank, id);
    var key := SchemaKey(q.schema, rank, id);
    if key !in after {
      assert IsSchemaInfo(EntryInfo(id, a.schemas[q]), a, q.schema, id);
    }
    var next := if key in after then after else after[key := EntryInfo(id, a.schemas[q])];
    assert next.Keys == after.Keys + {key};
  }

  lemma {:induction false} NextSchema(
      before: map<SchemaName, nat>, after: map<SchemaName, nat>, a: AnalyzedScript, names: set<SchemaName>,
      q: SchemaName)
    requires names <= a.schemas.Keys && q in a.schemas && SchemasInserted(before, after, a, names)
    ensures SchemasInserted(before, if q !in after then after[q := a.schemas[q]] else after, a, names + {q})
  {
  }

  /** Erasing one key leaves the lookup of other names alone. */
  lemma {:induction false} OtherSchemaKept(index: map<QualifiedKey, EntryInfo>, k: QualifiedKey, q: SchemaName)
    requires k.name != q
    ensures SomeoneHasSchema(index - {k}, q) <==> SomeoneHasSchema(index, q)
  {
    if SomeoneHasSchema(index, q) {
      var x :| x in index && x.name == q;
      assert x in index - {k};
    }
  }

  /** Erasing the key of another schema keeps the erased declarations in step. */
  lemma {:induction false} ErasedSchemasKept(
      before: map<SchemaName, nat>, after: map<SchemaName, nat>, index: map<QualifiedKey, EntryInfo>,
      names: set<SchemaName>, key: QualifiedKey)
    requires SchemasErased(before, after, index, names) && key.name !in names
    ensures SchemasErased(before, after, index - {key}, names)
  {
    forall q | q in names
      ensures SomeoneHasSchema(index - {key}, q) <==> SomeoneHasSchema(index, q)
    {
      OtherSchemaKept(index, key, q);
    }
  }

  lemma {:induction false} VanishedNotAdded(
      index: map<QualifiedKey, EntryInfo>, was: AnalyzedScript, a: AnalyzedScript, rank: nat, id: nat, q: SchemaName)
    requires q in Vanished(was, a)
    ensures SomeoneHasSchema(index + InfosOf(a, Added(was, a), rank, id), q) <==> SomeoneHasSchema(index, q)
  {
    if SomeoneHasSchema(index, q) {
      var x :| x in index && x.name == q;
      assert x in index + InfosOf(a, Added(was, a), rank, id);
    }
  }

  lemma {:induction false} StepsUpdateSchemas(
      before: map<SchemaName, nat>, middle: map<SchemaName, nat>, after: map<SchemaName, nat>,
      index: map<QualifiedKey, EntryInfo>, was: AnalyzedScript, a: AnalyzedScript, rank: nat, id: nat, q: SchemaName)
    requires SchemasErased(before, middle, index, Vanished(was, a))
    requires SchemasInserted(middle, after, a, Added(was, a))
    ensures
      var now := index + InfosOf(a, Added(was, a), rank, id);
      q in after <==> (q in before && (q in Vanished(was, a) ==> SomeoneHasSchema(now, q))) || q in Added(was, a)
    ensures q in after ==> after[q] == if q in before then before[q] else a.schemas[q]
  {
    if q in Vanished(was, a) {
      VanishedNotAdded(index, was, a, rank, id, q);
    }
  }

  lemma {:induction false} StepsUpdateAllSchemas(
      before: map<SchemaName, nat>, middle: map<SchemaName, nat>, after: map<SchemaName, nat>,
      index: map<QualifiedKey, EntryInfo>, was: AnalyzedScript, a: AnalyzedScript, rank: nat, id: nat)
    requires SchemasErased(before, middle, index, Vanished(was, a))
    requires SchemasInserted(middle, after, a, Added(was, a))
    ensures SchemasUpdated(before, after, index + InfosOf(a, Added(was, a), rank, id), was, a)
  {
    forall q: SchemaName
      ensures q in after <==>
        (q in before && (q in Vanished(was, a) ==> SomeoneHasSchema(index + InfosOf(a, Added(was, a), rank, id), q)))
        || q in Added(was, a)
      ensures q in after ==> after[q] == if q in before then before[q] else a.schemas[q]
    {
      StepsUpdateSchemas(before, middle, after, index, was, a, rank, id, q);
    }
  }

  /** A registered script's entry is listed, its databases are declared, and only its schemas have its keys. */
  lemma {:induction false} EntryIsListed(s: State<Script>, script: Script)
    requires Valid(s) && script in s.scriptEntries
    ensures
      var e := s.scriptEntries[script];
      && e.id in s.entries && s.entries[e.id] == e.analyzed
      && (forall d :: d in e.analyzed.databases ==> d in s.databases)
      && (forall k :: k in s.byQualified && k.id == e.id ==> k.name in e.analyzed.schemas)
  {
  }

  lemma {:induction false} FreshKeys(s: State<Script>, id: nat)
    requires Valid(s) && id !in s.entries
    ensures forall k :: k in s.byQualified ==> k.id != id
  {
  }

  lemma {:induction false} ReplaceIsConsistent(s: State<Script>, t: State<Script>, script: Script, a: AnalyzedScript)
    requires Valid(s) && OwnIds(s.scriptEntries) && script in s.scriptEntries && a.Valid()
    requires Replaced(s, t, script, s.scriptEntries[script], a)
    ensures Valid(t) && OwnIds(t.scriptEntries)
  {
    ReplaceKeepsValid(s, t, script, s.scriptEntries[script], a);
  }

  lemma {:induction false} LoadIsConsistent(s: State<Script>, t: State<Script>, script: Script, e: ScriptEntry)
    requires Valid(s) && OwnIds(s.scriptEntries) && script !in s.scriptEntries && e.id !in s.entries
    requires e.analyzed.Valid() && e.id == script.entryId && Loaded(s, t, script, e)
    ensures Valid(t) && OwnIds(t.scriptEntries)
  {
    LoadKeepsValid(s, t, script, e);
  }

  lemma {:induction false} DeclareKeepsValid(s: State<Script>, t: State<Script>, a: AnalyzedScript)
    requires Valid(s) && DeclaresSome(s, t, a)
    requires t == s.(databases := t.databases, schemas := t.schemas)
    ensures Valid(t)
  {
  }

  // ---------------------------------------------------------------- the catalog

  class Catalog {
    var version: nat
    var entries: map<nat, AnalyzedScript>
    var scriptEntries: map<Script, ScriptEntry>
    var entriesRanked: set<Ranked>
    var entriesByQualifiedSchema: map<QualifiedKey, EntryInfo>
    var entriesBySchema: map<SchemaKey, EntryInfo>
    var databases: map<string, Database>
    var schemas: map<SchemaName, nat>

    ghost function Tables(): State<Script>
      reads this
    {
      State(
        version, entries, scriptEntries, entriesRanked, entriesByQualifiedSchema, entriesBySchema, databases, schemas)
    }

    ghost predicate Consistent()
      reads this
    {
      Valid(Tables()) && OwnIds(scriptEntries)
    }

    constructor ()
      ensures Consistent() && Tables() == Empty()
    {
      version := 1;
      entries, scriptEntries, entriesRanked := map[], map[], {};
      entriesByQualifiedSchema, entriesBySchema := map[], map[];
      databases, schemas := map[], map[];
    }

    method Clear()
      modifies this
      ensures Consistent() && Tables() == Cleared(old(Tables()))
    {
      entriesByQualifiedSchema, entriesBySchema := map[], map[];
      entriesRanked, entries, scriptEntries := {}, map[], map[];
      version := version + 1;
    }

    // -------------------------------------------------------------- loading

    /** Declare the databases of an analysis, up to the first one that is declared under another id. */
    method DeclareDatabases(a: AnalyzedScript) returns (ok: bool)
      modifies `databases
      ensures ok <==>
        forall d :: d in a.databases && d in old(databases) ==> old(databases)[d].objectId == a.databases[d].objectId
      ensures DatabasesGrow(old(databases), databases, a)
      ensures ok ==> forall d :: d in a.databases ==> d in databases
    {
      var todo := a.databases.Keys;
      while todo != {}
        invariant todo <= a.databases.Keys
        invariant DatabasesGrow(old(databases), databases, a)
        invariant forall d :: d in a.databases && d !in todo ==>
          d in databases && (d in old(databases) ==> old(databases)[d].objectId == a.databases[d].objectId)
        invariant forall d :: d in todo && d in databases ==> d in old(databases)
      {
        var d :| d in todo;
        if d in databases {
          if databases[d].objectId != a.databases[d].objectId {
            return false;
          }
        } else {
          databases := databases[d := a.databases[d]];
        }
        todo := todo - {d};
      }
      return true;
    }

    /** Likewise for the schemas. */
    method DeclareSchemas(a: AnalyzedScript) returns (ok: bool)
      modifies `schemas
      ensures ok <==> forall q :: q in a.schemas && q in old(schemas) ==> old(schemas)[q] == a.schemas[q]
      ensures SchemasGrow(old(schemas), schemas, a)
      ensures ok ==> forall q :: q in a.schemas ==> q in schemas
    {
      var todo := a.schemas.Keys;
      while todo != {}
        invariant todo <= a.schemas.Keys
        invariant SchemasGrow(old(schemas), schemas, a)
        invariant forall q :: q in a.schemas && q !in todo ==>
          q in schemas && (q in old(schemas) ==> old(schemas)[q] == a.schemas[q])
        invariant forall q :: q in todo && q in schemas ==> q in old(schemas)
      {
        var q :| q in todo;
        if q in schemas {
          if schemas[q] != a.schemas[q] {
            return false;
          }
        } else {
          schemas := schemas[q := a.schemas[q]];
        }
        todo := todo - {q};
      }
      return true;
    }

    /** Insert the two index keys of a schema; a key that exists keeps its info. */
    method InsertKey(
        a: AnalyzedScript, q: SchemaName, rank: nat, id: nat, ghost done: set<SchemaName>,
        ghost index: map<QualifiedKey, EntryInfo>, ghost schemaIndex: map<SchemaKey, EntryInfo>)
      requires done <= a.schemas.Keys && q in a.schemas && q !in done && QualifiedKey(q, rank, id) !in index
      requires KeysInserted(index, entriesByQualifiedSchema, a, done, rank, id)
      requires SchemaKeysInserted(schemaIndex, entriesBySchema, a, done, rank, id)
      modifies `entriesByQualifiedSchema, `entriesBySchema
      ensures KeysInserted(index, entriesByQualifiedSchema, a, done + {q}, rank, id)
      ensures SchemaKeysInserted(schemaIndex, entriesBySchema, a, done + {q}, rank, id)
    {
      var info := EntryInfo(id, a.schemas[q]);
      var qualified, key := QualifiedKey(q, rank, id), SchemaKey(q.schema, rank, id);
      NextQualifiedKey(index, entriesByQualifiedSchema, a, done, q, rank, id);
      NextSchemaKey(schemaIndex, entriesBySchema, a, done, q, rank, id);
      if qualified !in entriesByQualifiedSchema {
        entriesByQualifiedSchema := entriesByQualifiedSchema[qualified := info];
      }
      if key !in entriesBySchema {
        entriesBySchema := entriesBySchema[key := info];
      }
    }

    /** Insert the index keys of all schemas of an analysis. */
    method InsertKeys(a: AnalyzedScript, rank: nat, id: nat)
      requires forall k :: k in entriesByQualifiedSchema ==> k.id != id
      modifies `entriesByQualifiedSchema, `entriesBySchema
      ensures KeysInserted(old(entriesByQualifiedSchema), entriesByQualifiedSchema, a, a.schemas.Keys, rank, id)
      ensures SchemaKeysInserted(old(entriesBySchema), entriesBySchema, a, a.schemas.Keys, rank, id)
    {
      var todo := a.schemas.Keys;
      ghost var done: set<SchemaName> := {};
      while todo != {}
        invariant todo !! done && todo + done == a.schemas.Keys
        invariant KeysInserted(old(entriesByQualifiedSchema), entriesByQualifiedSchema, a, done, rank, id)
        invariant SchemaKeysInserted(old(entriesBySchema), entriesBySchema, a, done, rank, id)
        decreases |todo|
      {
        var q :| q in todo;
        InsertKey(a, q, rank, id, done, old(entriesByQualifiedSchema), old(entriesBySchema));
        todo, done := todo - {q}, done + {q};
      }
      assert done == a.schemas.Keys;
    }

    // -------------------------------------------------------------- updating

    /** Declare the databases that are new in the analysis; a name that is declared already keeps its declaration. */
    method InsertNewDatabases(was: AnalyzedScript, a: AnalyzedScript)
      modifies `databases
      ensures DatabasesInserted(old(databases), databases, was, a)
    {
      var todo := a.databases.Keys;
      while todo != {}
        invariant todo <= a.databases.Keys
        invariant forall d :: d in databases <==>
          d in old(databases) || (d in a.databases && d !in todo && d !in was.databases)
        invariant forall d :: d in databases ==>
          databases[d] == if d in old(databases) then old(databases)[d] else Database(a.databases[d].objectId, "")
      {
        var d :| d in todo;
        if d !in was.databases && d !in databases {
          databases := databases[d := Database(a.databases[d].objectId, "")];
        }
        todo := todo - {d};
      }
    }

    /** A schema that the script no longer has: its keys go, and its declaration unless someone else has it. */
    method EraseSchema(
        q: SchemaName, rank: nat, id: nat, ghost done: set<SchemaName>,
        ghost index: map<QualifiedKey, EntryInfo>, ghost schemaIndex: map<SchemaKey, EntryInfo>,
        ghost declared: map<SchemaName, nat>)
      requires q !in done
      requires entriesByQualifiedSchema == index - QualifiedKeys(done, rank, id)
      requires entriesBySchema == schemaIndex - SchemaKeys(done, rank, id)
      requires SchemasErased(declared, schemas, entriesByQualifiedSchema, done)
      modifies `entriesByQualifiedSchema, `entriesBySchema, `schemas
      ensures entriesByQualifiedSchema == index - QualifiedKeys(done + {q}, rank, id)
      ensures entriesBySchema == schemaIndex - SchemaKeys(done + {q}, rank, id)
      ensures SchemasErased(declared, schemas, entriesByQualifiedSchema, done + {q})
    {
      NextKeys(done, q, rank, id);
      var key := QualifiedKey(q, rank, id);
      EraseNext(index, QualifiedKeys(done, rank, id), key);
      EraseNext(schemaIndex, SchemaKeys(done, rank, id), SchemaKey(q.schema, rank, id));
      ErasedSchemasKept(declared, schemas, entriesByQualifiedSchema, done, key);
      entriesByQualifiedSchema := entriesByQualifiedSchema - {key};
      entriesBySchema := entriesBySchema - {SchemaKey(q.schema, rank, id)};
      if !SomeoneHasSchema(entriesByQualifiedSchema, q) {
        schemas := schemas - {q};
      }
    }

    /** Remove the schemas that vanished. */
    method EraseSchemas(was: AnalyzedScript, a: AnalyzedScript, ghost names: set<SchemaName>, rank: nat, id: nat)
      requires names == Vanished(was, a)
      modifies `entriesByQualifiedSchema, `entriesBySchema, `schemas
      ensures entriesByQualifiedSchema == old(entriesByQualifiedSchema) - QualifiedKeys(names, rank, id)
      ensures entriesBySchema == old(entriesBySchema) - SchemaKeys(names, rank, id)
      ensures SchemasErased(old(schemas), schemas, entriesByQualifiedSchema, names)
    {
      var todo := was.schemas.Keys;
      ghost var done: set<SchemaName> := {};
      while todo != {}
        invariant todo <= was.schemas.Keys && done <= names && todo !! done && names <= todo + done
        invariant entriesByQualifiedSchema == old(entriesByQualifiedSchema) - QualifiedKeys(done, rank, id)
        invariant entriesBySchema == old(entriesBySchema) - SchemaKeys(done, rank, id)
        invariant SchemasErased(old(schemas), schemas, entriesByQualifiedSchema, done)
        decreases |todo|
      {
        var q :| q in todo;
        if q !in a.schemas {
          EraseSchema(q, rank, id, done, old(entriesByQualifiedSchema), old(entriesBySchema), old(schemas));
          done := done + {q};
        }
        todo := todo - {q};
      }
      assert done == names;
    }

    /** A schema that is new in the analysis: its keys are inserted, and it is declared unless it is already. */
    method InsertSchema(
        a: AnalyzedScript, q: SchemaName, rank: nat, id: nat, ghost done: set<SchemaName>,
        ghost index: map<QualifiedKey, EntryInfo>, ghost schemaIndex: map<SchemaKey, EntryInfo>,
        ghost declared: map<SchemaName, nat>)
      requires done <= a.schemas.Keys && q in a.schemas && q !in done && QualifiedKey(q, rank, id) !in index
      requires q.database in databases
      requires KeysInserted(index, entriesByQualifiedSchema, a, done, rank, id)
      requires SchemaKeysInserted(schemaIndex, entriesBySchema, a, done, rank, id)
      requires SchemasInserted(declared, schemas, a, done)
      modifies `entriesByQualifiedSchema, `entriesBySchema, `schemas
      ensures KeysInserted(index, entriesByQualifiedSchema, a, done + {q}, rank, id)
      ensures SchemaKeysInserted(schemaIndex, entriesBySchema, a, done + {q}, rank, id)
      ensures SchemasInserted(declared, schemas, a, done + {q})
    {
      InsertKey(a, q, rank, id, done, index, schemaIndex);
      NextSchema(declared, schemas, a, done, q);
      if q !in schemas {
        assert q.database in databases;
        schemas := schemas[q := a.schemas[q]];
      }
    }

    /** Insert the schemas that are new in the analysis. */
    method InsertNewSchemas(was: AnalyzedScript, a: AnalyzedScript, ghost names: set<SchemaName>, rank: nat, id: nat)
      requires names == Added(was, a)
      requires forall q :: q in names ==>
        q.database in databases && QualifiedKey(q, rank, id) !in entriesByQualifiedSchema
      modifies `entriesByQualifiedSchema, `entriesBySchema, `schemas
      ensures KeysInserted(old(entriesByQualifiedSchema), entriesByQualifiedSchema, a, names, rank, id)
      ensures SchemaKeysInserted(old(entriesBySchema), entriesBySchema, a, names, rank, id)
      ensures SchemasInserted(old(schemas), schemas, a, names)
    {
      var todo := a.schemas.Keys;
      ghost var index, schemaIndex, declared := entriesByQualifiedSchema, entriesBySchema, schemas;
      TodoBegins(names, todo);
      NothingInserted(index, schemaIndex, declared, a, rank, id);
      while todo != {}
        invariant todo <= a.schemas.Keys
        invariant SchemasInsertedSoFar(index, schemaIndex, declared, a, names - todo, rank, id)
        decreases |todo|
      {
        var q :| q in todo;
        VisitNewSchema(was, a, q, rank, id, names, todo, index, schemaIndex, declared);
        todo := todo - {q};
      }
      TodoEnds(names);
    }

    /** Some schemas of an analysis were inserted. */
    ghost predicate SchemasInsertedSoFar(
        index: map<QualifiedKey, EntryInfo>, schemaIndex: map<SchemaKey, EntryInfo>, declared: map<SchemaName, nat>,
        a: AnalyzedScript, done: set<SchemaName>, rank: nat, id: nat)
      reads this
    {
      && done <= a.schemas.Keys && KeysInserted(index, entriesByQualifiedSchema, a, done, rank, id)
      && SchemaKeysInserted(schemaIndex, entriesBySchema, a, done, rank, id)
      && SchemasInserted(declared, schemas, a, done)
    }

    /** Insert one schema of the analysis, if it is new. */
    method VisitNewSchema(
        was: AnalyzedScript, a: AnalyzedScript, q: SchemaName, rank: nat, id: nat, ghost names: set<SchemaName>,
        ghost todo: set<SchemaName>, ghost index: map<QualifiedKey, EntryInfo>,
        ghost schemaIndex: map<SchemaKey, EntryInfo>, ghost declared: map<SchemaName, nat>)
      requires names == Added(was, a) && q in todo && q in a.schemas
      requires q in names ==> q.database in databases && QualifiedKey(q, rank, id) !in index
      requires SchemasInsertedSoFar(index, schemaIndex, declared, a, names - todo, rank, id)
      modifies `entriesByQualifiedSchema, `entriesBySchema, `schemas
      ensures SchemasInsertedSoFar(index, schemaIndex, declared, a, names - (todo - {q}), rank, id)
    {
      TodoShrinks(names, todo, q);
      if q !in was.schemas {
        InsertSchema(a, q, rank, id, names - todo, index, schemaIndex, declared);
      }
    }

    /** Remove the databases that the script no longer has and nobody else refers to. */
    method EraseDatabases(was: AnalyzedScript, a: AnalyzedScript)
      modifies `databases
      ensures DatabasesErased(
        old(databases), databases, entriesByQualifiedSchema, was.databases.Keys - a.databases.Keys)
    {
      var todo := was.databases.Keys;
      while todo != {}
        invariant todo <= was.databases.Keys
        invariant DatabasesErased(old(databases), databases, entriesByQualifiedSchema,
                    was.databases.Keys - a.databases.Keys - todo)
      {
        var d :| d in todo;
        if d !in a.databases && !SomeoneHasDatabase(entriesByQualifiedSchema, d) {
          databases := databases - {d};
        }
        todo := todo - {d};
      }
    }

    /** Apply the difference between the registered and the new analysis to the indexes and declarations. */
    method ApplyDifference(entry: ScriptEntry, a: AnalyzedScript)
      requires a.Valid()
      requires forall d :: d in entry.analyzed.databases ==> d in databases
      requires forall q :: q in Added(entry.analyzed, a) ==>
        QualifiedKey(q, entry.rank, entry.id) !in entriesByQualifiedSchema
      modifies `entriesByQualifiedSchema, `entriesBySchema, `schemas, `databases
      ensures entriesByQualifiedSchema
        == UpdatedIndex(old(entriesByQualifiedSchema), entry.analyzed, a, entry.rank, entry.id)
      ensures SchemaIndexUpdated(old(entriesBySchema), entriesBySchema, entry, a)
      ensures SchemasUpdated(old(schemas), schemas, entriesByQualifiedSchema, entry.analyzed, a)
      ensures DatabasesUpdated(old(databases), databases, entriesByQualifiedSchema, entry.analyzed, a)
    {
      var was := entry.analyzed;
      InsertNewDatabases(was, a);
      ghost var allDatabases := databases;
      EraseSchemas(was, a, Vanished(was, a), entry.rank, entry.id);
      ghost var middle, index := schemas, entriesByQualifiedSchema;
      InsertNewSchemas(was, a, Added(was, a), entry.rank, entry.id);
      StepsUpdateAllSchemas(old(schemas), middle, schemas, index, was, a, entry.rank, entry.id);
      EraseDatabases(was, a);
    }

    /** Replace the registered analysis of a script in the entry tables. */
    method ReplaceEntry(script: Script, entry: ScriptEntry, a: AnalyzedScript)
      requires entry.id == script.entryId && script.entryId in entries
      modifies `version, `entries, `scriptEntries
      ensures EntriesUpdated(old(Tables()), Tables(), script, entry, a)
    {
      scriptEntries := scriptEntries[script := ScriptEntry(entry.id, a, entry.rank)];
      assert script.entryId in entries;
      entries := entries[script.entryId := a];
      version := version + 1;
    }

    method UpdateScript(script: Script) returns (status: Status)
      requires Consistent() && script in scriptEntries && script.analyzed != null && script.analyzed.Valid()
      modifies this
      ensures status == Ok && Consistent() && Updated(old(Tables()), Tables(), script, script.analyzed)
    {
      var entry, a := scriptEntries[script], script.analyzed;
      if entry.analyzed == a {
        return Ok;
      }
      ghost var was := Tables();
      EntryIsListed(was, script);
      ApplyDifference(entry, a);
      ReplaceEntry(script, entry, a);
      ReplaceIsConsistent(was, Tables(), script, a);
      return Ok;
    }

    /** Declare everything an analysis refers to. Declarations made before a failure stay. */
    method Declare(a: AnalyzedScript) returns (ok: bool)
      modifies `databases, `schemas
      ensures ok <==> InSync(old(Tables()), a)
      ensures DeclaresSome(old(Tables()), Tables(), a)
      ensures ok ==> AllDeclared(Tables(), a)
    {
      ok := DeclareDatabases(a);
      if ok {
        ok := DeclareSchemas(a);
      }
    }

    /** Register a new script in the entry tables and indexes. */
    method Register(script: Script, a: AnalyzedScript, rank: nat)
      requires forall k :: k in entriesByQualifiedSchema ==> k.id != script.entryId
      modifies `version, `entries, `scriptEntries, `entriesRanked, `entriesByQualifiedSchema, `entriesBySchema
      ensures
        var e := ScriptEntry(script.entryId, a, rank);
        && EntriesLoaded(old(Tables()), Tables(), script, e)
        && KeysInserted(old(entriesByQualifiedSchema), entriesByQualifiedSchema, a, a.schemas.Keys, rank, e.id)
        && SchemaKeysInserted(old(entriesBySchema), entriesBySchema, a, a.schemas.Keys, rank, e.id)
    {
      InsertKeys(a, rank, script.entryId);
      RegisterEntry(script, a, rank);
    }

    method RegisterEntry(script: Script, a: AnalyzedScript, rank: nat)
      modifies `version, `entries, `scriptEntries, `entriesRanked
      ensures EntriesLoaded(old(Tables()), Tables(), script, ScriptEntry(script.entryId, a, rank))
    {
      scriptEntries := scriptEntries[script := ScriptEntry(script.entryId, a, rank)];
      entries := entries[script.entryId := a];
      entriesRanked := entriesRanked + {Ranked(rank, script.entryId)};
      version := version + 1;
    }

    /** Load a script that is not registered and whose id is free. */
    method LoadNew(script: Script, a: AnalyzedScript, rank: nat) returns (status: Status)
      requires Consistent() && script !in scriptEntries && script.entryId !in entries && a.Valid()
      modifies this
      ensures Consistent()
      ensures
        if InSync(old(Tables()), a) then
          status == Ok && Loaded(old(Tables()), Tables(), script, ScriptEntry(script.entryId, a, rank))
        else status == CatalogIdOutOfSync && LoadFailed(old(Tables()), Tables(), a)
    {
      ghost var was := Tables();
      var declared := Declare(a);
      DeclareKeepsValid(was, Tables(), a);
      if !declared {
        return CatalogIdOutOfSync;
      }
      FreshKeys(was, script.entryId);
      Register(script, a, rank);
      LoadIsConsistent(was, Tables(), script, ScriptEntry(script.entryId, a, rank));
      return Ok;
    }

    /** Load a script, or update it if it is registered already. */
    method LoadScript(script: Script, rank: nat) returns (status: Status)
      requires Consistent() && (script.analyzed != null ==> script.analyzed.Valid())
      modifies this
      ensures Consistent()
      ensures LoadEffect(
        old(Tables()), Tables(), script, script.entryId, script.analyzed, script.catalog == this, rank, status)
    {
      if script.analyzed == null {
        return ScriptNotAnalyzed;
      }
      if script.catalog != this {
        return CatalogMismatch;
      }
      if script in scriptEntries {
        status := UpdateScript(script);
      } else if script.entryId in entries {
        status := ExternalIdCollision;
      } else {
        status := LoadNew(script, script.analyzed, rank);
      }
    }

    // -------------------------------------------------------------- dropping

    /** Erase the index keys of an analysis. */
    method EraseKeys(analyzed: AnalyzedScript, rank: nat, id: nat)
      modifies `entriesByQualifiedSchema, `entriesBySchema
      ensures entriesByQualifiedSchema == old(entriesByQualifiedSchema) - QualifiedKeys(analyzed.schemas.Keys, rank, id)
      ensures entriesBySchema == old(entriesBySchema) - SchemaKeys(analyzed.schemas.Keys, rank, id)
    {
      var todo := analyzed.schemas.Keys;
      while todo != {}
        invariant todo <= analyzed.schemas.Keys
        invariant entriesByQualifiedSchema
          == old(entriesByQualifiedSchema) - QualifiedKeys(analyzed.schemas.Keys - todo, rank, id)
        invariant entriesBySchema == old(entriesBySchema) - SchemaKeys(analyzed.schemas.Keys - todo, rank, id)
      {
        var q :| q in todo;
        NextKeys(analyzed.schemas.Keys - todo, q, rank, id);
        assert analyzed.schemas.Keys - (todo - {q}) == analyzed.schemas.Keys - todo + {q};
        entriesByQualifiedSchema := entriesByQualifiedSchema - {QualifiedKey(q, rank, id)};
        entriesBySchema := entriesBySchema - {SchemaKey(q.schema, rank, id)};
        todo := todo - {q};
      }
      assert analyzed.schemas.Keys - {} == analyzed.schemas.Keys;
    }

    /** Remove a registered script from every table but the declarations. */
    method Unregister(script: Script)
      requires script in scriptEntries && scriptEntries[script].id == script.entryId
      modifies this
      ensures Tables() == Dropped(old(Tables()), script)
    {
      var entry := scriptEntries[script];
      EraseKeys(entry.analyzed, entry.rank, script.entryId);
      entriesRanked := entriesRanked - {Ranked(entry.rank, script.entryId)};
      entries := entries - {script.entryId};
      scriptEntries := scriptEntries - {script};
      version := version + 1;
    }

    method DropScript(script: Script)
      requires Consistent()
      modifies this
      ensures Consistent() && Tables() == Dropped(old(Tables()), script)
    {
      DropKeepsValid(Tables(), script);
      if script in scriptEntries {
        Unregister(script);
      }
    }
  }

  lemma {:induction false} NextKeys(names: set<SchemaName>, q: SchemaName, rank: nat, id: nat)
    ensures QualifiedKeys(names + {q}, rank, id) == QualifiedKeys(names, rank, id) + {QualifiedKey(q, rank, id)}
    ensures SchemaKeys(names + {q}, rank, id) == SchemaKeys(names, rank, id) + {SchemaKey(q.schema, rank, id)}
  {
    forall k: SchemaKey
      ensures k in SchemaKeys(names + {q}, rank, id)
        <==> k in SchemaKeys(names, rank, id) || k == SchemaKey(q.schema, rank, id)
    {
      if HasSchema(names, k.schema) {
        var x :| x in names && x.schema == k.schema;
        assert x in names + {q};
      }
      assert q in names + {q};
    }
  }
}
