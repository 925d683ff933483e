/** Building the tree from the references and table declarations of the catalog entries. */
module CatalogTreeBuild {
  import opened NameTables
  import opened NameOrders
  import opened CatalogTree
  import opened CatalogTreeSteps

  datatype Builder = Builder(root: seq<DatabaseNode>, names: seq<string>, index: map<string, nat>, counters: Counters)

  /** One object id per name, and one name per object id. */
  ghost predicate OneIdPerDatabase(databases: set<DatabaseRef>) {
    forall a, b :: a in databases && b in databases ==> (a.databaseId == b.databaseId <==> a.name == b.name)
  }

  ghost predicate OneIdPerSchema(schemas: set<SchemaRef>) {
    forall a, b :: a in schemas && b in schemas ==>
      (a.schemaId == b.schemaId <==> a.databaseId == b.databaseId && a.name == b.name)
  }

  /** The tree holds exactly the databases, the schemas and the winning table declarations. */
  ghost predicate Holds(
      root: seq<DatabaseNode>, names: seq<string>, databases: set<DatabaseRef>, schemas: set<SchemaRef>,
      ds: seq<TableDecl>)
  {
    && DatabaseRefs(root) == databases
    && (forall s :: HasSchema(root, s) <==> s in schemas)
    && (forall d :: HasTable(root, names, d) <==> IsWinner(ds, d))
  }

  ghost predicate Built(b: Builder, databases: set<DatabaseRef>, schemas: set<SchemaRef>, ds: seq<TableDecl>) {
    && Indexes(b.index, b.names) && TreeOk(b.root, b.names) && b.counters == CountersOf(b.root)
    && Holds(b.root, b.names, databases, schemas, ds)
  }

  lemma {:induction false} BuiltFrom(
      b: Builder, databases: set<DatabaseRef>, schemas: set<SchemaRef>, ds: seq<TableDecl>)
    requires Indexes(b.index, b.names) && TreeOk(b.root, b.names) && b.counters == CountersOf(b.root)
    requires Holds(b.root, b.names, databases, schemas, ds)
    ensures Built(b, databases, schemas, ds)
  {
  }

  // ---------------------------------------------------------------- lookups

  method FindDatabase(root: seq<DatabaseNode>, databaseId: nat) returns (i: nat)
    ensures i <= |root| && (i < |root| ==> root[i].databaseId == databaseId)
    ensures forall k :: 0 <= k < i ==> root[k].databaseId != databaseId
  {
    i := 0;
    while i < |root| && root[i].databaseId != databaseId
      invariant i <= |root| && forall k :: 0 <= k < i ==> root[k].databaseId != databaseId
    {
      i := i + 1;
    }
  }

  method FindSchemaIn(schemas: seq<SchemaNode>, schemaId: nat) returns (j: nat)
    ensures j <= |schemas| && (j < |schemas| ==> schemas[j].schemaId == schemaId)
    ensures forall k :: 0 <= k < j ==> schemas[k].schemaId != schemaId
  {
    j := 0;
    while j < |schemas| && schemas[j].schemaId != schemaId
      invariant j <= |schemas| && forall k :: 0 <= k < j ==> schemas[k].schemaId != schemaId
    {
      j := j + 1;
    }
  }

  ghost predicate NoSchemaBelow(root: seq<DatabaseNode>, n: nat, schemaId: nat)
    requires n <= |root|
  {
    forall i, j :: 0 <= i < n && 0 <= j < |root[i].schemas| ==> root[i].schemas[j].schemaId != schemaId
  }

  method FindSchema(root: seq<DatabaseNode>, schemaId: nat) returns (found: bool, i: nat, j: nat)
    ensures found ==> i < |root| && j < |root[i].schemas| && root[i].schemas[j].schemaId == schemaId
    ensures !found ==> NoSchemaBelow(root, |root|, schemaId)
  {
    i, j := 0, 0;
    while i < |root|
      invariant i <= |root| && NoSchemaBelow(root, i, schemaId)
    {
      j := FindSchemaIn(root[i].schemas, schemaId);
      if j < |root[i].schemas| {
        return true, i, j;
      }
      i := i + 1;
    }
    return false, 0, 0;
  }

  method FindTable(tables: seq<TableNode>, name: string) returns (k: nat)
    ensures k <= |tables| && (k < |tables| ==> tables[k].name == name)
    ensures k == |tables| ==> name !in TableNames(tables)
  {
    k := 0;
    while k < |tables| && tables[k].name != name
      invariant k <= |tables| && forall x :: 0 <= x < k ==> tables[x].name != name
    {
      k := k + 1;
    }
  }

  // ---------------------------------------------------------------- databases

  /** A name that is interned leaves the tree and its contents as they are. */
  lemma {:induction false} InternKeepsBuilt(
      b: Builder, names: seq<string>, index: map<string, nat>, databases: set<DatabaseRef>, schemas: set<SchemaRef>,
      ds: seq<TableDecl>)
    requires Built(b, databases, schemas, ds) && b.names <= names && Indexes(index, names)
    ensures Built(b.(names := names, index := index), databases, schemas, ds)
  {
    TreeOkGrows(b.root, b.names, names);
    forall d: TableDecl
      ensures HasTable(b.root, names, d) <==> HasTable(b.root, b.names, d)
    {
      HasTableGrows(b.root, b.names, names, d);
    }
  }

  lemma {:induction false} DatabaseHolds(
      root: seq<DatabaseNode>, names: seq<string>, databases: set<DatabaseRef>, schemas: set<SchemaRef>, p: nat,
      d: DatabaseNode)
    requires Holds(root, names, databases, schemas, []) && p <= |root| && d.schemas == []
    ensures Holds(
      InsertAt(root, p, d), names, databases + {DatabaseRef(d.databaseId, d.name)}, schemas, [])
  {
    DatabaseContents(root, p, d);
    forall s: SchemaRef
      ensures HasSchema(InsertAt(root, p, d), s) <==> s in schemas
    {
      DatabaseKeepsSchemas(root, p, d, s);
    }
    forall t: TableDecl
      ensures HasTable(InsertAt(root, p, d), names, t) <==> IsWinner([], t)
    {
      DatabaseKeepsTables(root, names, p, d, t);
    }
  }

  lemma {:induction false} DatabaseKnown(root: seq<DatabaseNode>, databases: set<DatabaseRef>, ref: DatabaseRef, i: nat)
    requires DatabaseRefs(root) == databases && OneIdPerDatabase(databases + {ref})
    requires i < |root| && root[i].databaseId == ref.databaseId
    ensures databases + {ref} == databases
  {
    assert DatabaseRef(root[i].databaseId, root[i].name) in databases;
  }

  lemma {:induction false} DatabaseNameIsNew(root: seq<DatabaseNode>, databases: set<DatabaseRef>, ref: DatabaseRef)
    requires DatabaseRefs(root) == databases && OneIdPerDatabase(databases + {ref})
    requires forall k :: 0 <= k < |root| ==> root[k].databaseId != ref.databaseId
    ensures ref.name !in DatabaseNames(root) && ref !in databases
  {
    forall k | 0 <= k < |root|
      ensures root[k].name != ref.name
    {
      assert DatabaseRef(root[k].databaseId, root[k].name) in databases;
    }
  }

  function AddedDatabase(b: Builder, p: nat, d: DatabaseNode): Builder
    requires p <= |b.root|
  {
    b.(root := InsertAt(b.root, p, d), counters := b.counters.(databases := b.counters.databases + 1))
  }

  lemma {:induction false} AddedDatabaseIsBuilt(
      b: Builder, p: nat, d: DatabaseNode, databases: set<DatabaseRef>, schemas: set<SchemaRef>)
    requires Built(b, databases, schemas, []) && BelongsAt(DatabaseNames(b.root), p, d.name)
    requires NameOk(d.name, d.nameId, b.names) && d.schemas == []
    ensures Built(AddedDatabase(b, p, d), databases + {DatabaseRef(d.databaseId, d.name)}, schemas, [])
  {
    assert SchemaNames([]) == [];
    DatabaseKeepsTree(b.root, b.names, p, d);
    DatabaseHolds(b.root, b.names, databases, schemas, p, d);
    DatabaseCounts(b.root, p, d);
    BuiltFrom(AddedDatabase(b, p, d), databases + {DatabaseRef(d.databaseId, d.name)}, schemas, []);
  }

  method RegisterDatabase(
      b: Builder, ref: DatabaseRef, ghost databases: set<DatabaseRef>, ghost schemas: set<SchemaRef>)
    returns (r: Builder)
    requires Built(b, databases, schemas, []) && OneIdPerDatabase(databases + {ref})
    requires Counted(b.counters, databases, schemas, [])
    ensures Built(r, databases + {ref}, schemas, []) && Counted(r.counters, databases + {ref}, schemas, [])
  {
    var i := FindDatabase(b.root, ref.databaseId);
    if i < |b.root| {
      DatabaseKnown(b.root, databases, ref, i);
      return b;
    }
    DatabaseNameIsNew(b.root, databases, ref);
    var nameId, names, index := Intern(ref.name, b.names, b.index);
    InternKeepsBuilt(b, names, index, databases, schemas, []);
    var d := DatabaseNode(ref.name, ref.databaseId, nameId, []);
    var p := FindPlace(DatabaseNames(b.root), ref.name);
    var named := b.(names := names, index := index);
    AddedDatabaseIsBuilt(named, p, d, databases, schemas);
    DatabaseCounted(b.counters, databases, schemas, [], ref);
    r := AddedDatabase(named, p, d);
  }

  // ---------------------------------------------------------------- schemas

  lemma {:induction false} SchemaHolds(
      root: seq<DatabaseNode>, names: seq<string>, databases: set<DatabaseRef>, schemas: set<SchemaRef>, i: nat, p: nat,
      n: SchemaNode)
    requires Holds(root, names, databases, schemas, []) && i < |root| && p <= |root[i].schemas| && n.tables == []
    ensures Holds(
      WithSchema(root, i, p, n), names, databases, schemas + {SchemaRef(n.schemaId, root[i].databaseId, n.name)}, [])
  {
    SchemaKeepsDatabases(root, i, p, n);
    forall s: SchemaRef
      ensures HasSchema(WithSchema(root, i, p, n), s) <==>
        s in schemas + {SchemaRef(n.schemaId, root[i].databaseId, n.name)}
    {
      SchemaContents(root, i, p, n, s);
    }
    forall t: TableDecl
      ensures HasTable(WithSchema(root, i, p, n), names, t) <==> IsWinner([], t)
    {
      SchemaKeepsTables(root, names, i, p, n, t);
    }
  }

  lemma {:induction false} SchemaKnown(
      root: seq<DatabaseNode>, schemas: set<SchemaRef>, ref: SchemaRef, i: nat, j: nat)
    requires (forall s :: HasSchema(root, s) <==> s in schemas) && OneIdPerSchema(schemas + {ref})
    requires i < |root| && j < |root[i].schemas| && root[i].schemas[j].schemaId == ref.schemaId
    ensures schemas + {ref} == schemas
  {
    var s := SchemaRef(ref.schemaId, root[i].databaseId, root[i].schemas[j].name);
    assert HasSchemaAt(root, i, j, s);
    assert HasSchema(root, s);
  }

  lemma {:induction false} SchemaNameIsNew(
      root: seq<DatabaseNode>, schemas: set<SchemaRef>, ref: SchemaRef, i: nat)
    requires (forall s :: HasSchema(root, s) <==> s in schemas) && OneIdPerSchema(schemas + {ref})
    requires NoSchemaBelow(root, |root|, ref.schemaId) && i < |root| && root[i].databaseId == ref.databaseId
    ensures ref.name !in SchemaNames(root[i].schemas)
  {
    forall j | 0 <= j < |root[i].schemas|
      ensures root[i].schemas[j].name != ref.name
    {
      var s := SchemaRef(root[i].schemas[j].schemaId, root[i].databaseId, root[i].schemas[j].name);
      assert HasSchemaAt(root, i, j, s);
      assert HasSchema(root, s);
    }
  }

  lemma {:induction false} SchemaIsNew(root: seq<DatabaseNode>, schemas: set<SchemaRef>, ref: SchemaRef)
    requires (forall s :: HasSchema(root, s) <==> s in schemas) && NoSchemaBelow(root, |root|, ref.schemaId)
    ensures ref !in schemas
  {
    assert !HasSchema(root, ref);
  }

  method RegisterSchema(
      b: Builder, ref: SchemaRef, ghost databases: set<DatabaseRef>, ghost schemas: set<SchemaRef>)
    returns (r: Builder)
    requires Built(b, databases, schemas, []) && OneIdPerSchema(schemas + {ref})
    requires exists d :: d in databases && d.databaseId == ref.databaseId
    requires Counted(b.counters, databases, schemas, [])
    ensures Built(r, databases, schemas + {ref}, []) && Counted(r.counters, databases, schemas + {ref}, [])
  {
    var found, x, y := FindSchema(b.root, ref.schemaId);
    if found {
      SchemaKnown(b.root, schemas, ref, x, y);
      return b;
    }
    var nameId, names, index := Intern(ref.name, b.names, b.index);
    InternKeepsBuilt(b, names, index, databases, schemas, []);
    var i := FindDatabase(b.root, ref.databaseId);
    assert i < |b.root|;
    SchemaNameIsNew(b.root, schemas, ref, i);
    var s := SchemaNode(ref.name, ref.schemaId, nameId, []);
    assert DatabaseOk(b.root[i], names);
    var p := FindPlace(SchemaNames(b.root[i].schemas), ref.name);
    assert TableNames([]) == [];
    SchemaKeepsTree(b.root, names, i, p, s);
    SchemaHolds(b.root, names, databases, schemas, i, p, s);
    SchemaCounts(b.root, i, p, s);
    SchemaIsNew(b.root, schemas, ref);
    SchemaCounted(b.counters, databases, schemas, [], ref);
    r := Builder(WithSchema(b.root, i, p, s), names, index, b.counters.(schemas := b.counters.schemas + 1));
  }
}
