/** Declaring the tables of the catalog entries in ranked order: the first declaration of a table wins. */
module CatalogTables {
  import opened Collections
  import opened NameTables
  import opened NameOrders
  import opened CatalogTree
  import opened CatalogTreeSteps
  import opened CatalogTreeBuild

  // ---------------------------------------------------------------- winners

  ghost predicate IsDeclared(ds: seq<TableDecl>, schemaId: nat, name: string) {
    exists k :: 0 <= k < |ds| && ds[k].schemaId == schemaId && ds[k].name == name
  }

  /** Every declared table has a winning declaration. */
  lemma {:induction false} DeclaredHasWinner(ds: seq<TableDecl>, schemaId: nat, name: string) returns (w: TableDecl)
    requires IsDeclared(ds, schemaId, name)
    ensures IsWinner(ds, w) && w.schemaId == schemaId && w.name == name
  {
    var k := 0;
    while !(ds[k].schemaId == schemaId && ds[k].name == name)
      invariant 0 <= k < |ds|
      invariant forall j :: 0 <= j < k ==> !(ds[j].schemaId == schemaId && ds[j].name == name)
      invariant exists j :: k <= j < |ds| && ds[j].schemaId == schemaId && ds[j].name == name
      decreases |ds| - k
    {
      k := k + 1;
    }
    w := ds[k];
    assert Wins(ds, k);
  }

  lemma {:induction false} WinnerIsDeclared(ds: seq<TableDecl>, w: TableDecl)
    requires IsWinner(ds, w)
    ensures IsDeclared(ds, w.schemaId, w.name)
  {
    var k :| Wins(ds, k) && ds[k] == w;
    assert ds[k].name == w.name;
  }

  /** One more declaration wins if its table was not declared before. */
  lemma {:induction false} LastWins(ds: seq<TableDecl>, d: TableDecl)
    ensures Wins(ds + [d], |ds|) <==> !IsDeclared(ds, d.schemaId, d.name)
  {
    var all := ds + [d];
    assert forall j :: 0 <= j < |ds| ==> all[j] == ds[j];
    if IsDeclared(ds, d.schemaId, d.name) {
      var k :| 0 <= k < |ds| && ds[k].schemaId == d.schemaId && ds[k].name == d.name;
      assert all[k] == ds[k];
    }
  }

  lemma {:induction false} WinnersAppend(ds: seq<TableDecl>, d: TableDecl, w: TableDecl)
    ensures IsWinner(ds + [d], w) <==> IsWinner(ds, w) || (w == d && !IsDeclared(ds, d.schemaId, d.name))
  {
    var all := ds + [d];
    if IsWinner(all, w) {
      var k :| Wins(all, k) && all[k] == w;
      if k < |ds| {
        assert Wins(ds, k) by {
          assert forall j :: 0 <= j < k ==> ds[j] == all[j];
        }
      } else {
        forall j | 0 <= j < |ds|
          ensures !(ds[j].schemaId == d.schemaId && ds[j].name == d.name)
        {
          assert all[j] == ds[j];
        }
      }
    }
    if IsWinner(ds, w) {
      var k :| Wins(ds, k) && ds[k] == w;
      assert forall j :: 0 <= j <= k ==> ds[j] == all[j];
      assert Wins(all, k);
    }
    if w == d && !IsDeclared(ds, d.schemaId, d.name) {
      forall j | 0 <= j < |ds|
        ensures !(all[j].schemaId == d.schemaId && all[j].name == d.name)
      {
        assert all[j] == ds[j];
      }
      assert Wins(all, |ds|);
    }
  }

  // ---------------------------------------------------------------- where a schema stands

  /** A schema id stands at one position. */
  lemma {:induction false} SchemaPositionUnique(
      root: seq<DatabaseNode>, names: seq<string>, databases: set<DatabaseRef>, schemas: set<SchemaRef>,
      i: nat, j: nat, x: nat, y: nat)
    requires TreeOk(root, names) && DatabaseRefs(root) == databases && OneIdPerDatabase(databases)
    requires (forall s :: HasSchema(root, s) <==> s in schemas) && OneIdPerSchema(schemas)
    requires i < |root| && j < |root[i].schemas| && x < |root| && y < |root[x].schemas|
    requires root[i].schemas[j].schemaId == root[x].schemas[y].schemaId
    ensures i == x && j == y
  {
    var s := SchemaRef(root[i].schemas[j].schemaId, root[i].databaseId, root[i].schemas[j].name);
    var t := SchemaRef(root[x].schemas[y].schemaId, root[x].databaseId, root[x].schemas[y].name);
    assert HasSchemaAt(root, i, j, s) && HasSchemaAt(root, x, y, t);
    assert HasSchema(root, s) && HasSchema(root, t);
    assert DatabaseRef(root[i].databaseId, root[i].name) in databases;
    assert DatabaseRef(root[x].databaseId, root[x].name) in databases;
    AscendingIsDistinct(DatabaseNames(root), i, x);
    assert DatabaseOk(root[i], names);
    AscendingIsDistinct(SchemaNames(root[i].schemas), j, y);
  }

  /** A table stands in the tree exactly if it was declared. */
  lemma {:induction false} PresentIffDeclared(
      b: Builder, databases: set<DatabaseRef>, schemas: set<SchemaRef>, ds: seq<TableDecl>, i: nat, j: nat,
      name: string)
    requires Built(b, databases, schemas, ds) && OneIdPerDatabase(databases) && OneIdPerSchema(schemas)
    requires i < |b.root| && j < |b.root[i].schemas|
    ensures name in TableNames(b.root[i].schemas[j].tables) <==>
      IsDeclared(ds, b.root[i].schemas[j].schemaId, name)
  {
    var schema := b.root[i].schemas[j];
    assert DatabaseOk(b.root[i], b.names);
    assert SchemaOk(schema, b.names);
    if name in TableNames(schema.tables) {
      var k :| 0 <= k < |schema.tables| && TableNames(schema.tables)[k] == name;
      var t := schema.tables[k];
      assert TableOk(t, b.names);
      var d := TableDecl(t.tableId, schema.schemaId, t.name, ColumnNames(t.columns, b.names));
      assert HasTableAt(b.root, b.names, i, j, k, d);
      assert HasTable(b.root, b.names, d);
      WinnerIsDeclared(ds, d);
    }
    if IsDeclared(ds, schema.schemaId, name) {
      var w := DeclaredHasWinner(ds, schema.schemaId, name);
      assert HasTable(b.root, b.names, w);
      var x, y, k :| HasTableAt(b.root, b.names, x, y, k, w);
      SchemaPositionUnique(b.root, b.names, databases, schemas, i, j, x, y);
      assert TableNames(schema.tables)[k] == name;
    }
  }

  // ---------------------------------------------------------------- one declaration

  /** The ids stand for the names. */
  ghost predicate Interned(ids: seq<nat>, columns: seq<string>, names: seq<string>) {
    |ids| == |columns| && forall k :: 0 <= k < |ids| ==> ids[k] < |names| && names[ids[k]] == columns[k]
  }

  lemma {:induction false} InternedNext(
      ids: seq<nat>, columns: seq<string>, names: seq<string>, n: nat, id: nat, more: seq<string>)
    requires n < |columns| && Interned(ids, columns[..n], names) && names <= more
    requires id < |more| && more[id] == columns[n]
    ensures Interned(ids + [id], columns[..n + 1], more)
  {
  }

  /** The name ids of all columns. */
  method InternAll(columns: seq<string>, names: seq<string>, index: map<string, nat>)
    returns (ids: seq<nat>, moreNames: seq<string>, moreIndex: map<string, nat>)
    requires Indexes(index, names)
    ensures Indexes(moreIndex, moreNames) && names <= moreNames && Interned(ids, columns, moreNames)
  {
    ids, moreNames, moreIndex := [], names, index;
    for n := 0 to |columns|
      invariant Indexes(moreIndex, moreNames) && names <= moreNames && Interned(ids, columns[..n], moreNames)
    {
      var id, nextNames, nextIndex := Intern(columns[n], moreNames, moreIndex);
      InternedNext(ids, columns, moreNames, n, id, nextNames);
      ids, moreNames, moreIndex := ids + [id], nextNames, nextIndex;
    }
    TakeAll(columns);
  }

  lemma {:induction false} OnlyItsDeclaration(t: TableNode, names: seq<string>, d: TableDecl, x: TableDecl)
    requires IsTable(t, names, d)
    ensures IsTable(t, names, x) && x.schemaId == d.schemaId <==> x == d
  {
  }

  lemma {:induction false} TableHolds(
      root: seq<DatabaseNode>, names: seq<string>, databases: set<DatabaseRef>, schemas: set<SchemaRef>,
      ds: seq<TableDecl>, i: nat, j: nat, p: nat, t: TableNode, d: TableDecl)
    requires Holds(root, names, databases, schemas, ds)
    requires i < |root| && j < |root[i].schemas| && p <= |root[i].schemas[j].tables|
    requires root[i].schemas[j].schemaId == d.schemaId && IsTable(t, names, d)
    requires !IsDeclared(ds, d.schemaId, d.name)
    ensures Holds(WithTable(root, i, j, p, t), names, databases, schemas, ds + [d])
  {
    TableKeepsDatabases(root, i, j, p, t);
    forall s: SchemaRef
      ensures HasSchema(WithTable(root, i, j, p, t), s) <==> s in schemas
    {
      TableKeepsSchemas(root, i, j, p, t, s);
    }
    forall x: TableDecl
      ensures HasTable(WithTable(root, i, j, p, t), names, x) <==> IsWinner(ds + [d], x)
    {
      TableContents(root, names, i, j, p, t, x);
      OnlyItsDeclaration(t, names, d, x);
      WinnersAppend(ds, d, x);
    }
  }

  lemma {:induction false} LoserHolds(
      root: seq<DatabaseNode>, names: seq<string>, databases: set<DatabaseRef>, schemas: set<SchemaRef>,
      ds: seq<TableDecl>, d: TableDecl)
    requires Holds(root, names, databases, schemas, ds) && IsDeclared(ds, d.schemaId, d.name)
    ensures Holds(root, names, databases, schemas, ds + [d])
  {
    forall x: TableDecl
      ensures HasTable(root, names, x) <==> IsWinner(ds + [d], x)
    {
      WinnersAppend(ds, d, x);
    }
  }

  /** A table node whose names are in the dictionary. */
  method MakeTable(d: TableDecl, names: seq<string>, index: map<string, nat>)
    returns (t: TableNode, moreNames: seq<string>, moreIndex: map<string, nat>)
    requires Indexes(index, names)
    ensures Indexes(moreIndex, moreNames) && names <= moreNames && IsTable(t, moreNames, d)
  {
    var columns, columnNames, columnIndex := InternAll(d.columns, names, index);
    var nameId;
    nameId, moreNames, moreIndex := Intern(d.name, columnNames, columnIndex);
    t := TableNode(d.name, d.tableId, nameId, columns);
    assert ColumnNames(columns, moreNames) == d.columns;
  }

  function AddedTable(b: Builder, i: nat, j: nat, p: nat, t: TableNode): Builder
    requires i < |b.root| && j < |b.root[i].schemas| && p <= |b.root[i].schemas[j].tables|
  {
    var c := b.counters;
    Builder(
      WithTable(b.root, i, j, p, t), b.names, b.index,
      Counters(c.databases, c.schemas, c.tables + 1, c.columns + |t.columns|))
  }

  lemma {:induction false} AddedTableCounts(b: Builder, i: nat, j: nat, p: nat, t: TableNode)
    requires i < |b.root| && j < |b.root[i].schemas| && p <= |b.root[i].schemas[j].tables|
    requires b.counters == CountersOf(b.root)
    ensures AddedTable(b, i, j, p, t).counters == CountersOf(WithTable(b.root, i, j, p, t))
  {
    TableCountsInTree(b.root, i, j, p, t);
  }

  lemma {:induction false} AddedTableIsBuilt(
      b: Builder, d: TableDecl, i: nat, j: nat, p: nat, t: TableNode, databases: set<DatabaseRef>,
      schemas: set<SchemaRef>, ds: seq<TableDecl>)
    requires Built(b, databases, schemas, ds)
    requires i < |b.root| && j < |b.root[i].schemas| && b.root[i].schemas[j].schemaId == d.schemaId
    requires IsTable(t, b.names, d) && BelongsAt(TableNames(b.root[i].schemas[j].tables), p, t.name)
    requires !IsDeclared(ds, d.schemaId, d.name)
    ensures Built(AddedTable(b, i, j, p, t), databases, schemas, ds + [d])
  {
    TableKeepsTree(b.root, b.names, i, j, p, t);
    TableHolds(b.root, b.names, databases, schemas, ds, i, j, p, t, d);
    AddedTableCounts(b, i, j, p, t);
    BuiltFrom(AddedTable(b, i, j, p, t), databases, schemas, ds + [d]);
  }

  /** Tables of a schema in the tree are in ascending order. */
  lemma {:induction false} TablesAscend(b: Builder, i: nat, j: nat)
    requires TreeOk(b.root, b.names) && i < |b.root| && j < |b.root[i].schemas|
    ensures Ascending(TableNames(b.root[i].schemas[j].tables))
  {
    assert DatabaseOk(b.root[i], b.names);
    assert SchemaOk(b.root[i].schemas[j], b.names);
  }

  /** Add a table that its schema does not have yet. */
  method AddTable(
      b: Builder, d: TableDecl, i: nat, j: nat, ghost databases: set<DatabaseRef>, ghost schemas: set<SchemaRef>,
      ghost ds: seq<TableDecl>)
    returns (r: Builder)
    requires Built(b, databases, schemas, ds)
    requires i < |b.root| && j < |b.root[i].schemas| && b.root[i].schemas[j].schemaId == d.schemaId
    requires d.name !in TableNames(b.root[i].schemas[j].tables) && !IsDeclared(ds, d.schemaId, d.name)
    ensures Built(r, databases, schemas, ds + [d])
    ensures r.counters ==
      b.counters.(tables := b.counters.tables + 1, columns := b.counters.columns + |d.columns|)
  {
    TablesAscend(b, i, j);
    var p := FindPlace(TableNames(b.root[i].schemas[j].tables), d.name);
    var t, named := NameTable(b, d, databases, schemas, ds);
    AddedTableIsBuilt(named, d, i, j, p, t, databases, schemas, ds);
    r := AddedTable(named, i, j, p, t);
  }

  /** Intern the names of a table. */
  method NameTable(
      b: Builder, d: TableDecl, ghost databases: set<DatabaseRef>, ghost schemas: set<SchemaRef>,
      ghost ds: seq<TableDecl>)
    returns (t: TableNode, named: Builder)
    requires Built(b, databases, schemas, ds)
    ensures named.root == b.root && named.counters == b.counters
    ensures Built(named, databases, schemas, ds) && IsTable(t, named.names, d)
  {
    var names, index;
    t, names, index := MakeTable(d, b.names, b.index);
    InternKeepsBuilt(b, names, index, databases, schemas, ds);
    named := b.(names := names, index := index);
  }

  method DeclareTable(
      b: Builder, d: TableDecl, ghost databases: set<DatabaseRef>, ghost schemas: set<SchemaRef>,
      ghost ds: seq<TableDecl>)
    returns (r: Builder)
    requires Built(b, databases, schemas, ds) && OneIdPerDatabase(databases) && OneIdPerSchema(schemas)
    requires IsSchemaOf(schemas, d.schemaId)
    requires Counted(b.counters, databases, schemas, ds)
    ensures Built(r, databases, schemas, ds + [d]) && Counted(r.counters, databases, schemas, ds + [d])
  {
    LastWins(ds, d);
    DeclarationCounted(b.counters, databases, schemas, ds, d);
    var found, i, j := FindSchema(b.root, d.schemaId);
    assert found by {
      var s :| s in schemas && s.schemaId == d.schemaId;
      assert HasSchema(b.root, s);
    }
    PresentIffDeclared(b, databases, schemas, ds, i, j, d.name);
    var tables := b.root[i].schemas[j].tables;
    var k := FindTable(tables, d.name);
    if k < |tables| {
      assert TableNames(tables)[k] == d.name;
      LoserHolds(b.root, b.names, databases, schemas, ds, d);
      r := b;
    } else {
      r := AddTable(b, d, i, j, databases, schemas, ds);
    }
  }

  // ---------------------------------------------------------------- the whole tree

  ghost function AddDatabase(databases: set<DatabaseRef>, reference: Reference): set<DatabaseRef> {
    if reference.Database? then databases + {reference.database} else databases
  }

  ghost function AddSchema(schemas: set<SchemaRef>, reference: Reference): set<SchemaRef> {
    if reference.Schema? then schemas + {reference.schema} else schemas
  }

  ghost function DatabasesIn(references: seq<Reference>): set<DatabaseRef> {
    set k | 0 <= k < |references| && references[k].Database? :: references[k].database
  }

  ghost function SchemasIn(references: seq<Reference>): set<SchemaRef> {
    set k | 0 <= k < |references| && references[k].Schema? :: references[k].schema
  }

  ghost predicate IsSchemaOf(schemas: set<SchemaRef>, schemaId: nat) {
    exists s :: s in schemas && s.schemaId == schemaId
  }

  /** A schema is referred to behind its database. */
  ghost predicate DatabasesFirst(references: seq<Reference>) {
    forall k :: 0 <= k < |references| && references[k].Schema? ==>
      exists d :: d in DatabasesIn(references[..k]) && d.databaseId == references[k].schema.databaseId
  }

  /** Object ids identify names, and every table belongs to a schema that is referred to. */
  ghost predicate InputsOk(references: seq<Reference>, ds: seq<TableDecl>) {
    && DatabasesFirst(references)
    && OneIdPerDatabase(DatabasesIn(references)) && OneIdPerSchema(SchemasIn(references))
    && (forall k :: 0 <= k < |ds| ==> IsSchemaOf(SchemasIn(references), ds[k].schemaId))
  }

  lemma {:induction false} ReferencesGrow(references: seq<Reference>, n: nat)
    requires n < |references|
    ensures DatabasesIn(references[..n + 1]) == AddDatabase(DatabasesIn(references[..n]), references[n])
    ensures SchemasIn(references[..n + 1]) == AddSchema(SchemasIn(references[..n]), references[n])
    ensures DatabasesIn(references[..n + 1]) <= DatabasesIn(references)
    ensures SchemasIn(references[..n + 1]) <= SchemasIn(references)
  {
    var more, less := references[..n + 1], references[..n];
    assert forall k :: 0 <= k < n ==> more[k] == references[k] && less[k] == references[k];
    assert more[n] == references[n];
  }

  lemma {:induction false} FewerIds(
      databases: set<DatabaseRef>, allDatabases: set<DatabaseRef>, schemas: set<SchemaRef>, allSchemas: set<SchemaRef>)
    requires databases <= allDatabases && OneIdPerDatabase(allDatabases)
    requires schemas <= allSchemas && OneIdPerSchema(allSchemas)
    ensures OneIdPerDatabase(databases) && OneIdPerSchema(schemas)
  {
  }

  lemma {:induction false} EmptyIsBuilt()
    ensures Built(Builder([], [], map[], Counters(0, 0, 0, 0)), {}, {}, [])
  {
    assert SchemaTotals([]) == [] && TableTotals([]) == [] && ColumnTotals([]) == [];
    forall d: TableDecl
      ensures HasTable([], [], d) <==> IsWinner([], d)
    {
    }
  }

  method RegisterReference(
      b: Builder, reference: Reference, ghost databases: set<DatabaseRef>, ghost schemas: set<SchemaRef>)
    returns (r: Builder)
    requires Built(b, databases, schemas, []) && Counted(b.counters, databases, schemas, [])
    requires OneIdPerDatabase(AddDatabase(databases, reference)) && OneIdPerSchema(AddSchema(schemas, reference))
    requires reference.Schema? ==> exists d :: d in databases && d.databaseId == reference.schema.databaseId
    ensures Built(r, AddDatabase(databases, reference), AddSchema(schemas, reference), [])
    ensures Counted(r.counters, AddDatabase(databases, reference), AddSchema(schemas, reference), [])
  {
    match reference
    case Database(ref) =>
      r := RegisterDatabase(b, ref, databases, schemas);
    case Schema(ref) =>
      r := RegisterSchema(b, ref, databases, schemas);
  }

  /** The tree of the first `n` references. */
  ghost predicate BuiltUpTo(b: Builder, references: seq<Reference>, n: nat)
    requires n <= |references|
  {
    && Built(b, DatabasesIn(references[..n]), SchemasIn(references[..n]), [])
    && Counted(b.counters, DatabasesIn(references[..n]), SchemasIn(references[..n]), [])
  }

  method RegisterNext(b: Builder, references: seq<Reference>, n: nat) returns (r: Builder)
    requires n < |references| && BuiltUpTo(b, references, n) && DatabasesFirst(references)
    requires OneIdPerDatabase(DatabasesIn(references)) && OneIdPerSchema(SchemasIn(references))
    ensures BuiltUpTo(r, references, n + 1)
  {
    ReferencesGrow(references, n);
    FewerIds(
      DatabasesIn(references[..n + 1]), DatabasesIn(references),
      SchemasIn(references[..n + 1]), SchemasIn(references));
    r := RegisterReference(b, references[n], DatabasesIn(references[..n]), SchemasIn(references[..n]));
  }

  /** Register all references in the order of the catalog entries. */
  method RegisterReferences(references: seq<Reference>) returns (b: Builder)
    requires DatabasesFirst(references)
    requires OneIdPerDatabase(DatabasesIn(references)) && OneIdPerSchema(SchemasIn(references))
    ensures BuiltUpTo(b, references, |references|)
  {
    b := Builder([], [], map[], Counters(0, 0, 0, 0));
    EmptyIsBuilt();
    assert DatabasesIn(references[..0]) == {} && SchemasIn(references[..0]) == {};
    for n := 0 to |references|
      invariant BuiltUpTo(b, references, n)
    {
      b := RegisterNext(b, references, n);
    }
  }

  /** The tree with the first `n` declarations. */
  ghost predicate DeclaredUpTo(
      b: Builder, databases: set<DatabaseRef>, schemas: set<SchemaRef>, ds: seq<TableDecl>, n: nat)
    requires n <= |ds|
  {
    Built(b, databases, schemas, ds[..n]) && Counted(b.counters, databases, schemas, ds[..n])
  }

  method DeclareNext(
      b: Builder, ds: seq<TableDecl>, n: nat, ghost databases: set<DatabaseRef>, ghost schemas: set<SchemaRef>)
    returns (r: Builder)
    requires n < |ds| && DeclaredUpTo(b, databases, schemas, ds, n)
    requires OneIdPerDatabase(databases) && OneIdPerSchema(schemas) && IsSchemaOf(schemas, ds[n].schemaId)
    ensures DeclaredUpTo(r, databases, schemas, ds, n + 1)
  {
    TakeNext(ds, n);
    r := DeclareTable(b, ds[n], databases, schemas, ds[..n]);
  }

  /** Declare all tables in ranked order. */
  method DeclareTables(
      empty: Builder, ds: seq<TableDecl>, ghost databases: set<DatabaseRef>, ghost schemas: set<SchemaRef>)
    returns (b: Builder)
    requires DeclaredUpTo(empty, databases, schemas, ds, 0)
    requires OneIdPerDatabase(databases) && OneIdPerSchema(schemas)
    requires forall k :: 0 <= k < |ds| ==> IsSchemaOf(schemas, ds[k].schemaId)
    ensures DeclaredUpTo(b, databases, schemas, ds, |ds|)
  {
    b := empty;
    for n := 0 to |ds|
      invariant DeclaredUpTo(b, databases, schemas, ds, n)
    {
      b := DeclareNext(b, ds, n, databases, schemas);
    }
  }

  /** The tree of the catalog: every database and schema, and the first declaration of every table. */
  method BuildTree(references: seq<Reference>, ds: seq<TableDecl>) returns (b: Builder)
    requires InputsOk(references, ds)
    ensures Built(b, DatabasesIn(references), SchemasIn(references), ds)
    ensures Counted(b.counters, DatabasesIn(references), SchemasIn(references), ds)
  {
    b := RegisterReferences(references);
    TakeAll(references);
    TakeNone(ds);
    b := DeclareTables(b, ds, DatabasesIn(references), SchemasIn(references));
    TakeAll(ds);
  }
}
