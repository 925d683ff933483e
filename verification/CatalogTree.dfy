/**
  The tree that flattening a catalog builds: databases, schemas and tables by name, every level in
  ascending order, with names interned in one dictionary.
*/
module CatalogTree {
  import opened NameOrders

  // ---------------------------------------------------------------- what the catalog entries hold

  datatype DatabaseRef = DatabaseRef(databaseId: nat, name: string)
  datatype SchemaRef = SchemaRef(schemaId: nat, databaseId: nat, name: string)
  datatype Reference = Database(database: DatabaseRef) | Schema(schema: SchemaRef)
  datatype TableDecl = TableDecl(tableId: nat, schemaId: nat, name: string, columns: seq<string>)

  // ---------------------------------------------------------------- the tree

  /** `columns` holds the name ids of the columns. */
  datatype TableNode = TableNode(name: string, tableId: nat, nameId: nat, columns: seq<nat>)
  datatype SchemaNode = SchemaNode(name: string, schemaId: nat, nameId: nat, tables: seq<TableNode>)
  datatype DatabaseNode = DatabaseNode(name: string, databaseId: nat, nameId: nat, schemas: seq<SchemaNode>)

  function TableNames(tables: seq<TableNode>): (r: seq<string>)
    ensures |r| == |tables| && forall k :: 0 <= k < |r| ==> r[k] == tables[k].name
  {
    seq(|tables|, k requires 0 <= k < |tables| => tables[k].name)
  }

  function SchemaNames(schemas: seq<SchemaNode>): (r: seq<string>)
    ensures |r| == |schemas| && forall k :: 0 <= k < |r| ==> r[k] == schemas[k].name
  {
    seq(|schemas|, k requires 0 <= k < |schemas| => schemas[k].name)
  }

  function DatabaseNames(root: seq<DatabaseNode>): (r: seq<string>)
    ensures |r| == |root| && forall k :: 0 <= k < |r| ==> r[k] == root[k].name
  {
    seq(|root|, k requires 0 <= k < |root| => root[k].name)
  }

  ghost predicate NameOk(name: string, nameId: nat, names: seq<string>) {
    nameId < |names| && names[nameId] == name
  }

  ghost predicate TableOk(t: TableNode, names: seq<string>) {
    NameOk(t.name, t.nameId, names) && forall k :: 0 <= k < |t.columns| ==> t.columns[k] < |names|
  }

  ghost predicate SchemaOk(s: SchemaNode, names: seq<string>) {
    && NameOk(s.name, s.nameId, names) && Ascending(TableNames(s.tables))
    && forall k :: 0 <= k < |s.tables| ==> TableOk(s.tables[k], names)
  }

  ghost predicate DatabaseOk(d: DatabaseNode, names: seq<string>) {
    && NameOk(d.name, d.nameId, names) && Ascending(SchemaNames(d.schemas))
    && forall k :: 0 <= k < |d.schemas| ==> SchemaOk(d.schemas[k], names)
  }

  /** Every level is in ascending order, and all names are in the dictionary. */
  ghost predicate TreeOk(root: seq<DatabaseNode>, names: seq<string>) {
    && Ascending(DatabaseNames(root))
    && forall k :: 0 <= k < |root| ==> DatabaseOk(root[k], names)
  }

  lemma {:induction false} SchemaOkGrows(s: SchemaNode, names: seq<string>, more: seq<string>)
    requires SchemaOk(s, names) && names <= more
    ensures SchemaOk(s, more)
  {
    forall k | 0 <= k < |s.tables|
      ensures TableOk(s.tables[k], more)
    {
      assert TableOk(s.tables[k], names);
    }
  }

  lemma {:induction false} DatabaseOkGrows(d: DatabaseNode, names: seq<string>, more: seq<string>)
    requires DatabaseOk(d, names) && names <= more
    ensures DatabaseOk(d, more)
  {
    forall k | 0 <= k < |d.schemas|
      ensures SchemaOk(d.schemas[k], more)
    {
      SchemaOkGrows(d.schemas[k], names, more);
    }
  }

  lemma {:induction false} TreeOkGrows(root: seq<DatabaseNode>, names: seq<string>, more: seq<string>)
    requires TreeOk(root, names) && names <= more
    ensures TreeOk(root, more)
  {
    forall k | 0 <= k < |root|
      ensures DatabaseOk(root[k], more)
    {
      DatabaseOkGrows(root[k], names, more);
    }
  }

  // ---------------------------------------------------------------- what the tree holds

  ghost function DatabaseRefs(root: seq<DatabaseNode>): set<DatabaseRef> {
    set i | 0 <= i < |root| :: DatabaseRef(root[i].databaseId, root[i].name)
  }

  ghost predicate HasSchemaAt(root: seq<DatabaseNode>, i: int, j: int, s: SchemaRef) {
    && 0 <= i < |root| && 0 <= j < |root[i].schemas|
    && root[i].databaseId == s.databaseId
    && root[i].schemas[j].schemaId == s.schemaId && root[i].schemas[j].name == s.name
  }

  ghost predicate HasSchema(root: seq<DatabaseNode>, s: SchemaRef) {
    exists i, j :: HasSchemaAt(root, i, j, s)
  }

  function ColumnNames(columns: seq<nat>, names: seq<string>): (r: seq<string>)
    requires forall k :: 0 <= k < |columns| ==> columns[k] < |names|
    ensures |r| == |columns| && forall k :: 0 <= k < |r| ==> r[k] == names[columns[k]]
  {
    seq(|columns|, k requires 0 <= k < |columns| => names[columns[k]])
  }

  /** The table node stands for the declaration. */
  ghost predicate IsTable(t: TableNode, names: seq<string>, d: TableDecl) {
    && TableOk(t, names) && t.tableId == d.tableId && t.name == d.name && ColumnNames(t.columns, names) == d.columns
  }

  ghost predicate HasTableAt(root: seq<DatabaseNode>, names: seq<string>, i: int, j: int, k: int, d: TableDecl) {
    && 0 <= i < |root| && 0 <= j < |root[i].schemas| && 0 <= k < |root[i].schemas[j].tables|
    && root[i].schemas[j].schemaId == d.schemaId && IsTable(root[i].schemas[j].tables[k], names, d)
  }

  ghost predicate HasTable(root: seq<DatabaseNode>, names: seq<string>, d: TableDecl) {
    exists i, j, k :: HasTableAt(root, names, i, j, k, d)
  }

  /** The declaration is the first one of its schema and name. */
  ghost predicate Wins(ds: seq<TableDecl>, k: int) {
    && 0 <= k < |ds|
    && forall j :: 0 <= j < k ==> !(ds[j].schemaId == ds[k].schemaId && ds[j].name == ds[k].name)
  }

  ghost predicate IsWinner(ds: seq<TableDecl>, d: TableDecl) {
    exists k :: Wins(ds, k) && ds[k] == d
  }

  // ---------------------------------------------------------------- counting

  function Sum(ns: seq<nat>): nat {
    if ns == [] then 0 else Sum(ns[..|ns| - 1]) + ns[|ns| - 1]
  }

  lemma {:induction false} SumAppend(a: seq<nat>, b: seq<nat>)
    ensures Sum(a + b) == Sum(a) + Sum(b)
    decreases |b|
  {
    if b == [] {
      assert a + b == a;
    } else {
      assert (a + b)[..|a + b| - 1] == a + b[..|b| - 1];
      SumAppend(a, b[..|b| - 1]);
    }
  }

  lemma {:induction false} SumInsert(ns: seq<nat>, p: nat, n: nat)
    requires p <= |ns|
    ensures Sum(InsertAt(ns, p, n)) == Sum(ns) + n
  {
    SumAppend(ns[..p] + [n], ns[p..]);
    SumAppend(ns[..p], [n]);
    SumAppend(ns[..p], ns[p..]);
    assert ns[..p] + ns[p..] == ns;
    assert [n][..0] == [];
  }

  lemma {:induction false} SumUpdate(ns: seq<nat>, i: nat, n: nat)
    requires i < |ns|
    ensures Sum(ns[i := n]) + ns[i] == Sum(ns) + n
  {
    var front, back := ns[..i], ns[i + 1..];
    SumInsert(front + back, i, n);
    SumInsert(front + back, i, ns[i]);
    assert (front + back)[..i] == front && (front + back)[i..] == back;
    assert ns[i := n] == front + [n] + back && ns == front + [ns[i]] + back;
  }

  function TableCounts(schemas: seq<SchemaNode>): (r: seq<nat>)
    ensures |r| == |schemas| && forall k :: 0 <= k < |r| ==> r[k] == |schemas[k].tables|
  {
    seq(|schemas|, k requires 0 <= k < |schemas| => |schemas[k].tables|)
  }

  function ColumnCountsOfTables(tables: seq<TableNode>): (r: seq<nat>)
    ensures |r| == |tables| && forall k :: 0 <= k < |r| ==> r[k] == |tables[k].columns|
  {
    seq(|tables|, k requires 0 <= k < |tables| => |tables[k].columns|)
  }

  function ColumnCountsOfSchemas(schemas: seq<SchemaNode>): (r: seq<nat>)
    ensures |r| == |schemas|
    ensures forall k :: 0 <= k < |r| ==> r[k] == Sum(ColumnCountsOfTables(schemas[k].tables))
  {
    seq(|schemas|, k requires 0 <= k < |schemas| => Sum(ColumnCountsOfTables(schemas[k].tables)))
  }

  function SchemaTotals(root: seq<DatabaseNode>): (r: seq<nat>)
    ensures |r| == |root| && forall k :: 0 <= k < |r| ==> r[k] == |root[k].schemas|
  {
    seq(|root|, k requires 0 <= k < |root| => |root[k].schemas|)
  }

  function TableTotals(root: seq<DatabaseNode>): (r: seq<nat>)
    ensures |r| == |root| && forall k :: 0 <= k < |r| ==> r[k] == Sum(TableCounts(root[k].schemas))
  {
    seq(|root|, k requires 0 <= k < |root| => Sum(TableCounts(root[k].schemas)))
  }

  function ColumnTotals(root: seq<DatabaseNode>): (r: seq<nat>)
    ensures |r| == |root| && forall k :: 0 <= k < |r| ==> r[k] == Sum(ColumnCountsOfSchemas(root[k].schemas))
  {
    seq(|root|, k requires 0 <= k < |root| => Sum(ColumnCountsOfSchemas(root[k].schemas)))
  }

  /** How many nodes of each level were made. */
  datatype Counters = Counters(databases: nat, schemas: nat, tables: nat, columns: nat)

  function CountersOf(root: seq<DatabaseNode>): Counters {
    Counters(|root|, Sum(SchemaTotals(root)), Sum(TableTotals(root)), Sum(ColumnTotals(root)))
  }

  /** How many declarations win, and how many columns they have. */
  ghost function WinningTables(ds: seq<TableDecl>): nat {
    if ds == [] then 0
    else WinningTables(ds[..|ds| - 1]) + if Wins(ds, |ds| - 1) then 1 else 0
  }

  ghost function WinningColumns(ds: seq<TableDecl>): nat {
    if ds == [] then 0
    else WinningColumns(ds[..|ds| - 1]) + if Wins(ds, |ds| - 1) then |ds[|ds| - 1].columns| else 0
  }

  /** The counters count the databases and schemas that are referred to, and the winning declarations. */
  ghost predicate Counted(
      counters: Counters, databases: set<DatabaseRef>, schemas: set<SchemaRef>, ds: seq<TableDecl>)
  {
    && counters.databases == |databases| && counters.schemas == |schemas|
    && counters.tables == WinningTables(ds) && counters.columns == WinningColumns(ds)
  }

  lemma {:induction false} DatabaseCounted(
      counters: Counters, databases: set<DatabaseRef>, schemas: set<SchemaRef>, ds: seq<TableDecl>, ref: DatabaseRef)
    requires Counted(counters, databases, schemas, ds) && ref !in databases
    ensures Counted(counters.(databases := counters.databases + 1), databases + {ref}, schemas, ds)
  {
  }

  lemma {:induction false} SchemaCounted(
      counters: Counters, databases: set<DatabaseRef>, schemas: set<SchemaRef>, ds: seq<TableDecl>, ref: SchemaRef)
    requires Counted(counters, databases, schemas, ds) && ref !in schemas
    ensures Counted(counters.(schemas := counters.schemas + 1), databases, schemas + {ref}, ds)
  {
  }

  lemma {:induction false} DeclarationCounted(
      counters: Counters, databases: set<DatabaseRef>, schemas: set<SchemaRef>, ds: seq<TableDecl>, d: TableDecl)
    requires Counted(counters, databases, schemas, ds)
    ensures Counted(
      if Wins(ds + [d], |ds|)
      then counters.(tables := counters.tables + 1, columns := counters.columns + |d.columns|) else counters,
      databases, schemas, ds + [d])
  {
    assert (ds + [d])[..|ds|] == ds;
  }
}
