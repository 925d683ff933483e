/** What adding a node does to the tree: its order, its contents and its counters. */
module CatalogTreeSteps {
  import opened NameOrders
  import opened CatalogTree

  function WithSchema(root: seq<DatabaseNode>, i: nat, p: nat, s: SchemaNode): (r: seq<DatabaseNode>)
    requires i < |root| && p <= |root[i].schemas|
    ensures |r| == |root| && forall k :: 0 <= k < |root| && k != i ==> r[k] == root[k]
    ensures r[i] == root[i].(schemas := InsertAt(root[i].schemas, p, s))
  {
    root[i := root[i].(schemas := InsertAt(root[i].schemas, p, s))]
  }

  function WithTableInSchema(schemas: seq<SchemaNode>, j: nat, p: nat, t: TableNode): (r: seq<SchemaNode>)
    requires j < |schemas| && p <= |schemas[j].tables|
    ensures |r| == |schemas| && forall k :: 0 <= k < |schemas| && k != j ==> r[k] == schemas[k]
    ensures r[j] == schemas[j].(tables := InsertAt(schemas[j].tables, p, t))
  {
    schemas[j := schemas[j].(tables := InsertAt(schemas[j].tables, p, t))]
  }

  function WithTable(root: seq<DatabaseNode>, i: nat, j: nat, p: nat, t: TableNode): (r: seq<DatabaseNode>)
    requires i < |root| && j < |root[i].schemas| && p <= |root[i].schemas[j].tables|
    ensures |r| == |root| && forall k :: 0 <= k < |root| && k != i ==> r[k] == root[k]
    ensures r[i] == root[i].(schemas := WithTableInSchema(root[i].schemas, j, p, t))
  {
    root[i := root[i].(schemas := WithTableInSchema(root[i].schemas, j, p, t))]
  }

  // ---------------------------------------------------------------- order and names

  lemma {:induction false} DatabaseKeepsTree(root: seq<DatabaseNode>, names: seq<string>, p: nat, d: DatabaseNode)
    requires TreeOk(root, names) && DatabaseOk(d, names) && BelongsAt(DatabaseNames(root), p, d.name)
    ensures TreeOk(InsertAt(root, p, d), names)
  {
    InsertAscending(DatabaseNames(root), p, d.name);
    assert DatabaseNames(InsertAt(root, p, d)) == InsertAt(DatabaseNames(root), p, d.name);
  }

  lemma {:induction false} SchemaKeepsTree(
      root: seq<DatabaseNode>, names: seq<string>, i: nat, p: nat, s: SchemaNode)
    requires TreeOk(root, names) && i < |root| && SchemaOk(s, names)
    requires BelongsAt(SchemaNames(root[i].schemas), p, s.name)
    ensures TreeOk(WithSchema(root, i, p, s), names)
  {
    var schemas := root[i].schemas;
    assert DatabaseOk(root[i], names);
    InsertAscending(SchemaNames(schemas), p, s.name);
    assert SchemaNames(InsertAt(schemas, p, s)) == InsertAt(SchemaNames(schemas), p, s.name);
    assert DatabaseNames(WithSchema(root, i, p, s)) == DatabaseNames(root);
  }

  lemma {:induction false} TableKeepsSchema(s: SchemaNode, names: seq<string>, p: nat, t: TableNode)
    requires SchemaOk(s, names) && TableOk(t, names) && BelongsAt(TableNames(s.tables), p, t.name)
    ensures SchemaOk(s.(tables := InsertAt(s.tables, p, t)), names)
  {
    InsertAscending(TableNames(s.tables), p, t.name);
    assert TableNames(InsertAt(s.tables, p, t)) == InsertAt(TableNames(s.tables), p, t.name);
  }

  lemma {:induction false} TableKeepsDatabase(d: DatabaseNode, names: seq<string>, j: nat, p: nat, t: TableNode)
    requires DatabaseOk(d, names) && j < |d.schemas| && TableOk(t, names)
    requires BelongsAt(TableNames(d.schemas[j].tables), p, t.name)
    ensures DatabaseOk(d.(schemas := WithTableInSchema(d.schemas, j, p, t)), names)
  {
    TableKeepsSchema(d.schemas[j], names, p, t);
    assert SchemaNames(WithTableInSchema(d.schemas, j, p, t)) == SchemaNames(d.schemas);
  }

  lemma {:induction false} TableKeepsTree(
      root: seq<DatabaseNode>, names: seq<string>, i: nat, j: nat, p: nat, t: TableNode)
    requires TreeOk(root, names) && i < |root| && j < |root[i].schemas| && TableOk(t, names)
    requires BelongsAt(TableNames(root[i].schemas[j].tables), p, t.name)
    ensures TreeOk(WithTable(root, i, j, p, t), names)
  {
    TableKeepsDatabase(root[i], names, j, p, t);
    assert DatabaseNames(WithTable(root, i, j, p, t)) == DatabaseNames(root);
  }

  // ---------------------------------------------------------------- counters

  lemma {:induction false} EmptyCounts()
    ensures Sum(TableCounts([])) == 0 && Sum(ColumnCountsOfSchemas([])) == 0 && Sum(ColumnCountsOfTables([])) == 0
  {
    assert TableCounts([]) == [] && ColumnCountsOfSchemas([]) == [] && ColumnCountsOfTables([]) == [];
  }

  lemma {:induction false} DatabaseTotals(root: seq<DatabaseNode>, p: nat, d: DatabaseNode)
    requires p <= |root| && d.schemas == []
    ensures SchemaTotals(InsertAt(root, p, d)) == InsertAt(SchemaTotals(root), p, 0)
    ensures TableTotals(InsertAt(root, p, d)) == InsertAt(TableTotals(root), p, 0)
    ensures ColumnTotals(InsertAt(root, p, d)) == InsertAt(ColumnTotals(root), p, 0)
  {
    EmptyCounts();
    var all := InsertAt(root, p, d);
    forall k | 0 <= k < |all|
      ensures SchemaTotals(all)[k] == InsertAt(SchemaTotals(root), p, 0)[k]
      ensures TableTotals(all)[k] == InsertAt(TableTotals(root), p, 0)[k]
      ensures ColumnTotals(all)[k] == InsertAt(ColumnTotals(root), p, 0)[k]
    {
      assert all[k] == if k < p then root[k] else if k == p then d else root[k - 1];
    }
  }

  lemma {:induction false} SumInsertZero(ns: seq<nat>, p: nat)
    requires p <= |ns|
    ensures Sum(InsertAt(ns, p, 0)) == Sum(ns)
  {
    SumInsert(ns, p, 0);
  }

  /** Counters from their four sums. */
  lemma {:induction false} CountersFrom(root: seq<DatabaseNode>, schemas: nat, tables: nat, columns: nat)
    requires Sum(SchemaTotals(root)) == schemas
    requires Sum(TableTotals(root)) == tables && Sum(ColumnTotals(root)) == columns
    ensures CountersOf(root) == Counters(|root|, schemas, tables, columns)
  {
  }

  lemma {:induction false} DatabaseCounts(root: seq<DatabaseNode>, p: nat, d: DatabaseNode)
    requires p <= |root| && d.schemas == []
    ensures
      var c := CountersOf(root);
      CountersOf(InsertAt(root, p, d)) == Counters(c.databases + 1, c.schemas, c.tables, c.columns)
  {
    DatabaseTotals(root, p, d);
    SumInsertZero(SchemaTotals(root), p);
    SumInsertZero(TableTotals(root), p);
    SumInsertZero(ColumnTotals(root), p);
    CountersFrom(InsertAt(root, p, d), CountersOf(root).schemas, CountersOf(root).tables, CountersOf(root).columns);
  }

  lemma {:induction false} TableCountsWithSchema(schemas: seq<SchemaNode>, p: nat, s: SchemaNode)
    requires p <= |schemas|
    ensures TableCounts(InsertAt(schemas, p, s)) == InsertAt(TableCounts(schemas), p, |s.tables|)
  {
    var all := InsertAt(schemas, p, s);
    forall k | 0 <= k < |all|
      ensures TableCounts(all)[k] == InsertAt(TableCounts(schemas), p, |s.tables|)[k]
    {
      assert all[k] == if k < p then schemas[k] else if k == p then s else schemas[k - 1];
    }
  }

  lemma {:induction false} ColumnCountsWithSchema(schemas: seq<SchemaNode>, p: nat, s: SchemaNode, columns: nat)
    requires p <= |schemas| && columns == Sum(ColumnCountsOfTables(s.tables))
    ensures ColumnCountsOfSchemas(InsertAt(schemas, p, s)) == InsertAt(ColumnCountsOfSchemas(schemas), p, columns)
  {
    var all := InsertAt(schemas, p, s);
    forall k | 0 <= k < |all|
      ensures ColumnCountsOfSchemas(all)[k] == InsertAt(ColumnCountsOfSchemas(schemas), p, columns)[k]
    {
      assert all[k] == if k < p then schemas[k] else if k == p then s else schemas[k - 1];
    }
  }

  /** An empty schema changes neither the tables nor the columns of its database. */
  lemma {:induction false} SchemaCountsInDatabase(schemas: seq<SchemaNode>, p: nat, s: SchemaNode)
    requires p <= |schemas| && s.tables == []
    ensures Sum(TableCounts(InsertAt(schemas, p, s))) == Sum(TableCounts(schemas))
    ensures Sum(ColumnCountsOfSchemas(InsertAt(schemas, p, s))) == Sum(ColumnCountsOfSchemas(schemas))
  {
    EmptyCounts();
    TableCountsWithSchema(schemas, p, s);
    ColumnCountsWithSchema(schemas, p, s, 0);
    SumInsertZero(TableCounts(schemas), p);
    SumInsertZero(ColumnCountsOfSchemas(schemas), p);
  }

  lemma {:induction false} SchemaCountsTotals(root: seq<DatabaseNode>, i: nat, p: nat, s: SchemaNode)
    requires i < |root| && p <= |root[i].schemas| && s.tables == []
    ensures SchemaTotals(WithSchema(root, i, p, s)) == SchemaTotals(root)[i := |root[i].schemas| + 1]
    ensures TableTotals(WithSchema(root, i, p, s)) == TableTotals(root)
    ensures ColumnTotals(WithSchema(root, i, p, s)) == ColumnTotals(root)
  {
    SchemaCountsInDatabase(root[i].schemas, p, s);
    var all := WithSchema(root, i, p, s);
    forall k | 0 <= k < |all|
      ensures SchemaTotals(all)[k] == SchemaTotals(root)[i := |root[i].schemas| + 1][k]
      ensures TableTotals(all)[k] == TableTotals(root)[k] && ColumnTotals(all)[k] == ColumnTotals(root)[k]
    {
      if k != i {
        assert all[k] == root[k];
      }
    }
  }

  lemma {:induction false} SchemaCounts(root: seq<DatabaseNode>, i: nat, p: nat, s: SchemaNode)
    requires i < |root| && p <= |root[i].schemas| && s.tables == []
    ensures
      var c := CountersOf(root);
      CountersOf(WithSchema(root, i, p, s)) == Counters(c.databases, c.schemas + 1, c.tables, c.columns)
  {
    SchemaCountsTotals(root, i, p, s);
    SumUpdate(SchemaTotals(root), i, |root[i].schemas| + 1);
    CountersFrom(
      WithSchema(root, i, p, s), CountersOf(root).schemas + 1, CountersOf(root).tables, CountersOf(root).columns);
  }

  lemma {:induction false} ColumnCountsWithTable(tables: seq<TableNode>, p: nat, t: TableNode)
    requires p <= |tables|
    ensures Sum(ColumnCountsOfTables(InsertAt(tables, p, t))) == Sum(ColumnCountsOfTables(tables)) + |t.columns|
  {
    assert ColumnCountsOfTables(InsertAt(tables, p, t)) == InsertAt(ColumnCountsOfTables(tables), p, |t.columns|);
    SumInsert(ColumnCountsOfTables(tables), p, |t.columns|);
  }

  lemma {:induction false} TableCountInDatabase(schemas: seq<SchemaNode>, j: nat, p: nat, t: TableNode)
    requires j < |schemas| && p <= |schemas[j].tables|
    ensures Sum(TableCounts(WithTableInSchema(schemas, j, p, t))) == Sum(TableCounts(schemas)) + 1
  {
    var all, counts := WithTableInSchema(schemas, j, p, t), TableCounts(schemas);
    assert TableCounts(all) == counts[j := |schemas[j].tables| + 1];
    SumUpdate(counts, j, |schemas[j].tables| + 1);
  }

  lemma {:induction false} ColumnCountInDatabase(schemas: seq<SchemaNode>, j: nat, p: nat, t: TableNode)
    requires j < |schemas| && p <= |schemas[j].tables|
    ensures Sum(ColumnCountsOfSchemas(WithTableInSchema(schemas, j, p, t)))
         == Sum(ColumnCountsOfSchemas(schemas)) + |t.columns|
  {
    var all, counts := WithTableInSchema(schemas, j, p, t), ColumnCountsOfSchemas(schemas);
    ColumnCountsWithTable(schemas[j].tables, p, t);
    assert ColumnCountsOfSchemas(all) == counts[j := counts[j] + |t.columns|];
    SumUpdate(counts, j, counts[j] + |t.columns|);
  }

  lemma {:induction false} TableCountsInDatabase(schemas: seq<SchemaNode>, j: nat, p: nat, t: TableNode)
    requires j < |schemas| && p <= |schemas[j].tables|
    ensures Sum(TableCounts(WithTableInSchema(schemas, j, p, t))) == Sum(TableCounts(schemas)) + 1
    ensures Sum(ColumnCountsOfSchemas(WithTableInSchema(schemas, j, p, t)))
         == Sum(ColumnCountsOfSchemas(schemas)) + |t.columns|
  {
    TableCountInDatabase(schemas, j, p, t);
    ColumnCountInDatabase(schemas, j, p, t);
  }

  lemma {:induction false} TableTreeTotals(
      root: seq<DatabaseNode>, i: nat, j: nat, p: nat, t: TableNode, tables: nat, columns: nat)
    requires i < |root| && j < |root[i].schemas| && p <= |root[i].schemas[j].tables|
    requires tables == Sum(TableCounts(WithTableInSchema(root[i].schemas, j, p, t)))
    requires columns == Sum(ColumnCountsOfSchemas(WithTableInSchema(root[i].schemas, j, p, t)))
    ensures SchemaTotals(WithTable(root, i, j, p, t)) == SchemaTotals(root)
    ensures TableTotals(WithTable(root, i, j, p, t)) == TableTotals(root)[i := tables]
    ensures ColumnTotals(WithTable(root, i, j, p, t)) == ColumnTotals(root)[i := columns]
  {
  }

  lemma {:induction false} TableCountsInTree(root: seq<DatabaseNode>, i: nat, j: nat, p: nat, t: TableNode)
    requires i < |root| && j < |root[i].schemas| && p <= |root[i].schemas[j].tables|
    ensures
      var c := CountersOf(root);
      CountersOf(WithTable(root, i, j, p, t))
      == Counters(c.databases, c.schemas, c.tables + 1, c.columns + |t.columns|)
  {
    TableCountsInDatabase(root[i].schemas, j, p, t);
    var tables := Sum(TableCounts(root[i].schemas)) + 1;
    var columns := Sum(ColumnCountsOfSchemas(root[i].schemas)) + |t.columns|;
    TableTreeTotals(root, i, j, p, t, tables, columns);
    SumUpdate(TableTotals(root), i, tables);
    SumUpdate(ColumnTotals(root), i, columns);
    CountersFrom(
      WithTable(root, i, j, p, t), CountersOf(root).schemas, CountersOf(root).tables + 1,
      CountersOf(root).columns + |t.columns|);
  }

  // ---------------------------------------------------------------- contents

  lemma {:induction false} DatabaseContents(root: seq<DatabaseNode>, p: nat, d: DatabaseNode)
    requires p <= |root|
    ensures DatabaseRefs(InsertAt(root, p, d)) == DatabaseRefs(root) + {DatabaseRef(d.databaseId, d.name)}
  {
    var all := InsertAt(root, p, d);
    forall r | r in DatabaseRefs(root)
      ensures r in DatabaseRefs(all)
    {
      var i :| 0 <= i < |root| && r == DatabaseRef(root[i].databaseId, root[i].name);
      assert all[if i < p then i else i + 1] == root[i];
    }
    assert all[p] == d;
  }

  /** An empty database changes neither schemas nor tables. */
  lemma {:induction false} DatabaseKeepsSchemas(root: seq<DatabaseNode>, p: nat, d: DatabaseNode, s: SchemaRef)
    requires p <= |root| && d.schemas == []
    ensures HasSchema(InsertAt(root, p, d), s) <==> HasSchema(root, s)
  {
    var all := InsertAt(root, p, d);
    if HasSchema(root, s) {
      var i, j :| HasSchemaAt(root, i, j, s);
      assert HasSchemaAt(all, if i < p then i else i + 1, j, s);
    }
    if HasSchema(all, s) {
      var i, j :| HasSchemaAt(all, i, j, s);
      assert HasSchemaAt(root, if i < p then i else i - 1, j, s);
    }
  }

  lemma {:induction false} DatabaseKeepsTables(
      root: seq<DatabaseNode>, names: seq<string>, p: nat, d: DatabaseNode, t: TableDecl)
    requires p <= |root| && d.schemas == []
    ensures HasTable(InsertAt(root, p, d), names, t) <==> HasTable(root, names, t)
  {
    var all := InsertAt(root, p, d);
    if HasTable(root, names, t) {
      var i, j, k :| HasTableAt(root, names, i, j, k, t);
      assert HasTableAt(all, names, if i < p then i else i + 1, j, k, t);
    }
    if HasTable(all, names, t) {
      var i, j, k :| HasTableAt(all, names, i, j, k, t);
      assert HasTableAt(root, names, if i < p then i else i - 1, j, k, t);
    }
  }

  lemma {:induction false} SchemaContents(root: seq<DatabaseNode>, i: nat, p: nat, n: SchemaNode, s: SchemaRef)
    requires i < |root| && p <= |root[i].schemas|
    ensures HasSchema(WithSchema(root, i, p, n), s) <==>
      HasSchema(root, s) || s == SchemaRef(n.schemaId, root[i].databaseId, n.name)
  {
    var all := WithSchema(root, i, p, n);
    if HasSchema(root, s) {
      var x, j :| HasSchemaAt(root, x, j, s);
      assert HasSchemaAt(all, x, if x != i || j < p then j else j + 1, s);
    }
    if s == SchemaRef(n.schemaId, root[i].databaseId, n.name) {
      assert HasSchemaAt(all, i, p, s);
    }
    if HasSchema(all, s) {
      var x, j :| HasSchemaAt(all, x, j, s);
      if x != i || j != p {
        assert HasSchemaAt(root, x, if x != i || j < p then j else j - 1, s);
      }
    }
  }

  lemma {:induction false} SchemaKeepsDatabases(root: seq<DatabaseNode>, i: nat, p: nat, n: SchemaNode)
    requires i < |root| && p <= |root[i].schemas|
    ensures DatabaseRefs(WithSchema(root, i, p, n)) == DatabaseRefs(root)
  {
    var all := WithSchema(root, i, p, n);
    assert forall k :: 0 <= k < |root| ==> all[k].databaseId == root[k].databaseId && all[k].name == root[k].name;
  }

  lemma {:induction false} SchemaKeepsTables(
      root: seq<DatabaseNode>, names: seq<string>, i: nat, p: nat, n: SchemaNode, t: TableDecl)
    requires i < |root| && p <= |root[i].schemas| && n.tables == []
    ensures HasTable(WithSchema(root, i, p, n), names, t) <==> HasTable(root, names, t)
  {
    var all := WithSchema(root, i, p, n);
    if HasTable(root, names, t) {
      var x, j, k :| HasTableAt(root, names, x, j, k, t);
      assert HasTableAt(all, names, x, if x != i || j < p then j else j + 1, k, t);
    }
    if HasTable(all, names, t) {
      var x, j, k :| HasTableAt(all, names, x, j, k, t);
      assert HasTableAt(root, names, x, if x != i || j < p then j else j - 1, k, t);
    }
  }

  lemma {:induction false} TableKeepsDatabases(root: seq<DatabaseNode>, i: nat, j: nat, p: nat, t: TableNode)
    requires i < |root| && j < |root[i].schemas| && p <= |root[i].schemas[j].tables|
    ensures DatabaseRefs(WithTable(root, i, j, p, t)) == DatabaseRefs(root)
  {
    var all := WithTable(root, i, j, p, t);
    assert forall k :: 0 <= k < |root| ==> all[k].databaseId == root[k].databaseId && all[k].name == root[k].name;
  }

  lemma {:induction false} TableKeepsSchemas(
      root: seq<DatabaseNode>, i: nat, j: nat, p: nat, t: TableNode, s: SchemaRef)
    requires i < |root| && j < |root[i].schemas| && p <= |root[i].schemas[j].tables|
    ensures HasSchema(WithTable(root, i, j, p, t), s) <==> HasSchema(root, s)
  {
    var all := WithTable(root, i, j, p, t);
    if HasSchema(root, s) {
      var x, y :| HasSchemaAt(root, x, y, s);
      assert HasSchemaAt(all, x, y, s);
    }
    if HasSchema(all, s) {
      var x, y :| HasSchemaAt(all, x, y, s);
      assert HasSchemaAt(root, x, y, s);
    }
  }

  lemma {:induction false} TableContents(
      root: seq<DatabaseNode>, names: seq<string>, i: nat, j: nat, p: nat, t: TableNode, d: TableDecl)
    requires i < |root| && j < |root[i].schemas| && p <= |root[i].schemas[j].tables|
    ensures HasTable(WithTable(root, i, j, p, t), names, d) <==>
      HasTable(root, names, d) || (root[i].schemas[j].schemaId == d.schemaId && IsTable(t, names, d))
  {
    var all := WithTable(root, i, j, p, t);
    if HasTable(root, names, d) {
      var x, y, k :| HasTableAt(root, names, x, y, k, d);
      assert HasTableAt(all, names, x, y, if x != i || y != j || k < p then k else k + 1, d);
    }
    if root[i].schemas[j].schemaId == d.schemaId && IsTable(t, names, d) {
      assert HasTableAt(all, names, i, j, p, d);
    }
    if HasTable(all, names, d) {
      var x, y, k :| HasTableAt(all, names, x, y, k, d);
      if x != i || y != j || k != p {
        assert HasTableAt(root, names, x, y, if x != i || y != j || k < p then k else k - 1, d);
      }
    }
  }

  /** A table stands for the same declaration in a longer dictionary. */
  lemma {:induction false} IsTableGrows(t: TableNode, names: seq<string>, more: seq<string>, d: TableDecl)
    requires names <= more && TableOk(t, names)
    ensures IsTable(t, more, d) <==> IsTable(t, names, d)
  {
    assert TableOk(t, more);
    assert ColumnNames(t.columns, more) == ColumnNames(t.columns, names);
  }

  lemma {:induction false} HasTableGrows(root: seq<DatabaseNode>, names: seq<string>, more: seq<string>, d: TableDecl)
    requires TreeOk(root, names) && names <= more
    ensures HasTable(root, more, d) <==> HasTable(root, names, d)
  {
    forall i, j, k | 0 <= i < |root| && 0 <= j < |root[i].schemas| && 0 <= k < |root[i].schemas[j].tables|
      ensures HasTableAt(root, more, i, j, k, d) <==> HasTableAt(root, names, i, j, k, d)
    {
      assert DatabaseOk(root[i], names);
      assert SchemaOk(root[i].schemas[j], names);
      IsTableGrows(root[i].schemas[j].tables[k], names, more, d);
    }
  }
}
