/** Writing the tree of a catalog into flat entry arrays. */
module FlatWriter {
  import opened Collections
  import opened CatalogTree
  import opened FlatLayout

  lemma {:induction false} SumNext(ns: seq<nat>, n: nat)
    requires n < |ns|
    ensures Sum(ns[..n + 1]) == Sum(ns[..n]) + ns[n]
  {
    TakeNext(ns, n);
    assert ns[..n + 1][..n] == ns[..n];
  }

  /** Write the columns of a table. */
  method WriteColumns(columns: seq<FlatEntry>, table: nat, ids: seq<nat>) returns (r: seq<FlatEntry>)
    ensures columns <= r && |r| == |columns| + |ids| && ColumnsAt(r, |columns|, table, ids)
  {
    r := columns;
    for columnId := 0 to |ids|
      invariant columns <= r && |r| == |columns| + columnId
      invariant forall k :: 0 <= k < columnId ==>
        r[|columns| + k] == FlatEntry(|columns| + k, table, k, ids[k], 0, 0)
    {
      r := r + [FlatEntry(|r|, table, columnId, ids[columnId], 0, 0)];
    }
  }

  /** Write a table and its columns. */
  method WriteTable(tables: seq<FlatEntry>, columns: seq<FlatEntry>, schema: nat, t: TableNode)
    returns (moreTables: seq<FlatEntry>, moreColumns: seq<FlatEntry>)
    requires Tiles(tables, |columns|)
    ensures Tiles(moreTables, |moreColumns|) && tables <= moreTables && columns <= moreColumns
    ensures |moreTables| == |tables| + 1 && |moreColumns| == |columns| + |t.columns|
    ensures TableAt(moreTables, moreColumns, |tables|, schema, t)
  {
    var entry := FlatEntry(|tables|, schema, t.tableId, t.nameId, |columns|, |t.columns|);
    moreTables := tables + [entry];
    moreColumns := WriteColumns(columns, |tables|, t.columns);
    TilesNext(tables, entry, |columns|);
  }

  /** The arrays have grown by the tables. */
  ghost predicate WroteTables(
      tables: seq<FlatEntry>, columns: seq<FlatEntry>, moreTables: seq<FlatEntry>, moreColumns: seq<FlatEntry>,
      schema: nat, ts: seq<TableNode>)
  {
    && Tiles(moreTables, |moreColumns|) && tables <= moreTables && columns <= moreColumns
    && |moreTables| == |tables| + |ts| && TablesAt(moreTables, moreColumns, |tables|, schema, ts)
  }

  lemma {:induction false} WroteTablesNext(
      tables: seq<FlatEntry>, columns: seq<FlatEntry>, moreTables: seq<FlatEntry>, moreColumns: seq<FlatEntry>,
      schema: nat, ts: seq<TableNode>, n: nat, nextTables: seq<FlatEntry>, nextColumns: seq<FlatEntry>)
    requires n < |ts| && WroteTables(tables, columns, moreTables, moreColumns, schema, ts[..n])
    requires Tiles(nextTables, |nextColumns|) && moreTables <= nextTables && moreColumns <= nextColumns
    requires |nextTables| == |moreTables| + 1 && TableAt(nextTables, nextColumns, |moreTables|, schema, ts[n])
    ensures WroteTables(tables, columns, nextTables, nextColumns, schema, ts[..n + 1])
  {
    TablesAtGrow(moreTables, moreColumns, nextTables, nextColumns, |tables|, schema, ts[..n]);
    TablesAtNext(nextTables, nextColumns, |tables|, schema, ts, n);
  }

  /** Write the tables of a schema. */
  method WriteTables(tables: seq<FlatEntry>, columns: seq<FlatEntry>, schema: nat, ts: seq<TableNode>)
    returns (moreTables: seq<FlatEntry>, moreColumns: seq<FlatEntry>)
    requires Tiles(tables, |columns|)
    ensures WroteTables(tables, columns, moreTables, moreColumns, schema, ts)
    ensures |moreColumns| == |columns| + Sum(ColumnCountsOfTables(ts))
  {
    moreTables, moreColumns := tables, columns;
    ghost var counts := ColumnCountsOfTables(ts);
    for n := 0 to |ts|
      invariant WroteTables(tables, columns, moreTables, moreColumns, schema, ts[..n])
      invariant |moreColumns| == |columns| + Sum(counts[..n])
    {
      var nextTables, nextColumns := WriteTable(moreTables, moreColumns, schema, ts[n]);
      WroteTablesNext(tables, columns, moreTables, moreColumns, schema, ts, n, nextTables, nextColumns);
      SumNext(counts, n);
      moreTables, moreColumns := nextTables, nextColumns;
    }
    TakeAll(ts);
    TakeAll(counts);
  }

  /** Write a schema and its tables. */
  method WriteSchema(flat: Flat, database: nat, s: SchemaNode) returns (more: Flat)
    requires Tiles(flat.schemas, |flat.tables|) && Tiles(flat.tables, |flat.columns|)
    ensures Tiles(more.schemas, |more.tables|) && Tiles(more.tables, |more.columns|)
    ensures flat.schemas <= more.schemas && flat.tables <= more.tables && flat.columns <= more.columns
    ensures |more.schemas| == |flat.schemas| + 1 && |more.tables| == |flat.tables| + |s.tables|
    ensures |more.columns| == |flat.columns| + Sum(ColumnCountsOfTables(s.tables))
    ensures SchemaAt(more.schemas, more.tables, more.columns, |flat.schemas|, database, s)
    ensures more.databases == flat.databases
  {
    var q := |flat.schemas|;
    var entry := FlatEntry(q, database, s.schemaId, s.nameId, |flat.tables|, |s.tables|);
    var tables, columns := WriteTables(flat.tables, flat.columns, q, s.tables);
    more := flat.(schemas := flat.schemas + [entry], tables := tables, columns := columns);
    TilesNext(flat.schemas, entry, |flat.tables|);
  }

  /** The arrays have grown by the schemas. */
  ghost predicate WroteSchemas(flat: Flat, more: Flat, database: nat, ss: seq<SchemaNode>) {
    && Tiles(more.schemas, |more.tables|) && Tiles(more.tables, |more.columns|)
    && flat.schemas <= more.schemas && flat.tables <= more.tables && flat.columns <= more.columns
    && |more.schemas| == |flat.schemas| + |ss|
    && SchemasAt(more.schemas, more.tables, more.columns, |flat.schemas|, database, ss)
  }

  lemma {:induction false} WroteSchemasNext(
      flat: Flat, more: Flat, database: nat, ss: seq<SchemaNode>, n: nat, next: Flat)
    requires n < |ss| && WroteSchemas(flat, more, database, ss[..n])
    requires Tiles(next.schemas, |next.tables|) && Tiles(next.tables, |next.columns|)
    requires more.schemas <= next.schemas && more.tables <= next.tables && more.columns <= next.columns
    requires |next.schemas| == |more.schemas| + 1
    requires SchemaAt(next.schemas, next.tables, next.columns, |more.schemas|, database, ss[n])
    ensures WroteSchemas(flat, next, database, ss[..n + 1])
  {
    SchemasAtGrow(
      more.schemas, more.tables, more.columns, next.schemas, next.tables, next.columns, |flat.schemas|, database,
      ss[..n]);
    SchemasAtNext(next.schemas, next.tables, next.columns, |flat.schemas|, database, ss, n);
  }

  /** Write the schemas of a database. */
  method WriteSchemas(flat: Flat, database: nat, ss: seq<SchemaNode>) returns (more: Flat)
    requires Tiles(flat.schemas, |flat.tables|) && Tiles(flat.tables, |flat.columns|)
    ensures WroteSchemas(flat, more, database, ss) && more.databases == flat.databases
    ensures |more.tables| == |flat.tables| + Sum(TableCounts(ss))
    ensures |more.columns| == |flat.columns| + Sum(ColumnCountsOfSchemas(ss))
  {
    more := flat;
    ghost var tables, columns := TableCounts(ss), ColumnCountsOfSchemas(ss);
    for n := 0 to |ss|
      invariant WroteSchemas(flat, more, database, ss[..n]) && more.databases == flat.databases
      invariant |more.tables| == |flat.tables| + Sum(tables[..n])
      invariant |more.columns| == |flat.columns| + Sum(columns[..n])
    {
      var next := WriteSchema(more, database, ss[n]);
      WroteSchemasNext(flat, more, database, ss, n, next);
      SumNext(tables, n);
      SumNext(columns, n);
      more := next;
    }
    TakeAll(ss);
    TakeAll(tables);
    TakeAll(columns);
  }

  /** Write a database and its schemas. */
  method WriteDatabase(flat: Flat, d: DatabaseNode) returns (more: Flat)
    requires Partitioned(flat)
    ensures Partitioned(more) && DatabaseAt(more, |flat.databases|, d)
    ensures flat.databases <= more.databases && flat.schemas <= more.schemas
    ensures flat.tables <= more.tables && flat.columns <= more.columns
    ensures |more.databases| == |flat.databases| + 1 && |more.schemas| == |flat.schemas| + |d.schemas|
    ensures |more.tables| == |flat.tables| + Sum(TableCounts(d.schemas))
    ensures |more.columns| == |flat.columns| + Sum(ColumnCountsOfSchemas(d.schemas))
  {
    var q := |flat.databases|;
    var entry := FlatEntry(q, 0, d.databaseId, d.nameId, |flat.schemas|, |d.schemas|);
    more := WriteSchemas(flat.(databases := flat.databases + [entry]), q, d.schemas);
    TilesNext(flat.databases, entry, |flat.schemas|);
  }

  /** The arrays are as long as the counters say. */
  ghost predicate Sized(flat: Flat, counters: Counters) {
    && |flat.databases| == counters.databases && |flat.schemas| == counters.schemas
    && |flat.tables| == counters.tables && |flat.columns| == counters.columns
  }

  /** Write all databases. */
  method WriteTree(root: seq<DatabaseNode>) returns (flat: Flat)
    ensures HoldsTree(flat, root) && Partitioned(flat) && Sized(flat, CountersOf(root))
  {
    flat := Flat([], [], [], []);
    ghost var schemas, tables, columns := SchemaTotals(root), TableTotals(root), ColumnTotals(root);
    for n := 0 to |root|
      invariant HoldsTree(flat, root[..n]) && Partitioned(flat)
      invariant |flat.schemas| == Sum(schemas[..n]) && |flat.tables| == Sum(tables[..n])
      invariant |flat.columns| == Sum(columns[..n])
    {
      var more := WriteDatabase(flat, root[n]);
      HoldsTreeNext(flat, root, n, more);
      SumNext(schemas, n);
      SumNext(tables, n);
      SumNext(columns, n);
      flat := more;
    }
    TakeAll(root);
    TakeAll(schemas);
    TakeAll(tables);
    TakeAll(columns);
  }
}
