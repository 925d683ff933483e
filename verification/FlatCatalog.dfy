/** Flattening a catalog: what its entry arrays say about the databases, schemas and tables it was made from. */
module FlatCatalogs {
  import opened NameTables
  import opened NameOrders
  import opened CatalogTree
  import opened CatalogTreeBuild
  import opened CatalogTables
  import opened FlatLayout
  import opened FlatWriter
  import opened FlatIndex

  // ---------------------------------------------------------------- reading the arrays

  ghost predicate IsFlatDatabase(flat: Flat, names: seq<string>, q: int, ref: DatabaseRef) {
    && 0 <= q < |flat.databases| && flat.databases[q].objectId == ref.databaseId
    && NameOk(ref.name, flat.databases[q].nameId, names)
  }

  ghost predicate IsFlatSchema(flat: Flat, names: seq<string>, q: int, ref: SchemaRef) {
    && 0 <= q < |flat.schemas| && flat.schemas[q].objectId == ref.schemaId
    && NameOk(ref.name, flat.schemas[q].nameId, names)
    && flat.schemas[q].parent < |flat.databases|
    && flat.databases[flat.schemas[q].parent].objectId == ref.databaseId
  }

  ghost predicate HasColumn(columns: seq<FlatEntry>, begin: nat, k: nat, names: seq<string>, name: string) {
    && begin + k < |columns| && columns[begin + k].objectId == k
    && NameOk(name, columns[begin + k].nameId, names)
  }

  ghost predicate HasColumns(
      columns: seq<FlatEntry>, begin: nat, count: nat, names: seq<string>, declared: seq<string>)
  {
    && count == |declared| && begin + count <= |columns|
    && forall k :: 0 <= k < |declared| ==> HasColumn(columns, begin, k, names, declared[k])
  }

  ghost predicate IsFlatTable(flat: Flat, names: seq<string>, q: int, d: TableDecl) {
    && 0 <= q < |flat.tables| && flat.tables[q].objectId == d.tableId
    && NameOk(d.name, flat.tables[q].nameId, names)
    && flat.tables[q].parent < |flat.schemas|
    && flat.schemas[flat.tables[q].parent].objectId == d.schemaId
    && HasColumns(flat.columns, flat.tables[q].childrenBegin, flat.tables[q].childrenCount, names, d.columns)
  }

  /** Every entry knows its own position, and the range of its parent holds it. */
  ghost predicate BackIndexed(parents: seq<FlatEntry>, children: seq<FlatEntry>) {
    forall q :: 0 <= q < |children| ==>
      && children[q].index == q && children[q].parent < |parents|
      && parents[children[q].parent].childrenBegin <= q
      && q < parents[children[q].parent].childrenBegin + parents[children[q].parent].childrenCount
  }

  /** The arrays list exactly these databases and schemas, and the first declaration of every table. */
  ghost predicate Lists(
      flat: Flat, names: seq<string>, databases: set<DatabaseRef>, schemas: set<SchemaRef>, ds: seq<TableDecl>)
  {
    && (forall ref :: ref in databases <==> exists q :: IsFlatDatabase(flat, names, q, ref))
    && (forall ref :: ref in schemas <==> exists q :: IsFlatSchema(flat, names, q, ref))
    && (forall d :: IsWinner(ds, d) <==> exists q :: IsFlatTable(flat, names, q, d))
  }

  ghost predicate SameTable(c: TableDecl, d: TableDecl) {
    c.schemaId == d.schemaId && c.name == d.name
  }

  /** No table of a schema is listed twice. */
  ghost predicate TablesOnce(flat: Flat, names: seq<string>) {
    forall p, q, c, d :: IsFlatTable(flat, names, p, c) && IsFlatTable(flat, names, q, d) && SameTable(c, d) ==> p == q
  }

  /** Entries with one parent are in the order of their names. */
  ghost predicate SiblingsInOrder(entries: seq<FlatEntry>, names: seq<string>) {
    forall p, q :: 0 <= p < q < |entries| && entries[p].parent == entries[q].parent ==>
      && entries[p].nameId < |names| && entries[q].nameId < |names|
      && ComesBefore(names[entries[p].nameId], names[entries[q].nameId])
  }

  ghost predicate InNameOrder(flat: Flat, names: seq<string>) {
    && SiblingsInOrder(flat.databases, names) && SiblingsInOrder(flat.schemas, names)
    && SiblingsInOrder(flat.tables, names)
  }

  // ---------------------------------------------------------------- positions

  lemma {:induction false} SchemaPosition(flat: Flat, root: seq<DatabaseNode>, q: nat) returns (i: nat, j: nat)
    requires HoldsTree(flat, root) && Tiles(flat.databases, |flat.schemas|) && q < |flat.schemas|
    ensures i < |root| && j < |root[i].schemas| && q == flat.databases[i].childrenBegin + j
    ensures SchemaAt(flat.schemas, flat.tables, flat.columns, q, i, root[i].schemas[j])
    ensures q < flat.databases[i].childrenBegin + flat.databases[i].childrenCount
  {
    i := TilesCover(flat.databases, |flat.schemas|, q);
    assert DatabaseAt(flat, i, root[i]);
    j := q - flat.databases[i].childrenBegin;
    assert SchemaAt(
      flat.schemas, flat.tables, flat.columns, flat.databases[i].childrenBegin + j, i, root[i].schemas[j]);
  }

  lemma {:induction false} TablePosition(flat: Flat, root: seq<DatabaseNode>, q: nat)
    returns (s: nat, i: nat, j: nat, k: nat)
    requires HoldsTree(flat, root) && Partitioned(flat) && q < |flat.tables|
    ensures s < |flat.schemas| && i < |root| && j < |root[i].schemas| && k < |root[i].schemas[j].tables|
    ensures s == flat.databases[i].childrenBegin + j && q == flat.schemas[s].childrenBegin + k
    ensures SchemaAt(flat.schemas, flat.tables, flat.columns, s, i, root[i].schemas[j])
    ensures TableAt(flat.tables, flat.columns, q, s, root[i].schemas[j].tables[k])
  {
    s := TilesCover(flat.schemas, |flat.tables|, q);
    i, j := SchemaPosition(flat, root, s);
    k := q - flat.schemas[s].childrenBegin;
    assert TableAt(
      flat.tables, flat.columns, flat.schemas[s].childrenBegin + k, s, root[i].schemas[j].tables[k]);
  }

  lemma {:induction false} ColumnPosition(flat: Flat, root: seq<DatabaseNode>, q: nat) returns (t: nat)
    requires HoldsTree(flat, root) && Partitioned(flat) && q < |flat.columns|
    ensures t < |flat.tables| && flat.columns[q].index == q && flat.columns[q].parent == t
    ensures flat.tables[t].childrenBegin <= q < flat.tables[t].childrenBegin + flat.tables[t].childrenCount
  {
    t := TilesCover(flat.tables, |flat.columns|, q);
    var s, i, j, k := TablePosition(flat, root, t);
    var ids := root[i].schemas[j].tables[k].columns;
    var c: nat := q - flat.tables[t].childrenBegin;
    assert flat.columns[flat.tables[t].childrenBegin + c] == FlatEntry(q, t, c, ids[c], 0, 0);
  }

  lemma {:induction false} ParentsMatch(flat: Flat, root: seq<DatabaseNode>)
    requires HoldsTree(flat, root) && Partitioned(flat)
    ensures BackIndexed(flat.databases, flat.schemas) && BackIndexed(flat.schemas, flat.tables)
    ensures BackIndexed(flat.tables, flat.columns)
  {
    forall q | 0 <= q < |flat.schemas|
      ensures flat.schemas[q].index == q && flat.schemas[q].parent < |flat.databases|
      ensures var p := flat.databases[flat.schemas[q].parent];
        p.childrenBegin <= q < p.childrenBegin + p.childrenCount
    {
      var i, j := SchemaPosition(flat, root, q);
    }
    forall q | 0 <= q < |flat.tables|
      ensures flat.tables[q].index == q && flat.tables[q].parent < |flat.schemas|
      ensures var p := flat.schemas[flat.tables[q].parent];
        p.childrenBegin <= q < p.childrenBegin + p.childrenCount
    {
      var s, i, j, k := TablePosition(flat, root, q);
    }
    forall q | 0 <= q < |flat.columns|
      ensures flat.columns[q].index == q && flat.columns[q].parent < |flat.tables|
      ensures var p := flat.tables[flat.columns[q].parent];
        p.childrenBegin <= q < p.childrenBegin + p.childrenCount
    {
      var t := ColumnPosition(flat, root, q);
    }
  }

  // ---------------------------------------------------------------- order

  lemma {:induction false} AscendingAt(sorted: seq<string>, j: nat, k: nat)
    requires Ascending(sorted) && j < k < |sorted|
    ensures ComesBefore(sorted[j], sorted[k])
  {
    LessMeaning(sorted[j], sorted[k]);
  }

  lemma {:induction false} DatabasesInOrder(flat: Flat, root: seq<DatabaseNode>, names: seq<string>)
    requires HoldsTree(flat, root) && TreeOk(root, names)
    ensures SiblingsInOrder(flat.databases, names)
  {
    forall p, q | 0 <= p < q < |flat.databases|
      ensures flat.databases[p].nameId < |names| && flat.databases[q].nameId < |names|
      ensures ComesBefore(names[flat.databases[p].nameId], names[flat.databases[q].nameId])
    {
      assert DatabaseAt(flat, p, root[p]) && DatabaseAt(flat, q, root[q]);
      assert DatabaseOk(root[p], names) && DatabaseOk(root[q], names);
      AscendingAt(DatabaseNames(root), p, q);
    }
  }

  lemma {:induction false} SchemasInOrder(flat: Flat, root: seq<DatabaseNode>, names: seq<string>)
    requires HoldsTree(flat, root) && Partitioned(flat) && TreeOk(root, names)
    ensures SiblingsInOrder(flat.schemas, names)
  {
    forall p, q | 0 <= p < q < |flat.schemas| && flat.schemas[p].parent == flat.schemas[q].parent
      ensures flat.schemas[p].nameId < |names| && flat.schemas[q].nameId < |names|
      ensures ComesBefore(names[flat.schemas[p].nameId], names[flat.schemas[q].nameId])
    {
      var i, j := SchemaPosition(flat, root, p);
      var x, y := SchemaPosition(flat, root, q);
      assert DatabaseOk(root[i], names) && SchemaOk(root[i].schemas[j], names) && SchemaOk(root[i].schemas[y], names);
      AscendingAt(SchemaNames(root[i].schemas), j, y);
    }
  }

  lemma {:induction false} TablesInOrder(flat: Flat, root: seq<DatabaseNode>, names: seq<string>)
    requires HoldsTree(flat, root) && Partitioned(flat) && TreeOk(root, names)
    ensures SiblingsInOrder(flat.tables, names)
  {
    forall p, q | 0 <= p < q < |flat.tables| && flat.tables[p].parent == flat.tables[q].parent
      ensures flat.tables[p].nameId < |names| && flat.tables[q].nameId < |names|
      ensures ComesBefore(names[flat.tables[p].nameId], names[flat.tables[q].nameId])
    {
      var s, i, j, k := TablePosition(flat, root, p);
      var t, x, y, z := TablePosition(flat, root, q);
      var tables := root[i].schemas[j].tables;
      assert DatabaseOk(root[i], names) && SchemaOk(root[i].schemas[j], names);
      assert TableOk(tables[k], names) && TableOk(tables[z], names);
      AscendingAt(TableNames(tables), k, z);
    }
  }

  // ---------------------------------------------------------------- contents

  lemma {:induction false} DatabasesListed(flat: Flat, root: seq<DatabaseNode>, names: seq<string>, ref: DatabaseRef)
    requires HoldsTree(flat, root) && TreeOk(root, names)
    ensures ref in DatabaseRefs(root) <==> exists q :: IsFlatDatabase(flat, names, q, ref)
  {
    if ref in DatabaseRefs(root) {
      var i :| 0 <= i < |root| && ref == DatabaseRef(root[i].databaseId, root[i].name);
      assert DatabaseAt(flat, i, root[i]) && DatabaseOk(root[i], names);
      assert IsFlatDatabase(flat, names, i, ref);
    }
    if q :| IsFlatDatabase(flat, names, q, ref) {
      assert DatabaseAt(flat, q, root[q]) && DatabaseOk(root[q], names);
    }
  }

  lemma {:induction false} SchemaEntry(
      flat: Flat, root: seq<DatabaseNode>, names: seq<string>, q: nat, i: nat, j: nat, ref: SchemaRef)
    requires HoldsTree(flat, root) && TreeOk(root, names) && i < |root| && j < |root[i].schemas|
    requires SchemaAt(flat.schemas, flat.tables, flat.columns, q, i, root[i].schemas[j])
    ensures IsFlatSchema(flat, names, q, ref) <==> HasSchemaAt(root, i, j, ref)
  {
    assert DatabaseAt(flat, i, root[i]) && DatabaseOk(root[i], names);
    assert SchemaOk(root[i].schemas[j], names);
  }

  lemma {:induction false} SchemasListed(flat: Flat, root: seq<DatabaseNode>, names: seq<string>, ref: SchemaRef)
    requires HoldsTree(flat, root) && Partitioned(flat) && TreeOk(root, names)
    ensures HasSchema(root, ref) <==> exists q :: IsFlatSchema(flat, names, q, ref)
  {
    if HasSchema(root, ref) {
      var i, j :| HasSchemaAt(root, i, j, ref);
      assert DatabaseAt(flat, i, root[i]);
      SchemaEntry(flat, root, names, flat.databases[i].childrenBegin + j, i, j, ref);
    }
    if q :| IsFlatSchema(flat, names, q, ref) {
      var i, j := SchemaPosition(flat, root, q);
      SchemaEntry(flat, root, names, q, i, j, ref);
    }
  }

  lemma {:induction false} ColumnEntries(
      columns: seq<FlatEntry>, begin: nat, table: nat, ids: seq<nat>, names: seq<string>, declared: seq<string>)
    requires ColumnsAt(columns, begin, table, ids) && forall k :: 0 <= k < |ids| ==> ids[k] < |names|
    ensures HasColumns(columns, begin, |ids|, names, declared) <==> ColumnNames(ids, names) == declared
  {
    forall k | 0 <= k < |ids| && |ids| == |declared|
      ensures HasColumn(columns, begin, k, names, declared[k]) <==> ColumnNames(ids, names)[k] == declared[k]
    {
      assert columns[begin + k] == FlatEntry(begin + k, table, k, ids[k], 0, 0);
    }
    if HasColumns(columns, begin, |ids|, names, declared) {
      assert ColumnNames(ids, names) == declared;
    }
  }

  lemma {:induction false} TableEntry(
      flat: Flat, root: seq<DatabaseNode>, names: seq<string>, q: nat, s: nat, i: nat, j: nat, k: nat, d: TableDecl)
    requires TreeOk(root, names) && i < |root| && j < |root[i].schemas| && k < |root[i].schemas[j].tables|
    requires SchemaAt(flat.schemas, flat.tables, flat.columns, s, i, root[i].schemas[j])
    requires TableAt(flat.tables, flat.columns, q, s, root[i].schemas[j].tables[k])
    ensures IsFlatTable(flat, names, q, d) <==> HasTableAt(root, names, i, j, k, d)
  {
    assert DatabaseOk(root[i], names);
    assert SchemaOk(root[i].schemas[j], names);
    var t := root[i].schemas[j].tables[k];
    assert TableOk(t, names);
    ColumnEntries(flat.columns, flat.tables[q].childrenBegin, q, t.columns, names, d.columns);
  }

  lemma {:induction false} TablesListed(flat: Flat, root: seq<DatabaseNode>, names: seq<string>, d: TableDecl)
    requires HoldsTree(flat, root) && Partitioned(flat) && TreeOk(root, names)
    ensures HasTable(root, names, d) <==> exists q :: IsFlatTable(flat, names, q, d)
  {
    if HasTable(root, names, d) {
      var i, j, k :| HasTableAt(root, names, i, j, k, d);
      assert DatabaseAt(flat, i, root[i]);
      var s := flat.databases[i].childrenBegin + j;
      assert SchemaAt(flat.schemas, flat.tables, flat.columns, s, i, root[i].schemas[j]);
      TableEntry(flat, root, names, flat.schemas[s].childrenBegin + k, s, i, j, k, d);
    }
    if q :| IsFlatTable(flat, names, q, d) {
      var s, i, j, k := TablePosition(flat, root, q);
      TableEntry(flat, root, names, q, s, i, j, k, d);
    }
  }

  /** A table stands at one place of the tree. */
  lemma {:induction false} TablePlaceUnique(
      root: seq<DatabaseNode>, names: seq<string>, i: nat, j: nat, k: nat, z: nat, c: TableDecl, d: TableDecl)
    requires TreeOk(root, names) && HasTableAt(root, names, i, j, k, c) && HasTableAt(root, names, i, j, z, d)
    requires c.name == d.name
    ensures k == z
  {
    assert DatabaseOk(root[i], names);
    assert SchemaOk(root[i].schemas[j], names);
    AscendingIsDistinct(TableNames(root[i].schemas[j].tables), k, z);
  }

  lemma {:induction false} SchemaPlaceUnique(
      b: Builder, databases: set<DatabaseRef>, schemas: set<SchemaRef>, ds: seq<TableDecl>,
      i: nat, j: nat, k: nat, x: nat, y: nat, z: nat, c: TableDecl, d: TableDecl)
    requires Built(b, databases, schemas, ds) && OneIdPerDatabase(databases) && OneIdPerSchema(schemas)
    requires HasTableAt(b.root, b.names, i, j, k, c) && HasTableAt(b.root, b.names, x, y, z, d)
    requires c.schemaId == d.schemaId
    ensures i == x && j == y
  {
    SchemaPositionUnique(b.root, b.names, databases, schemas, i, j, x, y);
  }

  lemma {:induction false} TablePlaceOf(flat: Flat, root: seq<DatabaseNode>, names: seq<string>, q: nat, d: TableDecl)
    returns (i: nat, j: nat, k: nat)
    requires HoldsTree(flat, root) && Partitioned(flat) && TreeOk(root, names) && IsFlatTable(flat, names, q, d)
    ensures HasTableAt(root, names, i, j, k, d)
    ensures i < |flat.databases| && flat.databases[i].childrenBegin + j < |flat.schemas|
    ensures q == flat.schemas[flat.databases[i].childrenBegin + j].childrenBegin + k
  {
    var s;
    s, i, j, k := TablePosition(flat, root, q);
    TableEntry(flat, root, names, q, s, i, j, k, d);
  }

  lemma {:induction false} TableListedOnce(
      flat: Flat, b: Builder, databases: set<DatabaseRef>, schemas: set<SchemaRef>, ds: seq<TableDecl>,
      p: nat, q: nat, c: TableDecl, d: TableDecl)
    requires HoldsTree(flat, b.root) && Partitioned(flat)
    requires Built(b, databases, schemas, ds) && OneIdPerDatabase(databases) && OneIdPerSchema(schemas)
    requires IsFlatTable(flat, b.names, p, c) && IsFlatTable(flat, b.names, q, d) && SameTable(c, d)
    ensures p == q
  {
    var i, j, k := TablePlaceOf(flat, b.root, b.names, p, c);
    var x, y, z := TablePlaceOf(flat, b.root, b.names, q, d);
    SchemaPlaceUnique(b, databases, schemas, ds, i, j, k, x, y, z, c, d);
    TablePlaceUnique(b.root, b.names, i, j, k, z, c, d);
  }

  lemma {:induction false} AllListed(
      flat: Flat, b: Builder, databases: set<DatabaseRef>, schemas: set<SchemaRef>, ds: seq<TableDecl>)
    requires HoldsTree(flat, b.root) && Partitioned(flat) && Built(b, databases, schemas, ds)
    ensures Lists(flat, b.names, databases, schemas, ds)
  {
    forall ref: DatabaseRef
      ensures ref in databases <==> exists q :: IsFlatDatabase(flat, b.names, q, ref)
    {
      DatabasesListed(flat, b.root, b.names, ref);
    }
    forall ref: SchemaRef
      ensures ref in schemas <==> exists q :: IsFlatSchema(flat, b.names, q, ref)
    {
      SchemasListed(flat, b.root, b.names, ref);
    }
    forall d: TableDecl
      ensures IsWinner(ds, d) <==> exists q :: IsFlatTable(flat, b.names, q, d)
    {
      TablesListed(flat, b.root, b.names, d);
    }
  }

  lemma {:induction false} AllTablesOnce(
      flat: Flat, b: Builder, databases: set<DatabaseRef>, schemas: set<SchemaRef>, ds: seq<TableDecl>)
    requires HoldsTree(flat, b.root) && Partitioned(flat)
    requires Built(b, databases, schemas, ds) && OneIdPerDatabase(databases) && OneIdPerSchema(schemas)
    ensures TablesOnce(flat, b.names)
  {
    forall p, q, c, d | IsFlatTable(flat, b.names, p, c) && IsFlatTable(flat, b.names, q, d) && SameTable(c, d)
      ensures p == q
    {
      TableListedOnce(flat, b, databases, schemas, ds, p, q, c, d);
    }
  }

  // ---------------------------------------------------------------- the whole flattening

  /** A flat catalog with its dictionary, and the positions of its entries by object id. */
  datatype FlatCatalog = FlatCatalog(
    names: seq<string>, flat: Flat,
    databasesById: seq<IndexEntry>, schemasById: seq<IndexEntry>, tablesById: seq<IndexEntry>)

  /** Flatten the references and table declarations of all catalog entries. */
  method Flatten(references: seq<Reference>, ds: seq<TableDecl>) returns (r: FlatCatalog)
    requires InputsOk(references, ds)
    ensures Distinct(r.names) && Partitioned(r.flat)
    ensures |r.flat.databases| == |DatabasesIn(references)| && |r.flat.schemas| == |SchemasIn(references)|
    ensures |r.flat.tables| == WinningTables(ds) && |r.flat.columns| == WinningColumns(ds)
    ensures BackIndexed(r.flat.databases, r.flat.schemas) && BackIndexed(r.flat.schemas, r.flat.tables)
    ensures BackIndexed(r.flat.tables, r.flat.columns)
    ensures Lists(r.flat, r.names, DatabasesIn(references), SchemasIn(references), ds) && TablesOnce(r.flat, r.names)
    ensures IsIndexOf(r.databasesById, r.flat.databases) && IsIndexOf(r.schemasById, r.flat.schemas)
    ensures IsIndexOf(r.tablesById, r.flat.tables)
    ensures InNameOrder(r.flat, r.names)
  {
    var b := BuildTree(references, ds);
    IndexedAreDistinct(b.index, b.names);
    var flat := WriteTree(b.root);
    assert Sized(flat, b.counters);
    ParentsMatch(flat, b.root);
    DatabasesInOrder(flat, b.root, b.names);
    SchemasInOrder(flat, b.root, b.names);
    TablesInOrder(flat, b.root, b.names);
    AllListed(flat, b, DatabasesIn(references), SchemasIn(references), ds);
    AllTablesOnce(flat, b, DatabasesIn(references), SchemasIn(references), ds);
    var databasesById := IndexById(flat.databases);
    var schemasById := IndexById(flat.schemas);
    var tablesById := IndexById(flat.tables);
    r := FlatCatalog(b.names, flat, databasesById, schemasById, tablesById);
  }
}
