/** The entry arrays of a flat catalog: what it means that they hold a tree level by level. */
module FlatLayout {
  import opened CatalogTree

  /** One entry; the children are a range of the next level's array. */
  datatype FlatEntry = FlatEntry(
    index: nat, parent: nat, objectId: nat, nameId: nat, childrenBegin: nat, childrenCount: nat)

  // ---------------------------------------------------------------- child ranges

  /** Where the child ranges of the first `k` entries end. */
  ghost function EndBefore(es: seq<FlatEntry>, k: nat): nat
    requires k <= |es|
  {
    if k == 0 then 0 else es[k - 1].childrenBegin + es[k - 1].childrenCount
  }

  /** The child ranges partition the `n` entries of the next level, in order. */
  ghost predicate Tiles(es: seq<FlatEntry>, n: nat) {
    && (forall k {:trigger EndBefore(es, k)} :: 0 <= k < |es| ==> es[k].childrenBegin == EndBefore(es, k))
    && EndBefore(es, |es|) == n
  }

  lemma {:induction false} TilesNext(es: seq<FlatEntry>, e: FlatEntry, n: nat)
    requires Tiles(es, n) && e.childrenBegin == n
    ensures Tiles(es + [e], n + e.childrenCount)
  {
    forall k | 0 <= k < |es| + 1
      ensures (es + [e])[k].childrenBegin == EndBefore(es + [e], k)
    {
      assert EndBefore(es + [e], k) == EndBefore(es, k);
    }
  }

  lemma {:induction false} TilesApart(es: seq<FlatEntry>, n: nat, j: nat, k: nat)
    requires Tiles(es, n) && j < k <= |es|
    ensures es[j].childrenBegin + es[j].childrenCount <= EndBefore(es, k)
    decreases k
  {
    if j + 1 < k {
      TilesApart(es, n, j, k - 1);
      assert es[k - 1].childrenBegin == EndBefore(es, k - 1);
    }
  }

  /** Every entry of the next level is the child of exactly one entry. */
  lemma {:induction false} TilesCover(es: seq<FlatEntry>, n: nat, q: nat) returns (k: nat)
    requires Tiles(es, n) && q < n
    ensures k < |es| && es[k].childrenBegin <= q < es[k].childrenBegin + es[k].childrenCount
    ensures forall j :: 0 <= j < |es| && es[j].childrenBegin <= q < es[j].childrenBegin + es[j].childrenCount ==> j == k
  {
    k := |es| - 1;
    while q < EndBefore(es, k)
      invariant 0 <= k < |es| && q < EndBefore(es, k + 1)
      decreases k
    {
      k := k - 1;
    }
    assert es[k].childrenBegin == EndBefore(es, k);
    forall j | 0 <= j < |es| && es[j].childrenBegin <= q < es[j].childrenBegin + es[j].childrenCount
      ensures j == k
    {
      assert es[j].childrenBegin == EndBefore(es, j);
      if j < k {
        TilesApart(es, n, j, k);
      } else if k < j {
        TilesApart(es, n, k, j);
      }
    }
  }

  // ---------------------------------------------------------------- nodes at positions

  /** The columns stand from `begin` on, numbered in order, and point back to their table. */
  ghost predicate ColumnsAt(columns: seq<FlatEntry>, begin: nat, table: nat, ids: seq<nat>) {
    && begin + |ids| <= |columns|
    && forall k :: 0 <= k < |ids| ==> columns[begin + k] == FlatEntry(begin + k, table, k, ids[k], 0, 0)
  }

  ghost predicate TableAt(tables: seq<FlatEntry>, columns: seq<FlatEntry>, q: nat, parent: nat, t: TableNode) {
    && q < |tables|
    && tables[q] == FlatEntry(q, parent, t.tableId, t.nameId, tables[q].childrenBegin, |t.columns|)
    && ColumnsAt(columns, tables[q].childrenBegin, q, t.columns)
  }

  ghost predicate TablesAt(
      tables: seq<FlatEntry>, columns: seq<FlatEntry>, begin: nat, parent: nat, ts: seq<TableNode>)
  {
    && begin + |ts| <= |tables|
    && forall k :: 0 <= k < |ts| ==> TableAt(tables, columns, begin + k, parent, ts[k])
  }

  ghost predicate SchemaAt(
      schemas: seq<FlatEntry>, tables: seq<FlatEntry>, columns: seq<FlatEntry>, q: nat, parent: nat, s: SchemaNode)
  {
    && q < |schemas|
    && schemas[q] == FlatEntry(q, parent, s.schemaId, s.nameId, schemas[q].childrenBegin, |s.tables|)
    && TablesAt(tables, columns, schemas[q].childrenBegin, q, s.tables)
  }

  ghost predicate SchemasAt(
      schemas: seq<FlatEntry>, tables: seq<FlatEntry>, columns: seq<FlatEntry>, begin: nat, parent: nat,
      ss: seq<SchemaNode>)
  {
    && begin + |ss| <= |schemas|
    && forall k :: 0 <= k < |ss| ==> SchemaAt(schemas, tables, columns, begin + k, parent, ss[k])
  }

  datatype Flat = Flat(
    databases: seq<FlatEntry>, schemas: seq<FlatEntry>, tables: seq<FlatEntry>, columns: seq<FlatEntry>)

  ghost predicate DatabaseAt(flat: Flat, q: nat, d: DatabaseNode) {
    && q < |flat.databases|
    && flat.databases[q] ==
       FlatEntry(q, 0, d.databaseId, d.nameId, flat.databases[q].childrenBegin, |d.schemas|)
    && SchemasAt(flat.schemas, flat.tables, flat.columns, flat.databases[q].childrenBegin, q, d.schemas)
  }

  /** The flat catalog holds the nodes of the tree, in its order. */
  ghost predicate HoldsTree(flat: Flat, root: seq<DatabaseNode>) {
    && |flat.databases| == |root|
    && forall k :: 0 <= k < |root| ==> DatabaseAt(flat, k, root[k])
  }

  /** The child ranges of every level partition the next level. */
  ghost predicate Partitioned(flat: Flat) {
    && Tiles(flat.databases, |flat.schemas|) && Tiles(flat.schemas, |flat.tables|)
    && Tiles(flat.tables, |flat.columns|)
  }

  // ---------------------------------------------------------------- arrays that grow

  lemma {:induction false} TableAtGrows(
      tables: seq<FlatEntry>, columns: seq<FlatEntry>, moreTables: seq<FlatEntry>, moreColumns: seq<FlatEntry>,
      q: nat, parent: nat, t: TableNode)
    requires TableAt(tables, columns, q, parent, t) && tables <= moreTables && columns <= moreColumns
    ensures TableAt(moreTables, moreColumns, q, parent, t)
  {
  }

  lemma {:induction false} TablesAtGrow(
      tables: seq<FlatEntry>, columns: seq<FlatEntry>, moreTables: seq<FlatEntry>, moreColumns: seq<FlatEntry>,
      begin: nat, parent: nat, ts: seq<TableNode>)
    requires TablesAt(tables, columns, begin, parent, ts) && tables <= moreTables && columns <= moreColumns
    ensures TablesAt(moreTables, moreColumns, begin, parent, ts)
  {
    forall k | 0 <= k < |ts|
      ensures TableAt(moreTables, moreColumns, begin + k, parent, ts[k])
    {
      TableAtGrows(tables, columns, moreTables, moreColumns, begin + k, parent, ts[k]);
    }
  }

  lemma {:induction false} SchemaAtGrows(
      schemas: seq<FlatEntry>, tables: seq<FlatEntry>, columns: seq<FlatEntry>, moreSchemas: seq<FlatEntry>,
      moreTables: seq<FlatEntry>, moreColumns: seq<FlatEntry>, q: nat, parent: nat, s: SchemaNode)
    requires SchemaAt(schemas, tables, columns, q, parent, s)
    requires schemas <= moreSchemas && tables <= moreTables && columns <= moreColumns
    ensures SchemaAt(moreSchemas, moreTables, moreColumns, q, parent, s)
  {
    TablesAtGrow(tables, columns, moreTables, moreColumns, schemas[q].childrenBegin, q, s.tables);
  }

  lemma {:induction false} SchemasAtGrow(
      schemas: seq<FlatEntry>, tables: seq<FlatEntry>, columns: seq<FlatEntry>, moreSchemas: seq<FlatEntry>,
      moreTables: seq<FlatEntry>, moreColumns: seq<FlatEntry>, begin: nat, parent: nat, ss: seq<SchemaNode>)
    requires SchemasAt(schemas, tables, columns, begin, parent, ss)
    requires schemas <= moreSchemas && tables <= moreTables && columns <= moreColumns
    ensures SchemasAt(moreSchemas, moreTables, moreColumns, begin, parent, ss)
  {
    forall k | 0 <= k < |ss|
      ensures SchemaAt(moreSchemas, moreTables, moreColumns, begin + k, parent, ss[k])
    {
      SchemaAtGrows(schemas, tables, columns, moreSchemas, moreTables, moreColumns, begin + k, parent, ss[k]);
    }
  }

  lemma {:induction false} DatabaseAtGrows(flat: Flat, more: Flat, q: nat, d: DatabaseNode)
    requires DatabaseAt(flat, q, d) && flat.databases <= more.databases && flat.schemas <= more.schemas
    requires flat.tables <= more.tables && flat.columns <= more.columns
    ensures DatabaseAt(more, q, d)
  {
    SchemasAtGrow(
      flat.schemas, flat.tables, flat.columns, more.schemas, more.tables, more.columns,
      flat.databases[q].childrenBegin, q, d.schemas);
  }

  // ---------------------------------------------------------------- one more node

  lemma {:induction false} TablesAtNext(
      tables: seq<FlatEntry>, columns: seq<FlatEntry>, begin: nat, parent: nat, ts: seq<TableNode>, n: nat)
    requires n < |ts| && TablesAt(tables, columns, begin, parent, ts[..n])
    requires TableAt(tables, columns, begin + n, parent, ts[n])
    ensures TablesAt(tables, columns, begin, parent, ts[..n + 1])
  {
    var all := ts[..n + 1];
    forall k | 0 <= k < |all|
      ensures TableAt(tables, columns, begin + k, parent, all[k])
    {
      if k < n {
        assert ts[..n][k] == ts[k];
      }
    }
  }

  lemma {:induction false} SchemasAtNext(
      schemas: seq<FlatEntry>, tables: seq<FlatEntry>, columns: seq<FlatEntry>, begin: nat, parent: nat,
      ss: seq<SchemaNode>, n: nat)
    requires n < |ss| && SchemasAt(schemas, tables, columns, begin, parent, ss[..n])
    requires SchemaAt(schemas, tables, columns, begin + n, parent, ss[n])
    ensures SchemasAt(schemas, tables, columns, begin, parent, ss[..n + 1])
  {
    var all := ss[..n + 1];
    forall k | 0 <= k < |all|
      ensures SchemaAt(schemas, tables, columns, begin + k, parent, all[k])
    {
      if k < n {
        assert ss[..n][k] == ss[k];
      }
    }
  }

  lemma {:induction false} HoldsTreeNext(flat: Flat, root: seq<DatabaseNode>, n: nat, more: Flat)
    requires n < |root| && HoldsTree(flat, root[..n]) && DatabaseAt(more, n, root[n]) && |more.databases| == n + 1
    requires flat.databases <= more.databases && flat.schemas <= more.schemas
    requires flat.tables <= more.tables && flat.columns <= more.columns
    ensures HoldsTree(more, root[..n + 1])
  {
    var all := root[..n + 1];
    forall k | 0 <= k < |all|
      ensures DatabaseAt(more, k, all[k])
    {
      if k < n {
        assert root[..n][k] == root[k];
        DatabaseAtGrows(flat, more, k, root[k]);
      }
    }
  }
}
