/** What the catalog entries hold, in the order in which flattening walks them. */
module CatalogContents {
  import opened Collections
  import opened CatalogState
  import opened CatalogTree
  import opened CatalogTables
  import opened RankOrder

  /** The references of an entry, in the order in which its tables list them, and its table declarations. */
  datatype Contents = Contents(databases: seq<DatabaseRef>, schemas: seq<SchemaRef>, tables: seq<TableDecl>)

  ghost function AllDatabases(contents: map<nat, Contents>): set<DatabaseRef> {
    set id, d | id in contents && d in contents[id].databases :: d
  }

  ghost function AllSchemas(contents: map<nat, Contents>): set<SchemaRef> {
    set id, s | id in contents && s in contents[id].schemas :: s
  }

  /** An entry that refers to a schema refers to its database. */
  ghost predicate HasDatabases(c: Contents) {
    forall s :: s in c.schemas ==> exists d :: d in c.databases && d.databaseId == s.databaseId
  }

  // ---------------------------------------------------------------- references

  function RefsOf(c: Contents): (r: seq<Reference>)
    ensures |r| == |c.databases| + |c.schemas|
    ensures forall k :: 0 <= k < |c.databases| ==> r[k] == Reference.Database(c.databases[k])
    ensures forall k :: |c.databases| <= k < |r| ==> r[k] == Schema(c.schemas[k - |c.databases|])
  {
    seq(|c.databases|, k requires 0 <= k < |c.databases| => Reference.Database(c.databases[k]))
    + seq(|c.schemas|, k requires 0 <= k < |c.schemas| => Schema(c.schemas[k]))
  }

  lemma {:induction false} RefsHold(c: Contents)
    ensures DatabasesIn(RefsOf(c)) == set d | d in c.databases
    ensures SchemasIn(RefsOf(c)) == set s | s in c.schemas
  {
    var r := RefsOf(c);
    forall d | d in c.databases
      ensures d in DatabasesIn(r)
    {
      var k :| 0 <= k < |c.databases| && c.databases[k] == d;
      assert r[k] == Reference.Database(d);
    }
    forall s | s in c.schemas
      ensures s in SchemasIn(r)
    {
      var k :| 0 <= k < |c.schemas| && c.schemas[k] == s;
      assert r[|c.databases| + k] == Schema(s);
    }
  }

  lemma {:induction false} RefsAppend(a: seq<Reference>, b: seq<Reference>)
    ensures DatabasesIn(a + b) == DatabasesIn(a) + DatabasesIn(b)
    ensures SchemasIn(a + b) == SchemasIn(a) + SchemasIn(b)
  {
    var all := a + b;
    forall k | 0 <= k < |a|
      ensures all[k] == a[k]
    {
    }
    forall k | 0 <= k < |b|
      ensures all[|a| + k] == b[k]
    {
    }
    assert DatabasesIn(all) <= DatabasesIn(a) + DatabasesIn(b);
    assert SchemasIn(all) <= SchemasIn(a) + SchemasIn(b);
  }

  /** The references in front of the `j`-th schema of an entry have its databases. */
  lemma {:induction false} DatabasesInFront(a: seq<Reference>, c: Contents, j: nat, d: DatabaseRef)
    requires j < |c.schemas| && d in c.databases
    ensures d in DatabasesIn((a + RefsOf(c))[..|a| + |c.databases| + j])
  {
    var k :| 0 <= k < |c.databases| && c.databases[k] == d;
    var front := (a + RefsOf(c))[..|a| + |c.databases| + j];
    assert front[|a| + k] == RefsOf(c)[k];
  }

  lemma {:induction false} RefsKeepDatabasesFirst(a: seq<Reference>, c: Contents)
    requires DatabasesFirst(a) && HasDatabases(c)
    ensures DatabasesFirst(a + RefsOf(c))
  {
    var all := a + RefsOf(c);
    forall k | 0 <= k < |all| && all[k].Schema?
      ensures exists d :: d in DatabasesIn(all[..k]) && d.databaseId == all[k].schema.databaseId
    {
      if k < |a| {
        assert all[k] == a[k] && all[..k] == a[..k];
      } else {
        var r := RefsOf(c);
        assert all[k] == r[k - |a|];
        var j: nat := k - |a| - |c.databases|;
        assert all[k] == Schema(c.schemas[j]) && c.schemas[j] in c.schemas;
        var d :| d in c.databases && d.databaseId == c.schemas[j].databaseId;
        DatabasesInFront(a, c, j, d);
      }
    }
  }

  ghost function Restricted(contents: map<nat, Contents>, ids: set<nat>): map<nat, Contents> {
    map id | id in contents && id in ids :: contents[id]
  }

  lemma {:induction false} OneMoreEntry(contents: map<nat, Contents>, ids: set<nat>, id: nat)
    requires id in contents
    ensures AllDatabases(Restricted(contents, ids + {id}))
      == AllDatabases(Restricted(contents, ids)) + set d | d in contents[id].databases
    ensures AllSchemas(Restricted(contents, ids + {id}))
      == AllSchemas(Restricted(contents, ids)) + set s | s in contents[id].schemas
  {
    var more, less := Restricted(contents, ids + {id}), Restricted(contents, ids);
    forall i | i in less
      ensures i in more && more[i] == less[i]
    {
    }
    assert id in more && more[id] == contents[id];
  }

  /** The references of the entries visited so far. */
  ghost predicate RefsUpTo(references: seq<Reference>, contents: map<nat, Contents>, ids: set<nat>) {
    && DatabasesFirst(references) && DatabasesIn(references) == AllDatabases(Restricted(contents, ids))
    && SchemasIn(references) == AllSchemas(Restricted(contents, ids))
  }

  method AddReferences(
      references: seq<Reference>, contents: map<nat, Contents>, id: nat, ghost done: set<nat>)
    returns (more: seq<Reference>)
    requires id in contents && RefsUpTo(references, contents, done) && HasDatabases(contents[id])
    ensures RefsUpTo(more, contents, done + {id})
  {
    more := references + RefsOf(contents[id]);
    RefsHold(contents[id]);
    RefsAppend(references, RefsOf(contents[id]));
    RefsKeepDatabasesFirst(references, contents[id]);
    OneMoreEntry(contents, done, id);
  }

  /** The references of all entries, entry by entry in any order. */
  method CollectReferences(contents: map<nat, Contents>) returns (references: seq<Reference>)
    requires forall id :: id in contents ==> HasDatabases(contents[id])
    ensures DatabasesFirst(references)
    ensures DatabasesIn(references) == AllDatabases(contents) && SchemasIn(references) == AllSchemas(contents)
  {
    references := [];
    var todo := contents.Keys;
    ghost var done: set<nat> := {};
    while todo != {}
      invariant todo !! done && todo + done == contents.Keys && RefsUpTo(references, contents, done)
      decreases |todo|
    {
      var id :| id in todo;
      references := AddReferences(references, contents, id, done);
      todo, done := todo - {id}, done + {id};
    }
    assert Restricted(contents, done) == contents;
  }

  // ---------------------------------------------------------------- declarations

  function DeclarationsOf(order: seq<Ranked>, contents: map<nat, Contents>): seq<TableDecl>
    requires forall p :: p in order ==> p.id in contents
  {
    if order == [] then []
    else DeclarationsOf(order[..|order| - 1], contents) + contents[order[|order| - 1].id].tables
  }

  /** The declarations of all entries in ranked order. */
  method CollectDeclarations(order: seq<Ranked>, contents: map<nat, Contents>) returns (ds: seq<TableDecl>)
    requires forall p :: p in order ==> p.id in contents
    ensures ds == DeclarationsOf(order, contents)
  {
    ds := [];
    for n := 0 to |order|
      invariant ds == DeclarationsOf(order[..n], contents)
    {
      assert order[n] in order && order[..n + 1][..n] == order[..n];
      ds := ds + contents[order[n].id].tables;
    }
    TakeAll(order);
  }

  lemma {:induction false} DeclaredAppend(ds: seq<TableDecl>, more: seq<TableDecl>, schemaId: nat, name: string)
    ensures IsDeclared(ds + more, schemaId, name) <==>
      IsDeclared(ds, schemaId, name) || IsDeclared(more, schemaId, name)
  {
    var all := ds + more;
    if IsDeclared(ds, schemaId, name) {
      var k :| 0 <= k < |ds| && ds[k].schemaId == schemaId && ds[k].name == name;
      assert all[k] == ds[k];
    }
    if IsDeclared(more, schemaId, name) {
      var k :| 0 <= k < |more| && more[k].schemaId == schemaId && more[k].name == name;
      assert all[|ds| + k] == more[k];
    }
  }

  lemma {:induction false} WinnersOfBoth(ds: seq<TableDecl>, more: seq<TableDecl>, w: TableDecl)
    ensures IsWinner(ds + more, w) <==>
      IsWinner(ds, w) || (IsWinner(more, w) && !IsDeclared(ds, w.schemaId, w.name))
    decreases |more|
  {
    if more == [] {
      assert ds + more == ds;
    } else {
      var front, last := more[..|more| - 1], more[|more| - 1];
      SplitLast(more);
      Associative(ds, front, [last]);
      WinnersOfBoth(ds, front, w);
      WinnersAppend(ds + front, last, w);
      WinnersAppend(front, last, w);
      DeclaredAppend(ds, front, last.schemaId, last.name);
      if IsWinner(front, w) {
        WinnerIsDeclared(front, w);
      }
    }
  }

  /** Some entry of the set declares the table. */
  ghost predicate SomeDeclares(contents: map<nat, Contents>, ranked: set<Ranked>, schemaId: nat, name: string) {
    exists p :: p in ranked && p.id in contents && IsDeclared(contents[p.id].tables, schemaId, name)
  }

  lemma {:induction false} DeclaredBySome(
      order: seq<Ranked>, ranked: set<Ranked>, contents: map<nat, Contents>, schemaId: nat, name: string)
    requires IsRankOrder(order, ranked) && forall p :: p in ranked ==> p.id in contents
    ensures IsDeclared(DeclarationsOf(order, contents), schemaId, name)
      <==> SomeDeclares(contents, ranked, schemaId, name)
    decreases |order|
  {
    if order == [] {
      assert ranked == {};
    } else {
      var last := order[|order| - 1];
      OrderFront(order, ranked);
      DeclaredBySome(order[..|order| - 1], ranked - {last}, contents, schemaId, name);
      DeclaredAppend(
        DeclarationsOf(order[..|order| - 1], contents), contents[last.id].tables, schemaId, name);
    }
  }

  /** The entry has this declaration first, and no entry of lower rank, or of equal rank and lower id, has one. */
  ghost predicate DeclaresFirst(contents: map<nat, Contents>, ranked: set<Ranked>, p: Ranked, d: TableDecl) {
    && p in ranked && p.id in contents && IsWinner(contents[p.id].tables, d)
    && forall q ::
         q in ranked && q.id in contents && (q.rank < p.rank || (q.rank == p.rank && q.id < p.id)) ==>
         !IsDeclared(contents[q.id].tables, d.schemaId, d.name)
  }

  ghost predicate IsFirst(contents: map<nat, Contents>, ranked: set<Ranked>, d: TableDecl) {
    exists p :: DeclaresFirst(contents, ranked, p, d)
  }

  lemma {:induction false} FirstInLarger(contents: map<nat, Contents>, ranked: set<Ranked>, last: Ranked, d: TableDecl)
    requires last in ranked && (forall q :: q in ranked - {last} ==> Precedes(q, last))
    requires forall p :: p in ranked ==> p.id in contents
    ensures IsFirst(contents, ranked, d) <==>
      || IsFirst(contents, ranked - {last}, d)
      || (IsWinner(contents[last.id].tables, d) && !SomeDeclares(contents, ranked - {last}, d.schemaId, d.name))
  {
    var rest := ranked - {last};
    if p :| DeclaresFirst(contents, rest, p, d) {
      assert DeclaresFirst(contents, ranked, p, d);
    }
    if IsWinner(contents[last.id].tables, d) && !SomeDeclares(contents, rest, d.schemaId, d.name) {
      assert DeclaresFirst(contents, ranked, last, d);
    }
    if p :| DeclaresFirst(contents, ranked, p, d) {
      if p != last {
        assert DeclaresFirst(contents, rest, p, d);
      }
    }
  }

  /** The winning declarations are the first ones by rank, id and position. */
  lemma {:induction false} WinnersAreFirst(
      order: seq<Ranked>, ranked: set<Ranked>, contents: map<nat, Contents>, d: TableDecl)
    requires IsRankOrder(order, ranked) && forall p :: p in ranked ==> p.id in contents
    ensures IsWinner(DeclarationsOf(order, contents), d) <==> IsFirst(contents, ranked, d)
    decreases |order|
  {
    if order == [] {
      assert ranked == {};
    } else {
      var front, last := order[..|order| - 1], order[|order| - 1];
      OrderFront(order, ranked);
      WinnersAreFirst(front, ranked - {last}, contents, d);
      DeclaredBySome(front, ranked - {last}, contents, d.schemaId, d.name);
      WinnersOfBoth(DeclarationsOf(front, contents), contents[last.id].tables, d);
      FirstInLarger(contents, ranked, last, d);
    }
  }
}
