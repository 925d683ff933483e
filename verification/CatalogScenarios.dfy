/** Every load has an outcome, and runs in which updates do what one would not expect. */
module CatalogScenarios {
  import opened CatalogState
  import opened CatalogRuns
  import opened CatalogIds

  // ---------------------------------------------------------------- every load has an outcome

  /** The id of some schema with this name. */
  ghost function IdOfSchema(a: AnalyzedScript, schema: string): nat {
    if HasSchema(a.schemas.Keys, schema) then
      var q :| q in a.schemas && q.schema == schema;
      a.schemas[q]
    else 0
  }

  ghost function WithSchemaKeys(
      index: map<SchemaKey, EntryInfo>, a: AnalyzedScript, names: set<SchemaName>, rank: nat, id: nat)
    : (r: map<SchemaKey, EntryInfo>)
    ensures r.Keys == index.Keys + SchemaKeys(names, rank, id)
    ensures forall k :: k in r ==> r[k] == if k in index then index[k] else EntryInfo(id, IdOfSchema(a, k.schema))
  {
    map k | k in index.Keys + SchemaKeys(names, rank, id) ::
      if k in index then index[k] else EntryInfo(id, IdOfSchema(a, k.schema))
  }

  lemma {:induction false} NewKeysHaveInfos(
      index: map<SchemaKey, EntryInfo>, a: AnalyzedScript, names: set<SchemaName>, rank: nat, id: nat)
    requires names <= a.schemas.Keys
    ensures SchemaKeysInserted(index, WithSchemaKeys(index, a, names, rank, id), a, names, rank, id)
  {
    var r := WithSchemaKeys(index, a, names, rank, id);
    forall k | k in r && k !in index
      ensures IsSchemaInfo(r[k], a, k.schema, id)
    {
      var n :| n in names && n.schema == k.schema;
      assert n in a.schemas;
      var q :| q in a.schemas && q.schema == k.schema && a.schemas[q] == IdOfSchema(a, k.schema);
    }
  }

  ghost function LoadedState<H>(s: State<H>, h: H, e: ScriptEntry): State<H> {
    var a := e.analyzed;
    State(
      s.version + 1, s.entries[e.id := a], s.scriptEntries[h := e], s.entriesRanked + {Ranked(e.rank, e.id)},
      s.byQualified + InfosOf(a, a.schemas.Keys, e.rank, e.id),
      WithSchemaKeys(s.bySchema, a, a.schemas.Keys, e.rank, e.id),
      a.databases + s.databases, a.schemas + s.schemas)
  }

  lemma {:induction false} LoadSucceeds<H>(s: State<H>, h: H, e: ScriptEntry)
    requires InSync(s, e.analyzed)
    ensures Loaded(s, LoadedState(s, h, e), h, e)
  {
    NewKeysHaveInfos(s.bySchema, e.analyzed, e.analyzed.schemas.Keys, e.rank, e.id);
  }

  ghost function UpdatedSchemas(
      before: map<SchemaName, nat>, index: map<QualifiedKey, EntryInfo>, was: AnalyzedScript, a: AnalyzedScript)
    : (r: map<SchemaName, nat>)
    ensures SchemasUpdated(before, r, index, was, a)
  {
    map q | q in before.Keys + Added(was, a)
      && ((q in before && (q in Vanished(was, a) ==> SomeoneHasSchema(index, q))) || q in Added(was, a)) ::
      if q in before then before[q] else a.schemas[q]
  }

  ghost function UpdatedDatabases(
      before: map<string, Database>, index: map<QualifiedKey, EntryInfo>, was: AnalyzedScript, a: AnalyzedScript)
    : (r: map<string, Database>)
    ensures DatabasesUpdated(before, r, index, was, a)
  {
    map d | d in before.Keys + (a.databases.Keys - was.databases.Keys)
      && ((d in before && (d in was.databases && d !in a.databases ==> SomeoneHasDatabase(index, d)))
          || (d in a.databases && d !in was.databases)) ::
      if d in before then before[d] else Database(a.databases[d].objectId, "")
  }

  ghost function UpdatedState<H>(s: State<H>, h: H, a: AnalyzedScript): State<H>
    requires h in s.scriptEntries
  {
    var e := s.scriptEntries[h];
    if e.analyzed == a then s
    else
      var index := UpdatedIndex(s.byQualified, e.analyzed, a, e.rank, e.id);
      State(
        s.version + 1, s.entries[e.id := a], s.scriptEntries[h := ScriptEntry(e.id, a, e.rank)], s.entriesRanked, index,
        WithSchemaKeys(
          s.bySchema - SchemaKeys(Vanished(e.analyzed, a), e.rank, e.id), a, Added(e.analyzed, a), e.rank, e.id),
        UpdatedDatabases(s.databases, index, e.analyzed, a), UpdatedSchemas(s.schemas, index, e.analyzed, a))
  }

  lemma {:induction false} UpdateSucceeds<H>(s: State<H>, h: H, a: AnalyzedScript)
    requires h in s.scriptEntries
    ensures Updated(s, UpdatedState(s, h, a), h, a)
  {
    var e := s.scriptEntries[h];
    NewKeysHaveInfos(
      s.bySchema - SchemaKeys(Vanished(e.analyzed, a), e.rank, e.id), a, Added(e.analyzed, a), e.rank, e.id);
  }

  /** Every load has an outcome in every state. */
  lemma {:induction false} LoadHasOutcome<H>(
      s: State<H>, h: H, id: nat, a: AnalyzedScript?, own: bool, rank: nat) returns (t: State<H>, status: Status)
    ensures LoadEffect(s, t, h, id, a, own, rank, status)
  {
    t := s;
    if a == null {
      status := ScriptNotAnalyzed;
    } else if !own {
      status := CatalogMismatch;
    } else if h in s.scriptEntries {
      t, status := UpdatedState(s, h, a), Ok;
      UpdateSucceeds(s, h, a);
    } else if id in s.entries {
      status := ExternalIdCollision;
    } else if InSync(s, a) {
      t, status := LoadedState(s, h, ScriptEntry(id, a, rank)), Ok;
      LoadSucceeds(s, h, ScriptEntry(id, a, rank));
    } else {
      status := CatalogIdOutOfSync;
    }
  }

  lemma {:induction false} StepAdded<H>(
      states: seq<State<H>>, actions: seq<Action<H>>, t: State<H>, action: Action<H>)
    requires IsRun(states, actions) && Next(states[|actions|], t, action) && AnalysisValid(action)
    ensures IsRun(states + [t], actions + [action])
  {
    var more, all := states + [t], actions + [action];
    forall i: nat | i < |all|
      ensures IsStep(more, all, i)
    {
      if i < |actions| {
        assert IsStep(states, actions, i);
        assert more[i] == states[i] && more[i + 1] == states[i + 1] && all[i] == actions[i];
      }
    }
  }

  /** The run ends in `s`. */
  ghost predicate EndsIn<H>(states: seq<State<H>>, actions: seq<Action<H>>, s: State<H>) {
    IsRun(states, actions) && states[|actions|] == s
  }

  /** A run goes on with any load. */
  lemma {:induction false} LoadNext<H>(
      states: seq<State<H>>, actions: seq<Action<H>>, s: State<H>, h: H, id: nat, a: AnalyzedScript)
    returns (more: seq<State<H>>, all: seq<Action<H>>, t: State<H>, status: Status)
    requires EndsIn(states, actions, s) && a.Valid()
    ensures LoadEffect(s, t, h, id, a, true, 0, status)
    ensures EndsIn(more, all, t) && |all| == |actions| + 1 && more[|actions|] == s
  {
    t, status := LoadHasOutcome(s, h, id, a, true, 0);
    var action := Load(h, id, a, true, 0, status);
    more, all := states + [t], actions + [action];
    StepAdded(states, actions, t, action);
  }

  ghost function EmptyRun<H>(): (r: seq<State<H>>)
    ensures EndsIn(r, [], Empty())
  {
    [Empty()]
  }

  // ---------------------------------------------------------------- a schema name that is lost

  /**
    A script that used one schema name in two databases is loaded again with one of them: it still has the
    schema, but the index by schema name does not list it any more.
  */
  lemma {:induction false} RunLosesSchemaName<H>(
      h: H, was: AnalyzedScript, a: AnalyzedScript, p: SchemaName, q: SchemaName)
    returns (states: seq<State<H>>, actions: seq<Action<H>>)
    requires p.schema == q.schema && p.database != q.database
    requires was.schemas == map[p := 1, q := 2] && a.schemas == map[p := 1]
    requires was.databases == map[p.database := Database(1, ""), q.database := Database(2, "")]
    requires a.databases == map[p.database := Database(1, "")]
    ensures IsRun(states, actions)
    ensures
      var t := states[|actions|];
      && h in t.scriptEntries && p in t.scriptEntries[h].analyzed.schemas
      && SchemaKey(p.schema, t.scriptEntries[h].rank, t.scriptEntries[h].id) !in t.bySchema
  {
    OneSchemaEach(was, a, p, q);
    var s, t, status;
    states, actions, s, status := LoadNext(EmptyRun<H>(), [], Empty(), h, 0, was);
    EveryRunIsConsistent(states, actions, |actions|);
    states, actions, t, status := LoadNext(states, actions, s, h, 0, a);
    UpdateLosesSchemaName(s, t, h, a, p, q);
  }

  lemma {:induction false} OneSchemaEach(was: AnalyzedScript, a: AnalyzedScript, p: SchemaName, q: SchemaName)
    requires was.schemas == map[p := 1, q := 2] && a.schemas == map[p := 1]
    requires was.databases == map[p.database := Database(1, ""), q.database := Database(2, "")]
    requires a.databases == map[p.database := Database(1, "")]
    ensures was.Valid() && a.Valid()
  {
    assert p in was.schemas && q in was.schemas && p in a.schemas;
  }

  // ---------------------------------------------------------------- an id that nobody declares

  /** Script `g` registers schema `o`; then `g` and `h` are analyzed while schema `p` is not declared. */
  ghost predicate AnalyzedApart(
      first: AnalyzedScript, other: AnalyzedScript, second: AnalyzedScript, o: SchemaName, p: SchemaName)
  {
    && o != p && o.database == p.database
    && first.schemas == map[o := 1] && other.schemas == map[p := 2] && second.schemas == map[o := 1, p := 3]
    && first.databases == other.databases == second.databases == map[o.database := Database(1, "")]
  }

  lemma {:induction false} ApartIsValid(
      first: AnalyzedScript, other: AnalyzedScript, second: AnalyzedScript, o: SchemaName, p: SchemaName)
    requires AnalyzedApart(first, other, second, o, p)
    ensures first.Valid() && other.Valid() && second.Valid()
  {
    assert o in first.schemas && p in other.schemas && o in second.schemas;
  }

  /** Script `g` is registered with its first analysis. */
  ghost predicate RegistersFirst<H>(s: State<H>, g: H, first: AnalyzedScript) {
    g in s.scriptEntries && s.scriptEntries[g] == ScriptEntry(0, first, 0)
  }

  lemma {:induction false} FirstLoaded<H>(
      s: State<H>, t: State<H>, g: H, h: H, first: AnalyzedScript, o: SchemaName, p: SchemaName, status: Status)
    requires s == Empty() && LoadEffect(s, t, g, 0, first, true, 0, status) && g != h && o != p
    requires first.schemas == map[o := 1] && first.databases == map[o.database := Database(1, "")]
    ensures RegistersFirst(t, g, first) && h !in t.scriptEntries && 1 !in t.entries && p !in t.schemas
    ensures forall d :: d in t.databases ==> t.databases[d].objectId == 1
  {
    assert InSync(s, first);
    FirstDeclared(s.databases, t.databases, s.schemas, t.schemas, first, o, p);
    FirstEntered(s, t, g, h, first);
  }

  lemma {:induction false} FirstDeclared(
      noDatabases: map<string, Database>, databases: map<string, Database>, noSchemas: map<SchemaName, nat>,
      schemas: map<SchemaName, nat>, first: AnalyzedScript, o: SchemaName, p: SchemaName)
    requires noDatabases == map[] && noSchemas == map[] && o != p
    requires DatabasesGrow(noDatabases, databases, first) && SchemasGrow(noSchemas, schemas, first)
    requires first.schemas == map[o := 1] && first.databases == map[o.database := Database(1, "")]
    ensures p !in schemas && forall d :: d in databases ==> databases[d].objectId == 1
  {
  }

  lemma {:induction false} FirstEntered<H>(s: State<H>, t: State<H>, g: H, h: H, first: AnalyzedScript)
    requires s.entries == map[] && s.scriptEntries == map[] && g != h
    requires EntriesLoaded(s, t, g, ScriptEntry(0, first, 0))
    ensures RegistersFirst(t, g, first) && h !in t.scriptEntries && 1 !in t.entries
  {
  }

  lemma {:induction false} SecondLoaded<H>(
      s: State<H>, t: State<H>, g: H, h: H, first: AnalyzedScript, other: AnalyzedScript, p: SchemaName, d: string,
      status: Status)
    requires RegistersFirst(s, g, first) && h !in s.scriptEntries && 1 !in s.entries && p !in s.schemas && g != h
    requires forall d :: d in s.databases ==> s.databases[d].objectId == 1
    requires other.schemas == map[p := 2] && other.databases == map[d := Database(1, "")]
    requires LoadEffect(s, t, h, 1, other, true, 0, status)
    ensures RegistersFirst(t, g, first) && p in t.schemas && t.schemas[p] == 2
  {
    assert InSync(s, other);
    assert Loaded(s, t, h, ScriptEntry(1, other, 0));
    assert p in other.schemas;
  }

  /** Two scripts are loaded in turn. */
  lemma {:induction false} TwoLoaded<H>(
      g: H, h: H, first: AnalyzedScript, other: AnalyzedScript, second: AnalyzedScript, o: SchemaName, p: SchemaName)
    returns (states: seq<State<H>>, actions: seq<Action<H>>, s: State<H>)
    requires g != h && AnalyzedApart(first, other, second, o, p)
    ensures EndsIn(states, actions, s) && Valid(s)
    ensures RegistersFirst(s, g, first) && p in s.schemas && s.schemas[p] == 2
  {
    ApartIsValid(first, other, second, o, p);
    var status, t;
    states, actions, t, status := LoadNext(EmptyRun<H>(), [], Empty(), g, 0, first);
    FirstLoaded(Empty(), t, g, h, first, o, p, status);
    states, actions, s, status := LoadNext(states, actions, t, h, 1, other);
    SecondLoaded(t, s, g, h, first, other, p, o.database, status);
    EveryRunIsConsistent(states, actions, |actions|);
  }

  /**
    The first script is loaded again with an id for `p` that the catalog does not declare: the update
    succeeds, while dropping and loading it would fail and leave it unregistered.
  */
  lemma {:induction false} RunRegistersUndeclaredId<H>(
      g: H, h: H, first: AnalyzedScript, other: AnalyzedScript, second: AnalyzedScript, o: SchemaName, p: SchemaName)
    returns (states: seq<State<H>>, actions: seq<Action<H>>)
    requires g != h && AnalyzedApart(first, other, second, o, p)
    ensures IsRun(states, actions) && |actions| > 0
    ensures
      var s, t := states[|actions| - 1], states[|actions|];
      && g in s.scriptEntries && g in t.scriptEntries && t.scriptEntries[g].analyzed == second
      && p in t.schemas && t.schemas[p] != second.schemas[p] && !IdsInSync(t)
      && forall u: State<H>, status :: DroppedAndLoaded(s, u, g, second, status) ==>
           status == CatalogIdOutOfSync && g !in u.scriptEntries
  {
    ApartIsValid(first, other, second, o, p);
    var s, t, result;
    states, actions, s := TwoLoaded(g, h, first, other, second, o, p);
    states, actions, t, result := LoadNext(states, actions, s, g, 0, second);
    UndeclaredId(s, t, g, first, second, p);
    forall u: State<H>, status | DroppedAndLoaded(s, u, g, second, status)
      ensures status == CatalogIdOutOfSync && g !in u.scriptEntries
    {
      LoadAfterDrop(s, u, g, second, status);
    }
  }

  lemma {:induction false} UndeclaredId<H>(
      s: State<H>, t: State<H>, g: H, first: AnalyzedScript, second: AnalyzedScript, p: SchemaName)
    requires Valid(s) && g in s.scriptEntries && s.scriptEntries[g] == ScriptEntry(0, first, 0)
    requires Updated(s, t, g, second) && second.Valid()
    requires p in s.schemas && s.schemas[p] == 2 && p !in first.schemas
    requires p in second.schemas && second.schemas[p] == 3
    ensures !InSync(s, second) && !IdsInSync(t)
    ensures g in t.scriptEntries && t.scriptEntries[g].analyzed == second
    ensures p in t.schemas && t.schemas[p] == 2
  {
    assert first != second;
    assert Replaced(s, t, g, ScriptEntry(0, first, 0), second);
    assert p in Added(first, second);
    assert t.entries[0] == second && !InSync(t, second);
  }
}
