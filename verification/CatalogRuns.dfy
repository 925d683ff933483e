/** Properties of catalog runs: consistency in every state, and updates against drop-then-load. */
module CatalogRuns {
  import opened CatalogState

  datatype Status = Ok | ScriptNotAnalyzed | CatalogMismatch | ExternalIdCollision | CatalogIdOutOfSync

  /** Loading a script: `id` is its entry id, `a` its current analysis, `own` whether it belongs to this catalog. */
  ghost predicate LoadEffect<H>(
      s: State<H>, t: State<H>, h: H, id: nat, a: AnalyzedScript?, own: bool, rank: nat, status: Status)
  {
    if a == null then status == ScriptNotAnalyzed && t == s
    else if !own then status == CatalogMismatch && t == s
    else if h in s.scriptEntries then status == Ok && Updated(s, t, h, a)
    else if id in s.entries then status == ExternalIdCollision && t == s
    else if InSync(s, a) then status == Ok && Loaded(s, t, h, ScriptEntry(id, a, rank))
    else status == CatalogIdOutOfSync && LoadFailed(s, t, a)
  }

  datatype Action<!H> =
    | Load(h: H, id: nat, a: AnalyzedScript?, own: bool, rank: nat, status: Status)
    | Drop(h: H)
    | Clear

  ghost predicate Next<H>(s: State<H>, t: State<H>, action: Action<H>) {
    match action
    case Load(h, id, a, own, rank, status) => LoadEffect(s, t, h, id, a, own, rank, status)
    case Drop(h) => t == Dropped(s, h)
    case Clear => t == Cleared(s)
  }

  /** States and actions of a run from the empty catalog. */
  ghost predicate IsRun<H>(states: seq<State<H>>, actions: seq<Action<H>>) {
    && |states| == |actions| + 1 && states[0] == Empty()
    && forall i: nat :: i < |actions| ==> IsStep(states, actions, i)
  }

  ghost predicate IsStep<H>(states: seq<State<H>>, actions: seq<Action<H>>, i: nat)
    requires i < |actions| < |states|
  {
    Next(states[i], states[i + 1], actions[i]) && AnalysisValid(actions[i])
  }

  ghost predicate AnalysisValid<H>(action: Action<H>) {
    action.Load? && action.a != null ==> action.a.Valid()
  }

  lemma {:induction false} NextKeepsValid<H>(s: State<H>, t: State<H>, action: Action<H>)
    requires Valid(s) && Next(s, t, action) && AnalysisValid(action)
    ensures Valid(t)
  {
    match action
    case Load(h, id, a, own, rank, status) =>
      if a != null && own {
        if h in s.scriptEntries {
          UpdateKeepsValid(s, t, h, a);
        } else if id !in s.entries && InSync(s, a) {
          LoadKeepsValid(s, t, h, ScriptEntry(id, a, rank));
        }
      }
    case Drop(h) => DropKeepsValid(s, h);
    case Clear =>
  }

  /**
    In every state of every run the three entry tables agree, the index by qualified schema has exactly
    the schemas of the registered analyses, and all of these are declared.
  */
  lemma {:induction false} EveryRunIsConsistent<H>(states: seq<State<H>>, actions: seq<Action<H>>, i: nat)
    requires IsRun(states, actions) && i < |states|
    ensures Valid(states[i])
  {
    if i > 0 {
      EveryRunIsConsistent(states, actions, i - 1);
      assert IsStep(states, actions, i - 1);
      NextKeepsValid(states[i - 1], states[i], actions[i - 1]);
    }
  }

  // ---------------------------------------------------------------- the index by schema name

  /** A schema name that loses a database and is still used also gains a database. */
  ghost predicate NamesFollow(was: AnalyzedScript, a: AnalyzedScript) {
    forall n :: HasSchema(Vanished(was, a), n) && HasSchema(a.schemas.Keys, n) ==> HasSchema(Added(was, a), n)
  }

  ghost predicate OneDatabasePerSchema(a: AnalyzedScript) {
    forall p, q :: p in a.schemas && q in a.schemas && p.schema == q.schema ==> p == q
  }

  lemma {:induction false} OneDatabaseFollows(was: AnalyzedScript, a: AnalyzedScript)
    requires OneDatabasePerSchema(was)
    ensures NamesFollow(was, a)
  {
    forall n | HasSchema(Vanished(was, a), n) && HasSchema(a.schemas.Keys, n)
      ensures HasSchema(Added(was, a), n)
    {
      var p :| p in Vanished(was, a) && p.schema == n;
      var q :| q in a.schemas && q.schema == n;
      assert q in Added(was, a);
    }
  }

  /** The names of an analysis after an update, in terms of what went and what came. */
  lemma {:induction false} NamesAfter(was: AnalyzedScript, a: AnalyzedScript, n: string)
    ensures HasSchema(a.schemas.Keys, n) && !HasSchema(was.schemas.Keys, n) ==> HasSchema(Added(was, a), n)
    ensures HasSchema(Added(was, a), n) ==> HasSchema(a.schemas.Keys, n)
    ensures HasSchema(was.schemas.Keys, n) && !HasSchema(Vanished(was, a), n) ==> HasSchema(a.schemas.Keys, n)
  {
    if HasSchema(a.schemas.Keys, n) && !HasSchema(was.schemas.Keys, n) {
      var q :| q in a.schemas && q.schema == n;
      assert q in Added(was, a);
    }
    if HasSchema(was.schemas.Keys, n) && !HasSchema(Vanished(was, a), n) {
      var q :| q in was.schemas && q.schema == n;
      assert q in a.schemas;
    }
  }

  lemma {:induction false} HasVanishedName(was: AnalyzedScript, a: AnalyzedScript, n: string)
    ensures HasSchema(Vanished(was, a), n) ==> HasSchema(was.schemas.Keys, n)
  {
  }

  /** The keys that an update leaves for a script, against those it should have. */
  lemma {:induction false} UpdatedSchemaKeys(
      index: set<SchemaKey>, was: AnalyzedScript, a: AnalyzedScript, rank: nat, id: nat, k: SchemaKey)
    requires k.id == id && (k in index <==> k.rank == rank && HasSchema(was.schemas.Keys, k.schema))
    ensures
      var next := index - SchemaKeys(Vanished(was, a), rank, id) + SchemaKeys(Added(was, a), rank, id);
      var lost := HasSchema(Vanished(was, a), k.schema) && HasSchema(a.schemas.Keys, k.schema)
                  && !HasSchema(Added(was, a), k.schema);
      && (k in next ==> k.rank == rank && HasSchema(a.schemas.Keys, k.schema))
      && (k.rank == rank && HasSchema(a.schemas.Keys, k.schema) ==> (k in next <==> !lost))
  {
    NamesAfter(was, a, k.schema);
    HasVanishedName(was, a, k.schema);
  }

  function UpdatedKeys(keys: set<SchemaKey>, was: AnalyzedScript, a: AnalyzedScript, rank: nat, id: nat)
    : set<SchemaKey>
  {
    keys - SchemaKeys(Vanished(was, a), rank, id) + SchemaKeys(Added(was, a), rank, id)
  }

  lemma {:induction false} FollowingNamesStayExact(
      entries: map<nat, AnalyzedScript>, ranked: set<Ranked>, keys: set<SchemaKey>, a: AnalyzedScript,
      rank: nat, id: nat)
    requires SchemaExact(entries, ranked, keys) && id in entries && Ranked(rank, id) in ranked
    requires forall p :: p in ranked && p.id == id ==> p.rank == rank
    requires NamesFollow(entries[id], a)
    ensures SchemaExact(entries[id := a], ranked, UpdatedKeys(keys, entries[id], a, rank, id))
  {
    var was := entries[id];
    forall k: SchemaKey
      ensures k in UpdatedKeys(keys, was, a, rank, id) <==> RefersTo(entries[id := a], ranked, k)
    {
      assert k in keys <==> RefersTo(entries, ranked, k);
      if k.id == id {
        assert Ranked(k.rank, k.id) in ranked <==> k.rank == rank;
        UpdatedSchemaKeys(keys, was, a, rank, id, k);
      }
    }
  }

  lemma {:induction false} LostNamesBreakExactness(
      entries: map<nat, AnalyzedScript>, ranked: set<Ranked>, keys: set<SchemaKey>, a: AnalyzedScript,
      rank: nat, id: nat)
    requires SchemaExact(entries, ranked, keys) && id in entries && Ranked(rank, id) in ranked
    requires !NamesFollow(entries[id], a)
    ensures !SchemaExact(entries[id := a], ranked, UpdatedKeys(keys, entries[id], a, rank, id))
  {
    var was := entries[id];
    var n :| HasSchema(Vanished(was, a), n) && HasSchema(a.schemas.Keys, n) && !HasSchema(Added(was, a), n);
    var k := SchemaKey(n, rank, id);
    HasVanishedName(was, a, n);
    assert RefersTo(entries, ranked, k);
    UpdatedSchemaKeys(keys, was, a, rank, id, k);
    assert RefersTo(entries[id := a], ranked, k);
  }

  /**
    An update leaves the index by schema name exact if and only if every schema name that loses a database
    and is still used also gains one.
  */
  lemma {:induction false} SchemaIndexAfterUpdate<H>(s: State<H>, t: State<H>, h: H, e: ScriptEntry, a: AnalyzedScript)
    requires EntriesAgree(s.entries, s.scriptEntries, s.entriesRanked)
    requires SchemaExact(s.entries, s.entriesRanked, s.bySchema.Keys)
    requires h in s.scriptEntries && s.scriptEntries[h] == e
    requires EntriesUpdated(s, t, h, e, a) && SchemaIndexUpdated(s.bySchema, t.bySchema, e, a)
    ensures SchemaExact(t.entries, t.entriesRanked, t.bySchema.Keys) <==> NamesFollow(e.analyzed, a)
  {
    assert s.entries[e.id] == e.analyzed && Ranked(e.rank, e.id) in s.entriesRanked;
    if NamesFollow(e.analyzed, a) {
      FollowingNamesStayExact(s.entries, s.entriesRanked, s.bySchema.Keys, a, e.rank, e.id);
    } else {
      LostNamesBreakExactness(s.entries, s.entriesRanked, s.bySchema.Keys, a, e.rank, e.id);
    }
  }

  lemma {:induction false} LoadKeepsSchemaExact(
      entries: map<nat, AnalyzedScript>, ranked: set<Ranked>, keys: set<SchemaKey>, a: AnalyzedScript, rank: nat,
      id: nat)
    requires SchemaExact(entries, ranked, keys) && id !in entries && forall p :: p in ranked ==> p.id in entries
    ensures SchemaExact(entries[id := a], ranked + {Ranked(rank, id)}, keys + SchemaKeys(a.schemas.Keys, rank, id))
  {
    var next := keys + SchemaKeys(a.schemas.Keys, rank, id);
    forall k: SchemaKey
      ensures k in next <==> RefersTo(entries[id := a], ranked + {Ranked(rank, id)}, k)
    {
      assert k in keys <==> RefersTo(entries, ranked, k);
      if k.id == id {
        assert Ranked(k.rank, k.id) !in ranked;
      }
    }
  }

  lemma {:induction false} SchemaIndexAfterLoad<H>(s: State<H>, t: State<H>, h: H, e: ScriptEntry)
    requires EntriesAgree(s.entries, s.scriptEntries, s.entriesRanked)
    requires SchemaExact(s.entries, s.entriesRanked, s.bySchema.Keys)
    requires e.id !in s.entries && EntriesLoaded(s, t, h, e)
    requires SchemaKeysInserted(s.bySchema, t.bySchema, e.analyzed, e.analyzed.schemas.Keys, e.rank, e.id)
    ensures SchemaExact(t.entries, t.entriesRanked, t.bySchema.Keys)
  {
    LoadKeepsSchemaExact(s.entries, s.entriesRanked, s.bySchema.Keys, e.analyzed, e.rank, e.id);
  }

  lemma {:induction false} DropKeepsSchemaExact(
      entries: map<nat, AnalyzedScript>, ranked: set<Ranked>, keys: set<SchemaKey>, rank: nat, id: nat)
    requires SchemaExact(entries, ranked, keys) && id in entries
    requires forall p :: p in ranked && p.id == id ==> p.rank == rank
    ensures SchemaExact(entries - {id}, ranked - {Ranked(rank, id)},
              keys - SchemaKeys(entries[id].schemas.Keys, rank, id))
  {
    var next := keys - SchemaKeys(entries[id].schemas.Keys, rank, id);
    forall k: SchemaKey
      ensures k in next <==> RefersTo(entries - {id}, ranked - {Ranked(rank, id)}, k)
    {
      assert k in keys <==> RefersTo(entries, ranked, k);
      if k in keys && k.id == id {
        assert Ranked(k.rank, k.id).rank == rank;
      }
    }
  }

  lemma {:induction false} SchemaIndexAfterDrop<H>(s: State<H>, h: H)
    requires EntriesAgree(s.entries, s.scriptEntries, s.entriesRanked)
    requires SchemaExact(s.entries, s.entriesRanked, s.bySchema.Keys)
    ensures SchemaExact(Dropped(s, h).entries, Dropped(s, h).entriesRanked, Dropped(s, h).bySchema.Keys)
  {
    if h in s.scriptEntries {
      var e := s.scriptEntries[h];
      assert Ranked(e.rank, e.id) in s.entriesRanked;
      DropKeepsSchemaExact(s.entries, s.entriesRanked, s.bySchema.Keys, e.rank, e.id);
      KeysOfDifference(s.bySchema, SchemaKeys(e.analyzed.schemas.Keys, e.rank, e.id));
    }
  }

  lemma {:induction false} KeysOfDifference<K, V>(m: map<K, V>, keys: set<K>)
    ensures (m - keys).Keys == m.Keys - keys
  {
  }

  ghost predicate OneDatabaseAction<H>(action: Action<H>) {
    action.Load? && action.a != null ==> OneDatabasePerSchema(action.a)
  }

  ghost predicate OneDatabaseEverywhere(entries: map<nat, AnalyzedScript>) {
    forall id :: id in entries ==> OneDatabasePerSchema(entries[id])
  }

  lemma {:induction false} UpdateKeepsSchemaIndex<H>(s: State<H>, t: State<H>, h: H, a: AnalyzedScript)
    requires EntriesAgree(s.entries, s.scriptEntries, s.entriesRanked)
    requires SchemaExact(s.entries, s.entriesRanked, s.bySchema.Keys) && OneDatabaseEverywhere(s.entries)
    requires h in s.scriptEntries && Updated(s, t, h, a) && OneDatabasePerSchema(a)
    ensures SchemaExact(t.entries, t.entriesRanked, t.bySchema.Keys) && OneDatabaseEverywhere(t.entries)
  {
    var e := s.scriptEntries[h];
    if e.analyzed != a {
      assert Replaced(s, t, h, e, a);
      assert s.entries[e.id] == e.analyzed;
      OneDatabaseFollows(e.analyzed, a);
      OneDatabaseLoaded(s.entries, e.id, a);
      SchemaIndexAfterUpdate(s, t, h, e, a);
    }
  }

  lemma {:induction false} OneDatabaseLoaded(entries: map<nat, AnalyzedScript>, id: nat, a: AnalyzedScript)
    requires OneDatabaseEverywhere(entries) && OneDatabasePerSchema(a)
    ensures OneDatabaseEverywhere(entries[id := a])
  {
  }

  lemma {:induction false} NextKeepsSchemaIndex<H>(s: State<H>, t: State<H>, action: Action<H>)
    requires EntriesAgree(s.entries, s.scriptEntries, s.entriesRanked)
    requires SchemaExact(s.entries, s.entriesRanked, s.bySchema.Keys) && OneDatabaseEverywhere(s.entries)
    requires Next(s, t, action) && OneDatabaseAction(action)
    ensures SchemaExact(t.entries, t.entriesRanked, t.bySchema.Keys) && OneDatabaseEverywhere(t.entries)
  {
    match action
    case Load(h, id, a, own, rank, status) =>
      if a != null && own {
        if h in s.scriptEntries {
          UpdateKeepsSchemaIndex(s, t, h, a);
        } else if id !in s.entries && InSync(s, a) {
          SchemaIndexAfterLoad(s, t, h, ScriptEntry(id, a, rank));
          OneDatabaseLoaded(s.entries, id, a);
        }
      }
    case Drop(h) => SchemaIndexAfterDrop(s, h);
    case Clear =>
  }

  /** If no analysis has one schema name in two databases, the index by schema name is exact in every run. */
  lemma {:induction false} SchemaIndexInEveryRun<H>(states: seq<State<H>>, actions: seq<Action<H>>, i: nat)
    requires IsRun(states, actions) && i < |states|
    requires forall j :: 0 <= j < |actions| ==> OneDatabaseAction(actions[j])
    ensures SchemaExact(states[i].entries, states[i].entriesRanked, states[i].bySchema.Keys)
    ensures OneDatabaseEverywhere(states[i].entries)
  {
    if i > 0 {
      SchemaIndexInEveryRun(states, actions, i - 1);
      EveryRunIsConsistent(states, actions, i - 1);
      assert IsStep(states, actions, i - 1) && OneDatabaseAction(actions[i - 1]);
      NextKeepsSchemaIndex(states[i - 1], states[i], actions[i - 1]);
    }
  }

  // ---------------------------------------------------------------- update against drop-then-load

  /** Schemas in both analyses are registered under the id that the new analysis gives them. */
  ghost predicate KeptIdsAgree(index: map<QualifiedKey, EntryInfo>, e: ScriptEntry, a: AnalyzedScript) {
    forall q :: q in e.analyzed.schemas && q in a.schemas ==>
      var k := QualifiedKey(q, e.rank, e.id);
      k in index && index[k] == EntryInfo(e.id, a.schemas[q])
  }

  /** Entry tables and the keys of the index by qualified schema. */
  ghost predicate SameEntries<H>(t: State<H>, u: State<H>) {
    && t.entries == u.entries && t.scriptEntries == u.scriptEntries && t.entriesRanked == u.entriesRanked
    && t.byQualified.Keys == u.byQualified.Keys
  }

  /** Dropping a registered script, and loading it again with its rank. */
  ghost predicate DroppedAndLoaded<H>(s: State<H>, u: State<H>, h: H, a: AnalyzedScript, status: Status)
    requires h in s.scriptEntries
  {
    LoadEffect(Dropped(s, h), u, h, s.scriptEntries[h].id, a, true, s.scriptEntries[h].rank, status)
  }

  /** The declarations stay when a script is dropped, so the load succeeds exactly if the ids are in sync. */
  lemma {:induction false} LoadAfterDrop<H>(s: State<H>, u: State<H>, h: H, a: AnalyzedScript, status: Status)
    requires Valid(s) && h in s.scriptEntries && DroppedAndLoaded(s, u, h, a, status)
    ensures
      var e := s.scriptEntries[h];
      if InSync(s, a) then status == Ok && Loaded(Dropped(s, h), u, h, ScriptEntry(e.id, a, e.rank))
      else status == CatalogIdOutOfSync && h !in u.scriptEntries && u.bySchema == Dropped(s, h).bySchema
  {
  }

  /** The qualified index after an update, also if nothing changed. */
  lemma {:induction false} QualifiedAfterUpdate<H>(s: State<H>, t: State<H>, h: H, a: AnalyzedScript)
    requires Valid(s) && h in s.scriptEntries && Updated(s, t, h, a)
    ensures
      var e := s.scriptEntries[h];
      && t.entries == s.entries[e.id := a] && t.scriptEntries == s.scriptEntries[h := ScriptEntry(e.id, a, e.rank)]
      && t.entriesRanked == s.entriesRanked
      && t.byQualified == UpdatedIndex(s.byQualified, e.analyzed, a, e.rank, e.id)
  {
    var e := s.scriptEntries[h];
    if e.analyzed == a {
      NothingUpdated(s.byQualified, a, e.rank, e.id);
      assert e == ScriptEntry(e.id, a, e.rank);
      assert s.entries[e.id] == a;
    } else {
      assert Replaced(s, t, h, e, a);
    }
  }

  lemma {:induction false} NothingUpdated(index: map<QualifiedKey, EntryInfo>, a: AnalyzedScript, rank: nat, id: nat)
    ensures UpdatedIndex(index, a, a, rank, id) == index
  {
    assert Vanished(a, a) == {} && Added(a, a) == {};
    assert QualifiedKeys({}, rank, id) == {} && InfosOf(a, {}, rank, id) == map[];
  }

  lemma {:induction false} UpdateIsSuccessfulReload<H>(s: State<H>, t: State<H>, u: State<H>, h: H, a: AnalyzedScript)
    requires Valid(s) && h in s.scriptEntries && Updated(s, t, h, a)
    requires Loaded(Dropped(s, h), u, h, ScriptEntry(s.scriptEntries[h].id, a, s.scriptEntries[h].rank))
    ensures SameEntries(t, u)
    ensures t.byQualified == u.byQualified <==> KeptIdsAgree(s.byQualified, s.scriptEntries[h], a)
  {
    var e := s.scriptEntries[h];
    QualifiedAfterUpdate(s, t, h, a);
    Reinserted(s.entries, e.id, a);
    Reinserted(s.scriptEntries, h, ScriptEntry(e.id, a, e.rank));
    ReinsertedElement(s.entriesRanked, Ranked(e.rank, e.id));
    KeysOfEntry(s, h);
    IndexOfUpdate(s.byQualified, e, a);
  }

  /**
    An update never checks ids. It leaves the entry tables and the keys of the index by qualified schema as
    dropping the script and loading it again exactly if the ids of the new analysis are in sync with the
    declarations: otherwise the load fails and the script is gone. In sync, the infos agree too exactly when
    the ids of kept schemas do.
  */
  lemma {:induction false} UpdateIsDropThenLoad<H>(
      s: State<H>, t: State<H>, u: State<H>, h: H, a: AnalyzedScript, status: Status)
    requires Valid(s) && h in s.scriptEntries && Updated(s, t, h, a)
    requires DroppedAndLoaded(s, u, h, a, status)
    ensures status == Ok <==> InSync(s, a)
    ensures SameEntries(t, u) <==> InSync(s, a)
    ensures InSync(s, a) ==>
      (t.byQualified == u.byQualified <==> KeptIdsAgree(s.byQualified, s.scriptEntries[h], a))
  {
    LoadAfterDrop(s, u, h, a, status);
    QualifiedAfterUpdate(s, t, h, a);
    if InSync(s, a) {
      UpdateIsSuccessfulReload(s, t, u, h, a);
    }
  }

  lemma {:induction false} Reinserted<K, V>(m: map<K, V>, k: K, v: V)
    ensures (m - {k})[k := v] == m[k := v]
  {
  }

  lemma {:induction false} ReinsertedElement<T>(s: set<T>, x: T)
    requires x in s
    ensures s - {x} + {x} == s
  {
  }

  /** The keys of a registered script are those of its analysis. */
  lemma {:induction false} KeysOfEntry<H>(s: State<H>, h: H)
    requires Valid(s) && h in s.scriptEntries
    ensures
      var e := s.scriptEntries[h];
      && e.id in s.entries && Ranked(e.rank, e.id) in s.entriesRanked
      && (forall q :: q in e.analyzed.schemas ==> QualifiedKey(q, e.rank, e.id) in s.byQualified)
      && (forall k :: k in s.byQualified && k.rank == e.rank && k.id == e.id ==> k.name in e.analyzed.schemas)
  {
  }

  lemma {:induction false} IndexOfUpdate(index: map<QualifiedKey, EntryInfo>, e: ScriptEntry, a: AnalyzedScript)
    requires forall q :: q in e.analyzed.schemas ==> QualifiedKey(q, e.rank, e.id) in index
    requires forall k :: k in index && k.rank == e.rank && k.id == e.id ==> k.name in e.analyzed.schemas
    ensures
      var t := UpdatedIndex(index, e.analyzed, a, e.rank, e.id);
      var u := index - QualifiedKeys(e.analyzed.schemas.Keys, e.rank, e.id)
               + InfosOf(a, a.schemas.Keys, e.rank, e.id);
      t.Keys == u.Keys && (t == u <==> KeptIdsAgree(index, e, a))
  {
    var t := UpdatedIndex(index, e.analyzed, a, e.rank, e.id);
    var u := index - QualifiedKeys(e.analyzed.schemas.Keys, e.rank, e.id) + InfosOf(a, a.schemas.Keys, e.rank, e.id);
    forall k: QualifiedKey
      ensures k in t <==> k in u
      ensures k in t && !(k.rank == e.rank && k.id == e.id && k.name in e.analyzed.schemas) ==> t[k] == u[k]
    {
      assert k == QualifiedKey(k.name, k.rank, k.id);
    }
    assert t.Keys == u.Keys;
    if t == u {
      forall q | q in e.analyzed.schemas && q in a.schemas
        ensures index[QualifiedKey(q, e.rank, e.id)] == EntryInfo(e.id, a.schemas[q])
      {
        var k := QualifiedKey(q, e.rank, e.id);
        assert t[k] == index[k];
      }
    }
    if KeptIdsAgree(index, e, a) {
      forall k | k in t
        ensures t[k] == u[k]
      {
        if k.rank == e.rank && k.id == e.id && k.name in e.analyzed.schemas {
          assert k == QualifiedKey(k.name, e.rank, e.id);
        }
      }
    }
  }

  /** After any update the index by schema name is exact exactly when schema names follow their databases. */
  lemma {:induction false} SchemaIndexAfterAnyUpdate<H>(s: State<H>, t: State<H>, h: H, a: AnalyzedScript)
    requires Valid(s) && SchemaExact(s.entries, s.entriesRanked, s.bySchema.Keys)
    requires h in s.scriptEntries && Updated(s, t, h, a)
    ensures SchemaExact(t.entries, t.entriesRanked, t.bySchema.Keys) <==> NamesFollow(s.scriptEntries[h].analyzed, a)
  {
    var e := s.scriptEntries[h];
    if e.analyzed == a {
      assert Vanished(a, a) == {};
    } else {
      SchemaIndexAfterUpdate(s, t, h, e, a);
    }
  }

  lemma {:induction false} SchemaKeysAfterUpdate<H>(s: State<H>, t: State<H>, h: H, a: AnalyzedScript)
    requires h in s.scriptEntries && Updated(s, t, h, a)
    ensures
      var e := s.scriptEntries[h];
      t.bySchema.Keys == UpdatedKeys(s.bySchema.Keys, e.analyzed, a, e.rank, e.id)
  {
    var e := s.scriptEntries[h];
    if e.analyzed == a {
      assert Vanished(a, a) == {} && Added(a, a) == {};
      assert SchemaKeys({}, e.rank, e.id) == {};
    } else {
      assert Replaced(s, t, h, e, a);
      KeysOfDifference(s.bySchema, SchemaKeys(Vanished(e.analyzed, a), e.rank, e.id));
    }
  }

  /** Every schema name of the analysis loses a database and gains none. */
  ghost predicate AllNamesLost(was: AnalyzedScript, a: AnalyzedScript) {
    forall n :: HasSchema(a.schemas.Keys, n) ==> HasSchema(Vanished(was, a), n) && !HasSchema(Added(was, a), n)
  }

  /** An update leaves the keys of the other scripts only, exactly if it loses all names. */
  lemma {:induction false} AllKeysLost(
      keys: set<SchemaKey>, was: AnalyzedScript, a: AnalyzedScript, rank: nat, id: nat)
    requires forall k :: k in keys && k.id == id ==> k.rank == rank
    requires forall k: SchemaKey :: k.id == id && k.rank == rank ==>
      (k in keys <==> HasSchema(was.schemas.Keys, k.schema))
    ensures UpdatedKeys(keys, was, a, rank, id) == keys - SchemaKeys(was.schemas.Keys, rank, id)
      <==> AllNamesLost(was, a)
  {
    var t, u := UpdatedKeys(keys, was, a, rank, id), keys - SchemaKeys(was.schemas.Keys, rank, id);
    forall k: SchemaKey | k.id == id
      ensures k !in u
      ensures k in t <==>
        && k.rank == rank && HasSchema(a.schemas.Keys, k.schema)
        && !(HasSchema(Vanished(was, a), k.schema) && !HasSchema(Added(was, a), k.schema))
    {
      UpdatedSchemaKeys(keys, was, a, rank, id, k);
    }
    if t == u {
      forall n | HasSchema(a.schemas.Keys, n)
        ensures HasSchema(Vanished(was, a), n) && !HasSchema(Added(was, a), n)
      {
        assert SchemaKey(n, rank, id) !in t;
      }
    }
    if AllNamesLost(was, a) {
      forall k: SchemaKey
        ensures k in t <==> k in u
      {
      }
    }
  }

  /**
    The keys of the index by schema name agree with drop-then-load exactly when schema names follow their
    databases, if the ids are in sync; otherwise exactly when the update loses all schema names.
  */
  lemma {:induction false} SchemaKeysOfUpdate<H>(
      s: State<H>, t: State<H>, u: State<H>, h: H, a: AnalyzedScript, status: Status)
    requires Valid(s) && SchemaExact(s.entries, s.entriesRanked, s.bySchema.Keys)
    requires h in s.scriptEntries && Updated(s, t, h, a) && DroppedAndLoaded(s, u, h, a, status)
    ensures t.bySchema.Keys == u.bySchema.Keys <==>
      if InSync(s, a) then NamesFollow(s.scriptEntries[h].analyzed, a)
      else AllNamesLost(s.scriptEntries[h].analyzed, a)
  {
    var e := s.scriptEntries[h];
    LoadAfterDrop(s, u, h, a, status);
    if InSync(s, a) {
      SchemaIndexAfterAnyUpdate(s, t, h, a);
      DropKeepsValid(s, h);
      SchemaIndexAfterDrop(s, h);
      SchemaIndexAfterLoad(Dropped(s, h), u, h, ScriptEntry(e.id, a, e.rank));
      UpdateIsSuccessfulReload(s, t, u, h, a);
      SameExactKeys(t.entries, t.entriesRanked, t.bySchema.Keys, u.bySchema.Keys);
    } else {
      SchemaKeysAfterUpdate(s, t, h, a);
      KeysOfDifference(s.bySchema, SchemaKeys(e.analyzed.schemas.Keys, e.rank, e.id));
      SchemaKeysOfEntry(s, e);
      AllKeysLost(s.bySchema.Keys, e.analyzed, a, e.rank, e.id);
    }
  }

  lemma {:induction false} SchemaKeysOfEntry<H>(s: State<H>, e: ScriptEntry)
    requires SchemaExact(s.entries, s.entriesRanked, s.bySchema.Keys)
    requires e.id in s.entries && s.entries[e.id] == e.analyzed && Ranked(e.rank, e.id) in s.entriesRanked
    requires forall p :: p in s.entriesRanked && p.id == e.id ==> p.rank == e.rank
    ensures forall k :: k in s.bySchema.Keys && k.id == e.id ==> k.rank == e.rank
    ensures forall k: SchemaKey :: k.id == e.id && k.rank == e.rank ==>
      (k in s.bySchema.Keys <==> HasSchema(e.analyzed.schemas.Keys, k.schema))
  {
    forall k: SchemaKey | k.id == e.id
      ensures k in s.bySchema.Keys <==> k.rank == e.rank && HasSchema(e.analyzed.schemas.Keys, k.schema)
    {
      assert k in s.bySchema.Keys <==> RefersTo(s.entries, s.entriesRanked, k);
      if k in s.bySchema.Keys {
        assert Ranked(k.rank, k.id).rank == e.rank;
      }
    }
  }

  lemma {:induction false} SameExactKeys(
      entries: map<nat, AnalyzedScript>, ranked: set<Ranked>, a: set<SchemaKey>, b: set<SchemaKey>)
    requires SchemaExact(entries, ranked, b)
    ensures a == b <==> SchemaExact(entries, ranked, a)
  {
    if SchemaExact(entries, ranked, a) {
      forall k: SchemaKey
        ensures k in a <==> k in b
      {
        assert k in a <==> RefersTo(entries, ranked, k);
      }
    }
  }

  /**
    Without the condition it fails: a script that used schema `n` in two databases and now uses it in one
    is no longer found by the schema name, although it still has the schema.
  */
  lemma {:induction false} UpdateLosesSchemaName<H>(
      s: State<H>, t: State<H>, h: H, a: AnalyzedScript, p: SchemaName, q: SchemaName)
    requires Valid(s) && h in s.scriptEntries && Updated(s, t, h, a)
    requires p.schema == q.schema && p != q
    requires s.scriptEntries[h].analyzed.schemas == map[p := 1, q := 2] && a.schemas == map[p := 1]
    ensures p in t.scriptEntries[h].analyzed.schemas
    ensures SchemaKey(p.schema, t.scriptEntries[h].rank, t.scriptEntries[h].id) !in t.bySchema
  {
    var e := s.scriptEntries[h];
    assert Replaced(s, t, h, e, a);
    assert q in Vanished(e.analyzed, a);
    assert Added(e.analyzed, a) == {};
    assert HasSchema(Vanished(e.analyzed, a), p.schema);
    assert SchemaKey(p.schema, e.rank, e.id) !in t.bySchema.Keys;
  }

  // ---------------------------------------------------------------- dropping undoes loading

  /** Dropping a freshly loaded script restores every table but the declarations. */
  lemma {:induction false} DropUndoesLoad<H>(s: State<H>, t: State<H>, h: H, e: ScriptEntry)
    requires Valid(s) && SchemaExact(s.entries, s.entriesRanked, s.bySchema.Keys)
    requires h !in s.scriptEntries && e.id !in s.entries && Loaded(s, t, h, e)
    ensures h in t.scriptEntries
    ensures Dropped(t, h).entries == s.entries && Dropped(t, h).scriptEntries == s.scriptEntries
    ensures Dropped(t, h).entriesRanked == s.entriesRanked
    ensures Dropped(t, h).byQualified == s.byQualified && Dropped(t, h).bySchema == s.bySchema
  {
    assert t.scriptEntries[h] == e;
    var qualified := InfosOf(e.analyzed, e.analyzed.schemas.Keys, e.rank, e.id);
    var keys := SchemaKeys(e.analyzed.schemas.Keys, e.rank, e.id);
    FreshId(s, e.id, e.rank);
    InsertUndone(s.entries, e.id, e.analyzed);
    InsertUndone(s.scriptEntries, h, e);
    ElementUndone(s.entriesRanked, Ranked(e.rank, e.id));
    GrowthUndone(s.byQualified, t.byQualified, qualified.Keys);
    GrowthUndone(s.bySchema, t.bySchema, keys);
  }

  /** No table mentions an id that is not registered. */
  lemma {:induction false} FreshId<H>(s: State<H>, id: nat, rank: nat)
    requires Valid(s) && SchemaExact(s.entries, s.entriesRanked, s.bySchema.Keys) && id !in s.entries
    ensures Ranked(rank, id) !in s.entriesRanked
    ensures forall k :: k in s.byQualified ==> k.id != id
    ensures forall k :: k in s.bySchema.Keys ==> k.id != id
  {
  }

  lemma {:induction false} InsertUndone<K, V>(m: map<K, V>, k: K, v: V)
    requires k !in m
    ensures m[k := v] - {k} == m
  {
  }

  lemma {:induction false} ElementUndone<T>(s: set<T>, x: T)
    requires x !in s
    ensures s + {x} - {x} == s
  {
  }

  lemma {:induction false} GrowthUndone<K, V>(m: map<K, V>, n: map<K, V>, keys: set<K>)
    requires m.Keys !! keys && n.Keys == m.Keys + keys
    requires forall k :: k in m.Keys ==> n[k] == m[k]
    ensures n - keys == m
  {
  }
}
