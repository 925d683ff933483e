/** What catalog versions, declarations and index entries mean in terms of the registered analyses. */
module CatalogLaws {
  import opened CatalogState
  import opened CatalogRuns
  import opened CatalogIds

  // ---------------------------------------------------------------- declarations after an update

  ghost predicate SomeoneUsesSchema(entries: map<nat, AnalyzedScript>, q: SchemaName) {
    exists id :: id in entries && q in entries[id].schemas
  }

  ghost predicate SomeoneUsesDatabase(entries: map<nat, AnalyzedScript>, d: string) {
    exists id :: id in entries && d in entries[id].databases
  }

  lemma {:induction false} SchemaIsUsed<H>(s: State<H>, q: SchemaName)
    requires Valid(s)
    ensures SomeoneHasSchema(s.byQualified, q) <==> SomeoneUsesSchema(s.entries, q)
  {
    if SomeoneUsesSchema(s.entries, q) {
      var id :| id in s.entries && q in s.entries[id].schemas;
      KeyOf(s.entries, s.scriptEntries, s.entriesRanked, s.byQualified, id, q);
    }
    if SomeoneHasSchema(s.byQualified, q) {
      var k :| k in s.byQualified && k.name == q;
      assert k.id in s.entries && q in s.entries[k.id].schemas;
    }
  }

  lemma {:induction false} DatabaseIsUsed<H>(s: State<H>, d: string)
    requires Valid(s)
    ensures SomeoneHasDatabase(s.byQualified, d) <==> SomeoneUsesDatabase(s.entries, d)
  {
    if SomeoneUsesDatabase(s.entries, d) {
      var id :| id in s.entries && d in s.entries[id].databases;
      DatabaseHasKey(s.entries, s.scriptEntries, s.entriesRanked, s.byQualified, id, d);
    }
    if SomeoneHasDatabase(s.byQualified, d) {
      var k :| k in s.byQualified && k.name.database == d;
      assert k.id in s.entries && k.name in s.entries[k.id].schemas && s.entries[k.id].Valid();
    }
  }

  /**
    After an update, a schema is declared exactly if some registered analysis uses it, or if it was declared
    before and the replaced analysis did not use it.
  */
  lemma {:induction false} SchemasAfterUpdate<H>(s: State<H>, t: State<H>, h: H, a: AnalyzedScript, q: SchemaName)
    requires Valid(s) && h in s.scriptEntries && a.Valid()
    requires Replaced(s, t, h, s.scriptEntries[h], a)
    ensures q in t.schemas <==>
      SomeoneUsesSchema(t.entries, q) || (q in s.schemas && q !in s.scriptEntries[h].analyzed.schemas)
  {
    var e := s.scriptEntries[h];
    ReplaceKeepsValid(s, t, h, e, a);
    SchemaIsUsed(t, q);
    assert t.entries[e.id] == a;
    if q in Added(e.analyzed, a) {
      assert SomeoneUsesSchema(t.entries, q);
    }
  }

  lemma {:induction false} DatabasesAfterUpdate<H>(s: State<H>, t: State<H>, h: H, a: AnalyzedScript, d: string)
    requires Valid(s) && h in s.scriptEntries && a.Valid()
    requires Replaced(s, t, h, s.scriptEntries[h], a)
    ensures d in t.databases <==>
      SomeoneUsesDatabase(t.entries, d) || (d in s.databases && d !in s.scriptEntries[h].analyzed.databases)
  {
    var e := s.scriptEntries[h];
    ReplaceKeepsValid(s, t, h, e, a);
    DatabaseIsUsed(t, d);
    assert t.entries[e.id] == a;
    if d in a.databases {
      assert SomeoneUsesDatabase(t.entries, d);
    }
  }

  /** The action loads a script that is registered already. */
  ghost predicate IsUpdate<H>(s: State<H>, action: Action<H>) {
    action.Load? && action.h in s.scriptEntries
  }

  /** Only an update takes a declaration back, and no action changes the id of a name that stays declared. */
  lemma {:induction false} DeclarationsStay<H>(s: State<H>, t: State<H>, action: Action<H>, q: SchemaName, d: string)
    requires Next(s, t, action)
    ensures q in s.schemas && !IsUpdate(s, action) ==> q in t.schemas
    ensures q in s.schemas && q in t.schemas ==> t.schemas[q] == s.schemas[q]
    ensures d in s.databases && !IsUpdate(s, action) ==> d in t.databases
    ensures d in s.databases && d in t.databases ==> t.databases[d] == s.databases[d]
  {
  }

  // ---------------------------------------------------------------- what the index entries say

  /** Every key leads to the analysis it was made for, and to the id that analysis gives the schema. */
  ghost predicate InfosExact(entries: map<nat, AnalyzedScript>, index: map<QualifiedKey, EntryInfo>) {
    forall k {:trigger index[k]} :: k in index ==>
      k.id in entries && k.name in entries[k.id].schemas
      && index[k] == EntryInfo(k.id, entries[k.id].schemas[k.name])
  }

  /** A schema that both analyses use has one id in both. */
  ghost predicate SameIds(was: AnalyzedScript, a: AnalyzedScript) {
    forall q :: q in was.schemas && q in a.schemas ==> was.schemas[q] == a.schemas[q]
  }

  lemma {:induction false} InfoAfterLoad(
      entries: map<nat, AnalyzedScript>, index: map<QualifiedKey, EntryInfo>, a: AnalyzedScript, rank: nat, id: nat)
    requires id !in entries && InfosExact(entries, index)
    ensures InfosExact(entries[id := a], index + InfosOf(a, a.schemas.Keys, rank, id))
  {
    var next := index + InfosOf(a, a.schemas.Keys, rank, id);
    forall k | k in next
      ensures k.id in entries[id := a] && k.name in entries[id := a][k.id].schemas
      ensures next[k] == EntryInfo(k.id, entries[id := a][k.id].schemas[k.name])
    {
      if k in index {
        assert index[k] == EntryInfo(k.id, entries[k.id].schemas[k.name]);
      }
    }
  }

  lemma {:induction false} LoadKeepsInfos<H>(s: State<H>, t: State<H>, h: H, e: ScriptEntry)
    requires InfosExact(s.entries, s.byQualified) && e.id !in s.entries && Loaded(s, t, h, e)
    ensures InfosExact(t.entries, t.byQualified)
  {
    InfoAfterLoad(s.entries, s.byQualified, e.analyzed, e.rank, e.id);
  }

  lemma {:induction false} DropKeepsInfos<H>(s: State<H>, h: H)
    requires Valid(s) && InfosExact(s.entries, s.byQualified)
    ensures InfosExact(Dropped(s, h).entries, Dropped(s, h).byQualified)
  {
    DropKeepsValid(s, h);
    var t := Dropped(s, h);
    forall k | k in t.byQualified
      ensures k.id in t.entries && k.name in t.entries[k.id].schemas
      ensures t.byQualified[k] == EntryInfo(k.id, t.entries[k.id].schemas[k.name])
    {
      assert s.byQualified[k] == t.byQualified[k];
    }
  }

  lemma {:induction false} InfoAfterUpdate(
      entries: map<nat, AnalyzedScript>, index: map<QualifiedKey, EntryInfo>, a: AnalyzedScript, rank: nat, id: nat,
      k: QualifiedKey)
    requires id in entries && InfosExact(entries, index) && k in UpdatedIndex(index, entries[id], a, rank, id)
    requires k.id == id ==> k.rank == rank
    ensures k.id in entries && k.name in entries[id := a][k.id].schemas
    ensures
      UpdatedIndex(index, entries[id], a, rank, id)[k] ==
        EntryInfo(k.id,
          if k.id == id && k.name in entries[id].schemas then entries[id].schemas[k.name]
          else entries[id := a][k.id].schemas[k.name])
  {
    if k in index {
      assert index[k] == EntryInfo(k.id, entries[k.id].schemas[k.name]);
    }
  }

  lemma {:induction false} RankOfKey<H>(s: State<H>, h: H, k: QualifiedKey)
    requires Valid(s) && h in s.scriptEntries && k in s.byQualified && k.id == s.scriptEntries[h].id
    ensures k.rank == s.scriptEntries[h].rank
  {
    var e := s.scriptEntries[h];
    assert Ranked(k.rank, k.id) in s.entriesRanked && Ranked(e.rank, e.id) in s.entriesRanked;
  }

  /** A schema that stays in a replaced analysis keeps its key. */
  lemma {:induction false} StayingKey<H>(s: State<H>, h: H, q: SchemaName)
    requires Valid(s) && h in s.scriptEntries && q in s.scriptEntries[h].analyzed.schemas
    ensures QualifiedKey(q, s.scriptEntries[h].rank, s.scriptEntries[h].id) in s.byQualified
  {
    var e := s.scriptEntries[h];
    assert Ranked(e.rank, e.id) in s.entriesRanked && s.entries[e.id] == e.analyzed;
  }

  lemma {:induction false} SameIdsStayExact(
      entries: map<nat, AnalyzedScript>, index: map<QualifiedKey, EntryInfo>, a: AnalyzedScript, rank: nat, id: nat)
    requires id in entries && InfosExact(entries, index) && SameIds(entries[id], a)
    requires forall k :: k in UpdatedIndex(index, entries[id], a, rank, id) && k.id == id ==> k.rank == rank
    ensures InfosExact(entries[id := a], UpdatedIndex(index, entries[id], a, rank, id))
  {
    var next := UpdatedIndex(index, entries[id], a, rank, id);
    forall k | k in next
      ensures k.id in entries[id := a] && k.name in entries[id := a][k.id].schemas
      ensures next[k] == EntryInfo(k.id, entries[id := a][k.id].schemas[k.name])
    {
      InfoAfterUpdate(entries, index, a, rank, id, k);
    }
  }

  lemma {:induction false} OtherIdsBreakExactness(
      entries: map<nat, AnalyzedScript>, index: map<QualifiedKey, EntryInfo>, a: AnalyzedScript, rank: nat, id: nat,
      q: SchemaName)
    requires id in entries && InfosExact(entries, index)
    requires q in entries[id].schemas && q in a.schemas && entries[id].schemas[q] != a.schemas[q]
    requires QualifiedKey(q, rank, id) in UpdatedIndex(index, entries[id], a, rank, id)
    ensures !InfosExact(entries[id := a], UpdatedIndex(index, entries[id], a, rank, id))
  {
    var k := QualifiedKey(q, rank, id);
    InfoAfterUpdate(entries, index, a, rank, id, k);
    assert UpdatedIndex(index, entries[id], a, rank, id)[k].schemaId == entries[id].schemas[q];
  }

  /** An update does not touch the keys of schemas that stay, so it keeps the index exact only if their ids stay. */
  lemma {:induction false} UpdateKeepsInfosIff<H>(s: State<H>, t: State<H>, h: H, e: ScriptEntry, a: AnalyzedScript)
    requires Valid(s) && InfosExact(s.entries, s.byQualified)
    requires h in s.scriptEntries && s.scriptEntries[h] == e && a.Valid() && Replaced(s, t, h, e, a)
    ensures InfosExact(t.entries, t.byQualified) <==> SameIds(e.analyzed, a)
  {
    ReplaceKeepsValid(s, t, h, e, a);
    assert s.entries[e.id] == e.analyzed && t.scriptEntries[h] == ScriptEntry(e.id, a, e.rank);
    if SameIds(e.analyzed, a) {
      forall k | k in t.byQualified && k.id == e.id
        ensures k.rank == e.rank
      {
        RankOfKey(t, h, k);
      }
      SameIdsStayExact(s.entries, s.byQualified, a, e.rank, e.id);
    } else {
      var q :| q in e.analyzed.schemas && q in a.schemas && e.analyzed.schemas[q] != a.schemas[q];
      StayingKey(t, h, q);
      OtherIdsBreakExactness(s.entries, s.byQualified, a, e.rank, e.id, q);
    }
  }

  lemma {:induction false} SyncedHaveSameIds<H>(s: State<H>, was: AnalyzedScript, a: AnalyzedScript)
    requires InSync(s, was) && InSync(s, a) && forall q :: q in was.schemas ==> q in s.schemas
    ensures SameIds(was, a)
  {
  }

  lemma {:induction false} NextKeepsInfos<H>(s: State<H>, t: State<H>, action: Action<H>)
    requires Valid(s) && IdsInSync(s) && InfosExact(s.entries, s.byQualified)
    requires Next(s, t, action) && AnalysisValid(action) && UpdatesInSync(s, action)
    ensures InfosExact(t.entries, t.byQualified)
  {
    match action
    case Load(h, id, a, own, rank, status) =>
      if a != null && own {
        if h in s.scriptEntries {
          var e := s.scriptEntries[h];
          if e.analyzed != a {
            assert s.entries[e.id] == e.analyzed;
            SyncedHaveSameIds(s, e.analyzed, a);
            UpdateKeepsInfosIff(s, t, h, e, a);
          }
        } else if id !in s.entries && InSync(s, a) {
          LoadKeepsInfos(s, t, h, ScriptEntry(id, a, rank));
        }
      }
    case Drop(h) => DropKeepsInfos(s, h);
    case Clear =>
  }

  /** In a run whose updates are in sync, every key of the index leads to the right analysis and schema id. */
  lemma {:induction false} EveryRunHasExactInfos<H>(states: seq<State<H>>, actions: seq<Action<H>>, n: nat)
    requires IsRun(states, actions) && n < |states|
    requires forall i :: 0 <= i < n ==> UpdatesInSync(states[i], actions[i])
    ensures InfosExact(states[n].entries, states[n].byQualified)
  {
    if n > 0 {
      EveryRunHasExactInfos(states, actions, n - 1);
      EveryRunIsConsistent(states, actions, n - 1);
      RunKeepsIdsIff(states, actions, n);
      assert IdsInSync(states[n - 1]) && UpdatesInSync(states[n - 1], actions[n - 1]);
      assert IsStep(states, actions, n - 1);
      NextKeepsInfos(states[n - 1], states[n], actions[n - 1]);
    }
  }

  // ---------------------------------------------------------------- versions

  /** The action registers, replaces or removes an analysis, or clears the catalog. */
  ghost predicate ChangesEntries<H>(s: State<H>, action: Action<H>) {
    match action
    case Load(h, id, a, own, rank, status) =>
      && a != null && own
      && (if h in s.scriptEntries then s.scriptEntries[h].analyzed != a else id !in s.entries && InSync(s, a))
    case Drop(h) => h in s.scriptEntries
    case Clear => true
  }

  ghost predicate SameEntries<H>(s: State<H>, t: State<H>) {
    && t.entries == s.entries && t.scriptEntries == s.scriptEntries && t.entriesRanked == s.entriesRanked
    && t.byQualified == s.byQualified && t.bySchema == s.bySchema
  }

  /** The version counts these actions; all others leave the entries and indexes alone. */
  lemma {:induction false} VersionStep<H>(s: State<H>, t: State<H>, action: Action<H>)
    requires Next(s, t, action)
    ensures ChangesEntries(s, action) ==> t.version == s.version + 1
    ensures !ChangesEntries(s, action) ==> t.version == s.version && SameEntries(s, t)
  {
  }

  /** Within a run, a version stands for one set of entries: states of one version have the same. */
  lemma {:induction false} VersionNamesEntries<H>(states: seq<State<H>>, actions: seq<Action<H>>, i: nat, j: nat)
    requires IsRun(states, actions) && i <= j < |states|
    ensures states[i].version <= states[j].version
    ensures states[i].version == states[j].version ==> SameEntries(states[i], states[j])
    decreases j
  {
    if i < j {
      VersionNamesEntries(states, actions, i, j - 1);
      assert IsStep(states, actions, j - 1);
      VersionStep(states[j - 1], states[j], actions[j - 1]);
    }
  }
}
