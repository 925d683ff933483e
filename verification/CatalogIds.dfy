/** When the ids of registered analyses are those that the catalog declares. */
module CatalogIds {
  import opened CatalogState
  import opened CatalogRuns

  /** No registered analysis has another id for a declared name. */
  ghost predicate IdsInSync<H>(s: State<H>) {
    forall id :: id in s.entries ==> InSync(s, s.entries[id])
  }

  /** The declarations a registered analysis needs keep their ids. */
  ghost predicate DeclarationsKept<H>(s: State<H>, t: State<H>, b: AnalyzedScript) {
    && (forall d :: d in b.databases ==>
          d in s.databases && d in t.databases && t.databases[d].objectId == s.databases[d].objectId)
    && (forall q :: q in b.schemas ==> q in s.schemas && q in t.schemas && t.schemas[q] == s.schemas[q])
  }

  lemma {:induction false} KeptStaysInSync<H>(s: State<H>, t: State<H>, b: AnalyzedScript)
    requires DeclarationsKept(s, t, b)
    ensures InSync(t, b) <==> InSync(s, b)
  {
  }

  ghost predicate AllEntriesDeclared<H>(s: State<H>) {
    SchemasDeclared(s.entries, s.schemas) && DatabasesDeclared(s.entries, s.databases)
  }

  lemma {:induction false} EntryDeclared<H>(s: State<H>, id: nat)
    requires AllEntriesDeclared(s) && id in s.entries
    ensures DeclarationsKept(s, s, s.entries[id])
  {
  }

  lemma {:induction false} GrowthKeepsDeclarations<H>(s: State<H>, t: State<H>, a: AnalyzedScript, b: AnalyzedScript)
    requires DeclaresSome(s, t, a) && DeclarationsKept(s, s, b)
    ensures DeclarationsKept(s, t, b)
  {
  }

  lemma {:induction false} EntryStaysInSync<H>(s: State<H>, t: State<H>, a: AnalyzedScript, id: nat)
    requires AllEntriesDeclared(s) && DeclaresSome(s, t, a) && id in s.entries && InSync(s, s.entries[id])
    ensures InSync(t, s.entries[id])
  {
    EntryDeclared(s, id);
    GrowthKeepsDeclarations(s, t, a, s.entries[id]);
    KeptStaysInSync(s, t, s.entries[id]);
  }

  lemma {:induction false} LoadKeepsIds<H>(s: State<H>, t: State<H>, e: ScriptEntry)
    requires AllEntriesDeclared(s) && IdsInSync(s) && e.id !in s.entries
    requires InSync(s, e.analyzed) && DeclaresSome(s, t, e.analyzed) && t.entries == s.entries[e.id := e.analyzed]
    ensures IdsInSync(t)
  {
    LoadedIsInSync(s, t, e.analyzed);
    forall id | id in s.entries && id != e.id
      ensures InSync(t, s.entries[id])
    {
      EntryStaysInSync(s, t, e.analyzed, id);
    }
    SyncOfReplaced(t, s.entries, e.id, e.analyzed);
  }

  lemma {:induction false} LoadedIsInSync<H>(s: State<H>, t: State<H>, a: AnalyzedScript)
    requires InSync(s, a) && DeclaresSome(s, t, a)
    ensures InSync(t, a)
  {
  }

  lemma {:induction false} FailedLoadKeepsIds<H>(s: State<H>, t: State<H>, a: AnalyzedScript)
    requires AllEntriesDeclared(s) && IdsInSync(s) && DeclaresSome(s, t, a) && t.entries == s.entries
    ensures IdsInSync(t)
  {
    forall id | id in t.entries
      ensures InSync(t, t.entries[id])
    {
      EntryStaysInSync(s, t, a, id);
    }
  }

  lemma {:induction false} DropKeepsIds<H>(s: State<H>, h: H)
    requires IdsInSync(s)
    ensures IdsInSync(Dropped(s, h))
  {
  }

  // ---------------------------------------------------------------- updates do not check ids

  /** The new analysis finds its names declared under the ids they had, or under its own. */
  lemma {:induction false} UpdatedIsInSync<H>(s: State<H>, t: State<H>, h: H, e: ScriptEntry, a: AnalyzedScript)
    requires DeclarationsKept(s, s, e.analyzed) && Replaced(s, t, h, e, a)
    ensures InSync(t, a) <==> InSync(s, a)
  {
    forall d | d in a.databases && d in s.databases
      ensures d in t.databases && t.databases[d] == s.databases[d]
    {
    }
    forall q | q in a.schemas && q in s.schemas
      ensures q in t.schemas && t.schemas[q] == s.schemas[q]
    {
    }
  }

  lemma {:induction false} UpdateKeepsDeclarations<H>(
      s: State<H>, t: State<H>, index: map<QualifiedKey, EntryInfo>, was: AnalyzedScript, a: AnalyzedScript,
      b: AnalyzedScript)
    requires SchemasUpdated(s.schemas, t.schemas, index, was, a)
    requires DatabasesUpdated(s.databases, t.databases, index, was, a)
    requires DeclarationsKept(s, s, b) && DeclarationsKept(t, t, b)
    ensures DeclarationsKept(s, t, b)
  {
  }

  lemma {:induction false} UpdateKeepsOthers<H>(
      s: State<H>, t: State<H>, h: H, e: ScriptEntry, a: AnalyzedScript, id: nat)
    requires AllEntriesDeclared(s) && AllEntriesDeclared(t) && Replaced(s, t, h, e, a)
    requires id in s.entries && id != e.id
    ensures DeclarationsKept(s, t, s.entries[id])
  {
    assert t.entries[id] == s.entries[id];
    EntryDeclared(s, id);
    EntryDeclared(t, id);
    UpdateKeepsDeclarations(s, t, t.byQualified, e.analyzed, a, s.entries[id]);
  }

  lemma {:induction false} OthersStayInSync<H>(s: State<H>, t: State<H>, h: H, e: ScriptEntry, a: AnalyzedScript)
    requires AllEntriesDeclared(s) && AllEntriesDeclared(t) && Replaced(s, t, h, e, a) && IdsInSync(s)
    ensures forall id :: id in s.entries && id != e.id ==> InSync(t, s.entries[id])
  {
    forall id | id in s.entries && id != e.id
      ensures InSync(t, s.entries[id])
    {
      UpdateKeepsOthers(s, t, h, e, a, id);
      KeptStaysInSync(s, t, s.entries[id]);
    }
  }

  lemma {:induction false} SyncOfReplaced<H>(
      t: State<H>, entries: map<nat, AnalyzedScript>, id: nat, a: AnalyzedScript)
    requires t.entries == entries[id := a]
    requires forall i :: i in entries && i != id ==> InSync(t, entries[i])
    ensures IdsInSync(t) <==> InSync(t, a)
  {
    assert t.entries[id] == a;
  }

  lemma {:induction false} ReplacementKeepsIdsIff<H>(
      s: State<H>, t: State<H>, h: H, e: ScriptEntry, a: AnalyzedScript)
    requires AllEntriesDeclared(s) && AllEntriesDeclared(t) && IdsInSync(s) && Replaced(s, t, h, e, a)
    requires e.id in s.entries && s.entries[e.id] == e.analyzed
    ensures IdsInSync(t) <==> InSync(s, a)
  {
    EntryDeclared(s, e.id);
    UpdatedIsInSync(s, t, h, e, a);
    OthersStayInSync(s, t, h, e, a);
    SyncOfReplaced(t, s.entries, e.id, a);
  }

  /** An update keeps the ids of registered analyses in sync exactly if those of the new analysis are. */
  lemma {:induction false} UpdateKeepsIdsIff<H>(s: State<H>, t: State<H>, h: H, a: AnalyzedScript)
    requires Valid(s) && IdsInSync(s) && h in s.scriptEntries && Updated(s, t, h, a) && a.Valid()
    ensures IdsInSync(t) <==> InSync(s, a)
  {
    var e := s.scriptEntries[h];
    assert e.id in s.entries && s.entries[e.id] == e.analyzed;
    if e.analyzed != a {
      UpdateKeepsValid(s, t, h, a);
      ReplacementKeepsIdsIff(s, t, h, e, a);
    }
  }

  // ---------------------------------------------------------------- whole runs

  /** If the action updates a registered script, the ids of its new analysis are in sync. */
  ghost predicate UpdatesInSync<H>(s: State<H>, action: Action<H>) {
    action.Load? && action.a != null && action.own && action.h in s.scriptEntries ==> InSync(s, action.a)
  }

  lemma {:induction false} NextKeepsIdsIff<H>(s: State<H>, t: State<H>, action: Action<H>)
    requires Valid(s) && IdsInSync(s) && Next(s, t, action) && AnalysisValid(action)
    ensures IdsInSync(t) <==> UpdatesInSync(s, action)
  {
    match action
    case Load(h, id, a, own, rank, status) =>
      if a != null && own {
        if h in s.scriptEntries {
          UpdateKeepsIdsIff(s, t, h, a);
        } else if id !in s.entries {
          if InSync(s, a) {
            LoadKeepsIds(s, t, ScriptEntry(id, a, rank));
          } else {
            FailedLoadKeepsIds(s, t, a);
          }
        }
      }
    case Drop(h) => DropKeepsIds(s, h);
    case Clear =>
  }

  lemma {:induction false} StepKeepsIdsIff<H>(states: seq<State<H>>, actions: seq<Action<H>>, k: nat)
    requires IsRun(states, actions) && k < |actions| && IdsInSync(states[k])
    ensures IdsInSync(states[k + 1]) <==> UpdatesInSync(states[k], actions[k])
  {
    EveryRunIsConsistent(states, actions, k);
    assert IsStep(states, actions, k);
    NextKeepsIdsIff(states[k], states[k + 1], actions[k]);
  }

  /** The ids of all registered analyses are in sync throughout a run exactly if those of every update are. */
  lemma {:induction false} RunKeepsIdsIff<H>(states: seq<State<H>>, actions: seq<Action<H>>, n: nat)
    requires IsRun(states, actions) && n < |states|
    ensures (forall i :: 0 <= i <= n ==> IdsInSync(states[i]))
      <==> (forall i :: 0 <= i < n ==> UpdatesInSync(states[i], actions[i]))
  {
    if n > 0 {
      RunKeepsIdsIff(states, actions, n - 1);
      if IdsInSync(states[n - 1]) {
        StepKeepsIdsIff(states, actions, n - 1);
      }
    }
  }
}
