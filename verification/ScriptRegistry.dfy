/** The script registry: which registered scripts filter on a column or compute with it. */
module ScriptRegistries {
  import opened Collections
  import opened RegistryRuns

  /** What an analysis found; immutable once made. */
  datatype Analysis = Analysis(filters: seq<ColumnUse>, computations: seq<ColumnUse>)

  datatype Status = Ok | ScriptNotAnalyzed

  function FiltersOf(entries: map<nat, Analysis>): (r: map<nat, seq<ColumnUse>>)
    ensures r.Keys == entries.Keys && forall h :: h in r ==> r[h] == entries[h].filters
  {
    map h | h in entries :: entries[h].filters
  }

  function ComputationsOf(entries: map<nat, Analysis>): (r: map<nat, seq<ColumnUse>>)
    ensures r.Keys == entries.Keys && forall h :: h in r ==> r[h] == entries[h].computations
  {
    map h | h in entries :: entries[h].computations
  }

  // ---------------------------------------------------------------- the steps of a lookup

  /** Collect the uses of one analysis, up to the first outdated one. */
  method CollectUses(script: nat, uses: seq<ColumnUse>, columnId: nat, target: Option<nat>)
    returns (hits: seq<Hit>, outdated: bool)
    ensures outdated <==> HasOutdated(uses, columnId, target)
    ensures NoDuplicates(hits)
    ensures forall hit :: hit in hits <==> hit.script == script && IsReported(uses, columnId, target, hit.use)
  {
    hits, outdated := [], false;
    for i := 0 to |uses|
      invariant !outdated && NoDuplicates(hits)
      invariant forall j :: 0 <= j < i && UsesColumn(uses[j], columnId) ==> !IsOutdated(uses[j], target)
      invariant forall hit :: hit in hits <==>
        hit.script == script && hit.use < i && IsReported(uses, columnId, target, hit.use)
    {
      if UsesColumn(uses[i], columnId) {
        if IsOutdated(uses[i], target) {
          outdated := true;
          break;
        }
        hits := hits + [Hit(script, i)];
      }
    }
  }

  /** Hits of the scripts seen so far. */
  ghost predicate Collected(
      entries: map<nat, seq<ColumnUse>>, index: set<Key>, todo: set<Key>, columnId: nat, target: Option<nat>,
      hits: seq<Hit>, outdated: set<Key>)
  {
    && NoDuplicates(hits)
    && (forall hit :: hit in hits <==>
          && Key(columnId, hit.script) in index && Key(columnId, hit.script) !in todo && hit.script in entries
          && IsReported(entries[hit.script], columnId, target, hit.use))
    && (forall k :: k in outdated <==>
          && k in index && k.columnId == columnId && k !in todo && k.script in entries
          && HasOutdated(entries[k.script], columnId, target))
  }

  lemma {:induction false} CollectNext(
      entries: map<nat, seq<ColumnUse>>, index: set<Key>, todo: set<Key>, k: Key, target: Option<nat>,
      hits: seq<Hit>, outdated: set<Key>, more: seq<Hit>, isOutdated: bool)
    requires Collected(entries, index, todo, k.columnId, target, hits, outdated)
    requires k in todo && todo <= index && k.script in entries
    requires isOutdated <==> HasOutdated(entries[k.script], k.columnId, target)
    requires NoDuplicates(more)
    requires forall hit :: hit in more <==>
      hit.script == k.script && IsReported(entries[k.script], k.columnId, target, hit.use)
    ensures Collected(entries, index, todo - {k}, k.columnId, target, hits + more,
              outdated + if isOutdated then {k} else {})
  {
    var all := hits + more;
    assert forall hit :: hit in hits ==> Key(k.columnId, hit.script) != k;
    forall i, j | 0 <= i < j < |all|
      ensures all[i] != all[j]
    {
      if i < |hits| <= j {
        assert hits[i] in hits && more[j - |hits|] in more;
      }
    }
    forall hit: Hit
      ensures hit in all <==>
        && Key(k.columnId, hit.script) in index && Key(k.columnId, hit.script) !in todo - {k} && hit.script in entries
        && IsReported(entries[hit.script], k.columnId, target, hit.use)
    {
      assert Key(k.columnId, hit.script) == k <==> hit.script == k.script;
    }
  }

  /** Look a column up in an index: the hits, and the outdated keys to prune. */
  method Search(entries: map<nat, seq<ColumnUse>>, index: set<Key>, columnId: nat, target: Option<nat>)
    returns (hits: seq<Hit>, outdated: set<Key>)
    ensures Looked(entries, index, index - outdated, columnId, target, hits)
  {
    var todo := set k | k in index && k.columnId == columnId;
    hits, outdated := [], {};
    while todo != {}
      invariant todo <= index && forall k :: k in todo ==> k.columnId == columnId
      invariant Collected(entries, index, todo, columnId, target, hits, outdated)
    {
      var k :| k in todo;
      if k.script in entries {
        var more, isOutdated := CollectUses(k.script, entries[k.script], columnId, target);
        CollectNext(entries, index, todo, k, target, hits, outdated, more, isOutdated);
        hits := hits + more;
        if isOutdated {
          outdated := outdated + {k};
        }
      }
      todo := todo - {k};
    }
  }

  // ---------------------------------------------------------------- the registry

  class ScriptRegistry {
    var scriptEntries: map<nat, Analysis>
    var columnFilters: set<Key>
    var columnComputations: set<Key>

    ghost function Filters(): State
      reads this
    {
      State(FiltersOf(scriptEntries), columnFilters)
    }

    ghost function Computations(): State
      reads this
    {
      State(ComputationsOf(scriptEntries), columnComputations)
    }

    constructor ()
      ensures Filters() == State(map[], {}) && Computations() == State(map[], {})
    {
      scriptEntries, columnFilters, columnComputations := map[], {}, {};
    }

    /** Register a script or replace its analysis. Index keys of the old analysis stay. */
    method AddScript(script: nat, analyzed: Option<Analysis>) returns (status: Status)
      modifies this
      ensures status == ScriptNotAnalyzed <==> analyzed.None?
      ensures status == ScriptNotAnalyzed ==> Filters() == old(Filters()) && Computations() == old(Computations())
      ensures status == Ok ==> scriptEntries == old(scriptEntries)[script := analyzed.value]
      ensures status == Ok ==> Next(old(Filters()), Filters(), Add(script, analyzed.value.filters))
      ensures status == Ok ==> Next(old(Computations()), Computations(), Add(script, analyzed.value.computations))
    {
      if analyzed.None? {
        return ScriptNotAnalyzed;
      }
      scriptEntries := scriptEntries[script := analyzed.value];
      var filterKeys := IndexKeys(script, analyzed.value.filters);
      columnFilters := columnFilters + filterKeys;
      var computationKeys := IndexKeys(script, analyzed.value.computations);
      columnComputations := columnComputations + computationKeys;
      AnalysisAdded(old(scriptEntries), script, analyzed.value);
      return Ok;
    }

    method FindColumnFilters(columnId: nat, target: Option<nat>) returns (hits: seq<Hit>)
      modifies `columnFilters
      ensures Next(old(Filters()), Filters(), Find(columnId, target, hits))
    {
      var outdated;
      hits, outdated := Search(FiltersOf(scriptEntries), columnFilters, columnId, target);
      columnFilters := columnFilters - outdated;
    }

    method FindColumnComputations(columnId: nat, target: Option<nat>) returns (hits: seq<Hit>)
      modifies `columnComputations
      ensures Next(old(Computations()), Computations(), Find(columnId, target, hits))
    {
      var outdated;
      hits, outdated := Search(ComputationsOf(scriptEntries), columnComputations, columnId, target);
      columnComputations := columnComputations - outdated;
    }
  }

  /** The keys that an analysis adds to an index. */
  method IndexKeys(script: nat, uses: seq<ColumnUse>) returns (keys: set<Key>)
    ensures keys == KeysOf(script, uses)
  {
    keys := {};
    for i := 0 to |uses|
      invariant forall k :: k in keys <==>
        k.script == script && exists j :: 0 <= j < i && UsesColumn(uses[j], k.columnId)
    {
      if uses[i].resolved.Some? {
        keys := keys + {Key(uses[i].resolved.value.columnId, script)};
      }
    }
  }

  lemma {:induction false} AnalysisAdded(entries: map<nat, Analysis>, script: nat, analyzed: Analysis)
    ensures FiltersOf(entries[script := analyzed]) == FiltersOf(entries)[script := analyzed.filters]
    ensures ComputationsOf(entries[script := analyzed]) == ComputationsOf(entries)[script := analyzed.computations]
  {
  }
}
