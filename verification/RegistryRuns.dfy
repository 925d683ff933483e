/** The lazily pruned column index of the script registry, against a scan of all registered analyses. */
module RegistryRuns {
  import opened Collections

  /** The catalog object that a column reference was resolved to, and the catalog version of that time. */
  datatype ResolvedColumn = ResolvedColumn(columnId: nat, version: nat)

  /** A column filter or a column computation of an analysis. */
  datatype ColumnUse = ColumnUse(resolved: Option<ResolvedColumn>)

  /** The index lists which scripts use a column. Scripts are known by their address. */
  datatype Key = Key(columnId: nat, script: nat)

  /** A reported use: the script, and the position of the use in its analysis. */
  datatype Hit = Hit(script: nat, use: nat)

  predicate UsesColumn(use: ColumnUse, columnId: nat) {
    use.resolved.Some? && use.resolved.value.columnId == columnId
  }

  /** Was the use resolved against another catalog version than the wanted one? */
  predicate IsOutdated(use: ColumnUse, target: Option<nat>) {
    use.resolved.Some? && target.Some? && use.resolved.value.version != target.value
  }

  // ---------------------------------------------------------------- what a scan finds

  /** The use was resolved to the column, in the wanted catalog version if one is wanted. */
  predicate IsMatch(use: ColumnUse, columnId: nat, target: Option<nat>) {
    && use.resolved.Some? && use.resolved.value.columnId == columnId
    && (target.None? || use.resolved.value.version == target.value)
  }

  predicate Matches(entries: map<nat, seq<ColumnUse>>, columnId: nat, target: Option<nat>, hit: Hit) {
    && hit.script in entries && hit.use < |entries[hit.script]|
    && IsMatch(entries[hit.script][hit.use], columnId, target)
  }

  ghost predicate NoDuplicates<T>(xs: seq<T>) {
    forall j, k :: 0 <= j < k < |xs| ==> xs[j] != xs[k]
  }

  /** The result of a full scan: every matching use of every registered analysis, once. */
  ghost predicate IsScan(entries: map<nat, seq<ColumnUse>>, columnId: nat, target: Option<nat>, hits: seq<Hit>) {
    NoDuplicates(hits) && forall hit :: hit in hits <==> Matches(entries, columnId, target, hit)
  }

  // ---------------------------------------------------------------- what the index does

  /** The uses of one analysis that a lookup reports: those before its first outdated one. */
  ghost predicate IsReported(uses: seq<ColumnUse>, columnId: nat, target: Option<nat>, i: nat) {
    && i < |uses| && UsesColumn(uses[i], columnId)
    && forall j :: 0 <= j <= i && UsesColumn(uses[j], columnId) ==> !IsOutdated(uses[j], target)
  }

  ghost predicate HasOutdated(uses: seq<ColumnUse>, columnId: nat, target: Option<nat>) {
    exists j :: 0 <= j < |uses| && UsesColumn(uses[j], columnId) && IsOutdated(uses[j], target)
  }

  ghost function KeysOf(script: nat, uses: seq<ColumnUse>): (r: set<Key>)
    ensures forall k :: k in r <==> k.script == script && exists i :: 0 <= i < |uses| && UsesColumn(uses[i], k.columnId)
  {
    set i: nat | i < |uses| && uses[i].resolved.Some? :: Key(uses[i].resolved.value.columnId, script)
  }

  /** The outcome of a lookup: what it reports, and which keys it prunes. */
  ghost predicate Looked(
      entries: map<nat, seq<ColumnUse>>, before: set<Key>, after: set<Key>, columnId: nat, target: Option<nat>,
      hits: seq<Hit>)
  {
    && NoDuplicates(hits)
    && (forall hit :: hit in hits <==>
          && Key(columnId, hit.script) in before && hit.script in entries
          && IsReported(entries[hit.script], columnId, target, hit.use))
    && (forall k :: k in after <==>
          && k in before
          && !(k.columnId == columnId && k.script in entries && HasOutdated(entries[k.script], columnId, target)))
  }

  // ---------------------------------------------------------------- one lookup

  /** All resolved references of an analysis have one catalog version. */
  ghost predicate OneVersion(uses: seq<ColumnUse>, version: nat) {
    forall i :: 0 <= i < |uses| && uses[i].resolved.Some? ==> uses[i].resolved.value.version == version
  }

  ghost predicate OneVersionEach(entries: map<nat, seq<ColumnUse>>) {
    forall h :: h in entries ==> exists v :: OneVersion(entries[h], v)
  }

  /** The index misses at most uses that are older than `floor`. */
  ghost predicate Covers(entries: map<nat, seq<ColumnUse>>, index: set<Key>, floor: nat) {
    forall h: nat, i: nat :: h in entries && i < |entries[h]| && entries[h][i].resolved.Some? ==>
      Key(entries[h][i].resolved.value.columnId, h) in index || entries[h][i].resolved.value.version < floor
  }

  ghost predicate NoneNewer(entries: map<nat, seq<ColumnUse>>, version: nat) {
    forall h: nat, i: nat :: h in entries && i < |entries[h]| && entries[h][i].resolved.Some? ==>
      entries[h][i].resolved.value.version <= version
  }

  /** With one version per analysis, stopping at the first outdated use loses nothing. */
  lemma {:induction false} ReportedIsMatch(uses: seq<ColumnUse>, columnId: nat, target: Option<nat>, i: nat)
    requires exists v :: OneVersion(uses, v)
    ensures IsReported(uses, columnId, target, i) <==> i < |uses| && IsMatch(uses[i], columnId, target)
  {
  }

  /** A lookup that asks for a version that nothing missing from the index can have is a full scan. */
  lemma {:induction false} LookupIsScan(
      entries: map<nat, seq<ColumnUse>>, before: set<Key>, after: set<Key>, columnId: nat, version: nat,
      hits: seq<Hit>, floor: nat)
    requires OneVersionEach(entries) && Covers(entries, before, floor) && floor <= version
    requires Looked(entries, before, after, columnId, Some(version), hits)
    ensures IsScan(entries, columnId, Some(version), hits)
  {
    forall hit: Hit
      ensures hit in hits <==> Matches(entries, columnId, Some(version), hit)
    {
      if hit.script in entries {
        ReportedIsMatch(entries[hit.script], columnId, Some(version), hit.use);
      }
    }
  }

  /** What a lookup prunes is older than its version, so it stays irrelevant. */
  lemma {:induction false} LookupCovers(
      entries: map<nat, seq<ColumnUse>>, before: set<Key>, after: set<Key>, columnId: nat, version: nat,
      hits: seq<Hit>, floor: nat)
    requires OneVersionEach(entries) && Covers(entries, before, floor) && floor <= version
    requires NoneNewer(entries, version)
    requires Looked(entries, before, after, columnId, Some(version), hits)
    ensures Covers(entries, after, version)
  {
    forall h: nat, i: nat | h in entries && i < |entries[h]| && entries[h][i].resolved.Some?
      ensures Key(entries[h][i].resolved.value.columnId, h) in after || entries[h][i].resolved.value.version < version
    {
      var k := Key(entries[h][i].resolved.value.columnId, h);
      if k in before && k !in after {
        var j :| 0 <= j < |entries[h]|
          && UsesColumn(entries[h][j], columnId) && IsOutdated(entries[h][j], Some(version));
        var v :| OneVersion(entries[h], v);
      }
    }
  }

  lemma {:induction false} AddCovers(
      entries: map<nat, seq<ColumnUse>>, index: set<Key>, floor: nat, h: nat, uses: seq<ColumnUse>)
    requires Covers(entries, index, floor)
    ensures Covers(entries[h := uses], index + KeysOf(h, uses), floor)
  {
    forall i: nat | i < |uses| && uses[i].resolved.Some?
      ensures Key(uses[i].resolved.value.columnId, h) in KeysOf(h, uses)
    {
      assert UsesColumn(uses[i], uses[i].resolved.value.columnId);
    }
  }

  // ---------------------------------------------------------------- runs

  /** The registered uses and the index over them. */
  datatype State = State(entries: map<nat, seq<ColumnUse>>, index: set<Key>)

  datatype Action =
    | Add(script: nat, uses: seq<ColumnUse>)
    | Find(columnId: nat, target: Option<nat>, hits: seq<Hit>)

  ghost predicate Next(s: State, t: State, action: Action) {
    match action
    case Add(script, uses) => t.entries == s.entries[script := uses] && t.index == s.index + KeysOf(script, uses)
    case Find(columnId, target, hits) =>
      t.entries == s.entries && Looked(s.entries, s.index, t.index, columnId, target, hits)
  }

  ghost predicate IsRun(states: seq<State>, actions: seq<Action>) {
    && |states| == |actions| + 1 && states[0] == State(map[], {})
    && forall i: nat :: i < |actions| ==> IsStep(states, actions, i)
  }

  ghost predicate IsStep(states: seq<State>, actions: seq<Action>, i: nat)
    requires i < |actions| < |states|
  {
    Next(states[i], states[i + 1], actions[i])
  }

  /** Every analysis has one catalog version. */
  ghost predicate OneVersionAction(action: Action) {
    action.Add? ==> exists v :: OneVersion(action.uses, v)
  }

  /** The newest version looked up in the first `n` actions. */
  ghost function Floor(actions: seq<Action>, n: nat): nat
    requires n <= |actions|
  {
    if n == 0 then 0
    else if actions[n - 1].Find? && actions[n - 1].target.Some? then actions[n - 1].target.value
    else Floor(actions, n - 1)
  }

  /** Lookups name a version; versions do not decrease, and are not older than any registered analysis. */
  ghost predicate WellTargeted(states: seq<State>, actions: seq<Action>)
    requires |states| == |actions| + 1
  {
    forall i: nat :: i < |actions| && actions[i].Find? ==>
      && actions[i].target.Some? && Floor(actions, i) <= actions[i].target.value
      && NoneNewer(states[i].entries, actions[i].target.value)
  }

  lemma {:induction false} RunCovers(states: seq<State>, actions: seq<Action>, n: nat)
    requires IsRun(states, actions) && WellTargeted(states, actions) && n <= |actions|
    requires forall i :: 0 <= i < |actions| ==> OneVersionAction(actions[i])
    ensures OneVersionEach(states[n].entries)
    ensures Covers(states[n].entries, states[n].index, Floor(actions, n))
  {
    if n > 0 {
      RunCovers(states, actions, n - 1);
      var s, t, action := states[n - 1], states[n], actions[n - 1];
      assert IsStep(states, actions, n - 1) && OneVersionAction(action);
      match action
      case Add(script, uses) => AddCovers(s.entries, s.index, Floor(actions, n - 1), script, uses);
      case Find(columnId, target, hits) =>
        LookupCovers(s.entries, s.index, t.index, columnId, target.value, hits, Floor(actions, n - 1));
    }
  }

  /** In every such run every lookup reports what a scan of all registered analyses would. */
  lemma {:induction false} EveryLookupIsScan(states: seq<State>, actions: seq<Action>, i: nat)
    requires IsRun(states, actions) && WellTargeted(states, actions)
    requires forall j :: 0 <= j < |actions| ==> OneVersionAction(actions[j])
    requires i < |actions| && actions[i].Find?
    ensures IsScan(states[i].entries, actions[i].columnId, actions[i].target, actions[i].hits)
  {
    RunCovers(states, actions, i);
    assert IsStep(states, actions, i);
    LookupIsScan(states[i].entries, states[i].index, states[i + 1].index, actions[i].columnId, actions[i].target.value,
      actions[i].hits, Floor(actions, i));
  }

  // ---------------------------------------------------------------- when lookups are no scans

  /** Any lookup is a scan exactly when the index lists every matching use and none follows an outdated one. */
  lemma {:induction false} LookupOfIndexIsScanIff(
      entries: map<nat, seq<ColumnUse>>, before: set<Key>, after: set<Key>, columnId: nat, target: Option<nat>,
      hits: seq<Hit>)
    requires Looked(entries, before, after, columnId, target, hits)
    ensures IsScan(entries, columnId, target, hits) <==>
      forall h: nat, i: nat :: h in entries && i < |entries[h]| && IsMatch(entries[h][i], columnId, target) ==>
        && Key(columnId, h) in before
        && forall j :: 0 <= j < i ==> !(UsesColumn(entries[h][j], columnId) && IsOutdated(entries[h][j], target))
  {
    if IsScan(entries, columnId, target, hits) {
      forall h: nat, i: nat | h in entries && i < |entries[h]| && IsMatch(entries[h][i], columnId, target)
        ensures Key(columnId, h) in before && IsReported(entries[h], columnId, target, i)
      {
        assert Matches(entries, columnId, target, Hit(h, i));
        assert Hit(h, i) in hits;
      }
    } else {
      var hit :| !(hit in hits <==> Matches(entries, columnId, target, hit));
      if hit in hits {
        assert IsReported(entries[hit.script], columnId, target, hit.use);
      }
    }
  }

  /** The step looks the column up under another version. */
  ghost predicate AsksOtherVersion(action: Action, columnId: nat, version: nat) {
    action.Find? && action.columnId == columnId && action.target.Some? && action.target.value != version
  }

  ghost predicate Adds(action: Action, h: nat) {
    action.Add? && action.script == h
  }

  /** Within the first `n` steps, the column was looked up under another version after `h` was last added. */
  ghost predicate OvertakenBy(actions: seq<Action>, n: nat, h: nat, columnId: nat, version: nat, k: nat)
    requires n <= |actions|
  {
    k < n && AsksOtherVersion(actions[k], columnId, version) && forall j: nat :: k < j < n ==> !Adds(actions[j], h)
  }

  ghost predicate Overtaken(actions: seq<Action>, n: nat, h: nat, columnId: nat, version: nat)
    requires n <= |actions|
  {
    exists k: nat :: OvertakenBy(actions, n, h, columnId, version, k)
  }

  lemma {:induction false} OvertakenNext(actions: seq<Action>, n: nat, h: nat, columnId: nat, version: nat)
    requires n < |actions|
    ensures Overtaken(actions, n + 1, h, columnId, version) <==>
      || AsksOtherVersion(actions[n], columnId, version)
      || (!Adds(actions[n], h) && Overtaken(actions, n, h, columnId, version))
  {
    if AsksOtherVersion(actions[n], columnId, version) {
      assert OvertakenBy(actions, n + 1, h, columnId, version, n);
    }
    if k: nat :| OvertakenBy(actions, n, h, columnId, version, k) {
      if !Adds(actions[n], h) {
        assert OvertakenBy(actions, n + 1, h, columnId, version, k);
      }
    }
    var next := n + 1;
    if k: nat :| OvertakenBy(actions, next, h, columnId, version, k) {
      if k < n {
        assert OvertakenBy(actions, n, h, columnId, version, k);
        assert !Adds(actions[n], h);
      }
    }
  }

  /** With one version per analysis, a use is outdated exactly if another version is wanted. */
  lemma {:induction false} PrunedIffOtherVersion(uses: seq<ColumnUse>, i: nat, target: Option<nat>)
    requires i < |uses| && uses[i].resolved.Some? && exists v :: OneVersion(uses, v)
    ensures HasOutdated(uses, uses[i].resolved.value.columnId, target)
      <==> target.Some? && target.value != uses[i].resolved.value.version
  {
    if target.Some? && target.value != uses[i].resolved.value.version {
      assert UsesColumn(uses[i], uses[i].resolved.value.columnId) && IsOutdated(uses[i], target);
    }
  }

  lemma {:induction false} IndexAfterStep(s: State, t: State, action: Action, h: nat, i: nat, overtaken: bool)
    requires Next(s, t, action) && OneVersionEach(t.entries)
    requires h in t.entries && i < |t.entries[h]| && t.entries[h][i].resolved.Some?
    requires !Adds(action, h) ==>
      (Key(t.entries[h][i].resolved.value.columnId, h) in s.index <==> !overtaken)
    ensures
      var c, v := t.entries[h][i].resolved.value.columnId, t.entries[h][i].resolved.value.version;
      Key(c, h) in t.index <==> !(AsksOtherVersion(action, c, v) || (!Adds(action, h) && overtaken))
  {
    var c := t.entries[h][i].resolved.value.columnId;
    match action
    case Add(script, uses) =>
      if script == h {
        assert UsesColumn(uses[i], c);
      }
    case Find(columnId, target, hits) =>
      PrunedIffOtherVersion(t.entries[h], i, target);
  }

  /** The index lists the column of a use exactly if it was not looked up under another version since. */
  lemma {:induction false} IndexInRun(states: seq<State>, actions: seq<Action>, n: nat, h: nat, i: nat)
    requires IsRun(states, actions) && n < |states|
    requires forall j :: 0 <= j < |actions| ==> OneVersionAction(actions[j])
    requires h in states[n].entries && i < |states[n].entries[h]| && states[n].entries[h][i].resolved.Some?
    ensures
      var r := states[n].entries[h][i].resolved.value;
      Key(r.columnId, h) in states[n].index <==> !Overtaken(actions, n, h, r.columnId, r.version)
    decreases n
  {
    if n > 0 {
      var action := actions[n - 1];
      assert IsStep(states, actions, n - 1);
      var r := states[n].entries[h][i].resolved.value;
      RunHasOneVersionEach(states, actions, n);
      if !Adds(action, h) {
        IndexInRun(states, actions, n - 1, h, i);
      }
      OvertakenNext(actions, n - 1, h, r.columnId, r.version);
      IndexAfterStep(
        states[n - 1], states[n], action, h, i, Overtaken(actions, n - 1, h, r.columnId, r.version));
    }
  }

  lemma {:induction false} RunHasOneVersionEach(states: seq<State>, actions: seq<Action>, n: nat)
    requires IsRun(states, actions) && n < |states|
    requires forall j :: 0 <= j < |actions| ==> OneVersionAction(actions[j])
    ensures OneVersionEach(states[n].entries)
  {
    if n > 0 {
      RunHasOneVersionEach(states, actions, n - 1);
      assert IsStep(states, actions, n - 1) && OneVersionAction(actions[n - 1]);
    }
  }

  /** A registered analysis uses the column in the wanted version, but was overtaken by another lookup. */
  ghost predicate MissesUse(states: seq<State>, actions: seq<Action>, n: nat, h: nat, i: nat)
    requires n < |actions| < |states| && actions[n].Find?
  {
    && h in states[n].entries && i < |states[n].entries[h]|
    && IsMatch(states[n].entries[h][i], actions[n].columnId, actions[n].target)
    && Overtaken(actions, n, h, actions[n].columnId, states[n].entries[h][i].resolved.value.version)
  }

  lemma {:induction false} NoneBehindOutdated(uses: seq<ColumnUse>, columnId: nat, target: Option<nat>, i: nat)
    requires i < |uses| && IsMatch(uses[i], columnId, target) && exists v :: OneVersion(uses, v)
    ensures forall j :: 0 <= j < i ==> !(UsesColumn(uses[j], columnId) && IsOutdated(uses[j], target))
  {
  }

  /**
    With one version per analysis, a lookup in any run is a scan exactly if no registered analysis with a
    matching use was overtaken: looked up for this column under another version since it was added.
  */
  lemma {:induction false} LookupIsScanIff(states: seq<State>, actions: seq<Action>, n: nat)
    requires IsRun(states, actions) && n < |actions| && actions[n].Find?
    requires forall j :: 0 <= j < |actions| ==> OneVersionAction(actions[j])
    ensures IsScan(states[n].entries, actions[n].columnId, actions[n].target, actions[n].hits)
      <==> forall h: nat, i: nat :: !MissesUse(states, actions, n, h, i)
  {
    var entries, columnId, target := states[n].entries, actions[n].columnId, actions[n].target;
    assert IsStep(states, actions, n);
    LookupOfIndexIsScanIff(entries, states[n].index, states[n + 1].index, columnId, target, actions[n].hits);
    RunHasOneVersionEach(states, actions, n);
    forall h: nat, i: nat | h in entries && i < |entries[h]| && IsMatch(entries[h][i], columnId, target)
      ensures Key(columnId, h) in states[n].index <==> !MissesUse(states, actions, n, h, i)
      ensures forall j :: 0 <= j < i ==> !(UsesColumn(entries[h][j], columnId) && IsOutdated(entries[h][j], target))
    {
      IndexInRun(states, actions, n, h, i);
      NoneBehindOutdated(entries[h], columnId, target, i);
    }
  }

  /**
    A lookup without a version misses what an earlier lookup pruned: a script that uses column 7 in version
    1 is added, looked up in version 2, and then looked up in any version.
  */
  lemma {:induction false} LookupWithoutVersionAfterPruning(h: nat) returns (states: seq<State>, actions: seq<Action>)
    ensures IsRun(states, actions) && |actions| == 3
    ensures actions[2] == Find(7, None, []) && Matches(states[2].entries, 7, None, Hit(h, 0))
    ensures !IsScan(states[2].entries, 7, None, [])
  {
    var uses := [ColumnUse(Some(ResolvedColumn(7, 1)))];
    var entries := map[h := uses];
    states := [State(map[], {}), State(entries, {Key(7, h)}), State(entries, {}), State(entries, {})];
    actions := [Add(h, uses), Find(7, Some(2), []), Find(7, None, [])];
    assert UsesColumn(uses[0], 7) && IsOutdated(uses[0], Some(2));
    assert KeysOf(h, uses) == {Key(7, h)};
    assert IsStep(states, actions, 0);
    assert HasOutdated(uses, 7, Some(2));
    assert IsStep(states, actions, 1) && IsStep(states, actions, 2);
    assert Matches(entries, 7, None, Hit(h, 0));
    assert Hit(h, 0) !in [];
  }
}
