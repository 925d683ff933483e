/** The loop of the copying walk. */
module SnippetWalk {
  import opened Ast
  import opened Collections
  import opened SnippetShapes
  import opened SnippetLayout
  import opened SnippetForward

  /** The shape of the extracted subtree; the root loses its key. */
  ghost function RootShape(source: Source, skip: bool): Shape
    requires source.Valid()
  {
    ShapeAt(source.View(), source.root, skip).(key := NONE)
  }

  /** The trace of the walk: the origin of every output node, and the two layout walks beside it. */
  datatype Trace = Trace(origin: seq<nat>, full: Layout, skipped: Layout)

  ghost predicate NodesOk(source: Source, st: Copy, origin: seq<nat>)
    requires source.Valid()
  {
    && |origin| == |st.nodes| && |st.nodes| > 0 && origin[0] == source.root && st.nodes[0].parent == 0
    && StackOk(source, st.pending, origin) && CopiesOk(source, st.nodes, origin)
    && BlocksOk(source.View(), st.nodes, st.pending, origin)
    && ParentsOk(source.View(), st.nodes, st.pending, origin)
    && ValuesOk(source.View(), st.nodes, st.names, st.pending, origin)
    && TranslationOk(source.View(), st.names, st.translated)
    && MarkersOk(source.View(), st.pending, origin, st.found)
  }

  ghost predicate LayoutOk(source: Source, st: Copy, origin: seq<nat>, l: Layout, skip: bool)
    requires source.Valid() && |origin| == |st.nodes|
    requires forall p :: 0 <= p < |origin| ==> origin[p] < |source.script.nodes|
  {
    && Simulates(source.View(), st.nodes, st.pending, origin, l, skip)
    && TasksInRange(l) && Finish(l) == CanonicalCells(RootShape(source, skip))
  }

  ghost predicate WalkOk(source: Source, st: Copy, t: Trace)
    requires source.Valid()
  {
    && NodesOk(source, st, t.origin)
    && LayoutOk(source, st, t.origin, t.full, false) && LayoutOk(source, st, t.origin, t.skipped, true)
  }

  // ---------------------------------------------------------------- translating names

  /** The output index of a registered name, which is copied when it is met first. */
  method TranslateName(source: Source, id: nat, names: seq<string>, translated: map<nat, nat>)
    returns (index: nat, moreNames: seq<string>, nowTranslated: map<nat, nat>)
    requires source.Valid() && id < |source.script.names|
    requires TranslationOk(source.View(), names, translated)
    ensures TranslationOk(source.View(), moreNames, nowTranslated)
    ensures names <= moreNames && index < |moreNames| && moreNames[index] == source.script.names[id]
  {
    if id in translated {
      index, moreNames, nowTranslated := translated[id], names, translated;
    } else {
      index := |names|;
      moreNames, nowTranslated := names + [source.script.names[id]], translated[id := |names|];
    }
  }

  // ---------------------------------------------------------------- copying children

  /** Copy the children of `s`, last child first, as children of the output node `o`. */
  method CopyChildren(source: Source, s: nat, o: nat, base: nat) returns (copies: seq<Node>, pending: seq<Pair>)
    requires source.Valid() && Visitable(source, s)
    requires IsContainer(source.script.nodes[s].nodeType)
    ensures AreNewNodes(source, s, o, CountOf(source, s), copies)
    ensures pending == NewPending(source, s, base, CountOf(source, s))
  {
    copies, pending := [], [];
    for k := 0 to source.script.nodes[s].childrenCount
      invariant AreNewNodes(source, s, o, k, copies)
      invariant pending == NewPending(source, s, base, k)
    {
      ChildAtFits(source, s, k);
      var child := ChildAt(source, s, k);
      copies := copies + [source.CopyOf(child, source.script.nodes[child].attributeKey, o)];
      NextPending(source, s, base, k);
      pending := pending + [Pair(child, base + k)];
    }
  }

  lemma {:induction false} NextPending(source: Source, s: nat, base: nat, k: nat)
    requires s < |source.script.nodes| && k < CountOf(source, s)
    ensures NewPending(source, s, base, k + 1)
         == NewPending(source, s, base, k) + [Pair(ChildAt(source, s, k), base + k)]
  {
  }

  // ---------------------------------------------------------------- one visit

  /** What a visit produces before it is put together. */
  datatype Visit = Visit(
    value: nat, copies: seq<Node>, pushed: seq<Pair>, names: seq<string>, translated: map<nat, nat>)

  ghost predicate VisitOk(source: Source, st: Copy, s: nat, o: nat, v: Visit)
    requires source.Valid() && Visitable(source, s) && o < |st.nodes|
  {
    var n := source.script.nodes[s];
    && AreNewNodes(source, s, o, CountOf(source, s), v.copies)
    && v.pushed == NewPending(source, s, |st.nodes|, CountOf(source, s))
    && TranslationOk(source.View(), v.names, v.translated) && st.names <= v.names
    && (IsContainer(n.nodeType) ==> v.value == |st.nodes|)
    && (n.nodeType == NAME ==>
          v.value < |v.names| && n.childrenBeginOrValue < |source.script.names|
          && v.names[v.value] == source.script.names[n.childrenBeginOrValue])
    && (n.nodeType != NAME && !IsContainer(n.nodeType) ==> v.value == st.nodes[o].childrenBeginOrValue)
  }

  method VisitNode(source: Source, st: Copy, s: nat, o: nat) returns (v: Visit)
    requires source.Valid() && Visitable(source, s) && o < |st.nodes|
    requires TranslationOk(source.View(), st.names, st.translated)
    ensures VisitOk(source, st, s, o, v)
  {
    var n := source.script.nodes[s];
    assert source.View().NodeValid(s);
    if n.nodeType == NAME {
      var index, names, translated := TranslateName(source, n.childrenBeginOrValue, st.names, st.translated);
      v := Visit(index, [], [], names, translated);
    } else if IsContainer(n.nodeType) {
      var copies, pushed := CopyChildren(source, s, o, |st.nodes|);
      v := Visit(|st.nodes|, copies, pushed, st.names, st.translated);
    } else {
      v := Visit(st.nodes[o].childrenBeginOrValue, [], [], st.names, st.translated);
    }
  }

  function FoundAt(source: Source, s: nat, o: nat): seq<Pair>
    requires s < |source.markers|
  {
    if source.markers[s] != NO_MARKER then [Pair(o, source.markers[s])] else []
  }

  function After(source: Source, st: Copy, s: nat, o: nat, v: Visit): Copy
    requires st.pending != [] && s < |source.markers| && o < |st.nodes|
  {
    Copy(
      Written(st.nodes, o, v.value, v.copies),
      st.pending[..|st.pending| - 1] + v.pushed,
      v.names, v.translated,
      st.found + FoundAt(source, s, o))
  }

  lemma {:induction false} VisitTrace(source: Source, st: Copy, origin: seq<nat>, v: Visit)
    requires source.Valid() && NodesOk(source, st, origin) && st.pending != []
    ensures
      var top := st.pending[|st.pending| - 1];
      && Visitable(source, top.source) && top.target < |st.nodes|
    ensures
      var top := st.pending[|st.pending| - 1];
      VisitOk(source, st, top.source, top.target, v) ==>
        var after := After(source, st, top.source, top.target, v);
        var trace := origin + ChildIds(source, top.source, CountOf(source, top.source));
        && StackOk(source, after.pending, trace)
        && CopiesOk(source, after.nodes, trace)
        && TraceMoves(source, st.nodes, origin, st.pending, top.source, top.target, after.nodes, trace, after.pending)
  {
    var top, rest := st.pending[|st.pending| - 1], st.pending[..|st.pending| - 1];
    SplitLast(st.pending);
    assert top == Pair(top.source, top.target);
    VisitStack(source, rest, top.source, top.target, origin);
    if VisitOk(source, st, top.source, top.target, v) {
      VisitCopies(source, st.nodes, origin, top.source, top.target, v.value, v.copies);
      VisitPending(source, rest, top.source, top.target, |st.nodes|);
      VisitMoves(source, st, rest, top.source, top.target, origin, v);
    }
  }

  lemma {:induction false} VisitMoves(
      source: Source, st: Copy, rest: seq<Pair>, s: nat, o: nat, origin: seq<nat>, v: Visit)
    requires source.Valid() && Visitable(source, s) && o < |st.nodes| == |origin| && origin[o] == s
    requires st.pending == rest + [Pair(s, o)] && VisitOk(source, st, s, o, v)
    requires forall p :: 0 <= p < |origin| ==> origin[p] < |source.script.nodes|
    requires PendingMoves(st.pending, rest + v.pushed, |st.nodes|, |st.nodes| + CountOf(source, s), o)
    ensures TraceMoves(source, st.nodes, origin, st.pending, s, o, Written(st.nodes, o, v.value, v.copies),
              origin + ChildIds(source, s, CountOf(source, s)), rest + v.pushed)
  {
    assert st.pending[|rest|].target == o;
    var c := CountOf(source, s);
    var after, trace := Written(st.nodes, o, v.value, v.copies), origin + ChildIds(source, s, c);
    forall p | |st.nodes| <= p < |st.nodes| + c
      ensures trace[p] == ChildAt(source, s, p - |st.nodes|) && trace[p] < |source.script.nodes|
      ensures after[p].parent == o
    {
      assert trace[p] == ChildIds(source, s, c)[p - |st.nodes|];
      assert after[p] == v.copies[p - |st.nodes|];
    }
    forall p | 0 <= p < |st.nodes|
      ensures trace[p] == origin[p]
    {
    }
  }

  lemma {:induction false} VisitKeepsNodes(source: Source, st: Copy, origin: seq<nat>, v: Visit)
    requires source.Valid() && NodesOk(source, st, origin) && st.pending != []
    requires
      var top := st.pending[|st.pending| - 1];
      Visitable(source, top.source) && top.target < |st.nodes| && VisitOk(source, st, top.source, top.target, v)
    ensures
      var top := st.pending[|st.pending| - 1];
      NodesOk(source, After(source, st, top.source, top.target, v),
        origin + ChildIds(source, top.source, CountOf(source, top.source)))
  {
    var top := st.pending[|st.pending| - 1];
    var s, o := top.source, top.target;
    var after := After(source, st, s, o, v);
    var trace := origin + ChildIds(source, s, CountOf(source, s));
    VisitTrace(source, st, origin, v);
    VisitBlocks(source, st.nodes, origin, st.pending, s, o, after.nodes, trace, after.pending);
    VisitParents(source, st.nodes, origin, st.pending, s, o, after.nodes, trace, after.pending);
    assert ValueOk(source.View(), st.nodes, st.names, st.pending, origin, o);
    VisitValues(source, st.nodes, origin, st.pending, s, o, after.nodes, trace, after.pending, st.names, v.names);
    VisitMarkers(source, st.nodes, origin, st.pending, s, o, after.nodes, trace, after.pending, st.found, after.found);
  }

  lemma {:induction false} VisitKeepsLayout(source: Source, st: Copy, origin: seq<nat>, v: Visit, l: Layout, skip: bool)
    requires source.Valid() && NodesOk(source, st, origin) && st.pending != []
    requires LayoutOk(source, st, origin, l, skip)
    requires
      var top := st.pending[|st.pending| - 1];
      Visitable(source, top.source) && top.target < |st.nodes| && VisitOk(source, st, top.source, top.target, v)
    ensures l.tasks != [] && TasksInRange(l)
    ensures
      var top := st.pending[|st.pending| - 1];
      var after := After(source, st, top.source, top.target, v);
      var trace := origin + ChildIds(source, top.source, CountOf(source, top.source));
      && |trace| == |after.nodes| && (forall p :: 0 <= p < |trace| ==> trace[p] < |source.script.nodes|)
      && LayoutOk(source, after, trace, Step(l), skip)
      && Work(Step(l).tasks) < Work(l.tasks)
  {
    var top, rest := st.pending[|st.pending| - 1], st.pending[..|st.pending| - 1];
    var s, o := top.source, top.target;
    var after := After(source, st, s, o, v);
    var trace := origin + ChildIds(source, s, CountOf(source, s));
    VisitTrace(source, st, origin, v);
    SplitLast(st.pending);
    assert top == Pair(s, o);
    VisitStack(source, rest, s, o, origin);
    VisitSimulates(source, st.nodes, rest, s, o, origin, l, skip, after.nodes, trace, after.pending);
    StepInRange(l);
    StepWork(l);
  }

  /** A visit and a step of the layout walk lead to the same state. */
  lemma {:induction false} VisitSimulates(
      source: Source, nodes: seq<Node>, rest: seq<Pair>, s: nat, o: nat, origin: seq<nat>, l: Layout, skip: bool,
      after: seq<Node>, trace: seq<nat>, next: seq<Pair>)
    requires source.script.Valid() && source.View().Valid()
    requires source.root < |source.script.nodes| && s < |source.script.nodes|
    requires |origin| == |nodes| && forall p :: 0 <= p < |origin| ==> origin[p] < |source.script.nodes|
    requires Simulates(source.View(), nodes, rest + [Pair(s, o)], origin, l, skip)
    requires o < |nodes| && forall k :: 0 <= k < |rest| ==> rest[k].target < |nodes|
    requires TraceMoves(source, nodes, origin, rest + [Pair(s, o)], s, o, after, trace, next)
    requires CopiesOk(source, after, trace) && next == rest + NewPending(source, s, |nodes|, CountOf(source, s))
    requires IsContainer(source.script.nodes[s].nodeType) ==> after[o].childrenBeginOrValue == |nodes|
    ensures l.tasks != [] && TasksInRange(l) && Simulates(source.View(), after, next, trace, Step(l), skip)
  {
    VisitTasks(source, nodes, rest, s, o, origin, l, skip);
    VisitCells(source, nodes, rest, s, o, origin, l, skip, after, trace, next);
  }

  // ---------------------------------------------------------------- the loop

  /** Pop the top entry, record its marker, and write its children or its name. */
  method VisitTop(source: Source, st: Copy, ghost t: Trace) returns (after: Copy, ghost trace: Trace)
    requires source.Valid() && WalkOk(source, st, t) && st.pending != []
    ensures WalkOk(source, after, trace)
    ensures Work(trace.full.tasks) < Work(t.full.tasks)
  {
    var top := st.pending[|st.pending| - 1];
    TopVisitable(source, st, t.origin);
    var v := VisitNode(source, st, top.source, top.target);
    after := After(source, st, top.source, top.target, v);
    trace := Trace(
      t.origin + ChildIds(source, top.source, CountOf(source, top.source)), Step'(t.full), Step'(t.skipped));
    VisitKeepsNodes(source, st, t.origin, v);
    VisitKeepsLayout(source, st, t.origin, v, t.full, false);
    VisitKeepsLayout(source, st, t.origin, v, t.skipped, true);
  }

  ghost function Step'(l: Layout): Layout {
    if l.tasks != [] && l.tasks[|l.tasks| - 1].output < |l.cells| then Step(l) else l
  }

  lemma {:induction false} TopVisitable(source: Source, st: Copy, origin: seq<nat>)
    requires source.Valid() && NodesOk(source, st, origin) && st.pending != []
    ensures
      var top := st.pending[|st.pending| - 1];
      Visitable(source, top.source) && top.target < |st.nodes|
  {
  }

  function Root(source: Source): Copy
    requires source.script.Valid() && source.root < |source.script.nodes| && source.Fits(source.root)
  {
    Copy([source.CopyOf(source.root, NONE, 0)], [Pair(source.root, 0)], [], map[], [])
  }

  lemma {:induction false} RootNodesOk(source: Source)
    requires source.Valid()
    ensures source.Fits(source.root) && NodesOk(source, Root(source), [source.root])
  {
    var pending := [Pair(source.root, 0)];
    assert pending[0].target == 0;
    assert IsPending(pending, 0);
  }

  lemma {:induction false} RootLayoutOk(source: Source, skip: bool)
    requires source.Valid() && source.Fits(source.root)
    ensures LayoutOk(source, Root(source), [source.root], Start(RootShape(source, skip)), skip)
  {
    var pending := [Pair(source.root, 0)];
    assert pending[0].target == 0;
    assert IsPending(pending, 0);
    ShapeFields(source.View(), source.root, skip);
  }

  /** Copy the whole subtree. */
  method CopySubtree(source: Source) returns (st: Copy, ghost t: Trace)
    requires source.Valid()
    ensures WalkOk(source, st, t) && st.pending == []
  {
    RootNodesOk(source);
    RootLayoutOk(source, false);
    RootLayoutOk(source, true);
    st := Root(source);
    t := Trace([source.root], Start(RootShape(source, false)), Start(RootShape(source, true)));
    while st.pending != []
      invariant WalkOk(source, st, t)
      decreases Work(t.full.tasks)
    {
      st, t := VisitTop(source, st, t);
    }
  }
}
