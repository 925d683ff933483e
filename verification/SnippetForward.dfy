/** The copying walk of snippet extraction, which writes nodes front to back, parents before children. */
module SnippetForward {
  import opened Ast
  import opened SnippetShapes
  import opened SnippetLayout

  /** What is extracted: a subtree of a script with its markers. */
  datatype Source = Source(script: Script, markers: seq<nat>, root: nat) {
    ghost predicate Valid() {
      && script.Valid() && |markers| == |script.nodes| && root < |script.nodes|
      && View().Valid()
      && FitsBelow(root)
    }

    ghost function View(): (r: View)
      requires script.Valid()
      ensures r.nodes == script.nodes && r.names == script.names && r.markers == markers
      ensures |r.texts| == |script.nodes|
      ensures forall i: nat :: i < |r.texts| ==> r.texts[i] == script.NodeText(i)
    {
      ScriptView(script, markers)
    }

    /** The text range of the snippet. */
    function Range(): Span
      requires script.Valid() && root < |script.nodes|
    {
      script.SpanOf(root)
    }

    /** Does the node's text lie within the snippet's text? */
    predicate Fits(i: nat)
      requires script.Valid() && root < |script.nodes| && i < |script.nodes|
    {
      Range().offset <= script.SpanOf(i).offset && script.SpanOf(i).End() <= Range().End()
    }

    /** Do the texts of all nodes below `i` lie within the snippet's text? */
    ghost predicate FitsBelow(i: nat)
      requires script.Valid() && root < |script.nodes| && i < |script.nodes|
      requires View().Valid()
      decreases i
    {
      assert View().NodeValid(i);
      Fits(i) && forall c: nat :: IsChild(i, c) ==> FitsBelow(c)
    }

    predicate IsChild(i: nat, c: nat)
      requires i < |script.nodes|
    {
      var n := script.nodes[i];
      IsContainer(n.nodeType) && n.childrenBeginOrValue <= c < n.ChildrenEnd()
    }

    /** The node's span, relative to the snippet's text. */
    function PatchedSpan(i: nat): Span
      requires script.Valid() && root < |script.nodes| && i < |script.nodes| && Fits(i)
    {
      Span(script.SpanOf(i).offset - Range().offset, script.SpanOf(i).length)
    }

    function CopyOf(i: nat, key: nat, parent: nat): Node
      requires script.Valid() && root < |script.nodes| && i < |script.nodes| && Fits(i)
    {
      var n := script.nodes[i];
      Node(PatchedSpan(i), n.nodeType, key, parent, n.childrenBeginOrValue, n.childrenCount)
    }
  }

  lemma {:induction false} ChildFits(source: Source, i: nat, c: nat)
    requires source.script.Valid() && source.root < |source.script.nodes| && i < |source.script.nodes|
    requires source.View().Valid() && source.FitsBelow(i) && source.IsChild(i, c)
    ensures c < i && source.FitsBelow(c) && source.Fits(c)
  {
    assert source.View().NodeValid(i);
  }

  /** The state of the walk. `pending` pairs a source node with its output position. */
  datatype Copy = Copy(
    nodes: seq<Node>,
    pending: seq<Pair>,
    names: seq<string>,
    translated: map<nat, nat>,
    found: seq<Pair>
  )

  // ---------------------------------------------------------------- what the walk keeps
  // `origin` says which source node every output node was copied from.

  ghost predicate IsPending(pending: seq<Pair>, p: nat) {
    exists k :: 0 <= k < |pending| && pending[k].target == p
  }

  /** The stack agrees with the trace, and lists every position once. */
  ghost predicate StackOk(source: Source, pending: seq<Pair>, origin: seq<nat>)
    requires source.script.Valid() && source.root < |source.script.nodes| && source.View().Valid()
  {
    && (forall p :: 0 <= p < |origin| ==> origin[p] < |source.script.nodes| && source.FitsBelow(origin[p]))
    && (forall k :: 0 <= k < |pending| ==>
          pending[k].target < |origin| && origin[pending[k].target] == pending[k].source)
    && (forall j, k :: 0 <= j < k < |pending| ==> pending[j].target != pending[k].target)
  }

  /** Output nodes carry their source's type, count and text; below the root also its key. */
  ghost predicate CopiesOk(source: Source, nodes: seq<Node>, origin: seq<nat>)
    requires source.script.Valid() && source.root < |source.script.nodes| && |origin| == |nodes|
  {
    forall p :: 0 <= p < |nodes| ==>
      origin[p] < |source.script.nodes| && source.Fits(origin[p])
      && var n := source.script.nodes[origin[p]];
         && nodes[p].nodeType == n.nodeType && nodes[p].childrenCount == n.childrenCount
         && nodes[p].span == source.PatchedSpan(origin[p])
         && nodes[p].attributeKey == (if p == 0 then NONE else n.attributeKey)
  }

  /** The children of the output node `p` lie in a block behind it, last child first. */
  ghost predicate BlockOk(view: View, nodes: seq<Node>, origin: seq<nat>, p: nat)
    requires |origin| == |nodes| && p < |nodes| && origin[p] < |view.nodes|
  {
    var begin, count := nodes[p].childrenBeginOrValue, view.ChildCount(origin[p]);
    && p < begin && begin + count <= |nodes|
    && forall x :: begin <= x < begin + count ==>
         origin[x] == view.nodes[origin[p]].childrenBeginOrValue + (count - 1 - (x - begin))
         && nodes[x].parent == p
  }

  ghost predicate BlocksOk(view: View, nodes: seq<Node>, pending: seq<Pair>, origin: seq<nat>)
    requires |origin| == |nodes| && forall p :: 0 <= p < |origin| ==> origin[p] < |view.nodes|
  {
    forall p: nat {:trigger BlockOk(view, nodes, origin, p)} ::
      p < |nodes| && !IsPending(pending, p) && IsContainer(view.nodes[origin[p]].nodeType) ==>
      BlockOk(view, nodes, origin, p)
  }

  /** Every node but the root lies in the block of its parent. */
  ghost predicate ParentOk(view: View, nodes: seq<Node>, pending: seq<Pair>, origin: seq<nat>, p: nat)
    requires |origin| == |nodes| && p < |nodes| && forall q :: 0 <= q < |origin| ==> origin[q] < |view.nodes|
  {
    var q := nodes[p].parent;
    && q < p && !IsPending(pending, q) && IsContainer(view.nodes[origin[q]].nodeType)
    && nodes[q].childrenBeginOrValue <= p < nodes[q].childrenBeginOrValue + view.ChildCount(origin[q])
  }

  ghost predicate ParentsOk(view: View, nodes: seq<Node>, pending: seq<Pair>, origin: seq<nat>)
    requires |origin| == |nodes| && forall p :: 0 <= p < |origin| ==> origin[p] < |view.nodes|
  {
    forall p: nat :: 0 < p < |nodes| ==> ParentOk(view, nodes, pending, origin, p)
  }

  /** Leaves keep their value; visited names are translated. */
  ghost predicate ValueOk(
      view: View, nodes: seq<Node>, names: seq<string>, pending: seq<Pair>, origin: seq<nat>, p: nat)
    requires |origin| == |nodes| && p < |nodes| && origin[p] < |view.nodes|
  {
    var n := view.nodes[origin[p]];
    if n.nodeType == NAME then
      !IsPending(pending, p) ==>
        nodes[p].childrenBeginOrValue < |names| && n.childrenBeginOrValue < |view.names|
        && names[nodes[p].childrenBeginOrValue] == view.names[n.childrenBeginOrValue]
    else !IsContainer(n.nodeType) ==> nodes[p].childrenBeginOrValue == n.childrenBeginOrValue
  }

  ghost predicate ValuesOk(view: View, nodes: seq<Node>, names: seq<string>, pending: seq<Pair>, origin: seq<nat>)
    requires |origin| == |nodes| && forall p :: 0 <= p < |origin| ==> origin[p] < |view.nodes|
  {
    forall p: nat :: p < |nodes| ==> ValueOk(view, nodes, names, pending, origin, p)
  }

  ghost predicate TranslationOk(view: View, names: seq<string>, translated: map<nat, nat>) {
    forall id :: id in translated ==>
      id < |view.names| && translated[id] < |names| && names[translated[id]] == view.names[id]
  }

  /** The markers found so far are those of the visited nodes. */
  ghost predicate MarkersOk(view: View, pending: seq<Pair>, origin: seq<nat>, found: seq<Pair>)
    requires |view.markers| == |view.nodes| && forall p :: 0 <= p < |origin| ==> origin[p] < |view.nodes|
  {
    && (forall k :: 0 <= k < |found| ==>
          found[k].source < |origin| && !IsPending(pending, found[k].source)
          && found[k].target == view.markers[origin[found[k].source]])
    && (forall p: nat :: p < |origin| && !IsPending(pending, p) && view.markers[origin[p]] != NO_MARKER ==>
          exists k :: 0 <= k < |found| && found[k].source == p)
  }

  /** The layout walk over shapes is in the same state. */
  ghost predicate Simulates(view: View, nodes: seq<Node>, pending: seq<Pair>, origin: seq<nat>, l: Layout, skip: bool)
    requires view.Valid() && |origin| == |nodes| && forall p :: 0 <= p < |origin| ==> origin[p] < |view.nodes|
  {
    && |l.cells| == |nodes| && |l.tasks| == |pending|
    && (forall k :: 0 <= k < |pending| ==>
          l.tasks[k].output == pending[k].target
          && pending[k].source < |view.nodes|
          && SameBelow(l.tasks[k].shape, ShapeAt(view, pending[k].source, skip)))
    && (forall p: nat :: p < |nodes| ==> CellMatches(view, nodes, pending, origin, l.cells[p], skip, p))
  }

  /** Shapes that agree up to their own key. */
  predicate SameBelow(a: Shape, b: Shape) {
    a.(key := NONE) == b.(key := NONE)
  }

  ghost predicate CellMatches(
      view: View, nodes: seq<Node>, pending: seq<Pair>, origin: seq<nat>, cell: Cell, skip: bool, p: nat)
    requires view.Valid() && |origin| == |nodes| && p < |nodes| && origin[p] < |view.nodes|
  {
    && cell.nodeType == nodes[p].nodeType && cell.key == nodes[p].attributeKey
    && cell.content == ContentAt(view, origin[p], skip)
    && cell.count == view.ChildCount(origin[p])
    && (!IsPending(pending, p) && IsContainer(nodes[p].nodeType) ==> cell.begin == nodes[p].childrenBeginOrValue)
    && (!IsContainer(nodes[p].nodeType) ==> cell.begin == 0)
  }

  // ---------------------------------------------------------------- one visit
  // The top entry (s, o) is popped, its output node gets a value, and its children are appended.

  function ChildAt(source: Source, s: nat, k: nat): nat
    requires s < |source.script.nodes| && k < source.script.nodes[s].childrenCount
  {
    source.script.nodes[s].childrenBeginOrValue + (source.script.nodes[s].childrenCount - 1 - k)
  }

  function CountOf(source: Source, s: nat): nat
    requires s < |source.script.nodes|
  {
    if IsContainer(source.script.nodes[s].nodeType) then source.script.nodes[s].childrenCount else 0
  }

  ghost predicate Visitable(source: Source, s: nat)
    requires source.script.Valid() && source.root < |source.script.nodes|
  {
    s < |source.script.nodes| && source.View().Valid() && source.FitsBelow(s)
  }

  lemma {:induction false} ChildAtFits(source: Source, s: nat, k: nat)
    requires source.script.Valid() && source.root < |source.script.nodes|
    requires Visitable(source, s) && k < CountOf(source, s)
    ensures ChildAt(source, s, k) < s && source.FitsBelow(ChildAt(source, s, k)) && source.Fits(ChildAt(source, s, k))
  {
    ChildFits(source, s, ChildAt(source, s, k));
  }

  /** The sources of the first `n` children written, last child first. */
  function ChildIds(source: Source, s: nat, n: nat): (r: seq<nat>)
    requires s < |source.script.nodes| && n <= CountOf(source, s)
    ensures |r| == n && forall k :: 0 <= k < n ==> r[k] == ChildAt(source, s, k)
  {
    seq(n, k requires 0 <= k < n => ChildAt(source, s, k))
  }

  function NewPending(source: Source, s: nat, base: nat, n: nat): (r: seq<Pair>)
    requires s < |source.script.nodes| && n <= CountOf(source, s)
    ensures |r| == n && forall k :: 0 <= k < n ==> r[k] == Pair(ChildAt(source, s, k), base + k)
  {
    seq(n, k requires 0 <= k < n => Pair(ChildAt(source, s, k), base + k))
  }

  /** The copies of the first `n` children written. */
  ghost predicate AreNewNodes(source: Source, s: nat, o: nat, n: nat, copies: seq<Node>)
    requires source.script.Valid() && source.root < |source.script.nodes| && Visitable(source, s)
    requires n <= CountOf(source, s)
  {
    && |copies| == n
    && forall k :: 0 <= k < n ==>
         ChildAt(source, s, k) < |source.script.nodes| && source.Fits(ChildAt(source, s, k))
         && copies[k] == source.CopyOf(
              ChildAt(source, s, k), source.script.nodes[ChildAt(source, s, k)].attributeKey, o)
  }

  /** The nodes after the visit. */
  function Written(nodes: seq<Node>, o: nat, value: nat, copies: seq<Node>): (r: seq<Node>)
    requires o < |nodes|
    ensures |r| == |nodes| + |copies|
    ensures forall p :: 0 <= p < |nodes| && p != o ==> r[p] == nodes[p]
    ensures r[o] == nodes[o].(childrenBeginOrValue := value)
    ensures forall p :: |nodes| <= p < |r| ==> r[p] == copies[p - |nodes|]
  {
    nodes[o := nodes[o].(childrenBeginOrValue := value)] + copies
  }

  /** After the visit the position `o` is done, and the new positions are pending. */
  ghost predicate PendingMoves(before: seq<Pair>, after: seq<Pair>, n: nat, m: nat, o: nat) {
    && (forall p: nat :: p < n ==> (IsPending(after, p) <==> IsPending(before, p) && p != o))
    && (forall p: nat :: n <= p < m ==> IsPending(after, p))
  }

  lemma {:induction false} VisitPending(source: Source, rest: seq<Pair>, s: nat, o: nat, n: nat)
    requires s < |source.script.nodes|
    requires forall k :: 0 <= k < |rest| ==> rest[k].target != o && rest[k].target < n
    ensures PendingMoves(rest + [Pair(s, o)], rest + NewPending(source, s, n, CountOf(source, s)),
              n, n + CountOf(source, s), o)
  {
    var c := CountOf(source, s);
    var copies := NewPending(source, s, n, c);
    var before, after := rest + [Pair(s, o)], rest + copies;
    forall p: nat | p < n
      ensures IsPending(after, p) <==> IsPending(before, p) && p != o
    {
      PendingAppend(rest, [Pair(s, o)], p);
      PendingAppend(rest, copies, p);
      assert IsPending([Pair(s, o)], p) ==> p == o;
    }
    forall p: nat | n <= p < n + c
      ensures IsPending(after, p)
    {
      assert copies[p - n].target == p;
      PendingAppend(rest, copies, p);
    }
  }

  lemma {:induction false} PendingAppend(a: seq<Pair>, b: seq<Pair>, p: nat)
    ensures IsPending(a + b, p) <==> IsPending(a, p) || IsPending(b, p)
  {
    if IsPending(a, p) {
      var k :| 0 <= k < |a| && a[k].target == p;
      assert (a + b)[k] == a[k];
    }
    if IsPending(b, p) {
      var k :| 0 <= k < |b| && b[k].target == p;
      assert (a + b)[|a| + k] == b[k];
    }
  }

  lemma {:induction false} VisitStack(source: Source, rest: seq<Pair>, s: nat, o: nat, origin: seq<nat>)
    requires source.script.Valid() && source.root < |source.script.nodes| && source.View().Valid()
    requires StackOk(source, rest + [Pair(s, o)], origin)
    ensures s < |source.script.nodes| && Visitable(source, s) && o < |origin| && origin[o] == s
    ensures forall k :: 0 <= k < |rest| ==> rest[k].target != o && rest[k].target < |origin|
    ensures StackOk(source, rest + NewPending(source, s, |origin|, CountOf(source, s)),
              origin + ChildIds(source, s, CountOf(source, s)))
  {
    var before := rest + [Pair(s, o)];
    assert before[|rest|] == Pair(s, o);
    assert forall k :: 0 <= k < |rest| ==> before[k] == rest[k];
    var c := CountOf(source, s);
    forall k | 0 <= k < c
      ensures ChildIds(source, s, c)[k] < |source.script.nodes| && source.FitsBelow(ChildIds(source, s, c)[k])
    {
      ChildAtFits(source, s, k);
    }
  }

  lemma {:induction false} VisitCopies(
      source: Source, nodes: seq<Node>, origin: seq<nat>, s: nat, o: nat, value: nat, copies: seq<Node>)
    requires source.script.Valid() && source.root < |source.script.nodes| && Visitable(source, s)
    requires o < |nodes| == |origin| && CopiesOk(source, nodes, origin)
    requires AreNewNodes(source, s, o, CountOf(source, s), copies)
    ensures CopiesOk(source, Written(nodes, o, value, copies), origin + ChildIds(source, s, CountOf(source, s)))
  {
    var after, trace := Written(nodes, o, value, copies), origin + ChildIds(source, s, CountOf(source, s));
    forall p | 0 <= p < |after|
      ensures trace[p] < |source.script.nodes| && source.Fits(trace[p])
      ensures after[p].nodeType == source.script.nodes[trace[p]].nodeType
      ensures after[p].childrenCount == source.script.nodes[trace[p]].childrenCount
      ensures after[p].span == source.PatchedSpan(trace[p])
      ensures after[p].attributeKey == (if p == 0 then NONE else source.script.nodes[trace[p]].attributeKey)
    {
      if p >= |nodes| {
        ChildAtFits(source, s, p - |nodes|);
        assert trace[p] == ChildAt(source, s, p - |nodes|);
      } else {
        assert trace[p] == origin[p];
      }
    }
  }

  /** Facts about the trace after a visit that the remaining steps share. */
  ghost predicate TraceMoves(
      source: Source, nodes: seq<Node>, origin: seq<nat>, before: seq<Pair>, s: nat, o: nat,
      after: seq<Node>, trace: seq<nat>, next: seq<Pair>)
    requires s < |source.script.nodes|
  {
    var n, c := |nodes|, CountOf(source, s);
    && |origin| == n && |after| == |trace| == n + c && o < n && origin[o] == s
    && (forall p :: 0 <= p < n ==> trace[p] == origin[p])
    && (forall p :: n <= p < n + c ==> trace[p] == ChildAt(source, s, p - n) && after[p].parent == o)
    && (forall p :: 0 <= p < n && p != o ==> after[p] == nodes[p])
    && after[o] == nodes[o].(childrenBeginOrValue := after[o].childrenBeginOrValue)
    && (forall p :: 0 <= p < |trace| ==> trace[p] < |source.script.nodes|)
    && PendingMoves(before, next, n, n + c, o)
    && IsPending(before, o)
  }

  lemma {:induction false} VisitBlocks(
      source: Source, nodes: seq<Node>, origin: seq<nat>, before: seq<Pair>, s: nat, o: nat,
      after: seq<Node>, trace: seq<nat>, next: seq<Pair>)
    requires source.script.Valid() && s < |source.script.nodes|
    requires TraceMoves(source, nodes, origin, before, s, o, after, trace, next)
    requires BlocksOk(source.View(), nodes, before, origin)
    requires IsContainer(source.script.nodes[s].nodeType) ==> after[o].childrenBeginOrValue == |nodes|
    ensures BlocksOk(source.View(), after, next, trace)
  {
    var view := source.View();
    forall p: nat | p < |after| && !IsPending(next, p) && IsContainer(view.nodes[trace[p]].nodeType)
      ensures BlockOk(view, after, trace, p)
    {
      assert p < |nodes|;
      if p != o {
        assert BlockOk(view, nodes, origin, p);
      }
    }
  }

  lemma {:induction false} VisitParents(
      source: Source, nodes: seq<Node>, origin: seq<nat>, before: seq<Pair>, s: nat, o: nat,
      after: seq<Node>, trace: seq<nat>, next: seq<Pair>)
    requires source.script.Valid() && s < |source.script.nodes|
    requires TraceMoves(source, nodes, origin, before, s, o, after, trace, next)
    requires ParentsOk(source.View(), nodes, before, origin)
    requires IsContainer(source.script.nodes[s].nodeType) ==> after[o].childrenBeginOrValue == |nodes|
    ensures ParentsOk(source.View(), after, next, trace)
  {
    forall p: nat | 0 < p < |after|
      ensures ParentOk(source.View(), after, next, trace, p)
    {
      if p < |nodes| {
        assert ParentOk(source.View(), nodes, before, origin, p);
      }
    }
  }

  lemma {:induction false} VisitValues(
      source: Source, nodes: seq<Node>, origin: seq<nat>, before: seq<Pair>, s: nat, o: nat,
      after: seq<Node>, trace: seq<nat>, next: seq<Pair>, names: seq<string>, moreNames: seq<string>)
    requires source.script.Valid() && s < |source.script.nodes|
    requires TraceMoves(source, nodes, origin, before, s, o, after, trace, next)
    requires ValuesOk(source.View(), nodes, names, before, origin)
    requires names <= moreNames
    requires forall p :: |nodes| <= p < |after| ==>
      after[p].childrenBeginOrValue == source.script.nodes[trace[p]].childrenBeginOrValue
    requires ValueOk(source.View(), after, moreNames, next, trace, o)
    ensures ValuesOk(source.View(), after, moreNames, next, trace)
  {
    forall p: nat | p < |after|
      ensures ValueOk(source.View(), after, moreNames, next, trace, p)
    {
      if p < |nodes| && p != o {
        assert ValueOk(source.View(), nodes, names, before, origin, p);
      }
    }
  }

  lemma {:induction false} VisitMarkers(
      source: Source, nodes: seq<Node>, origin: seq<nat>, before: seq<Pair>, s: nat, o: nat,
      after: seq<Node>, trace: seq<nat>, next: seq<Pair>, found: seq<Pair>, nowFound: seq<Pair>)
    requires source.script.Valid() && s < |source.script.nodes| && |source.markers| == |source.script.nodes|
    requires TraceMoves(source, nodes, origin, before, s, o, after, trace, next)
    requires MarkersOk(source.View(), before, origin, found)
    requires nowFound == found + (if source.markers[s] != NO_MARKER then [Pair(o, source.markers[s])] else [])
    ensures MarkersOk(source.View(), next, trace, nowFound)
  {
    var view := source.View();
    forall p: nat | p < |trace| && !IsPending(next, p) && view.markers[trace[p]] != NO_MARKER
      ensures exists k :: 0 <= k < |nowFound| && nowFound[k].source == p
    {
      if p == o {
        assert nowFound[|found|].source == o;
      } else {
        var k :| 0 <= k < |found| && found[k].source == p;
        assert nowFound[k].source == p;
      }
    }
  }

  // ---------------------------------------------------------------- the layout walk takes the same step

  lemma {:induction false} TopTask(
      view: View, nodes: seq<Node>, rest: seq<Pair>, s: nat, o: nat, origin: seq<nat>, l: Layout, skip: bool)
    requires view.Valid() && |origin| == |nodes| && forall p :: 0 <= p < |origin| ==> origin[p] < |view.nodes|
    requires Simulates(view, nodes, rest + [Pair(s, o)], origin, l, skip)
    requires forall k :: 0 <= k < |rest| ==> rest[k].target < |nodes|
    requires o < |nodes| && s < |view.nodes|
    ensures l.tasks != [] && TasksInRange(l)
    ensures
      var top := l.tasks[|l.tasks| - 1];
      top.output == o && SameBelow(top.shape, ShapeAt(view, s, skip))
  {
    var before := rest + [Pair(s, o)];
    assert before[|rest|] == Pair(s, o);
    assert forall k :: 0 <= k < |rest| ==> before[k] == rest[k];
  }

  /** The shape of the `k`-th child written. */
  lemma {:induction false} ChildShape(source: Source, s: nat, k: nat, skip: bool, top: Shape)
    requires source.script.Valid() && source.View().Valid() && s < |source.script.nodes|
    requires SameBelow(top, ShapeAt(source.View(), s, skip)) && k < CountOf(source, s)
    ensures |top.children| == CountOf(source, s) && ChildAt(source, s, k) < |source.script.nodes|
    ensures Reversed(top.children)[k] == ShapeAt(source.View(), ChildAt(source, s, k), skip)
  {
    var shape := ShapeAt(source.View(), s, skip);
    ShapeFields(source.View(), s, skip);
    SameChildren(top, shape);
    assert Reversed(top.children)[k] == shape.children[CountOf(source, s) - 1 - k];
  }

  lemma {:induction false} SameChildren(a: Shape, b: Shape)
    requires SameBelow(a, b)
    ensures a.nodeType == b.nodeType && a.children == b.children
  {
    assert a.(key := NONE).children == a.children;
    assert b.(key := NONE).children == b.children;
  }

  lemma {:induction false} NoChildren(source: Source, s: nat, skip: bool, top: Shape)
    requires source.script.Valid() && source.View().Valid() && s < |source.script.nodes|
    requires SameBelow(top, ShapeAt(source.View(), s, skip))
    ensures top.nodeType == source.script.nodes[s].nodeType && |top.children| == CountOf(source, s)
  {
    ShapeFields(source.View(), s, skip);
    SameChildren(top, ShapeAt(source.View(), s, skip));
  }

  lemma {:induction false} VisitTasks(
      source: Source, nodes: seq<Node>, rest: seq<Pair>, s: nat, o: nat, origin: seq<nat>, l: Layout, skip: bool)
    requires source.script.Valid() && source.View().Valid() && s < |source.script.nodes|
    requires |origin| == |nodes| && forall p :: 0 <= p < |origin| ==> origin[p] < |source.script.nodes|
    requires Simulates(source.View(), nodes, rest + [Pair(s, o)], origin, l, skip)
    requires o < |nodes| && forall k :: 0 <= k < |rest| ==> rest[k].target < |nodes|
    ensures l.tasks != [] && TasksInRange(l)
    ensures
      var next, pending := Step(l).tasks, rest + NewPending(source, s, |nodes|, CountOf(source, s));
      && |next| == |pending|
      && forall k :: 0 <= k < |pending| ==>
           next[k].output == pending[k].target && pending[k].source < |source.script.nodes|
           && SameBelow(next[k].shape, ShapeAt(source.View(), pending[k].source, skip))
  {
    var view := source.View();
    TopTask(view, nodes, rest, s, o, origin, l, skip);
    var top := l.tasks[|l.tasks| - 1].shape;
    NoChildren(source, s, skip, top);
    var before, c := rest + [Pair(s, o)], CountOf(source, s);
    var next, pending := Step(l).tasks, rest + NewPending(source, s, |nodes|, c);
    PushedTasks(l);
    forall k | 0 <= k < |pending|
      ensures next[k].output == pending[k].target && pending[k].source < |source.script.nodes|
      ensures SameBelow(next[k].shape, ShapeAt(view, pending[k].source, skip))
    {
      if k < |rest| {
        assert before[k] == rest[k];
        assert next[k] == l.tasks[k];
      } else {
        ChildShape(source, s, k - |rest|, skip, top);
      }
    }
  }

  /** The tasks after a step: those below the top one, and the children of the top one. */
  lemma {:induction false} PushedTasks(l: Layout)
    requires l.tasks != [] && l.tasks[|l.tasks| - 1].output < |l.cells|
    ensures
      var top, n, next := l.tasks[|l.tasks| - 1].shape, |l.tasks| - 1, Step(l).tasks;
      && |next| == n + (if IsContainer(top.nodeType) then |top.children| else 0)
      && (forall k :: 0 <= k < n ==> next[k] == l.tasks[k])
      && (forall k :: n <= k < |next| ==>
            next[k] == Task(Reversed(top.children)[k - n], |l.cells| + (k - n)))
  {
  }

  /** What a step of the layout walk does to a cell that was there before. */
  lemma {:induction false} StepOldCell(l: Layout, p: nat)
    requires l.tasks != [] && TasksInRange(l) && p < |l.cells|
    ensures |l.cells| <= |Step(l).cells|
    ensures
      var top := l.tasks[|l.tasks| - 1];
      Step(l).cells[p] ==
        if p == top.output && IsContainer(top.shape.nodeType) then l.cells[p].(begin := |l.cells|) else l.cells[p]
  {
  }

  lemma {:induction false} StepNewCell(l: Layout, k: nat)
    requires l.tasks != [] && TasksInRange(l) && k < |l.tasks[|l.tasks| - 1].shape.children|
    requires IsContainer(l.tasks[|l.tasks| - 1].shape.nodeType)
    ensures |Step(l).cells| == |l.cells| + |l.tasks[|l.tasks| - 1].shape.children|
    ensures Step(l).cells[|l.cells| + k] == CellOf(Reversed(l.tasks[|l.tasks| - 1].shape.children)[k])
  {
  }

  lemma {:induction false} OldCellMatches(
      source: Source, nodes: seq<Node>, before: seq<Pair>, s: nat, o: nat, origin: seq<nat>, cell: Cell, skip: bool,
      after: seq<Node>, trace: seq<nat>, next: seq<Pair>, p: nat)
    requires source.script.Valid() && source.View().Valid() && s < |source.script.nodes|
    requires TraceMoves(source, nodes, origin, before, s, o, after, trace, next)
    requires p < |nodes| && CellMatches(source.View(), nodes, before, origin, cell, skip, p)
    requires IsContainer(source.script.nodes[s].nodeType) ==> after[o].childrenBeginOrValue == |nodes|
    requires nodes[o].nodeType == source.script.nodes[s].nodeType
    ensures
      var isTop := p == o && IsContainer(source.script.nodes[s].nodeType);
      CellMatches(source.View(), after, next, trace, if isTop then cell.(begin := |nodes|) else cell, skip, p)
  {
    assert IsPending(next, p) <==> IsPending(before, p) && p != o;
    assert after[p].nodeType == nodes[p].nodeType && after[p].attributeKey == nodes[p].attributeKey;
  }

  lemma {:induction false} NewCellMatches(
      view: View, after: seq<Node>, trace: seq<nat>, next: seq<Pair>, cell: Cell, skip: bool, p: nat)
    requires view.Valid() && |trace| == |after| && p < |after| && trace[p] < |view.nodes|
    requires IsPending(next, p) && cell == CellOf(ShapeAt(view, trace[p], skip))
    requires after[p].nodeType == view.nodes[trace[p]].nodeType
    requires after[p].attributeKey == view.nodes[trace[p]].attributeKey
    ensures CellMatches(view, after, next, trace, cell, skip, p)
  {
    ShapeFields(view, trace[p], skip);
  }

  lemma {:induction false} VisitOldCell(
      source: Source, nodes: seq<Node>, before: seq<Pair>, s: nat, o: nat, origin: seq<nat>, l: Layout, skip: bool,
      after: seq<Node>, trace: seq<nat>, next: seq<Pair>, p: nat)
    requires source.script.Valid() && source.View().Valid() && s < |source.script.nodes|
    requires TraceMoves(source, nodes, origin, before, s, o, after, trace, next)
    requires p < |nodes| == |l.cells| && CellMatches(source.View(), nodes, before, origin, l.cells[p], skip, p)
    requires IsContainer(source.script.nodes[s].nodeType) ==> after[o].childrenBeginOrValue == |nodes|
    requires nodes[o].nodeType == source.script.nodes[s].nodeType
    requires l.tasks != [] && TasksInRange(l) && l.tasks[|l.tasks| - 1].output == o
    requires l.tasks[|l.tasks| - 1].shape.nodeType == source.script.nodes[s].nodeType
    ensures p < |Step(l).cells| && CellMatches(source.View(), after, next, trace, Step(l).cells[p], skip, p)
  {
    OldCellMatches(source, nodes, before, s, o, origin, l.cells[p], skip, after, trace, next, p);
    StepOldCell(l, p);
  }

  lemma {:induction false} VisitNewCell(
      source: Source, nodes: seq<Node>, before: seq<Pair>, s: nat, o: nat, origin: seq<nat>, l: Layout, skip: bool,
      after: seq<Node>, trace: seq<nat>, next: seq<Pair>, k: nat)
    requires source.script.Valid() && source.View().Valid()
    requires source.root < |source.script.nodes| && s < |source.script.nodes|
    requires TraceMoves(source, nodes, origin, before, s, o, after, trace, next) && CopiesOk(source, after, trace)
    requires |l.cells| == |nodes| && k < CountOf(source, s)
    requires l.tasks != [] && TasksInRange(l)
    requires SameBelow(l.tasks[|l.tasks| - 1].shape, ShapeAt(source.View(), s, skip))
    ensures |nodes| + k < |Step(l).cells|
    ensures CellMatches(source.View(), after, next, trace, Step(l).cells[|nodes| + k], skip, |nodes| + k)
  {
    var top := l.tasks[|l.tasks| - 1].shape;
    NoChildren(source, s, skip, top);
    ChildShape(source, s, k, skip, top);
    StepNewCell(l, k);
    NewCellMatches(source.View(), after, trace, next, Step(l).cells[|nodes| + k], skip, |nodes| + k);
  }

  lemma {:induction false} VisitCells(
      source: Source, nodes: seq<Node>, rest: seq<Pair>, s: nat, o: nat, origin: seq<nat>, l: Layout, skip: bool,
      after: seq<Node>, trace: seq<nat>, next: seq<Pair>)
    requires source.script.Valid() && source.View().Valid()
    requires source.root < |source.script.nodes| && s < |source.script.nodes|
    requires |origin| == |nodes| && forall p :: 0 <= p < |origin| ==> origin[p] < |source.script.nodes|
    requires Simulates(source.View(), nodes, rest + [Pair(s, o)], origin, l, skip)
    requires o < |nodes| && forall k :: 0 <= k < |rest| ==> rest[k].target < |nodes|
    requires TraceMoves(source, nodes, origin, rest + [Pair(s, o)], s, o, after, trace, next)
    requires CopiesOk(source, after, trace)
    requires IsContainer(source.script.nodes[s].nodeType) ==> after[o].childrenBeginOrValue == |nodes|
    ensures l.tasks != [] && TasksInRange(l) && |Step(l).cells| == |after|
    ensures forall p: nat :: p < |after| ==> CellMatches(source.View(), after, next, trace, Step(l).cells[p], skip, p)
  {
    var view := source.View();
    TopTask(view, nodes, rest, s, o, origin, l, skip);
    var top := l.tasks[|l.tasks| - 1].shape;
    NoChildren(source, s, skip, top);
    var before := rest + [Pair(s, o)];
    assert after[o].nodeType == nodes[o].nodeType && trace[o] == s;
    forall p: nat | p < |after|
      ensures CellMatches(view, after, next, trace, Step(l).cells[p], skip, p)
    {
      if p < |nodes| {
        VisitOldCell(source, nodes, before, s, o, origin, l, skip, after, trace, next, p);
      } else {
        VisitNewCell(source, nodes, before, s, o, origin, l, skip, after, trace, next, p - |nodes|);
      }
    }
  }
}
