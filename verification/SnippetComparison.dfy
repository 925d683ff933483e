/** Comparing and hashing snippets (`ScriptsAreEqual`, `ComputeScriptSignature`). */
module SnippetComparison {
  import opened Ast
  import opened SnippetShapes
  import opened SnippetLayout
  import opened SnippetForward
  import opened SnippetWalk
  import opened SnippetExtract

  /** A snippet's name, empty if the index is out of range. */
  function NameAt(names: seq<string>, id: nat): string {
    if id < |names| then names[id] else ""
  }

  /** The comparison of the nodes at one position, driven by the left node's type. */
  predicate NodesAgree(a: Snippet, b: Snippet, i: nat, skip: bool)
    requires i < |a.nodes| && i < |b.nodes|
  {
    var l, r := a.nodes[i], b.nodes[i];
    && l.nodeType == r.nodeType && l.attributeKey == r.attributeKey
    && (if l.nodeType == NAME then
          skip || NameAt(a.names, l.childrenBeginOrValue) == NameAt(b.names, r.childrenBeginOrValue)
        else if IsLiteralType(l.nodeType) then
          skip || TextAt(a.text, l.span) == TextAt(b.text, r.span)
        else
          l.childrenBeginOrValue == r.childrenBeginOrValue && l.childrenCount == r.childrenCount)
  }

  predicate SnippetsEqual(a: Snippet, b: Snippet, skip: bool) {
    |a.nodes| == |b.nodes| && forall i :: 0 <= i < |a.nodes| ==> NodesAgree(a, b, i, skip)
  }

  /** The comparison loop, which clears a flag and stops at the first difference. */
  method Equals(a: Snippet, b: Snippet, skip: bool) returns (equal: bool)
    ensures equal == SnippetsEqual(a, b, skip)
  {
    if |a.nodes| != |b.nodes| {
      return false;
    }
    equal := true;
    var i := 0;
    while i < |a.nodes| && equal
      invariant i <= |a.nodes|
      invariant equal == forall j :: 0 <= j < i ==> NodesAgree(a, b, j, skip)
    {
      var l, r := a.nodes[i], b.nodes[i];
      equal := equal && l.nodeType == r.nodeType;
      equal := equal && l.attributeKey == r.attributeKey;
      if l.nodeType == NAME {
        if !skip {
          equal := equal && NameAt(a.names, l.childrenBeginOrValue) == NameAt(b.names, r.childrenBeginOrValue);
        }
      } else if IsLiteralType(l.nodeType) {
        if !skip {
          equal := equal && TextAt(a.text, l.span) == TextAt(b.text, r.span);
        }
      } else {
        equal := equal && l.childrenBeginOrValue == r.childrenBeginOrValue;
        equal := equal && l.childrenCount == r.childrenCount;
      }
      assert equal == NodesAgree(a, b, i, skip);
      i := i + 1;
    }
  }

  // ---------------------------------------------------------------- the tree both sides stand for

  /** One tree, markers aside. */
  predicate SameTree(a: Shape, b: Shape) {
    && a.nodeType == b.nodeType && a.key == b.key && a.content == b.content
    && |a.children| == |b.children|
    && forall k :: 0 <= k < |a.children| ==> SameTree(a.children[k], b.children[k])
  }

  predicate SameTasks(a: seq<Task>, b: seq<Task>) {
    && |a| == |b|
    && forall k :: 0 <= k < |a| ==> a[k].output == b[k].output && SameTree(a[k].shape, b[k].shape)
  }

  lemma {:induction false} StepAlike(a: Layout, b: Layout)
    requires a.cells == b.cells && SameTasks(a.tasks, b.tasks) && a.tasks != []
    requires TasksInRange(a) && TasksInRange(b)
    ensures Step(a).cells == Step(b).cells && SameTasks(Step(a).tasks, Step(b).tasks)
  {
    var s, t := a.tasks[|a.tasks| - 1].shape, b.tasks[|b.tasks| - 1].shape;
    assert SameTree(s, t);
    if IsContainer(s.nodeType) {
      var cs, ct := Reversed(s.children), Reversed(t.children);
      forall k | 0 <= k < |cs|
        ensures SameTree(cs[k], ct[k]) && CellOf(cs[k]) == CellOf(ct[k])
      {
        assert SameTree(s.children[|s.children| - 1 - k], t.children[|t.children| - 1 - k]);
      }
      assert NewCells(cs) == NewCells(ct);
    }
  }

  lemma {:induction false} FinishAlike(a: Layout, b: Layout)
    requires a.cells == b.cells && SameTasks(a.tasks, b.tasks)
    requires TasksInRange(a) && TasksInRange(b)
    ensures Finish(a) == Finish(b)
    decreases Work(a.tasks)
  {
    if a.tasks != [] {
      StepAlike(a, b);
      StepInRange(a);
      StepInRange(b);
      StepWork(a);
      FinishAlike(Step(a), Step(b));
    }
  }

  /** One tree has one layout. */
  lemma {:induction false} SameTreeSameLayout(a: Shape, b: Shape)
    requires SameTree(a, b)
    ensures CanonicalCells(a) == CanonicalCells(b)
  {
    FinishAlike(Start(a), Start(b));
  }

  lemma {:induction false} NodesFromCell(a: Snippet, b: Snippet, cell: Cell, i: nat, skip: bool)
    requires a.AsView().Valid() && b.AsView().Valid() && i < |a.nodes| == |b.nodes|
    requires Realises(a.AsView(), cell, i, skip) && Realises(b.AsView(), cell, i, skip)
    ensures NodesAgree(a, b, i, skip)
  {
    assert a.AsView().NodeValid(i) && b.AsView().NodeValid(i);
  }

  /** Equal layouts are accepted. */
  lemma {:induction false} LaidOutAlikeEqual(a: Snippet, b: Snippet, cells: seq<Cell>, skip: bool)
    requires a.AsView().Valid() && b.AsView().Valid()
    requires LaidOutAs(a.AsView(), cells, skip) && LaidOutAs(b.AsView(), cells, skip)
    ensures SnippetsEqual(a, b, skip)
  {
    forall i: nat | i < |a.nodes|
      ensures NodesAgree(a, b, i, skip)
    {
      var p := |cells| - 1 - i;
      assert Realises(a.AsView(), cells[p], |cells| - 1 - p, skip);
      assert Realises(b.AsView(), cells[p], |cells| - 1 - p, skip);
      NodesFromCell(a, b, cells[p], i, skip);
    }
  }

  /** Accepted snippets stand for one tree, position by position. */
  lemma {:induction false} EqualNodesSameTree(a: Snippet, b: Snippet, i: nat, skip: bool)
    requires a.AsView().Valid() && b.AsView().Valid() && SnippetsEqual(a, b, skip) && i < |a.nodes|
    ensures SameTree(ShapeAt(a.AsView(), i, skip), ShapeAt(b.AsView(), i, skip))
    decreases i
  {
    assert NodesAgree(a, b, i, skip);
    assert a.AsView().NodeValid(i) && b.AsView().NodeValid(i);
    ShapeFields(a.AsView(), i, skip);
    ShapeFields(b.AsView(), i, skip);
    var s, t := ShapeAt(a.AsView(), i, skip), ShapeAt(b.AsView(), i, skip);
    forall k | 0 <= k < |s.children|
      ensures SameTree(s.children[k], t.children[k])
    {
      EqualNodesSameTree(a, b, a.nodes[i].childrenBeginOrValue + k, skip);
    }
  }

  /**
    Snippets are canonical: two extracted snippets are accepted as equal exactly when the subtrees they
    were extracted from are one tree, wherever those subtrees stood in whichever scripts. With names and
    literals skipped, the trees are compared up to names and literals. Visualisation enums count as containers,
    so subtrees that differ only in the values of such leaves are one tree.
  */
  lemma {:induction false} EqualsIffSameTree(left: Source, right: Source, a: Snippet, b: Snippet, skip: bool)
    requires left.Valid() && right.Valid() && IsSnippetOf(left, a) && IsSnippetOf(right, b)
    ensures SnippetsEqual(a, b, skip) <==> SameTree(RootShape(left, skip), RootShape(right, skip))
  {
    assert ShapeAt(a.AsView(), a.rootNodeId, skip) == RootShape(left, skip);
    assert ShapeAt(b.AsView(), b.rootNodeId, skip) == RootShape(right, skip);
    if SnippetsEqual(a, b, skip) {
      EqualNodesSameTree(a, b, a.rootNodeId, skip);
    }
    if SameTree(RootShape(left, skip), RootShape(right, skip)) {
      SameTreeSameLayout(RootShape(left, skip), RootShape(right, skip));
      LaidOutAlikeEqual(a, b, CanonicalCells(RootShape(left, skip)), skip);
    }
  }

  // ---------------------------------------------------------------- signatures

  /** The hash functions, left open. */
  datatype Hasher = Hasher(combine: (nat, nat) -> nat, text: string -> nat)

  /** The signature after one more node. Containers above `OBJECT_KEYS` do not hash their child offset. */
  function HashNode(h: Hasher, v: nat, s: Snippet, n: Node, skip: bool): nat {
    var v := h.combine(h.combine(v, n.nodeType % 0x1_0000), n.attributeKey % 0x1_0000);
    if n.nodeType == NAME then
      if skip then v else h.combine(v, h.text(NameAt(s.names, n.childrenBeginOrValue)))
    else if IsLiteralType(n.nodeType) then
      if skip then v else h.combine(v, h.text(TextAt(s.text, n.span)))
    else if n.nodeType >= OBJECT_KEYS then h.combine(v, n.childrenCount % 0x1_0000_0000)
    else h.combine(h.combine(v, n.childrenBeginOrValue % 0x1_0000), n.childrenCount % 0x1_0000_0000)
  }

  function SignatureOf(h: Hasher, s: Snippet, n: nat, skip: bool): nat
    requires n <= |s.nodes|
  {
    if n == 0 then 0 else HashNode(h, SignatureOf(h, s, n - 1, skip), s, s.nodes[n - 1], skip)
  }

  method ComputeSignature(h: Hasher, s: Snippet, skip: bool) returns (v: nat)
    ensures v == SignatureOf(h, s, |s.nodes|, skip)
  {
    v := 0;
    for i := 0 to |s.nodes|
      invariant v == SignatureOf(h, s, i, skip)
    {
      v := HashNode(h, v, s, s.nodes[i], skip);
    }
  }

  lemma {:induction false} EqualPrefixesHashAlike(h: Hasher, a: Snippet, b: Snippet, n: nat, skip: bool)
    requires SnippetsEqual(a, b, skip) && n <= |a.nodes|
    ensures SignatureOf(h, a, n, skip) == SignatureOf(h, b, n, skip)
  {
    if n > 0 {
      EqualPrefixesHashAlike(h, a, b, n - 1, skip);
      assert NodesAgree(a, b, n - 1, skip);
    }
  }

  /** The law that hash maps keyed by snippets rely on: equal snippets, extracted or not, hash alike. */
  lemma {:induction false} EqualSnippetsHashAlike(h: Hasher, a: Snippet, b: Snippet, skip: bool)
    requires SnippetsEqual(a, b, skip)
    ensures SignatureOf(h, a, |a.nodes|, skip) == SignatureOf(h, b, |b.nodes|, skip)
  {
    EqualPrefixesHashAlike(h, a, b, |a.nodes|, skip);
  }

  /** Snippets that are equal with names and literals are equal without them. */
  lemma {:induction false} EqualWithoutNames(a: Snippet, b: Snippet)
    requires SnippetsEqual(a, b, false)
    ensures SnippetsEqual(a, b, true)
  {
    forall i | 0 <= i < |a.nodes|
      ensures NodesAgree(a, b, i, true)
    {
      assert NodesAgree(a, b, i, false);
    }
  }

  /** Two occurrences of one tree, in any scripts, share their signature. */
  lemma {:induction false} OccurrencesHashAlike(
      h: Hasher, left: Source, right: Source, a: Snippet, b: Snippet, skip: bool)
    requires left.Valid() && right.Valid() && IsSnippetOf(left, a) && IsSnippetOf(right, b)
    requires SameTree(RootShape(left, skip), RootShape(right, skip))
    ensures SignatureOf(h, a, |a.nodes|, skip) == SignatureOf(h, b, |b.nodes|, skip)
  {
    EqualsIffSameTree(left, right, a, b, skip);
    EqualSnippetsHashAlike(h, a, b, skip);
  }
}
