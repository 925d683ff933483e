/** What equality of two snippets means for the scripts they were extracted from. */
module SnippetMeaning {
  import opened Ast
  import opened SnippetShapes
  import opened SnippetForward
  import opened SnippetExtract
  import opened SnippetPositions
  import opened SnippetComparison

  ghost function Written(script: Script, i: nat): string
    requires script.Valid() && i < |script.nodes|
  {
    script.text[script.SpanOf(i).offset..script.SpanOf(i).End()]
  }

  /**
    Two nodes say the same: type, children and key, the key of a root aside, and the value of a leaf; with
    names and literals also the name or the text.
  */
  ghost predicate SayTheSame(a: Script, b: Script, s: nat, t: nat, root: bool, skip: bool)
    requires a.Valid() && b.Valid()
  {
    && s < |a.nodes| && t < |b.nodes|
    && var l, r := a.nodes[s], b.nodes[t];
    && l.nodeType == r.nodeType && (!root ==> l.attributeKey == r.attributeKey)
    && (l.nodeType == NAME && !skip ==>
          l.childrenBeginOrValue < |a.names| && r.childrenBeginOrValue < |b.names|
          && a.names[l.childrenBeginOrValue] == b.names[r.childrenBeginOrValue])
    && (IsLiteralType(l.nodeType) && !skip ==> Written(a, s) == Written(b, t))
    && (l.nodeType != NAME && !IsLiteralType(l.nodeType) ==>
          l.childrenCount == r.childrenCount
          && (!IsContainer(l.nodeType) ==> l.childrenBeginOrValue == r.childrenBeginOrValue))
  }

  ghost predicate PathAgrees(left: Source, right: Source, path: seq<nat>, s: nat, t: nat, skip: bool)
    requires left.Valid() && right.Valid()
  {
    && Leads(right.View(), right.root, path, t)
    && SayTheSame(left.script, right.script, s, t, path == [], skip)
  }

  /** Every path of the left tree leads to a node of the right tree that says the same. */
  ghost predicate SourcesAgree(left: Source, right: Source, skip: bool)
    requires left.Valid() && right.Valid()
  {
    forall path: seq<nat>, s: nat {:trigger Leads(left.View(), left.root, path, s)} ::
      Leads(left.View(), left.root, path, s) ==> exists t: nat :: PathAgrees(left, right, path, s, t, skip)
  }

  // ---------------------------------------------------------------- equal snippets, agreeing sources

  lemma {:induction false} SamePosition(a: View, b: View, i: nat, path: seq<nat>, j: nat)
    requires a.Valid() && b.Valid() && |a.nodes| == |b.nodes| && i < |a.nodes| && Leads(a, i, path, j)
    requires forall k: nat :: k < |a.nodes| ==> a.ChildCount(k) == b.ChildCount(k)
    requires forall k: nat :: k < |a.nodes| && a.ChildCount(k) > 0 ==>
      a.nodes[k].childrenBeginOrValue == b.nodes[k].childrenBeginOrValue
    ensures Leads(b, i, path, j)
    decreases |path|
  {
    if path != [] {
      assert a.NodeValid(i);
      SamePosition(a, b, a.nodes[i].childrenBeginOrValue + path[0], path[1..], j);
    }
  }

  lemma {:induction false} EqualPositions(a: Snippet, b: Snippet, skip: bool, i: nat, path: seq<nat>, j: nat)
    requires a.AsView().Valid() && b.AsView().Valid() && SnippetsEqual(a, b, skip)
    requires i < |a.nodes| && Leads(a.AsView(), i, path, j)
    ensures Leads(b.AsView(), i, path, j)
  {
    forall k: nat | k < |a.nodes|
      ensures a.AsView().ChildCount(k) == b.AsView().ChildCount(k)
      ensures a.AsView().ChildCount(k) > 0 ==> a.nodes[k].childrenBeginOrValue == b.nodes[k].childrenBeginOrValue
    {
      assert NodesAgree(a, b, k, skip);
    }
    SamePosition(a.AsView(), b.AsView(), i, path, j);
  }

  /** The end of a path in the tree that a node array stands for. */
  lemma {:induction false} EndOfPath(source: Source, out: Snippet, path: seq<nat>, s: nat) returns (i: nat)
    requires source.Valid() && IsSnippetOf(source, out) && Leads(source.View(), source.root, path, s)
    ensures out.AsView().Valid() && out.rootNodeId == |out.nodes| - 1
    ensures i < |out.nodes| && Leads(out.AsView(), out.rootNodeId, path, i) && CopiesNode(source, out, i, s)
    ensures i == |out.nodes| - 1 <==> path == []
  {
    LeadsIsPath(source.View(), source.root, path, s, false);
    var shape := ShapeAt(source.View(), source.root, false);
    assert ShapeAt(out.AsView(), out.rootNodeId, false) == shape.(key := NONE);
    assert shape.(key := NONE).children == shape.children;
    assert IsPath(shape.(key := NONE), path);
    i := PathLeads(out.AsView(), out.rootNodeId, path, false);
    NodeOfPath(source, out, path, i, s);
    RootIsLast(out.AsView(), path, i);
  }

  lemma {:induction false} StartOfPath(source: Source, out: Snippet, path: seq<nat>, i: nat) returns (s: nat)
    requires source.Valid() && IsSnippetOf(source, out) && Leads(out.AsView(), out.rootNodeId, path, i)
    ensures Leads(source.View(), source.root, path, s) && CopiesNode(source, out, i, s)
  {
    LeadsIsPath(out.AsView(), out.rootNodeId, path, i, false);
    var shape := ShapeAt(source.View(), source.root, false);
    assert ShapeAt(out.AsView(), out.rootNodeId, false) == shape.(key := NONE);
    assert shape.(key := NONE).children == shape.children;
    assert IsPath(shape, path);
    s := PathLeads(source.View(), source.root, path, false);
    NodeOfPath(source, out, path, i, s);
  }

  lemma {:induction false} RootIsLast(view: View, path: seq<nat>, i: nat)
    requires view.Valid() && view.nodes != [] && Leads(view, |view.nodes| - 1, path, i)
    ensures i == |view.nodes| - 1 <==> path == []
  {
    if path != [] {
      assert view.NodeValid(|view.nodes| - 1);
      LeadsDown(view, view.nodes[|view.nodes| - 1].childrenBeginOrValue + path[0], path[1..], i);
    }
  }

  lemma {:induction false} LeadsDown(view: View, i: nat, path: seq<nat>, j: nat)
    requires view.Valid() && i < |view.nodes| && Leads(view, i, path, j)
    ensures j <= i
    decreases |path|
  {
    if path != [] {
      assert view.NodeValid(i);
      LeadsDown(view, view.nodes[i].childrenBeginOrValue + path[0], path[1..], j);
    }
  }

  lemma {:induction false} TextOfCopy(source: Source, out: Snippet, i: nat, s: nat)
    requires source.Valid() && IsSnippetOf(source, out) && CopiesNode(source, out, i, s)
    ensures TextAt(out.text, out.nodes[i].span) == Written(source.script, s)
  {
    var range := source.script.SpanOf(source.root);
    SliceInside(source.script.text, range.offset, range.End(), out.nodes[i].span);
  }

  /** The same position of two equal snippets was copied from nodes that say the same. */
  lemma {:induction false} CopiesSayTheSame(
      left: Source, right: Source, a: Snippet, b: Snippet, skip: bool, i: nat, s: nat, t: nat)
    requires left.script.Valid() && left.root < |left.script.nodes|
    requires right.script.Valid() && right.root < |right.script.nodes|
    requires |a.nodes| == |b.nodes| && CopiesNode(left, a, i, s) && CopiesNode(right, b, i, t)
    requires NodesAgree(a, b, i, skip)
    requires TextAt(a.text, a.nodes[i].span) == Written(left.script, s)
    requires TextAt(b.text, b.nodes[i].span) == Written(right.script, t)
    ensures SayTheSame(left.script, right.script, s, t, i == |a.nodes| - 1, skip)
  {
  }

  lemma {:induction false} EqualPathAgrees(
      left: Source, right: Source, a: Snippet, b: Snippet, skip: bool, path: seq<nat>, s: nat) returns (t: nat)
    requires left.Valid() && right.Valid() && IsSnippetOf(left, a) && IsSnippetOf(right, b)
    requires SnippetsEqual(a, b, skip) && Leads(left.View(), left.root, path, s)
    ensures PathAgrees(left, right, path, s, t, skip)
  {
    var i := EndOfPath(left, a, path, s);
    t := SamePlace(right, a, b, skip, path, i);
    TextOfCopy(left, a, i, s);
    TextOfCopy(right, b, i, t);
    CopiesSayTheSame(left, right, a, b, skip, i, s, t);
  }

  /** The node that the same position of an equal snippet was copied from. */
  lemma {:induction false} SamePlace(source: Source, a: Snippet, b: Snippet, skip: bool, path: seq<nat>, i: nat)
    returns (t: nat)
    requires source.Valid() && IsSnippetOf(source, b) && a.AsView().Valid() && a.rootNodeId == |a.nodes| - 1
    requires SnippetsEqual(a, b, skip) && Leads(a.AsView(), a.rootNodeId, path, i) && i < |a.nodes|
    ensures Leads(source.View(), source.root, path, t) && CopiesNode(source, b, i, t)
    ensures |a.nodes| == |b.nodes| && NodesAgree(a, b, i, skip)
  {
    EqualPositions(a, b, skip, a.rootNodeId, path, i);
    t := StartOfPath(source, b, path, i);
  }

  lemma {:induction false} EqualMeansAgreement(left: Source, right: Source, a: Snippet, b: Snippet, skip: bool)
    requires left.Valid() && right.Valid() && IsSnippetOf(left, a) && IsSnippetOf(right, b)
    requires SnippetsEqual(a, b, skip)
    ensures SourcesAgree(left, right, skip)
  {
    forall path: seq<nat>, s: nat | Leads(left.View(), left.root, path, s)
      ensures exists t: nat :: PathAgrees(left, right, path, s, t, skip)
    {
      var t := EqualPathAgrees(left, right, a, b, skip, path, s);
    }
  }

  // ---------------------------------------------------------------- agreeing sources, equal snippets

  lemma {:induction false} LeadsOnce(view: View, i: nat, path: seq<nat>, s: nat, t: nat)
    requires Leads(view, i, path, s) && Leads(view, i, path, t)
    ensures s == t
    decreases |path|
  {
    if path != [] {
      LeadsOnce(view, view.nodes[i].childrenBeginOrValue + path[0], path[1..], s, t);
    }
  }

  /** Two nodes of two trees agree, their children aside. */
  ghost predicate NodesMatch(a: View, b: View, s: nat, t: nat, root: bool, skip: bool)
    requires a.Valid() && b.Valid()
  {
    && s < |a.nodes| && t < |b.nodes|
    && a.nodes[s].nodeType == b.nodes[t].nodeType && ContentAt(a, s, skip) == ContentAt(b, t, skip)
    && a.ChildCount(s) == b.ChildCount(t)
    && (!root ==> a.nodes[s].attributeKey == b.nodes[t].attributeKey)
  }

  /** Along every path, the nodes of the trees at `i` and `j` agree. */
  ghost predicate ViewsAgree(a: View, b: View, i: nat, j: nat, root: bool, skip: bool)
    requires a.Valid() && b.Valid()
  {
    forall path: seq<nat>, s: nat, t: nat {:trigger Leads(a, i, path, s), Leads(b, j, path, t)} ::
      Leads(a, i, path, s) && Leads(b, j, path, t) ==> NodesMatch(a, b, s, t, root && path == [], skip)
  }

  lemma {:induction false} ChildViewsAgree(a: View, b: View, i: nat, j: nat, root: bool, skip: bool, k: nat)
    requires a.Valid() && b.Valid() && i < |a.nodes| && j < |b.nodes| && ViewsAgree(a, b, i, j, root, skip)
    requires k < a.ChildCount(i) && k < b.ChildCount(j)
    ensures ViewsAgree(
      a, b, a.nodes[i].childrenBeginOrValue + k, b.nodes[j].childrenBeginOrValue + k, false, skip)
  {
    var c, d := a.nodes[i].childrenBeginOrValue + k, b.nodes[j].childrenBeginOrValue + k;
    forall path: seq<nat>, s: nat, t: nat | Leads(a, c, path, s) && Leads(b, d, path, t)
      ensures NodesMatch(a, b, s, t, false, skip)
    {
      assert ([k] + path)[1..] == path;
      assert Leads(a, i, [k] + path, s) && Leads(b, j, [k] + path, t);
    }
  }

  lemma {:induction false} ChildBelow(view: View, s: nat, k: nat)
    requires view.Valid() && s < |view.nodes| && k < view.ChildCount(s)
    ensures view.nodes[s].childrenBeginOrValue + k < s
  {
    assert view.NodeValid(s);
  }

  /** Agreement along all paths makes two trees one, the keys of their roots aside. */
  lemma {:induction false} AgreementIsSameTree(a: View, b: View, i: nat, j: nat, root: bool, skip: bool)
    requires a.Valid() && b.Valid() && i < |a.nodes| && j < |b.nodes| && ViewsAgree(a, b, i, j, root, skip)
    ensures SameTree(ShapeAt(a, i, skip).(key := NONE), ShapeAt(b, j, skip).(key := NONE))
    ensures !root ==> SameTree(ShapeAt(a, i, skip), ShapeAt(b, j, skip))
    decreases i
  {
    var here: seq<nat> := [];
    assert Leads(a, i, here, i) && Leads(b, j, here, j);
    assert NodesMatch(a, b, i, j, root, skip);
    ShapeFields(a, i, skip);
    ShapeFields(b, j, skip);
    var u, v := ShapeAt(a, i, skip), ShapeAt(b, j, skip);
    forall k: nat | k < |u.children|
      ensures SameTree(u.children[k], v.children[k])
    {
      ChildViewsAgree(a, b, i, j, root, skip, k);
      ChildBelow(a, i, k);
      ChildBelow(b, j, k);
      AgreementIsSameTree(
        a, b, a.nodes[i].childrenBeginOrValue + k, b.nodes[j].childrenBeginOrValue + k, false, skip);
    }
  }

  lemma {:induction false} NodeTextIsWritten(script: Script, s: nat)
    requires script.Valid() && s < |script.nodes|
    ensures script.NodeText(s) == Written(script, s)
  {
  }

  lemma {:induction false} SayTheSameMatches(left: Source, right: Source, s: nat, t: nat, root: bool, skip: bool)
    requires left.Valid() && right.Valid() && SayTheSame(left.script, right.script, s, t, root, skip)
    ensures NodesMatch(left.View(), right.View(), s, t, root, skip)
  {
    NodeTextIsWritten(left.script, s);
    NodeTextIsWritten(right.script, t);
    assert left.View().texts[s] == left.script.NodeText(s) && right.View().texts[t] == right.script.NodeText(t);
  }

  lemma {:induction false} SourcesMatch(left: Source, right: Source, skip: bool)
    requires left.Valid() && right.Valid() && SourcesAgree(left, right, skip)
    ensures ViewsAgree(left.View(), right.View(), left.root, right.root, true, skip)
  {
    forall path: seq<nat>, s: nat, t: nat |
        Leads(left.View(), left.root, path, s) && Leads(right.View(), right.root, path, t)
      ensures NodesMatch(left.View(), right.View(), s, t, path == [], skip)
    {
      var e: nat :| PathAgrees(left, right, path, s, e, skip);
      LeadsOnce(right.View(), right.root, path, e, t);
      SayTheSameMatches(left, right, s, t, path == [], skip);
    }
  }

  /**
    Two snippets are equal exactly if the subtrees they were extracted from agree on the nodes of their
    scripts, path by path.
  */
  lemma {:induction false} EqualIffSourcesAgree(left: Source, right: Source, a: Snippet, b: Snippet, skip: bool)
    requires left.Valid() && right.Valid() && IsSnippetOf(left, a) && IsSnippetOf(right, b)
    ensures SnippetsEqual(a, b, skip) <==> SourcesAgree(left, right, skip)
  {
    if SnippetsEqual(a, b, skip) {
      EqualMeansAgreement(left, right, a, b, skip);
    }
    if SourcesAgree(left, right, skip) {
      SourcesMatch(left, right, skip);
      AgreementIsSameTree(left.View(), right.View(), left.root, right.root, true, skip);
      EqualsIffSameTree(left, right, a, b, skip);
    }
  }
}
