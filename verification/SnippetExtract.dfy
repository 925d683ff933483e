/** Extracting a subtree of a script as a self-contained snippet (`ScriptSnippet::Extract`). */
module SnippetExtract {
  import opened Ast
  import opened SnippetShapes
  import opened SnippetLayout
  import opened SnippetForward
  import opened SnippetWalk
  import opened SnippetReversal

  /** The parent index of the root. */
  const NO_PARENT: nat := 0xFFFF_FFFF

  datatype Snippet = Snippet(
    text: string,
    names: seq<string>,
    nodes: seq<Node>,
    rootNodeId: nat,
    nodeMarkers: seq<nat>
  ) {
    ghost function AsView(): (r: View)
      ensures r.nodes == nodes && r.names == names && r.markers == nodeMarkers
      ensures |r.texts| == |nodes|
      ensures forall i: nat :: i < |nodes| ==> r.texts[i] == TextAt(text, nodes[i].span)
    {
      View(nodes, names, seq(|nodes|, i requires 0 <= i < |nodes| => TextAt(text, nodes[i].span)), nodeMarkers)
    }
  }

  const EMPTY_SNIPPET := Snippet("", [], [], 0, [])

  /** Position `p` lies in the child block of node `q`. */
  predicate InBlock(nodes: seq<Node>, q: nat, p: nat)
    requires q < |nodes|
  {
    && (nodes[q].nodeType == ARRAY || nodes[q].nodeType >= OBJECT_KEYS)
    && nodes[q].childrenBeginOrValue <= p < nodes[q].childrenBeginOrValue + nodes[q].childrenCount
  }

  ghost predicate HasParent(nodes: seq<Node>, p: nat) {
    exists q: nat :: q < |nodes| && InBlock(nodes, q, p)
  }

  /** The child blocks tile all positions but the last, and every block ends before its parent. */
  ghost predicate Tiled(nodes: seq<Node>) {
    && (forall q: nat, p: nat :: q < |nodes| && InBlock(nodes, q, p) ==> p < q)
    && (forall p: nat :: p < |nodes| - 1 ==> HasParent(nodes, p))
    && (forall q: nat, r: nat, p: nat | q < |nodes| && r < |nodes| ::
          InBlock(nodes, q, p) && InBlock(nodes, r, p) ==> q == r)
  }

  /** The node at `p` names the node whose child block it lies in. */
  ghost predicate NamesParent(nodes: seq<Node>, p: nat)
    requires p < |nodes|
  {
    nodes[p].parent < |nodes| && InBlock(nodes, nodes[p].parent, p)
  }

  /** Containers below the root name their parents. The parent indices of leaves are not patched. */
  ghost predicate ParentsPatched(nodes: seq<Node>) {
    forall p: nat :: p < |nodes| - 1 && IsContainer(nodes[p].nodeType) ==> NamesParent(nodes, p)
  }

  /** The node at `i` realises a cell of a layout of `size` nodes, turned around. */
  ghost predicate Realises(view: View, cell: Cell, i: nat, skip: bool)
    requires view.Valid() && i < |view.nodes|
  {
    var n := view.nodes[i];
    && cell.nodeType == n.nodeType && cell.key == n.attributeKey
    && cell.content == ContentAt(view, i, skip)
    && cell.count == view.ChildCount(i)
    && (if IsContainer(n.nodeType) then n.childrenBeginOrValue + cell.begin + cell.count == |view.nodes|
        else cell.begin == 0)
  }

  /** The nodes are the canonical layout of a shape, turned around. */
  ghost predicate LaidOutAs(view: View, cells: seq<Cell>, skip: bool)
    requires view.Valid()
  {
    && |cells| == |view.nodes|
    && forall p: nat :: p < |cells| ==> Realises(view, cells[p], |cells| - 1 - p, skip)
  }

  /** The node at `i` says in the snippet what node `s` says in the script. */
  ghost predicate CopiesNode(source: Source, out: Snippet, i: nat, s: nat)
    requires source.script.Valid() && source.root < |source.script.nodes|
  {
    && i < |out.nodes| == |out.nodeMarkers| && s < |source.script.nodes| == |source.markers|
    && var n, m := out.nodes[i], source.script.nodes[s];
    && n.nodeType == m.nodeType && n.childrenCount == m.childrenCount
    && n.attributeKey == (if i == |out.nodes| - 1 then NONE else m.attributeKey)
    && out.nodeMarkers[i] == source.markers[s]
    && n.span.length == source.script.SpanOf(s).length
    && source.script.SpanOf(source.root).offset + n.span.offset == source.script.SpanOf(s).offset
    && n.span.End() <= source.script.SpanOf(source.root).length
    && (n.nodeType == NAME ==>
          n.childrenBeginOrValue < |out.names| && m.childrenBeginOrValue < |source.script.names|
          && out.names[n.childrenBeginOrValue] == source.script.names[m.childrenBeginOrValue])
    && (n.nodeType != NAME && !IsContainer(n.nodeType) ==> n.childrenBeginOrValue == m.childrenBeginOrValue)
  }

  /** `image` says which node of the script every node was copied from, children from children in order. */
  ghost predicate IsImage(source: Source, out: Snippet, image: seq<nat>)
    requires source.script.Valid() && source.root < |source.script.nodes|
  {
    && |image| == |out.nodes| > 0 && image[|image| - 1] == source.root
    && (forall i: nat {:trigger CopiesNode(source, out, i, image[i])} :: i < |image| ==>
          CopiesNode(source, out, i, image[i]))
    && ChildrenFollow(out.nodes, source.script.nodes, image)
  }

  ghost predicate ChildrenFollow(a: seq<Node>, b: seq<Node>, image: seq<nat>)
    requires |image| == |a|
  {
    forall i: nat, c: nat {:trigger InBlock(a, i, c)} :: i < |a| && InBlock(a, i, c) ==>
      c < i && image[i] < |b| && image[c] + a[i].childrenBeginOrValue == b[image[i]].childrenBeginOrValue + c
  }

  /**
    A faithful, canonical copy of a subtree: the snippet's tree is the source's, markers included, and its
    nodes are those of the source, with their texts; its root is last, its child blocks tile the other
    positions, and its layout depends on the tree alone.
  */
  ghost predicate IsSnippetOf(source: Source, out: Snippet)
    requires source.Valid()
  {
    && out.nodes != [] && out.rootNodeId == |out.nodes| - 1
    && (var span := source.script.SpanOf(source.root); out.text == source.script.text[span.offset..span.End()])
    && out.AsView().Valid() && Tiled(out.nodes)
    && out.nodes[out.rootNodeId].parent == NO_PARENT
    && ParentsPatched(out.nodes)
    && (exists image :: IsImage(source, out, image))
    && (forall skip: bool :: ShapeAt(out.AsView(), out.rootNodeId, skip) == RootShape(source, skip))
    && (forall skip: bool :: LaidOutAs(out.AsView(), CanonicalCells(RootShape(source, skip)), skip))
  }

  // ---------------------------------------------------------------- from the copied nodes to the snippet

  /** Position `p` holds its copy, patched; the root's parent index is left open. */
  ghost predicate TurnedAt(nodes: seq<Node>, copied: seq<Node>, p: nat)
    requires p < |nodes| == |copied|
  {
    && Patchable(copied[|nodes| - 1 - p], |nodes|)
    && nodes[p].(parent := 0) == Patch(copied[|nodes| - 1 - p], |nodes|).(parent := 0)
    && (p < |nodes| - 1 ==> nodes[p].parent == Patch(copied[|nodes| - 1 - p], |nodes|).parent)
  }

  /** `nodes` holds the copied nodes turned around. */
  ghost predicate TurnedFrom(nodes: seq<Node>, copied: seq<Node>) {
    && |nodes| == |copied|
    && forall p: nat {:trigger TurnedAt(nodes, copied, p)} :: p < |nodes| ==> TurnedAt(nodes, copied, p)
  }

  ghost predicate MarkersFrom(view: View, out: Snippet, origin: seq<nat>)
    requires |view.markers| == |view.nodes| && forall p :: 0 <= p < |origin| ==> origin[p] < |view.nodes|
  {
    && |out.nodeMarkers| == |origin|
    && forall p: nat :: p < |origin| ==> out.nodeMarkers[|origin| - 1 - p] == view.markers[origin[p]]
  }

  ghost predicate Assembled(source: Source, st: Copy, origin: seq<nat>, out: Snippet)
    requires source.Valid()
  {
    && NodesOk(source, st, origin) && st.pending == []
    && out.names == st.names && TurnedFrom(out.nodes, st.nodes)
    && MarkersFrom(source.View(), out, origin)
    && out.text == Substr(source.script.text, source.Range().offset, source.Range().length)
  }

  lemma {:induction false} CopiedArePatchable(source: Source, st: Copy, origin: seq<nat>)
    requires source.Valid() && NodesOk(source, st, origin) && st.pending == []
    ensures AllPatchable(st.nodes)
  {
    forall p: nat | p < |st.nodes|
      ensures Patchable(st.nodes[p], |st.nodes|)
    {
      assert !IsPending(st.pending, p);
      assert st.nodes[p].nodeType == source.script.nodes[origin[p]].nodeType;
      if IsContainer(st.nodes[p].nodeType) {
        assert BlockOk(source.View(), st.nodes, origin, p);
        if p > 0 {
          assert ParentOk(source.View(), st.nodes, st.pending, origin, p);
        }
      }
    }
  }

  /** The node at position `i`, in terms of its copy and its source. */
  ghost predicate NodeFacts(source: Source, copied: seq<Node>, origin: seq<nat>, out: Snippet, i: nat)
    requires source.script.Valid() && source.root < |source.script.nodes|
  {
    var p := |out.nodes| - 1 - i;
    && i < |out.nodes| == |origin| == |copied| && origin[p] < |source.script.nodes|
    && var n, f, s := out.nodes[i], copied[p], source.script.nodes[origin[p]];
    && n.nodeType == f.nodeType == s.nodeType && n.childrenCount == s.childrenCount == f.childrenCount
    && n.attributeKey == (if p == 0 then NONE else s.attributeKey)
    && source.Fits(origin[p]) && n.span == source.PatchedSpan(origin[p])
    && n.childrenBeginOrValue ==
         (if IsContainer(n.nodeType) then |out.nodes| - f.childrenBeginOrValue - f.childrenCount
          else f.childrenBeginOrValue)
    && (n.nodeType == NAME ==>
          n.childrenBeginOrValue < |out.names| && s.childrenBeginOrValue < |source.script.names|
          && out.names[n.childrenBeginOrValue] == source.script.names[s.childrenBeginOrValue])
    && (n.nodeType != NAME && !IsContainer(n.nodeType) ==> n.childrenBeginOrValue == s.childrenBeginOrValue)
  }

  lemma {:induction false} NodeAt(source: Source, st: Copy, origin: seq<nat>, out: Snippet, i: nat)
    requires source.Valid() && Assembled(source, st, origin, out) && i < |out.nodes|
    ensures NodeFacts(source, st.nodes, origin, out, i)
    ensures
      var p := |out.nodes| - 1 - i;
      && (IsContainer(out.nodes[i].nodeType) ==> BlockOk(source.View(), st.nodes, origin, p))
      && |out.nodeMarkers| == |out.nodes| && out.nodeMarkers[i] == source.View().markers[origin[p]]
      && st.pending == []
  {
    var p := |out.nodes| - 1 - i;
    assert !IsPending(st.pending, p);
    assert TurnedAt(out.nodes, st.nodes, i);
    assert out.nodeMarkers[|origin| - 1 - p] == source.View().markers[origin[p]];
    assert ValueOk(source.View(), st.nodes, st.names, st.pending, origin, p);
  }

  lemma {:induction false} SnippetViewValid(source: Source, st: Copy, origin: seq<nat>, out: Snippet)
    requires source.Valid() && Assembled(source, st, origin, out)
    ensures out.AsView().Valid()
  {
    forall i: nat | i < |out.nodes|
      ensures out.AsView().NodeValid(i)
    {
      NodeAt(source, st, origin, out, i);
    }
  }

  lemma {:induction false} SliceOfSlice<T>(xs: seq<T>, a: nat, b: nat, c: nat, d: nat)
    requires a <= b <= |xs| && c <= d <= b - a
    ensures xs[a..b][c..d] == xs[a + c..a + d]
  {
    var inner, outer := xs[a..b][c..d], xs[a + c..a + d];
    forall k | 0 <= k < d - c
      ensures inner[k] == outer[k]
    {
      assert inner[k] == xs[a..b][c + k];
    }
  }

  /** A snippet's text at a relative span is the script's text at the original one. */
  lemma {:induction false} RelativeText(text: string, range: Span, span: Span)
    requires range.End() <= |text|
    requires range.offset <= span.offset && span.End() <= range.End()
    ensures TextAt(Substr(text, range.offset, range.length), Span(span.offset - range.offset, span.length))
         == Substr(text, span.offset, span.length)
  {
    var from := span.offset - range.offset;
    assert Substr(text, range.offset, range.length) == text[range.offset..range.End()];
    SliceOfSlice(text, range.offset, range.End(), from, from + span.length);
  }

  /** Nodes of two views that agree in all their fields hold the same. */
  lemma {:induction false} SameFieldsSameContent(a: View, b: View, i: nat, j: nat, skip: bool)
    requires a.Valid() && b.Valid() && i < |a.nodes| && j < |b.nodes|
    requires a.nodes[i].nodeType == b.nodes[j].nodeType && a.nodes[i].childrenCount == b.nodes[j].childrenCount
    requires a.texts[i] == b.texts[j]
    requires a.nodes[i].nodeType == NAME ==>
      a.nodes[i].childrenBeginOrValue < |a.names| && b.nodes[j].childrenBeginOrValue < |b.names|
      && a.names[a.nodes[i].childrenBeginOrValue] == b.names[b.nodes[j].childrenBeginOrValue]
    requires a.nodes[i].nodeType != NAME && !IsContainer(a.nodes[i].nodeType) ==>
      a.nodes[i].childrenBeginOrValue == b.nodes[j].childrenBeginOrValue
    ensures ContentAt(a, i, skip) == ContentAt(b, j, skip)
  {
  }

  lemma {:induction false} TextMatches(source: Source, out: Snippet, i: nat, s: nat)
    requires source.script.Valid() && source.root < |source.script.nodes|
    requires i < |out.nodes| && s < |source.script.nodes| && source.Fits(s)
    requires out.nodes[i].span == source.PatchedSpan(s)
    requires out.text == Substr(source.script.text, source.Range().offset, source.Range().length)
    ensures out.AsView().texts[i] == source.View().texts[s]
  {
    RelativeText(source.script.text, source.Range(), source.script.SpanOf(s));
  }

  lemma {:induction false} ContentMatches(
      source: Source, copied: seq<Node>, origin: seq<nat>, out: Snippet, i: nat, skip: bool)
    requires source.script.Valid() && source.root < |source.script.nodes| && source.View().Valid()
    requires NodeFacts(source, copied, origin, out, i) && out.AsView().Valid()
    requires out.text == Substr(source.script.text, source.Range().offset, source.Range().length)
    ensures ContentAt(out.AsView(), i, skip) == ContentAt(source.View(), origin[|out.nodes| - 1 - i], skip)
  {
    var s := origin[|out.nodes| - 1 - i];
    TextMatches(source, out, i, s);
    SameFieldsSameContent(out.AsView(), source.View(), i, s, skip);
  }

  /** The `k`-th child of a snippet node was copied from the `k`-th child of its source. */
  lemma {:induction false} ChildMatches(
      source: Source, copied: seq<Node>, origin: seq<nat>, out: Snippet, i: nat, k: nat)
    requires source.script.Valid() && source.root < |source.script.nodes|
    requires NodeFacts(source, copied, origin, out, i) && k < out.AsView().ChildCount(i)
    requires BlockOk(source.View(), copied, origin, |out.nodes| - 1 - i)
    ensures
      var child := out.nodes[i].childrenBeginOrValue + k;
      && child < i && |out.nodes| - 1 - child > 0
      && origin[|out.nodes| - 1 - child]
         == source.script.nodes[origin[|out.nodes| - 1 - i]].childrenBeginOrValue + k
  {
    var p := |out.nodes| - 1 - i;
    var x := copied[p].childrenBeginOrValue + (copied[p].childrenCount - 1 - k);
    assert origin[x] == source.script.nodes[origin[p]].childrenBeginOrValue + k;
  }

  /** The source node of every snippet node. */
  ghost function Image(origin: seq<nat>): (r: seq<nat>)
    ensures |r| == |origin| && forall i :: 0 <= i < |r| ==> r[i] == origin[|origin| - 1 - i]
  {
    seq(|origin|, i requires 0 <= i < |origin| => origin[|origin| - 1 - i])
  }

  lemma {:induction false} ImageAt(origin: seq<nat>, i: nat)
    requires i < |origin|
    ensures |Image(origin)| == |origin| && Image(origin)[i] == origin[|origin| - 1 - i]
  {
  }

  lemma {:induction false} NodeMirrors(
      source: Source, st: Copy, origin: seq<nat>, out: Snippet, i: nat, skip: bool)
    requires source.Valid() && Assembled(source, st, origin, out) && i < |out.nodes|
    requires out.AsView().Valid()
    ensures i < |Image(origin)| == |out.nodes| && Image(origin)[i] < |source.View().nodes|
    ensures MirrorsAt(out.AsView(), source.View(), Image(origin), i, skip)
  {
    NodeAt(source, st, origin, out, i);
    ContentMatches(source, st.nodes, origin, out, i, skip);
    forall c: nat | IsChildOf(out, i, c)
      ensures IsCopyOfChild(source.script.nodes, origin, out, i, c)
    {
      ChildMatches(source, st.nodes, origin, out, i, c - out.nodes[i].childrenBeginOrValue);
      NodeAt(source, st, origin, out, c);
      ChildCopied(source, st.nodes, origin, out, i, c);
    }
    FactsMirror(source, st.nodes, origin, out, i, skip);
  }

  predicate IsChildOf(out: Snippet, i: nat, c: nat)
    requires i < |out.nodes|
  {
    && IsContainer(out.nodes[i].nodeType)
    && out.nodes[i].childrenBeginOrValue <= c < out.nodes[i].childrenBeginOrValue + out.nodes[i].childrenCount
  }

  /** The child `c` of a snippet node was copied from the child of its source, with its key. */
  ghost predicate IsCopyOfChild(nodes: seq<Node>, origin: seq<nat>, out: Snippet, i: nat, c: nat)
    requires i < |out.nodes| == |origin| && origin[|origin| - 1 - i] < |nodes|
  {
    && c < i && origin[|origin| - 1 - c] < |nodes|
    && origin[|origin| - 1 - c] + out.nodes[i].childrenBeginOrValue
       == nodes[origin[|origin| - 1 - i]].childrenBeginOrValue + c
    && out.nodes[c].attributeKey == nodes[origin[|origin| - 1 - c]].attributeKey
  }

  lemma {:induction false} ChildCopied(
      source: Source, copied: seq<Node>, origin: seq<nat>, out: Snippet, i: nat, c: nat)
    requires source.script.Valid() && source.root < |source.script.nodes|
    requires NodeFacts(source, copied, origin, out, i) && NodeFacts(source, copied, origin, out, c)
    requires c < i && |out.nodes| - 1 - c > 0
    requires origin[|out.nodes| - 1 - c] + out.nodes[i].childrenBeginOrValue
      == source.script.nodes[origin[|out.nodes| - 1 - i]].childrenBeginOrValue + c
    ensures IsCopyOfChild(source.script.nodes, origin, out, i, c)
  {
  }

  lemma {:induction false} FactsMirror(
      source: Source, copied: seq<Node>, origin: seq<nat>, out: Snippet, i: nat, skip: bool)
    requires source.script.Valid() && source.root < |source.script.nodes|
    requires source.View().Valid() && out.AsView().Valid()
    requires NodeFacts(source, copied, origin, out, i)
    requires |out.nodeMarkers| == |out.nodes|
    requires out.nodeMarkers[i] == source.View().markers[origin[|out.nodes| - 1 - i]]
    requires ContentAt(out.AsView(), i, skip) == ContentAt(source.View(), origin[|out.nodes| - 1 - i], skip)
    requires forall c: nat {:trigger IsChildOf(out, i, c)} ::
      IsChildOf(out, i, c) ==> IsCopyOfChild(source.script.nodes, origin, out, i, c)
    ensures i < |Image(origin)| == |out.nodes| && Image(origin)[i] < |source.View().nodes|
    ensures MirrorsAt(out.AsView(), source.View(), Image(origin), i, skip)
  {
    ImageAt(origin, i);
    var begin, image := out.nodes[i].childrenBeginOrValue, Image(origin);
    forall c: nat | begin <= c < begin + out.AsView().ChildCount(i)
      ensures ChildMirrors(out.nodes, source.script.nodes, image, i, c)
    {
      ChildImage(source.script.nodes, origin, out, i, c);
    }
  }

  lemma {:induction false} ChildImage(nodes: seq<Node>, origin: seq<nat>, out: Snippet, i: nat, c: nat)
    requires i < |out.nodes| == |origin| && origin[|origin| - 1 - i] < |nodes| && IsChildOf(out, i, c)
    requires IsChildOf(out, i, c) ==> IsCopyOfChild(nodes, origin, out, i, c)
    ensures i < |Image(origin)| == |out.nodes| && Image(origin)[i] < |nodes|
    ensures ChildMirrors(out.nodes, nodes, Image(origin), i, c)
  {
    ImageAt(origin, i);
    ImageAt(origin, c);
  }

  lemma {:induction false} NodesMirror(source: Source, st: Copy, origin: seq<nat>, out: Snippet, skip: bool)
    requires source.Valid() && Assembled(source, st, origin, out) && out.AsView().Valid()
    ensures Mirrors(out.AsView(), source.View(), Image(origin), skip)
  {
    forall j: nat | j < |out.nodes|
      ensures j < |Image(origin)| == |out.nodes| && Image(origin)[j] < |source.View().nodes|
      ensures MirrorsAt(out.AsView(), source.View(), Image(origin), j, skip)
    {
      NodeMirrors(source, st, origin, out, j, skip);
    }
    assert |Image(origin)| == |out.nodes|;
  }

  /** The snippet's root stands for the tree of its source, the root's key aside. */
  lemma {:induction false} RootMatches(source: Source, st: Copy, origin: seq<nat>, out: Snippet, skip: bool)
    requires source.Valid() && Assembled(source, st, origin, out) && out.AsView().Valid()
    ensures ShapeAt(out.AsView(), |out.nodes| - 1, skip) == RootShape(source, skip)
  {
    NodesMirror(source, st, origin, out, skip);
    NodeAt(source, st, origin, out, |out.nodes| - 1);
    MirrorShape(out.AsView(), source.View(), Image(origin), |out.nodes| - 1, skip);
  }

  /** A block's positions name its container as their parent. */
  lemma {:induction false} BlockParent(source: Source, st: Copy, origin: seq<nat>, out: Snippet, q: nat, p: nat)
    requires source.Valid() && Assembled(source, st, origin, out) && q < |out.nodes|
    requires InBlock(out.nodes, q, p)
    ensures p < q && st.nodes[|out.nodes| - 1 - p].parent == |out.nodes| - 1 - q
  {
    NodeAt(source, st, origin, out, q);
    assert origin[|out.nodes| - 1 - p] < |source.script.nodes|;
  }

  /** The snippet node that the parent index of a copy stands for. */
  ghost predicate BlockHolds(nodes: seq<Node>, copied: seq<Node>, p: nat)
    requires p < |nodes| == |copied|
  {
    var q := |nodes| - 1 - copied[|nodes| - 1 - p].parent;
    0 <= q < |nodes| && InBlock(nodes, q, p)
  }

  lemma {:induction false} TurnedBlock(nodes: seq<Node>, q: nat, p: nat, begin: nat, count: nat)
    requires p < |nodes| && q < |nodes| && IsContainer(nodes[q].nodeType)
    requires nodes[q].childrenBeginOrValue == |nodes| - begin - count && nodes[q].childrenCount == count
    requires begin <= |nodes| - 1 - p < begin + count
    ensures InBlock(nodes, q, p)
  {
  }

  /** The position `f` was copied into the child block of position `g`. */
  ghost predicate CopiedInto(source: Source, copied: seq<Node>, origin: seq<nat>, f: nat, g: nat) {
    && g < f < |copied| == |origin| && copied[f].parent == g
    && origin[g] < |source.script.nodes| && IsContainer(source.script.nodes[origin[g]].nodeType)
    && copied[g].childrenBeginOrValue <= f
    && f < copied[g].childrenBeginOrValue + source.script.nodes[origin[g]].childrenCount
  }

  lemma {:induction false} CopyHasParent(source: Source, st: Copy, origin: seq<nat>, f: nat)
    requires source.Valid() && NodesOk(source, st, origin) && 0 < f < |st.nodes|
    ensures CopiedInto(source, st.nodes, origin, f, st.nodes[f].parent)
  {
    assert ParentOk(source.View(), st.nodes, st.pending, origin, f);
  }

  lemma {:induction false} ParentFacts(source: Source, st: Copy, origin: seq<nat>, out: Snippet, f: nat, g: nat)
    requires source.Valid() && Assembled(source, st, origin, out)
    requires 0 < f < |out.nodes| == |st.nodes| && g == st.nodes[f].parent
    ensures CopiedInto(source, st.nodes, origin, f, g)
    ensures g < |out.nodes| && NodeFacts(source, st.nodes, origin, out, |out.nodes| - 1 - g)
  {
    CopyHasParent(source, st, origin, f);
    NodeAt(source, st, origin, out, |out.nodes| - 1 - g);
  }

  lemma {:induction false} FactsBlock(
      source: Source, copied: seq<Node>, origin: seq<nat>, out: Snippet, p: nat, f: nat, g: nat)
    requires source.script.Valid() && source.root < |source.script.nodes|
    requires CopiedInto(source, copied, origin, f, g) && p + f + 1 == |out.nodes|
    requires NodeFacts(source, copied, origin, out, |out.nodes| - 1 - g)
    ensures p < |out.nodes| == |copied| && BlockHolds(out.nodes, copied, p)
  {
    TurnedBlock(
      out.nodes, |out.nodes| - 1 - g, p, copied[g].childrenBeginOrValue,
      source.script.nodes[origin[g]].childrenCount);
  }

  lemma {:induction false} ParentBlock(source: Source, st: Copy, origin: seq<nat>, out: Snippet, p: nat)
    requires source.Valid() && Assembled(source, st, origin, out) && p < |out.nodes| - 1
    ensures BlockHolds(out.nodes, st.nodes, p)
  {
    var f := |out.nodes| - 1 - p;
    ParentFacts(source, st, origin, out, f, st.nodes[f].parent);
    FactsBlock(source, st.nodes, origin, out, p, f, st.nodes[f].parent);
  }

  lemma {:induction false} HolderIsParent(nodes: seq<Node>, copied: seq<Node>, p: nat)
    requires p < |nodes| == |copied| && BlockHolds(nodes, copied, p)
    ensures HasParent(nodes, p)
  {
    assert InBlock(nodes, |nodes| - 1 - copied[|nodes| - 1 - p].parent, p);
  }

  lemma {:induction false} PatchedParent(nodes: seq<Node>, copied: seq<Node>, p: nat)
    requires TurnedFrom(nodes, copied) && p < |nodes| - 1 && IsContainer(nodes[p].nodeType)
    ensures nodes[p].parent == |nodes| - 1 - copied[|nodes| - 1 - p].parent
  {
    assert TurnedAt(nodes, copied, p);
  }

  lemma {:induction false} BlocksNameParents(nodes: seq<Node>, copied: seq<Node>)
    requires TurnedFrom(nodes, copied)
    requires forall p: nat {:trigger BlockHolds(nodes, copied, p)} :: p < |nodes| - 1 ==> BlockHolds(nodes, copied, p)
    ensures ParentsPatched(nodes)
  {
    forall p: nat | p < |nodes| - 1 && IsContainer(nodes[p].nodeType)
      ensures NamesParent(nodes, p)
    {
      PatchedParent(nodes, copied, p);
      assert BlockHolds(nodes, copied, p);
    }
  }

  lemma {:induction false} SnippetParents(source: Source, st: Copy, origin: seq<nat>, out: Snippet)
    requires source.Valid() && Assembled(source, st, origin, out)
    ensures ParentsPatched(out.nodes)
  {
    forall p: nat | p < |out.nodes| - 1
      ensures BlockHolds(out.nodes, st.nodes, p)
    {
      ParentBlock(source, st, origin, out, p);
    }
    BlocksNameParents(out.nodes, st.nodes);
  }

  lemma {:induction false} SnippetTiled(source: Source, st: Copy, origin: seq<nat>, out: Snippet)
    requires source.Valid() && Assembled(source, st, origin, out)
    ensures Tiled(out.nodes)
  {
    forall q: nat, p: nat | q < |out.nodes| && InBlock(out.nodes, q, p)
      ensures p < q && st.nodes[|out.nodes| - 1 - p].parent == |out.nodes| - 1 - q
    {
      BlockParent(source, st, origin, out, q, p);
    }
    forall p: nat | p < |out.nodes| - 1
      ensures HasParent(out.nodes, p)
    {
      ParentBlock(source, st, origin, out, p);
      HolderIsParent(out.nodes, st.nodes, p);
    }
  }

  lemma {:induction false} CellRealised(
      source: Source, st: Copy, origin: seq<nat>, out: Snippet, cell: Cell, skip: bool, p: nat)
    requires source.Valid() && Assembled(source, st, origin, out) && p < |out.nodes|
    requires out.AsView().Valid()
    requires CellMatches(source.View(), st.nodes, st.pending, origin, cell, skip, p)
    ensures Realises(out.AsView(), cell, |out.nodes| - 1 - p, skip)
  {
    var i := |out.nodes| - 1 - p;
    NodeAt(source, st, origin, out, i);
    ContentMatches(source, st.nodes, origin, out, i, skip);
    FactsRealise(source, st.nodes, origin, out, cell, skip, i);
  }

  lemma {:induction false} FactsRealise(
      source: Source, copied: seq<Node>, origin: seq<nat>, out: Snippet, cell: Cell, skip: bool, i: nat)
    requires source.script.Valid() && source.root < |source.script.nodes|
    requires source.View().Valid() && out.AsView().Valid()
    requires NodeFacts(source, copied, origin, out, i)
    requires ContentAt(out.AsView(), i, skip) == ContentAt(source.View(), origin[|out.nodes| - 1 - i], skip)
    requires copied[|out.nodes| - 1 - i].attributeKey == out.nodes[i].attributeKey
    requires CellMatches(source.View(), copied, [], origin, cell, skip, |out.nodes| - 1 - i)
    ensures Realises(out.AsView(), cell, i, skip)
  {
    assert !IsPending([], |out.nodes| - 1 - i);
  }

  lemma {:induction false} CellOfLayout(
      source: Source, st: Copy, origin: seq<nat>, out: Snippet, l: Layout, skip: bool, p: nat)
    requires source.Valid() && Assembled(source, st, origin, out)
    requires out.AsView().Valid() && LayoutOk(source, st, origin, l, skip) && p < |out.nodes|
    ensures |l.cells| == |out.nodes| && Realises(out.AsView(), l.cells[p], |out.nodes| - 1 - p, skip)
  {
    assert CellMatches(source.View(), st.nodes, st.pending, origin, l.cells[p], skip, p);
    CellRealised(source, st, origin, out, l.cells[p], skip, p);
  }

  lemma {:induction false} FinishedCells(l: Layout)
    requires l.tasks == []
    ensures TasksInRange(l) && Finish(l) == l.cells
  {
  }

  lemma {:induction false} SnippetLaidOut(
      source: Source, st: Copy, origin: seq<nat>, out: Snippet, l: Layout, skip: bool)
    requires source.Valid() && Assembled(source, st, origin, out)
    requires out.AsView().Valid() && LayoutOk(source, st, origin, l, skip)
    ensures LaidOutAs(out.AsView(), CanonicalCells(RootShape(source, skip)), skip)
  {
    assert l.tasks == [];
    FinishedCells(l);
    forall p: nat | p < |out.nodes|
      ensures |l.cells| == |out.nodes| && Realises(out.AsView(), l.cells[p], |out.nodes| - 1 - p, skip)
    {
      CellOfLayout(source, st, origin, out, l, skip, p);
    }
  }

  lemma {:induction false} SpanCopied(source: Source, s: nat, span: Span)
    requires source.script.Valid() && source.root < |source.script.nodes| && s < |source.script.nodes|
    requires source.Fits(s) && span == source.PatchedSpan(s)
    ensures span.length == source.script.SpanOf(s).length
    ensures source.script.SpanOf(source.root).offset + span.offset == source.script.SpanOf(s).offset
    ensures span.End() <= source.script.SpanOf(source.root).length
  {
  }

  lemma {:induction false} FactsCopy(
      source: Source, copied: seq<Node>, origin: seq<nat>, out: Snippet, i: nat, s: nat)
    requires source.script.Valid() && source.root < |source.script.nodes| == |source.markers|
    requires NodeFacts(source, copied, origin, out, i)
    requires |out.nodeMarkers| == |out.nodes| && s == origin[|out.nodes| - 1 - i]
    requires out.nodeMarkers[i] == source.markers[s]
    ensures CopiesNode(source, out, i, s)
  {
    SpanCopied(source, s, out.nodes[i].span);
  }

  lemma {:induction false} BlockImage(source: Source, st: Copy, origin: seq<nat>, out: Snippet, i: nat, c: nat)
    requires source.Valid() && Assembled(source, st, origin, out) && i < |out.nodes| && InBlock(out.nodes, i, c)
    ensures c < i < |Image(origin)| == |out.nodes| && Image(origin)[i] < |source.script.nodes|
    ensures ChildMirrors(out.nodes, source.script.nodes, Image(origin), i, c)
  {
    NodeAt(source, st, origin, out, i);
    ChildMatches(source, st.nodes, origin, out, i, c - out.nodes[i].childrenBeginOrValue);
    NodeAt(source, st, origin, out, c);
    ChildCopied(source, st.nodes, origin, out, i, c);
    assert IsChildOf(out, i, c);
    ChildImage(source.script.nodes, origin, out, i, c);
  }

  lemma {:induction false} SnippetImage(source: Source, st: Copy, origin: seq<nat>, out: Snippet)
    requires source.Valid() && Assembled(source, st, origin, out)
    ensures IsImage(source, out, Image(origin))
  {
    var image := Image(origin);
    forall i: nat | i < |out.nodes|
      ensures i < |image| == |out.nodes| && CopiesNode(source, out, i, image[i])
    {
      NodeAt(source, st, origin, out, i);
      ImageAt(origin, i);
      FactsCopy(source, st.nodes, origin, out, i, image[i]);
    }
    forall i: nat, c: nat | i < |out.nodes| && InBlock(out.nodes, i, c)
      ensures c < i < |image| && image[i] < |source.script.nodes|
      ensures image[c] + out.nodes[i].childrenBeginOrValue == source.script.nodes[image[i]].childrenBeginOrValue + c
    {
      BlockImage(source, st, origin, out, i, c);
    }
    assert |image| == |out.nodes|;
    ImageAt(origin, |image| - 1);
  }

  lemma {:induction false} AssembledIsSnippet(source: Source, st: Copy, t: Trace, out: Snippet)
    requires source.Valid() && WalkOk(source, st, t) && Assembled(source, st, t.origin, out)
    requires out.rootNodeId == |out.nodes| - 1 && out.nodes[|out.nodes| - 1].parent == NO_PARENT
    ensures IsSnippetOf(source, out)
  {
    SnippetViewValid(source, st, t.origin, out);
    SnippetTiled(source, st, t.origin, out);
    SnippetImage(source, st, t.origin, out);
    SnippetParents(source, st, t.origin, out);
    forall skip: bool
      ensures ShapeAt(out.AsView(), out.rootNodeId, skip) == RootShape(source, skip)
      ensures LaidOutAs(out.AsView(), CanonicalCells(RootShape(source, skip)), skip)
    {
      RootMatches(source, st, t.origin, out, skip);
      SnippetLaidOut(source, st, t.origin, out, if skip then t.skipped else t.full, skip);
    }
  }

  // ---------------------------------------------------------------- extraction

  /** The marker of every node, from the list of markers found on the way. */
  method WriteMarkers(found: seq<Pair>, n: nat, ghost view: View, ghost origin: seq<nat>) returns (markers: seq<nat>)
    requires |view.markers| == |view.nodes| && |origin| == n
    requires forall p :: 0 <= p < |origin| ==> origin[p] < |view.nodes|
    requires MarkersOk(view, [], origin, found)
    ensures |markers| == n
    ensures forall p: nat :: p < n ==> markers[n - 1 - p] == view.markers[origin[p]]
  {
    markers := seq(n, _ => NO_MARKER);
    for k := 0 to |found|
      invariant |markers| == n
      invariant forall p: nat :: p < n ==>
        markers[n - 1 - p] == NO_MARKER || markers[n - 1 - p] == view.markers[origin[p]]
      invariant forall j :: 0 <= j < k ==> markers[n - 1 - found[j].source] == view.markers[origin[found[j].source]]
    {
      markers := markers[n - 1 - found[k].source := found[k].target];
    }
    forall p: nat | p < n
      ensures markers[n - 1 - p] == view.markers[origin[p]]
    {
      assert !IsPending([], p);
    }
  }

  lemma {:induction false} RootDropped(copied: seq<Node>, nodes: seq<Node>, p: nat)
    requires p < |copied| == |nodes| && AllPatchable(copied)
    requires nodes[p] == TurnedAround(copied)[p]
      || (p == |copied| - 1 && nodes[p] == TurnedAround(copied)[p].(parent := NO_PARENT))
    ensures TurnedAt(nodes, copied, p)
  {
    assert Patchable(copied[|copied| - 1 - p], |copied|);
  }

  /** Turn the copied nodes around and drop the root's parent. */
  method TurnedNodes(copied: seq<Node>) returns (nodes: seq<Node>)
    requires copied != [] && AllPatchable(copied)
    ensures TurnedFrom(nodes, copied) && nodes[|nodes| - 1].parent == NO_PARENT
  {
    var a := new Node[|copied|](i requires 0 <= i < |copied| => copied[i]);
    assert a[..] == copied;
    TurnAround(a);
    nodes := a[..];
    var last := |nodes| - 1;
    nodes := nodes[last := nodes[last].(parent := NO_PARENT)];
    forall p: nat | p < |nodes|
      ensures TurnedAt(nodes, copied, p)
    {
      RootDropped(copied, nodes, p);
    }
  }

  /** Extract the subtree at `root`. An invalid root gives an empty snippet. */
  method Extract(script: Script, markers: seq<nat>, root: nat) returns (out: Snippet)
    requires script.Valid() && |markers| == |script.nodes|
    requires root < |script.nodes| ==> Source(script, markers, root).Valid()
    ensures root >= |script.nodes| ==> out == EMPTY_SNIPPET
    ensures root < |script.nodes| ==> IsSnippetOf(Source(script, markers, root), out)
  {
    if root >= |script.nodes| {
      return EMPTY_SNIPPET;
    }
    var source := Source(script, markers, root);
    var st, t := CopySubtree(source);
    CopiedArePatchable(source, st, t.origin);
    var nodes := TurnedNodes(st.nodes);
    var nodeMarkers := WriteMarkers(st.found, |st.nodes|, source.View(), t.origin);
    var range := source.Range();
    out := Snippet(Substr(script.text, range.offset, range.length), st.names, nodes, |nodes| - 1, nodeMarkers);
    AssembledIsSnippet(source, st, t, out);
  }
}
