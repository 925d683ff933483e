/** What an index-encoded tree with names, texts and markers stands for, wherever its nodes are stored. */
module SnippetShapes {
  import opened Ast

  const NO_MARKER: nat := 0

  /**
    The nodes that extraction treats as containers. The `ENUM_VIS_*` leaves sort above `OBJECT_KEYS`,
    so they count as containers without children.
  */
  predicate IsContainer(t: nat) {
    t >= OBJECT_KEYS || t == ARRAY
  }

  /** A node array with everything its nodes refer to. */
  datatype View = View(nodes: seq<Node>, names: seq<string>, texts: seq<string>, markers: seq<nat>) {
    predicate NodeValid(i: nat)
      requires i < |nodes|
    {
      var n := nodes[i];
      && (IsContainer(n.nodeType) && n.childrenCount > 0 ==> n.ChildrenEnd() <= i)
      && (n.nodeType == NAME ==> n.childrenBeginOrValue < |names|)
    }

    /** Children lie strictly below their parent, and names resolve. */
    ghost predicate Valid() {
      && |texts| == |nodes| && |markers| == |nodes|
      && forall i: nat :: i < |nodes| ==> NodeValid(i)
    }

    function ChildCount(i: nat): nat
      requires i < |nodes|
    {
      if IsContainer(nodes[i].nodeType) then nodes[i].childrenCount else 0
    }
  }

  /** What a node holds besides its children. Names and literals are hidden when only structure matters. */
  datatype Content = Hidden | Container | Text(text: string) | Value(value: nat, count: nat)

  datatype Shape = Shape(nodeType: nat, key: nat, content: Content, marker: nat, children: seq<Shape>)

  ghost function ContentAt(view: View, i: nat, skip: bool): Content
    requires view.Valid() && i < |view.nodes|
  {
    assert view.NodeValid(i);
    var n := view.nodes[i];
    if n.nodeType == NAME then if skip then Hidden else Text(view.names[n.childrenBeginOrValue])
    else if IsLiteralType(n.nodeType) then if skip then Hidden else Text(view.texts[i])
    else if IsContainer(n.nodeType) then Container
    else Value(n.childrenBeginOrValue, n.childrenCount)
  }

  /** The tree below node `i`, free of positions. */
  ghost function ShapeAt(view: View, i: nat, skip: bool): Shape
    requires view.Valid() && i < |view.nodes|
    decreases i
  {
    assert view.NodeValid(i);
    var n := view.nodes[i];
    Shape(n.nodeType, n.attributeKey, ContentAt(view, i, skip), view.markers[i],
      seq(view.ChildCount(i), k requires 0 <= k < view.ChildCount(i) =>
        ShapeAt(view, n.childrenBeginOrValue + k, skip)))
  }

  lemma {:induction false} ShapeFields(view: View, i: nat, skip: bool)
    requires view.Valid() && i < |view.nodes|
    ensures
      var n, s := view.nodes[i], ShapeAt(view, i, skip);
      && s.nodeType == n.nodeType && s.key == n.attributeKey && s.marker == view.markers[i]
      && s.content == ContentAt(view, i, skip) && |s.children| == view.ChildCount(i)
    ensures
      var n, s := view.nodes[i], ShapeAt(view, i, skip);
      forall k :: 0 <= k < |s.children| ==>
        n.childrenBeginOrValue + k < i && s.children[k] == ShapeAt(view, n.childrenBeginOrValue + k, skip)
  {
    assert view.NodeValid(i);
  }

  /** Node `i` of one view agrees with its image in another, children with the images of children. */
  ghost predicate MirrorsAt(a: View, b: View, image: seq<nat>, i: nat, skip: bool)
    requires a.Valid() && b.Valid() && i < |a.nodes| == |image| && image[i] < |b.nodes|
  {
    var begin, j := a.nodes[i].childrenBeginOrValue, image[i];
    && a.nodes[i].nodeType == b.nodes[j].nodeType && a.markers[i] == b.markers[j]
    && ContentAt(a, i, skip) == ContentAt(b, j, skip) && a.ChildCount(i) == b.ChildCount(j)
    && forall c: nat :: begin <= c < begin + a.ChildCount(i) ==> ChildMirrors(a.nodes, b.nodes, image, i, c)
  }

  /** The image of a child is the child of the image, with its key. */
  ghost predicate ChildMirrors(a: seq<Node>, b: seq<Node>, image: seq<nat>, i: nat, c: nat)
    requires i < |a| == |image| && image[i] < |b|
  {
    && c < i && image[c] < |b| && a[c].attributeKey == b[image[c]].attributeKey
    && image[c] + a[i].childrenBeginOrValue == b[image[i]].childrenBeginOrValue + c
  }

  ghost predicate Mirrors(a: View, b: View, image: seq<nat>, skip: bool)
    requires a.Valid() && b.Valid()
  {
    && |image| == |a.nodes|
    && (forall i: nat :: i < |image| ==> image[i] < |b.nodes|)
    && forall i: nat {:trigger MirrorsAt(a, b, image, i, skip)} ::
         i < |image| ==> MirrorsAt(a, b, image, i, skip)
  }

  /** Nodes that mirror each other all the way down stand for the same tree, their own keys aside. */
  lemma {:induction false} MirrorShape(a: View, b: View, image: seq<nat>, i: nat, skip: bool)
    requires a.Valid() && b.Valid() && Mirrors(a, b, image, skip) && i < |a.nodes|
    ensures ShapeAt(a, i, skip) == ShapeAt(b, image[i], skip).(key := a.nodes[i].attributeKey)
    decreases i
  {
    var s, t := ShapeAt(a, i, skip), ShapeAt(b, image[i], skip);
    assert MirrorsAt(a, b, image, i, skip);
    ShapeFields(a, i, skip);
    ShapeFields(b, image[i], skip);
    forall k | 0 <= k < |s.children|
      ensures s.children[k] == t.children[k]
    {
      var c := a.nodes[i].childrenBeginOrValue + k;
      var child := s.children[k];
      assert ChildMirrors(a.nodes, b.nodes, image, i, c);
      MirrorShape(a, b, image, c, skip);
      ShapeFields(b, image[c], skip);
    }
    assert s.children == t.children;
  }

  /** The text of a span, empty if the span starts behind the text. */
  function TextAt(text: string, span: Span): string {
    if span.offset <= |text| then Substr(text, span.offset, span.length) else ""
  }

  ghost function ScriptView(script: Script, markers: seq<nat>): (r: View)
    requires script.Valid()
    ensures |r.texts| == |r.nodes|
  {
    View(script.nodes, script.names,
      seq(|script.nodes|, i requires 0 <= i < |script.nodes| => script.NodeText(i)), markers)
  }
}
