/** The index-encoded syntax tree of a parsed script, and the texts its nodes refer to. */
module Ast {

  /** A span over tokens (`SymbolSpan`) or over characters (`TextSpan`). */
  datatype Span = Span(offset: nat, length: nat) {
    function End(): nat { offset + length }
  }

  /** A source index with a target index: of nodes in the tree walks, of statements in the mappings. */
  datatype Pair = Pair(source: nat, target: nat)

  // The node types the algorithms distinguish, with their numeric values.
  const NONE: nat := 0
  const OPERATOR: nat := 1
  const NAME: nat := 2
  const BOOL: nat := 3
  const ARRAY: nat := 4
  const LITERAL_NULL: nat := 5
  const LITERAL_INTERVAL: nat := 9
  const ENUM_KEYS: nat := 10
  const OBJECT_KEYS: nat := 41
  const ENUM_VIS_ENCODING_CHANNEL: nat := 114
  const ENUM_VIS_SCALE_TYPE: nat := 117
  const VIS_OBJECT_KEYS: nat := 118

  /** Is the node type an enum? The four `ENUM_VIS_*` values sit above the object range. */
  predicate IsEnumType(t: nat) {
    ENUM_KEYS < t < OBJECT_KEYS || ENUM_VIS_ENCODING_CHANNEL <= t <= ENUM_VIS_SCALE_TYPE
  }

  predicate IsObjectType(t: nat) {
    OBJECT_KEYS < t < ENUM_VIS_ENCODING_CHANNEL || VIS_OBJECT_KEYS < t
  }

  predicate HasChildren(t: nat) {
    t == ARRAY || IsObjectType(t)
  }

  predicate IsLiteralType(t: nat) {
    LITERAL_NULL <= t <= LITERAL_INTERVAL
  }

  /** `childrenBeginOrValue` holds a child index for containers, and an inline value otherwise. */
  datatype Node = Node(
    span: Span,
    nodeType: nat,
    attributeKey: nat,
    parent: nat,
    childrenBeginOrValue: nat,
    childrenCount: nat
  ) {
    function ChildrenEnd(): nat { childrenBeginOrValue + childrenCount }
  }

  function Substr(text: string, offset: nat, length: nat): string
    requires offset <= |text|
  {
    if offset + length <= |text| then text[offset..offset + length] else text[offset..]
  }

  /** A scanned and parsed script. `statements` holds the root node id of every statement. */
  datatype Script = Script(
    text: string,
    symbols: seq<Span>,
    names: seq<string>,
    nodes: seq<Node>,
    statements: seq<nat>
  ) {

    /** Tokens are ordered and disjoint, and lie within the text. */
    ghost predicate SymbolsValid() {
      && (forall a, b :: 0 <= a < b < |symbols| ==> symbols[a].End() <= symbols[b].offset)
      && (forall a :: 0 <= a < |symbols| ==> symbols[a].End() <= |text|)
    }

    predicate NodeValid(i: nat)
      requires i < |nodes|
    {
      var n := nodes[i];
      && (n.span.length > 0 ==> n.span.End() <= |symbols|)
      && (n.nodeType == NAME ==> n.childrenBeginOrValue < |names|)
      && (HasChildren(n.nodeType) ==> n.ChildrenEnd() <= i)
    }

    /** What the parser guarantees: tokens resolve, and children lie strictly below their parent. */
    ghost predicate Valid() {
      && SymbolsValid()
      && (forall i: nat :: i < |nodes| ==> NodeValid(i))
    }

    /** Resolve a token span to a text span. */
    function ResolveTextSpan(span: Span): (r: Span)
      requires SymbolsValid()
      requires span.length > 0 ==> span.End() <= |symbols|
      ensures r.End() <= |text|
    {
      if span.length == 0 then
        if span.offset >= |symbols| then Span(if |text| > 2 then |text| - 2 else 0, 0)
        else Span(symbols[span.offset].offset, 0)
      else
        var first := symbols[span.offset];
        var last := symbols[span.End() - 1];
        Span(first.offset, last.End() - first.offset)
    }

    function SpanOf(i: nat): (r: Span)
      requires Valid() && i < |nodes|
      ensures r.End() <= |text|
    {
      assert NodeValid(i);
      ResolveTextSpan(nodes[i].span)
    }

    /** The text of an operator or literal node. */
    function NodeText(i: nat): string
      requires Valid() && i < |nodes|
    {
      var span := SpanOf(i);
      Substr(text, span.offset, span.length)
    }

    /** The registered name of a NAME node. */
    function NameText(i: nat): string
      requires Valid() && i < |nodes| && nodes[i].nodeType == NAME
    {
      assert NodeValid(i);
      names[nodes[i].childrenBeginOrValue]
    }
  }
}
