/** What comparing statements means on the nodes and texts of two scripts. */
module NodeMeaning {
  import opened Ast
  import opened AttributeOrder
  import opened SyntaxTree
  import opened Lockstep
  import opened StatementMapping

  // ---------------------------------------------------------------- texts

  lemma {:induction false} SymbolsInOrder(script: Script, a: nat, b: nat)
    requires script.Valid() && a <= b < |script.symbols|
    ensures script.symbols[a].offset <= script.symbols[b].End() <= |script.text|
  {
  }

  /** The script's text from a node's first symbol to its last; empty for a node without symbols. */
  ghost function TextBetween(script: Script, i: nat): string
    requires script.Valid() && i < |script.nodes|
  {
    assert script.NodeValid(i);
    var span := script.nodes[i].span;
    if span.length == 0 then ""
    else
      var first, last := script.symbols[span.offset], script.symbols[span.offset + span.length - 1];
      SymbolsInOrder(script, span.offset, span.offset + span.length - 1);
      script.text[first.offset..last.offset + last.length]
  }

  lemma {:induction false} WrittenSpan(script: Script, span: Span)
    requires script.Valid() && 0 < span.length && span.End() <= |script.symbols|
    ensures
      var first, last := script.symbols[span.offset], script.symbols[span.offset + span.length - 1];
      && first.offset <= last.offset + last.length <= |script.text|
      && script.ResolveTextSpan(span) == Span(first.offset, last.offset + last.length - first.offset)
  {
    SymbolsInOrder(script, span.offset, span.offset + span.length - 1);
  }

  lemma {:induction false} SubstrIsSlice(text: string, a: nat, b: nat)
    requires a <= b <= |text|
    ensures Substr(text, a, b - a) == text[a..b]
  {
  }

  lemma {:induction false} NodeTextIsBetween(script: Script, i: nat)
    requires script.Valid() && i < |script.nodes|
    ensures script.NodeText(i) == TextBetween(script, i)
    ensures script.SpanOf(i).length == |TextBetween(script, i)|
  {
    assert script.NodeValid(i);
    var span := script.nodes[i].span;
    if span.length > 0 {
      WrittenSpan(script, span);
      var resolved := script.ResolveTextSpan(span);
      SubstrIsSlice(script.text, resolved.offset, resolved.End());
    } else {
      SubstrIsSlice(script.text, script.SpanOf(i).offset, script.SpanOf(i).offset);
    }
  }

  /** A node without symbols has an empty span where the next symbol begins, or where the text ends without one. */
  lemma {:induction false} EmptyNodeSpan(script: Script, i: nat)
    requires script.Valid() && i < |script.nodes| && script.nodes[i].span.length == 0
    ensures TextBetween(script, i) == "" && script.SpanOf(i).length == 0
    ensures
      var next := script.nodes[i].span.offset;
      && (next < |script.symbols| ==> script.SpanOf(i).offset == script.symbols[next].offset)
      && (next >= |script.symbols| ==> script.SpanOf(i).offset == if |script.text| < 2 then 0 else |script.text| - 2)
  {
    assert script.NodeValid(i);
  }

  // ---------------------------------------------------------------- leaves

  predicate HoldsValue(t: nat) {
    t == BOOL || ENUM_KEYS < t < OBJECT_KEYS || ENUM_VIS_ENCODING_CHANNEL <= t <= ENUM_VIS_SCALE_TYPE
  }

  predicate HoldsAttributes(t: nat) {
    OBJECT_KEYS < t < ENUM_VIS_ENCODING_CHANNEL || t > VIS_OBJECT_KEYS
  }

  predicate HoldsText(t: nat) {
    t == OPERATOR || LITERAL_NULL <= t <= LITERAL_INTERVAL
  }

  /** Two nodes of one type say the same, their children aside. */
  ghost predicate SameContent(source: Script, target: Script, i: nat, j: nat)
    requires source.Valid() && target.Valid()
    requires i < |source.nodes| && j < |target.nodes|
  {
    var s, t := source.nodes[i], target.nodes[j];
    && (HoldsValue(s.nodeType) ==> s.childrenBeginOrValue == t.childrenBeginOrValue)
    && (HoldsText(s.nodeType) ==> TextBetween(source, i) == TextBetween(target, j))
    && (s.nodeType == NAME ==>
          s.childrenBeginOrValue < |source.names| && t.childrenBeginOrValue < |target.names|
          && source.names[s.childrenBeginOrValue] == target.names[t.childrenBeginOrValue])
  }

  lemma {:induction false} ContentMeaning(source: Script, target: Script, i: nat, j: nat)
    requires source.Valid() && target.Valid()
    requires i < |source.nodes| && j < |target.nodes|
    requires source.nodes[i].nodeType == target.nodes[j].nodeType
    ensures ContentOf(source, i) == ContentOf(target, j) <==> SameContent(source, target, i, j)
  {
    assert source.NodeValid(i) && target.NodeValid(j);
    NodeTextIsBetween(source, i);
    NodeTextIsBetween(target, j);
  }

  // ---------------------------------------------------------------- equal trees

  /** Two lists of nodes of one length with equal trees. */
  ghost predicate EqualTrees(source: Script, target: Script, ss: seq<nat>, ts: seq<nat>)
    requires source.Valid() && target.Valid()
  {
    && InRange(source.nodes, ss) && InRange(target.nodes, ts) && |ss| == |ts|
    && forall k :: 0 <= k < |ss| ==> Unfold(source, ss[k]) == Unfold(target, ts[k])
  }

  ghost predicate EqualKeys(source: Script, target: Script, ss: seq<nat>, ts: seq<nat>) {
    && InRange(source.nodes, ss) && InRange(target.nodes, ts) && |ss| == |ts|
    && forall k :: 0 <= k < |ss| ==> source.nodes[ss[k]].attributeKey == target.nodes[ts[k]].attributeKey
  }

  /** The children of a node, ordered by key and, for equal keys, by position. */
  ghost predicate InKeyOrder(script: Script, i: nat, ids: seq<nat>)
    requires i < |script.nodes|
  {
    var n := script.nodes[i];
    && InRange(script.nodes, ids)
    && multiset(ids) == multiset(seq(n.childrenCount, k => n.childrenBeginOrValue + k))
    && forall j, k :: 0 <= j < k < |ids| ==>
         var a, b := script.nodes[ids[j]].attributeKey, script.nodes[ids[k]].attributeKey;
         a < b || (a == b && ids[j] < ids[k])
  }

  /** The children of a node in grammar order. */
  ghost predicate InGrammarOrder(script: Script, i: nat, ids: seq<nat>)
    requires i < |script.nodes|
  {
    && |ids| == script.nodes[i].childrenCount
    && forall k :: 0 <= k < |ids| ==> ids[k] == script.nodes[i].childrenBeginOrValue + k
  }

  lemma {:induction false} OrderOfObject(script: Script, i: nat, ids: seq<nat>)
    requires script.Valid() && i < |script.nodes|
    requires IsObjectType(script.nodes[i].nodeType) && InKeyOrder(script, i, ids)
    ensures ids == ChildrenOf(script, i)
  {
    assert script.NodeValid(i);
    var n := script.nodes[i];
    assert seq(n.childrenCount, k => n.childrenBeginOrValue + k) == Range(n.childrenBeginOrValue, n.childrenCount);
    SortedIsStableSort(script.nodes, n.childrenBeginOrValue, n.childrenCount, ids);
  }

  lemma {:induction false} OrderOfArray(script: Script, i: nat, ids: seq<nat>)
    requires script.Valid() && i < |script.nodes|
    requires script.nodes[i].nodeType == ARRAY && InGrammarOrder(script, i, ids)
    ensures ids == ChildrenOf(script, i)
  {
  }

  /**
    Two nodes have one tree exactly if they have one type and content and their children have one tree
    each: those of an array position by position, those of an object in key order, with the same keys.
  */
  lemma {:induction false} EqualityOnNodes(
      source: Script, target: Script, i: nat, j: nat, ss: seq<nat>, ts: seq<nat>)
    requires source.Valid() && target.Valid()
    requires i < |source.nodes| && j < |target.nodes|
    requires
      if source.nodes[i].nodeType == ARRAY then InGrammarOrder(source, i, ss)
      else if HoldsAttributes(source.nodes[i].nodeType) then InKeyOrder(source, i, ss) else ss == []
    requires
      if target.nodes[j].nodeType == ARRAY then InGrammarOrder(target, j, ts)
      else if HoldsAttributes(target.nodes[j].nodeType) then InKeyOrder(target, j, ts) else ts == []
    ensures Unfold(source, i) == Unfold(target, j) <==>
      && source.nodes[i].nodeType == target.nodes[j].nodeType && SameContent(source, target, i, j)
      && EqualTrees(source, target, ss, ts)
      && (source.nodes[i].nodeType != ARRAY ==> EqualKeys(source, target, ss, ts))
  {
    AreChildren(source, i, ss);
    AreChildren(target, j, ts);
    UnfoldShape(source, i);
    UnfoldShape(target, j);
    if source.nodes[i].nodeType == target.nodes[j].nodeType {
      ContentMeaning(source, target, i, j);
      KeysMeaning(source, target, i, j);
      TreesMeaning(source, target, ss, ts);
    }
  }

  lemma {:induction false} AreChildren(script: Script, i: nat, ids: seq<nat>)
    requires script.Valid() && i < |script.nodes|
    requires
      if script.nodes[i].nodeType == ARRAY then InGrammarOrder(script, i, ids)
      else if IsObjectType(script.nodes[i].nodeType) then InKeyOrder(script, i, ids) else ids == []
    ensures ids == ChildrenOf(script, i)
  {
    if script.nodes[i].nodeType == ARRAY {
      OrderOfArray(script, i, ids);
    } else if IsObjectType(script.nodes[i].nodeType) {
      OrderOfObject(script, i, ids);
    }
  }

  lemma {:induction false} KeysMeaning(source: Script, target: Script, i: nat, j: nat)
    requires source.Valid() && target.Valid()
    requires i < |source.nodes| && j < |target.nodes|
    requires source.nodes[i].nodeType == target.nodes[j].nodeType
    ensures KeysOf(source, i) == KeysOf(target, j) <==>
      if source.nodes[i].nodeType == ARRAY then |ChildrenOf(source, i)| == |ChildrenOf(target, j)|
      else EqualKeys(source, target, ChildrenOf(source, i), ChildrenOf(target, j))
  {
    var ks, kt := KeysOf(source, i), KeysOf(target, j);
    if |ks| != |kt| {
    } else if source.nodes[i].nodeType == ARRAY {
      assert ks == kt;
    } else if EqualKeys(source, target, ChildrenOf(source, i), ChildrenOf(target, j)) {
      assert forall k :: 0 <= k < |ks| ==> ks[k] == kt[k];
    } else {
      var k :| 0 <= k < |ks| && ks[k] != kt[k];
    }
  }

  lemma {:induction false} TreesMeaning(source: Script, target: Script, ss: seq<nat>, ts: seq<nat>)
    requires source.Valid() && target.Valid()
    requires InRange(source.nodes, ss) && InRange(target.nodes, ts)
    ensures UnfoldAll(source, ss) == UnfoldAll(target, ts) <==> EqualTrees(source, target, ss, ts)
  {
    var a, b := UnfoldAll(source, ss), UnfoldAll(target, ts);
    if EqualTrees(source, target, ss, ts) {
      assert forall k :: 0 <= k < |a| ==> a[k] == b[k];
    } else if |a| == |b| {
      var k :| 0 <= k < |a| && a[k] != b[k];
    }
  }

  // ---------------------------------------------------------------- equal statements

  /** Roots of one type that are written alike and have as many children. */
  ghost predicate WrittenAlike(source: Script, target: Script, i: nat, j: nat)
    requires source.Valid() && target.Valid()
    requires i < |source.nodes| && j < |target.nodes|
  {
    && source.nodes[i].nodeType == target.nodes[j].nodeType
    && source.nodes[i].childrenCount == target.nodes[j].childrenCount
    && TextBetween(source, i) == TextBetween(target, j)
  }

  /** Two statements with valid roots that are written alike or have one tree. */
  ghost predicate SameStatement(source: Script, target: Script, s: nat, t: nat)
    requires source.Valid() && target.Valid()
  {
    && s < |source.statements| && t < |target.statements|
    && source.statements[s] < |source.nodes| && target.statements[t] < |target.nodes|
    && (WrittenAlike(source, target, source.statements[s], target.statements[t])
        || Unfold(source, source.statements[s]) == Unfold(target, target.statements[t]))
  }

  /** The equality that the diff is built on. */
  lemma {:induction false} EqualEdgesMeaning(source: Script, target: Script, p: Pair)
    requires source.Valid() && target.Valid()
    ensures p in EqualEdges(source, target) <==> SameStatement(source, target, p.source, p.target)
  {
    if p.source < |source.statements| && p.target < |target.statements| {
      EstimateMeaning(source, target, p.source, p.target);
    }
  }

  lemma {:induction false} EstimateMeaning(source: Script, target: Script, s: nat, t: nat)
    requires source.Valid() && target.Valid()
    requires s < |source.statements| && t < |target.statements|
    ensures StatementsEqual(source, target, s, t) <==> SameStatement(source, target, s, t)
    ensures EstimateSimilarity(source, target, s, t) == Similar <==>
      && source.statements[s] < |source.nodes| && target.statements[t] < |target.nodes|
      && source.nodes[source.statements[s]].nodeType == target.nodes[target.statements[t]].nodeType
      && !WrittenAlike(source, target, source.statements[s], target.statements[t])
  {
    if source.statements[s] < |source.nodes| && target.statements[t] < |target.nodes| {
      NodeTextIsBetween(source, source.statements[s]);
      NodeTextIsBetween(target, target.statements[t]);
      UnfoldShape(source, source.statements[s]);
      UnfoldShape(target, target.statements[t]);
    }
  }
}
