/** Which target nodes an UPDATE highlights, on the nodes of two scripts. */
module ChangeMeaning {
  import opened Ast
  import opened Lockstep
  import opened Spans
  import opened TargetChanges
  import opened NodeMeaning
  import opened ChildPartners

  /** A path of partners, each below nodes of one type, leads from (i, j) to (x, y). */
  ghost predicate LeadsTo(source: Script, target: Script, i: nat, j: nat, path: seq<Pair>, x: nat, y: nat)
    decreases |path|
  {
    if path == [] then i == x && j == y
    else
      && Partners(source, target, i, j, path[0].source, path[0].target)
      && LeadsTo(source, target, path[0].source, path[0].target, path[1..], x, y)
  }

  /** Two nodes of different types, or of different contents. */
  ghost predicate Differ(source: Script, target: Script, x: nat, y: nat)
    requires source.Valid() && target.Valid()
  {
    && x < |source.nodes| && y < |target.nodes|
    && (source.nodes[x].nodeType != target.nodes[y].nodeType || !SameContent(source, target, x, y))
  }

  /** The path leads to a partner of `y` that differs from it. */
  ghost predicate Replaced(source: Script, target: Script, i: nat, j: nat, path: seq<Pair>, x: nat, y: nat)
    requires source.Valid() && target.Valid()
  {
    LeadsTo(source, target, i, j, path, x, y) && Differ(source, target, x, y)
  }

  /** The path leads to nodes `x` and `p` of one type, and the child `y` of `p` has no partner below `x`. */
  ghost predicate Added(source: Script, target: Script, i: nat, j: nat, path: seq<Pair>, x: nat, p: nat, y: nat) {
    && LeadsTo(source, target, i, j, path, x, p) && x < |source.nodes| && p < |target.nodes|
    && source.nodes[x].nodeType == target.nodes[p].nodeType && Alone(source, target, x, p, y)
  }

  /** A target node below (i, j) whose parent is reached, and that has no partner or one that differs. */
  ghost predicate IsChange(source: Script, target: Script, i: nat, j: nat, y: nat)
    requires source.Valid() && target.Valid()
  {
    || (exists path: seq<Pair>, x: nat :: Replaced(source, target, i, j, path, x, y))
    || (exists path: seq<Pair>, x: nat, p: nat :: Added(source, target, i, j, path, x, p, y))
  }

  // ---------------------------------------------------------------- one node pair

  ghost predicate OwnChange(source: Script, target: Script, i: nat, j: nat, y: nat)
    requires source.Valid() && target.Valid()
    requires i < |source.nodes| && j < |target.nodes|
  {
    || (y == j && Differ(source, target, i, j))
    || (source.nodes[i].nodeType == target.nodes[j].nodeType && Alone(source, target, i, j, y))
  }

  lemma {:induction false} OwnMeaning(source: Script, target: Script, i: nat, j: nat, y: nat)
    requires source.Valid() && target.Valid()
    requires i < |source.nodes| && j < |target.nodes|
    ensures y in OwnChanges(source, target, i, j) <==> OwnChange(source, target, i, j, y)
  {
    if source.nodes[i].nodeType == target.nodes[j].nodeType {
      ContentMeaning(source, target, i, j);
      AddedMeaning(source, target, i, j, y);
    }
  }

  /** What a node pair reports is its own changes and those of its partner children. */
  lemma {:induction false} ChangedStep(source: Script, target: Script, i: nat, j: nat, y: nat)
    requires source.Valid() && target.Valid()
    requires i < |source.nodes| && j < |target.nodes|
    ensures y in Changed(source, target, i, j) <==>
      || OwnChange(source, target, i, j, y)
      || exists p :: p in ChildPairs(source, target, i, j) && y in Changed(source, target, p.source, p.target)
  {
    OwnMeaning(source, target, i, j, y);
  }

  // ---------------------------------------------------------------- paths

  lemma {:induction false} ChildrenInRange(source: Script, target: Script, i: nat, j: nat, x: nat, y: nat)
    requires source.Valid() && target.Valid() && Partners(source, target, i, j, x, y)
    ensures i < |source.nodes| && j < |target.nodes| && x < i && y < j
  {
    assert source.NodeValid(i) && target.NodeValid(j);
  }

  /** A reported node is a change. */
  lemma {:induction false} ReportedIsChange(source: Script, target: Script, i: nat, j: nat, y: nat)
    requires source.Valid() && target.Valid()
    requires i < |source.nodes| && j < |target.nodes| && y in Changed(source, target, i, j)
    ensures IsChange(source, target, i, j, y)
    decreases i
  {
    ChangedStep(source, target, i, j, y);
    if OwnChange(source, target, i, j, y) {
      OwnIsChange(source, target, i, j, y);
    } else {
      var p :| p in ChildPairs(source, target, i, j) && y in Changed(source, target, p.source, p.target);
      ChildPairsMeaning(source, target, i, j, p.source, p.target);
      assert p == Pair(p.source, p.target);
      ReportedIsChange(source, target, p.source, p.target, y);
      ChangeBelow(source, target, i, j, p, y);
    }
  }

  lemma {:induction false} OwnIsChange(source: Script, target: Script, i: nat, j: nat, y: nat)
    requires source.Valid() && target.Valid()
    requires i < |source.nodes| && j < |target.nodes| && OwnChange(source, target, i, j, y)
    ensures IsChange(source, target, i, j, y)
  {
    if y == j && Differ(source, target, i, j) {
      assert Replaced(source, target, i, j, [], i, j);
    } else {
      assert Added(source, target, i, j, [], i, j, y);
    }
  }

  lemma {:induction false} PathFront(
      source: Script, target: Script, i: nat, j: nat, p: Pair, path: seq<Pair>, x: nat, y: nat)
    requires Partners(source, target, i, j, p.source, p.target)
    requires LeadsTo(source, target, p.source, p.target, path, x, y)
    ensures LeadsTo(source, target, i, j, [p] + path, x, y)
  {
    assert ([p] + path)[1..] == path;
  }

  lemma {:induction false} ChangeBelow(source: Script, target: Script, i: nat, j: nat, p: Pair, y: nat)
    requires source.Valid() && target.Valid() && Partners(source, target, i, j, p.source, p.target)
    requires IsChange(source, target, p.source, p.target, y)
    ensures IsChange(source, target, i, j, y)
  {
    if path: seq<Pair>, x: nat :| Replaced(source, target, p.source, p.target, path, x, y) {
      PathFront(source, target, i, j, p, path, x, y);
      assert Replaced(source, target, i, j, [p] + path, x, y);
    } else {
      var path: seq<Pair>, x: nat, z: nat :| Added(source, target, p.source, p.target, path, x, z, y);
      PathFront(source, target, i, j, p, path, x, z);
      assert Added(source, target, i, j, [p] + path, x, z, y);
    }
  }

  /** What a pair at the end of a path reports, the pair at its begin reports too. */
  lemma {:induction false} ReportedAbove(
      source: Script, target: Script, i: nat, j: nat, path: seq<Pair>, x: nat, z: nat, y: nat)
    requires source.Valid() && target.Valid() && LeadsTo(source, target, i, j, path, x, z)
    requires i < |source.nodes| && j < |target.nodes|
    requires x < |source.nodes| && z < |target.nodes| && y in Changed(source, target, x, z)
    ensures y in Changed(source, target, i, j)
    decreases |path|
  {
    if path != [] {
      var p := path[0];
      ChildrenInRange(source, target, i, j, p.source, p.target);
      ReportedAbove(source, target, p.source, p.target, path[1..], x, z, y);
      ChildPairsMeaning(source, target, i, j, p.source, p.target);
      assert p == Pair(p.source, p.target);
      ChangedStep(source, target, i, j, y);
    }
  }

  lemma {:induction false} ChangeIsReported(source: Script, target: Script, i: nat, j: nat, y: nat)
    requires source.Valid() && target.Valid()
    requires i < |source.nodes| && j < |target.nodes| && IsChange(source, target, i, j, y)
    ensures y in Changed(source, target, i, j)
  {
    if path: seq<Pair>, x: nat :| Replaced(source, target, i, j, path, x, y) {
      ChangedStep(source, target, x, y, y);
      ReportedAbove(source, target, i, j, path, x, y, y);
    } else {
      var path: seq<Pair>, x: nat, p: nat :| Added(source, target, i, j, path, x, p, y);
      ChangedStep(source, target, x, p, y);
      ReportedAbove(source, target, i, j, path, x, p, y);
    }
  }

  /**
    The recorded target nodes are exactly those whose parents are reached by partners of equal types and
    that have no partner themselves, or one of another type or content.
  */
  lemma {:induction false} ChangedMeaning(source: Script, target: Script, i: nat, j: nat, y: nat)
    requires source.Valid() && target.Valid()
    requires i < |source.nodes| && j < |target.nodes|
    ensures y in Changed(source, target, i, j) <==> IsChange(source, target, i, j, y)
  {
    if y in Changed(source, target, i, j) {
      ReportedIsChange(source, target, i, j, y);
    }
    if IsChange(source, target, i, j, y) {
      ChangeIsReported(source, target, i, j, y);
    }
  }

  // ---------------------------------------------------------------- highlighted text

  /** The text position lies between the begin of a node's first symbol and the end of its last. */
  ghost predicate Spells(script: Script, y: nat, pos: nat)
    requires script.Valid()
  {
    y < |script.nodes| && script.nodes[y].span.length > 0
    && (var span := script.nodes[y].span;
        script.NodeValid(y) && script.symbols[span.offset].offset <= pos
        && pos < script.symbols[span.offset + span.length - 1].offset
                 + script.symbols[span.offset + span.length - 1].length)
  }

  lemma {:induction false} SpellsMeaning(script: Script, y: nat, pos: nat)
    requires script.Valid() && y < |script.nodes|
    ensures script.SpanOf(y).offset <= pos < script.SpanOf(y).End() <==> Spells(script, y, pos)
  {
    assert script.NodeValid(y);
    var span := script.nodes[y].span;
    if span.length > 0 {
      SymbolsInOrder(script, span.offset, span.offset + span.length - 1);
    }
  }

  /** The highlighted positions are those in the text of a changed node. */
  lemma {:induction false} HighlightMeaning(
      source: Script, target: Script, i: nat, j: nat, changes: seq<Span>, pos: nat)
    requires source.Valid() && target.Valid()
    requires i < |source.nodes| && j < |target.nodes|
    requires Records(target, Changed(source, target, i, j), changes)
    ensures Covers(changes, pos) <==>
      exists y: nat :: IsChange(source, target, i, j, y) && Spells(target, y, pos)
  {
    var ids := Changed(source, target, i, j);
    if Covers(changes, pos) {
      assert NodesCover(target, ids, pos);
      var y :| y in ids && target.SpanOf(y).offset <= pos < target.SpanOf(y).End();
      ChangedMeaning(source, target, i, j, y);
      SpellsMeaning(target, y, pos);
    }
    if y: nat :| IsChange(source, target, i, j, y) && Spells(target, y, pos) {
      ChangedMeaning(source, target, i, j, y);
      SpellsMeaning(target, y, pos);
      assert NodesCover(target, ids, pos);
    }
  }

  // ---------------------------------------------------------------- nothing highlighted

  /** The path of child ids leads from `j` to `y`, and all nodes on it have a text. */
  ghost predicate WrittenPath(script: Script, j: nat, path: seq<nat>, y: nat)
    requires script.Valid()
    decreases |path|
  {
    && j < |script.nodes| && TextBetween(script, j) != ""
    && if path == [] then j == y else IsChild(script, j, path[0]) && WrittenPath(script, path[0], path[1..], y)
  }

  lemma {:induction false} PathBack(
      source: Script, target: Script, i: nat, j: nat, path: seq<Pair>, x: nat, y: nat, p: Pair)
    requires LeadsTo(source, target, i, j, path, x, y) && Partners(source, target, x, y, p.source, p.target)
    ensures LeadsTo(source, target, i, j, path + [p], p.source, p.target)
    decreases |path|
  {
    if path == [] {
      assert path + [p] == [p] && [p][1..] == [];
    } else {
      PathBack(source, target, path[0].source, path[0].target, path[1..], x, y, p);
      assert (path + [p])[1..] == path[1..] + [p];
    }
  }

  /** Without highlights, a node with a text is no change. */
  lemma {:induction false} WrittenIsNoChange(source: Script, target: Script, i: nat, j: nat, y: nat)
    requires source.Valid() && target.Valid()
    requires i < |source.nodes| && j < |target.nodes|
    requires Records(target, Changed(source, target, i, j), [])
    requires y < |target.nodes| && TextBetween(target, y) != ""
    ensures !IsChange(source, target, i, j, y)
  {
    NodeTextIsBetween(target, y);
    var pos := target.SpanOf(y).offset;
    SpellsMeaning(target, y, pos);
    HighlightMeaning(source, target, i, j, [], pos);
    assert !Covers([], pos);
  }

  /**
    If nothing is highlighted, every target node below the roots has a partner of its type and content, as
    long as no node on the way to it has an empty text.
  */
  lemma {:induction false} NothingHighlighted(
      source: Script, target: Script, i: nat, j: nat, done: seq<Pair>, x: nat, z: nat, path: seq<nat>, y: nat)
    returns (partners: seq<Pair>, w: nat)
    requires source.Valid() && target.Valid()
    requires i < |source.nodes| && j < |target.nodes|
    requires Records(target, Changed(source, target, i, j), [])
    requires LeadsTo(source, target, i, j, done, x, z) && x < |source.nodes| && WrittenPath(target, z, path, y)
    ensures LeadsTo(source, target, i, j, partners, w, y)
    ensures w < |source.nodes| && y < |target.nodes| && !Differ(source, target, w, y)
    decreases |path|
  {
    WrittenIsNoChange(source, target, i, j, z);
    assert !Replaced(source, target, i, j, done, x, z);
    partners, w := done, x;
    if path != [] {
      var c := path[0];
      WrittenIsNoChange(source, target, i, j, c);
      assert !Added(source, target, i, j, done, x, z, c);
      var u: nat :| Partners(source, target, x, z, u, c);
      ChildrenInRange(source, target, x, z, u, c);
      PathBack(source, target, i, j, done, x, z, Pair(u, c));
      partners, w := NothingHighlighted(source, target, i, j, done + [Pair(u, c)], u, c, path[1..], y);
    }
  }

  ghost predicate HasAgreeingPartner(source: Script, target: Script, i: nat, j: nat, y: nat)
    requires source.Valid() && target.Valid()
  {
    exists path: seq<Pair>, x: nat ::
      LeadsTo(source, target, i, j, path, x, y) && x < |source.nodes| && !Differ(source, target, x, y)
  }

  /** The case of a whole pair of roots: no highlights, so every written node has an agreeing partner. */
  lemma {:induction false} EmptyHighlightsAgree(
      source: Script, target: Script, i: nat, j: nat, changes: seq<Span>, path: seq<nat>, y: nat)
    requires source.Valid() && target.Valid()
    requires i < |source.nodes| && j < |target.nodes|
    requires Records(target, Changed(source, target, i, j), changes) && changes == []
    requires WrittenPath(target, j, path, y)
    ensures y < |target.nodes| && HasAgreeingPartner(source, target, i, j, y)
  {
    var partners, x := NothingHighlighted(source, target, i, j, [], i, j, path, y);
  }
}
