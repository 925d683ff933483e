/** The changed sub-ranges of an UPDATE's target statement (`CollectTargetChanges`). */
module TargetChanges {
  import opened Ast
  import opened Collections
  import opened AttributeOrder
  import opened SyntaxTree
  import opened Lockstep
  import opened TreeWalks
  import opened Spans

  // ---------------------------------------------------------------- which target nodes changed

  /** The target ids that the merge-join leaves without a partner: added attributes and array elements. */
  function AddedIds(ks: seq<nat>, ss: seq<nat>, kt: seq<nat>, ts: seq<nat>): (r: seq<nat>)
    requires |ks| == |ss| && |kt| == |ts|
    ensures forall x :: x in r ==> x in ts
    decreases |ss| + |ts|
  {
    if ts == [] then []
    else if ss == [] then ts
    else if ks[0] < kt[0] then AddedIds(ks[1..], ss[1..], kt, ts)
    else if ks[0] > kt[0] then [ts[0]] + AddedIds(ks, ss, kt[1..], ts[1..])
    else AddedIds(ks[1..], ss[1..], kt[1..], ts[1..])
  }

  function Elements(ids: seq<nat>): set<nat> {
    set x | x in ids
  }

  /** The target nodes that a node pair reports itself: a replaced subtree, a changed leaf, or added children. */
  ghost function OwnChanges(source: Script, target: Script, i: nat, j: nat): (r: set<nat>)
    requires source.Valid() && target.Valid()
    requires i < |source.nodes| && j < |target.nodes|
    ensures forall x :: x in r ==> x < |target.nodes|
  {
    if source.nodes[i].nodeType != target.nodes[j].nodeType || ContentOf(source, i) != ContentOf(target, j) then {j}
    else
      var ts := ChildrenOf(target, j);
      assert forall x :: x in ts ==> x < |target.nodes|;
      var added := AddedIds(KeysOf(source, i), ChildrenOf(source, i), KeysOf(target, j), ts);
      Elements(added)
  }

  /** All changed target nodes below the pair (i, j). */
  ghost function Changed(source: Script, target: Script, i: nat, j: nat): (r: set<nat>)
    requires source.Valid() && target.Valid()
    requires i < |source.nodes| && j < |target.nodes|
    ensures forall x :: x in r ==> x < |target.nodes|
    decreases i
  {
    OwnChanges(source, target, i, j)
    + set p, x | p in ChildPairs(source, target, i, j) && x in Changed(source, target, p.source, p.target) :: x
  }

  /** The text positions of a set of target nodes. */
  ghost predicate NodesCover(target: Script, ids: set<nat>, pos: nat)
    requires target.Valid() && forall x :: x in ids ==> x < |target.nodes|
  {
    exists x :: x in ids && target.SpanOf(x).offset <= pos < target.SpanOf(x).End()
  }

  /** Deep equality leaves nothing to highlight. */
  lemma {:induction false} EqualTreesHaveNoChanges(source: Script, target: Script, i: nat, j: nat)
    requires source.Valid() && target.Valid()
    requires i < |source.nodes| && j < |target.nodes|
    requires Unfold(source, i) == Unfold(target, j)
    ensures Changed(source, target, i, j) == {}
    decreases i
  {
    EqualByChildren(source, target, i, j);
    AgreeOnFields(source, target, i, j);
    NothingAdded(KeysOf(source, i), ChildrenOf(source, i), ChildrenOf(target, j));
    var pairs := ChildPairs(source, target, i, j);
    forall p | p in pairs
      ensures Changed(source, target, p.source, p.target) == {}
    {
      var k :| 0 <= k < |pairs| && pairs[k] == p;
      assert PairEqual(source, target, pairs[k]);
      EqualTreesHaveNoChanges(source, target, p.source, p.target);
    }
  }

  lemma {:induction false} NothingAdded(keys: seq<nat>, ss: seq<nat>, ts: seq<nat>)
    requires |keys| == |ss| == |ts|
    ensures AddedIds(keys, ss, keys, ts) == []
    decreases |ss|
  {
    if ss != [] {
      NothingAdded(keys[1..], ss[1..], ts[1..]);
    }
  }

  // ---------------------------------------------------------------- recording spans

  /** The spans recorded so far cover exactly the text of the nodes recorded so far. */
  ghost predicate Records(target: Script, ids: set<nat>, spans: seq<Span>)
    requires target.Valid()
  {
    && (forall x :: x in ids ==> x < |target.nodes|)
    && NonEmpty(spans)
    && forall pos: nat :: Covers(spans, pos) <==> NodesCover(target, ids, pos)
  }

  lemma {:induction false} NodesCoverAdd(target: Script, ids: set<nat>, x: nat, pos: nat)
    requires target.Valid() && (forall y :: y in ids ==> y < |target.nodes|) && x < |target.nodes|
    ensures NodesCover(target, ids + {x}, pos) <==>
      NodesCover(target, ids, pos) || target.SpanOf(x).offset <= pos < target.SpanOf(x).End()
  {
  }

  /** Record the resolved span of a whole target subtree, unless it is empty. */
  method Record(target: Script, ghost ids: set<nat>, x: nat, changes: seq<Span>) returns (r: seq<Span>)
    requires target.Valid() && Records(target, ids, changes) && x < |target.nodes|
    ensures Records(target, ids + {x}, r)
  {
    var span := target.SpanOf(x);
    r := if span.length > 0 then changes + [span] else changes;
    forall pos: nat
      ensures Covers(r, pos) <==> NodesCover(target, ids + {x}, pos)
    {
      NodesCoverAdd(target, ids, x, pos);
      CoversAppend(changes, span, pos);
    }
  }

  method RecordAll(target: Script, ghost ids: set<nat>, changed: seq<nat>, changes: seq<Span>) returns (r: seq<Span>)
    requires target.Valid() && Records(target, ids, changes)
    requires InRange(target.nodes, changed)
    ensures Records(target, ids + Elements(changed), r)
  {
    r := changes;
    ghost var done := ids;
    for k := 0 to |changed|
      invariant Records(target, done, r)
      invariant done == ids + Elements(changed[..k])
    {
      r := Record(target, done, changed[k], r);
      done := done + {changed[k]};
      assert changed[..k + 1] == changed[..k] + [changed[k]];
    }
    assert changed[..|changed|] == changed;
  }

  // ---------------------------------------------------------------- comparing two nodes

  ghost function AddedFrom(ks: seq<nat>, ss: seq<nat>, kt: seq<nat>, ts: seq<nat>, i: nat, j: nat): seq<nat>
    requires |ks| == |ss| && |kt| == |ts| && i <= |ss| && j <= |ts|
  {
    AddedIds(ks[i..], ss[i..], kt[j..], ts[j..])
  }

  lemma {:induction false} AddedEnds(ks: seq<nat>, ss: seq<nat>, kt: seq<nat>, ts: seq<nat>, i: nat, j: nat)
    requires |ks| == |ss| && |kt| == |ts| && i <= |ss| && j <= |ts|
    ensures AddedFrom(ks, ss, kt, ts, 0, 0) == AddedIds(ks, ss, kt, ts)
    ensures i == |ss| || j == |ts| ==> AddedFrom(ks, ss, kt, ts, i, j) == ts[j..]
  {
    assert ks[0..] == ks && ss[0..] == ss && kt[0..] == kt && ts[0..] == ts;
  }

  lemma {:induction false} AddedStep(ks: seq<nat>, ss: seq<nat>, kt: seq<nat>, ts: seq<nat>, i: nat, j: nat)
    requires |ks| == |ss| && |kt| == |ts|
    requires i < |ss| && j < |ts|
    ensures AddedFrom(ks, ss, kt, ts, i, j) ==
      if ks[i] < kt[j] then AddedFrom(ks, ss, kt, ts, i + 1, j)
      else if ks[i] > kt[j] then [ts[j]] + AddedFrom(ks, ss, kt, ts, i, j + 1)
      else AddedFrom(ks, ss, kt, ts, i + 1, j + 1)
  {
    assert ks[i..][1..] == ks[i + 1..] && ss[i..][1..] == ss[i + 1..];
    assert kt[j..][1..] == kt[j + 1..] && ts[j..][1..] == ts[j + 1..];
  }

  /** The merge-join over two sorted attribute lists that reports target-only attributes. */
  method JoinForChanges(
      source: Script, target: Script, ss: seq<nat>, ts: seq<nat>, ghost ks: seq<nat>, ghost kt: seq<nat>)
    returns (pairs: seq<Pair>, added: seq<nat>)
    requires InRange(source.nodes, ss) && InRange(target.nodes, ts)
    requires KeysMatch(source.nodes, ss, ks) && KeysMatch(target.nodes, ts, kt)
    ensures pairs == JoinPairs(ks, ss, kt, ts)
    ensures added == AddedIds(ks, ss, kt, ts)
  {
    pairs, added := [], [];
    var i, j := 0, 0;
    JoinEnds(ks, ss, kt, ts, 0, 0);
    AddedEnds(ks, ss, kt, ts, 0, 0);
    while i < |ss| && j < |ts|
      invariant i <= |ss| && j <= |ts|
      invariant pairs + JoinFrom(ks, ss, kt, ts, i, j) == JoinPairs(ks, ss, kt, ts)
      invariant added + AddedFrom(ks, ss, kt, ts, i, j) == AddedIds(ks, ss, kt, ts)
      decreases |ss| + |ts| - i - j
    {
      var sk, tk := Key(source.nodes, ss[i]), Key(target.nodes, ts[j]);
      JoinStep(ks, ss, kt, ts, i, j);
      AddedStep(ks, ss, kt, ts, i, j);
      if sk < tk {
        i := i + 1;
      } else if sk > tk {
        Associative(added, [ts[j]], AddedFrom(ks, ss, kt, ts, i, j + 1));
        added := added + [ts[j]];
        j := j + 1;
      } else {
        Associative(pairs, [Pair(ss[i], ts[j])], JoinFrom(ks, ss, kt, ts, i + 1, j + 1));
        pairs := pairs + [Pair(ss[i], ts[j])];
        i, j := i + 1, j + 1;
      }
    }
    JoinEnds(ks, ss, kt, ts, i, j);
    AddedEnds(ks, ss, kt, ts, i, j);
    added := AppendRest(added, ts, j);
  }

  /** The attributes that only the target has left. */
  method AppendRest(added: seq<nat>, ts: seq<nat>, from: nat) returns (r: seq<nat>)
    requires from <= |ts|
    ensures r == added + ts[from..]
  {
    r := added;
    for j := from to |ts|
      invariant r == added + ts[from..j]
    {
      r := r + [ts[j]];
    }
  }

  lemma {:induction false} AddedPositions(k: nat, sb: nat, n: nat, tb: nat, m: nat)
    ensures AddedIds(Range(k, n), Range(sb, n), Range(k, m), Range(tb, m))
         == Range(tb + Min(n, m), m - Min(n, m))
    decreases n
  {
    if n > 0 && m > 0 {
      RangeFront(k, n);
      RangeFront(sb, n);
      RangeFront(k, m);
      RangeFront(tb, m);
      AddedPositions(k + 1, sb + 1, n - 1, tb + 1, m - 1);
    }
  }

  /** Compare one node pair: the child pairs to descend into, and the target nodes to record. */
  method DiffNodes(source: Script, target: Script, i: nat, j: nat) returns (pairs: seq<Pair>, changed: seq<nat>)
    requires source.Valid() && target.Valid()
    requires i < |source.nodes| && j < |target.nodes|
    ensures pairs == ChildPairs(source, target, i, j)
    ensures InRange(target.nodes, changed)
    ensures Elements(changed) == OwnChanges(source, target, i, j)
  {
    var s, t := source.nodes[i], target.nodes[j];
    if s.nodeType != t.nodeType {
      pairs, changed := [], [j];
    } else if s.nodeType == ARRAY {
      pairs, changed := DiffArrays(source, target, i, j);
    } else if IsObjectType(s.nodeType) {
      pairs, changed := DiffObjects(source, target, i, j);
    } else {
      LeafPairs(source, target, i, j);
      var same := CompareLeaves(source, target, i, j);
      pairs, changed := [], if same then [] else [j];
    }
  }

  method DiffArrays(source: Script, target: Script, i: nat, j: nat) returns (pairs: seq<Pair>, changed: seq<nat>)
    requires source.Valid() && target.Valid()
    requires i < |source.nodes| && j < |target.nodes|
    requires source.nodes[i].nodeType == target.nodes[j].nodeType == ARRAY
    ensures pairs == ChildPairs(source, target, i, j)
    ensures InRange(target.nodes, changed)
    ensures Elements(changed) == OwnChanges(source, target, i, j)
  {
    var s, t := source.nodes[i], target.nodes[j];
    assert source.NodeValid(i) && target.NodeValid(j);
    ArrayPairs(source, target, i, j);
    ArrayOwnChanges(source, target, i, j);
    var common := Min(s.childrenCount, t.childrenCount);
    pairs := PushArrayPairs(s.childrenBeginOrValue, t.childrenBeginOrValue, common);
    changed := AddedElements(t.childrenBeginOrValue, common, t.childrenCount);
  }

  /** The elements of the longer target array are the changes of an array pair. */
  lemma {:induction false} ArrayOwnChanges(source: Script, target: Script, i: nat, j: nat)
    requires source.Valid() && target.Valid()
    requires i < |source.nodes| && j < |target.nodes|
    requires source.nodes[i].nodeType == target.nodes[j].nodeType == ARRAY
    ensures
      var s, t := source.nodes[i], target.nodes[j];
      var common := Min(s.childrenCount, t.childrenCount);
      var added := Range(t.childrenBeginOrValue + common, t.childrenCount - common);
      Elements(added) == OwnChanges(source, target, i, j) && InRange(target.nodes, added)
  {
    var s, t := source.nodes[i], target.nodes[j];
    assert source.NodeValid(i) && target.NodeValid(j);
    ArrayPairs(source, target, i, j);
    AddedPositions(0, s.childrenBeginOrValue, s.childrenCount, t.childrenBeginOrValue, t.childrenCount);
  }

  /** The elements of an array from one position on. */
  method AddedElements(begin: nat, from: nat, to: nat) returns (changed: seq<nat>)
    requires from <= to
    ensures changed == Range(begin + from, to - from)
  {
    changed := [];
    for k := from to to
      invariant changed == Range(begin + from, k - from)
    {
      changed := changed + [begin + k];
    }
  }

  method DiffObjects(source: Script, target: Script, i: nat, j: nat) returns (pairs: seq<Pair>, changed: seq<nat>)
    requires source.Valid() && target.Valid()
    requires i < |source.nodes| && j < |target.nodes|
    requires source.nodes[i].nodeType == target.nodes[j].nodeType
    requires IsObjectType(source.nodes[i].nodeType)
    ensures pairs == ChildPairs(source, target, i, j)
    ensures InRange(target.nodes, changed)
    ensures Elements(changed) == OwnChanges(source, target, i, j)
  {
    assert source.NodeValid(i) && target.NodeValid(j);
    var ss := CollectSortedChildren(source.nodes, source.nodes[i]);
    var ts := CollectSortedChildren(target.nodes, target.nodes[j]);
    pairs, changed := JoinForChanges(source, target, ss, ts, KeysOf(source, i), KeysOf(target, j));
    ObjectChanges(source, target, i, j);
  }

  lemma {:induction false} ObjectChanges(source: Script, target: Script, i: nat, j: nat)
    requires source.Valid() && target.Valid()
    requires i < |source.nodes| && j < |target.nodes|
    requires source.nodes[i].nodeType == target.nodes[j].nodeType
    requires IsObjectType(source.nodes[i].nodeType)
    ensures
      var added := AddedIds(KeysOf(source, i), ChildrenOf(source, i), KeysOf(target, j), ChildrenOf(target, j));
      InRange(target.nodes, added) && Elements(added) == OwnChanges(source, target, i, j)
  {
    var added := AddedIds(KeysOf(source, i), ChildrenOf(source, i), KeysOf(target, j), ChildrenOf(target, j));
    ChildrenInRange(target, j, added);
    ObjectOwnChanges(source, target, i, j, added);
  }

  lemma {:induction false} ChildrenInRange(target: Script, j: nat, added: seq<nat>)
    requires target.Valid() && j < |target.nodes| && forall x :: x in added ==> x in ChildrenOf(target, j)
    ensures InRange(target.nodes, added)
  {
    forall k | 0 <= k < |added|
      ensures added[k] < |target.nodes|
    {
      assert added[k] in added;
    }
  }

  lemma {:induction false} ObjectOwnChanges(source: Script, target: Script, i: nat, j: nat, added: seq<nat>)
    requires source.Valid() && target.Valid()
    requires i < |source.nodes| && j < |target.nodes|
    requires source.nodes[i].nodeType == target.nodes[j].nodeType
    requires IsObjectType(source.nodes[i].nodeType)
    requires added == AddedIds(KeysOf(source, i), ChildrenOf(source, i), KeysOf(target, j), ChildrenOf(target, j))
    ensures Elements(added) == OwnChanges(source, target, i, j)
  {
  }

  // ---------------------------------------------------------------- the walk

  type ChangeTable = map<Pair, set<nat>>

  ghost function ChangesAt(table: ChangeTable, p: Pair): set<nat> {
    if p in table then table[p] else {}
  }

  ghost function UnionOf(table: ChangeTable, pairs: seq<Pair>): set<nat> {
    if pairs == [] then {} else UnionOf(table, pairs[..|pairs| - 1]) + ChangesAt(table, pairs[|pairs| - 1])
  }

  lemma {:induction false} UnionAppend(table: ChangeTable, a: seq<Pair>, b: seq<Pair>)
    ensures UnionOf(table, a + b) == UnionOf(table, a) + UnionOf(table, b)
    decreases |b|
  {
    if b == [] {
      assert a + b == a;
    } else {
      UnionAppend(table, a, b[..|b| - 1]);
      assert (a + b)[..|a + b| - 1] == a + b[..|b| - 1];
    }
  }

  lemma {:induction false} UnionMembers(table: ChangeTable, pairs: seq<Pair>)
    ensures UnionOf(table, pairs) == set p, x | p in pairs && x in ChangesAt(table, p) :: x
  {
    if pairs != [] {
      UnionMembers(table, pairs[..|pairs| - 1]);
      SplitLast(pairs);
    }
  }

  ghost predicate TableFits(source: Script, target: Script, table: ChangeTable)
    requires source.Valid() && target.Valid()
  {
    forall i: nat, j: nat :: i < |source.nodes| && j < |target.nodes| ==> TableFitsAt(source, target, table, i, j)
  }

  ghost predicate TableFitsAt(source: Script, target: Script, table: ChangeTable, i: nat, j: nat)
    requires source.Valid() && target.Valid()
    requires i < |source.nodes| && j < |target.nodes|
  {
    ChangesAt(table, Pair(i, j)) == OwnChanges(source, target, i, j) + UnionOf(table, ChildPairs(source, target, i, j))
  }

  ghost function TableOf(source: Script, target: Script): (r: ChangeTable)
    requires source.Valid() && target.Valid()
    ensures forall i: nat, j: nat :: i < |source.nodes| && j < |target.nodes| ==>
      ChangesAt(r, Pair(i, j)) == Changed(source, target, i, j)
  {
    map i: nat, j: nat | i < |source.nodes| && j < |target.nodes| :: Pair(i, j) := Changed(source, target, i, j)
  }

  lemma {:induction false} TableOfFits(source: Script, target: Script, i: nat, j: nat)
    requires source.Valid() && target.Valid()
    requires i < |source.nodes| && j < |target.nodes|
    ensures TableFitsAt(source, target, TableOf(source, target), i, j)
  {
    var table, pairs := TableOf(source, target), ChildPairs(source, target, i, j);
    UnionMembers(table, pairs);
    forall p | p in pairs
      ensures ChangesAt(table, p) == Changed(source, target, p.source, p.target)
    {
      assert p == Pair(p.source, p.target);
    }
  }

  lemma {:induction false} UnionStep(table: ChangeTable, rest: seq<Pair>, top: Pair, own: set<nat>, children: seq<Pair>)
    requires ChangesAt(table, top) == own + UnionOf(table, children)
    ensures UnionOf(table, rest + [top]) == own + UnionOf(table, rest + children)
  {
    UnionAppend(table, rest, [top]);
    UnionAppend(table, rest, children);
    assert UnionOf(table, [top]) == ChangesAt(table, top) by {
      assert [top][..0] == [];
    }
  }

  /** What is recorded, and what the stack will record, are the changes below `root`. */
  ghost predicate Recording(
      source: Script, target: Script, table: ChangeTable, root: Pair,
      pending: seq<Pair>, recorded: set<nat>, changes: seq<Span>)
    requires source.Valid() && target.Valid()
  {
    && PairsValid(source, target, pending)
    && recorded + UnionOf(table, pending) == ChangesAt(table, root)
    && Records(target, recorded, changes)
  }

  /** Pop the top pair, record its own changes, and push its child pairs. */
  method RecordTop(
      source: Script, target: Script, stack: seq<Pair>, spans: seq<Span>,
      ghost table: ChangeTable, ghost root: Pair, ghost before: set<nat>)
    returns (pending: seq<Pair>, changes: seq<Span>, ghost recorded: set<nat>)
    requires source.Valid() && target.Valid()
    requires TableFits(source, target, table)
    requires stack != [] && Recording(source, target, table, root, stack, before, spans)
    ensures Recording(source, target, table, root, pending, recorded, changes)
    ensures SourceSize(source, pending) < SourceSize(source, stack)
  {
    var top, rest := stack[|stack| - 1], stack[..|stack| - 1];
    assert top in stack;
    var pairs, changed := DiffNodes(source, target, top.source, top.target);
    changes := RecordAll(target, before, changed, spans);
    recorded := before + OwnChanges(source, target, top.source, top.target);
    pending := rest + pairs;
    StackStep(source, target, table, stack);
  }

  lemma {:induction false} StackStep(source: Script, target: Script, table: ChangeTable, stack: seq<Pair>)
    requires source.Valid() && target.Valid()
    requires TableFits(source, target, table)
    requires stack != [] && PairsValid(source, target, stack)
    ensures
      var top, rest := stack[|stack| - 1], stack[..|stack| - 1];
      var next := rest + ChildPairs(source, target, top.source, top.target);
      && PairsValid(source, target, next)
      && UnionOf(table, stack) == OwnChanges(source, target, top.source, top.target) + UnionOf(table, next)
      && SourceSize(source, next) < SourceSize(source, stack)
  {
    var top, rest := stack[|stack| - 1], stack[..|stack| - 1];
    SplitLast(stack);
    WalkShrinks(source, target, rest, top);
    assert TableFitsAt(source, target, table, top.source, top.target);
    assert top == Pair(top.source, top.target);
    UnionStep(table, rest, top, OwnChanges(source, target, top.source, top.target),
      ChildPairs(source, target, top.source, top.target));
  }

  /** Walk two subtrees in lockstep and record every changed target node. */
  method RecordChanges(source: Script, target: Script, root: Pair, ghost table: ChangeTable)
    returns (changes: seq<Span>)
    requires source.Valid() && target.Valid()
    requires root.source < |source.nodes| && root.target < |target.nodes|
    requires TableFits(source, target, table)
    ensures Records(target, ChangesAt(table, root), changes)
  {
    changes := [];
    var pending := [root];
    ghost var recorded: set<nat> := {};
    assert UnionOf(table, [root]) == ChangesAt(table, root) by {
      assert [root][..0] == [];
    }
    while pending != []
      invariant Recording(source, target, table, root, pending, recorded, changes)
      decreases SourceSize(source, pending)
    {
      pending, changes, recorded := RecordTop(source, target, pending, changes, table, root, recorded);
    }
  }

  /**
    The changed sub-ranges within the target statement: a minimal sorted list of spans that covers
    exactly the text of the changed target nodes. Empty for invalid roots.
  */
  method CollectTargetChanges(source: Script, target: Script, sourceRoot: nat, targetRoot: nat)
    returns (changes: seq<Span>)
    requires source.Valid() && target.Valid()
    ensures sourceRoot >= |source.nodes| || targetRoot >= |target.nodes| ==> changes == []
    ensures sourceRoot < |source.nodes| && targetRoot < |target.nodes| ==>
      Coalesced(changes) && Records(target, Changed(source, target, sourceRoot, targetRoot), changes)
  {
    changes := [];
    if sourceRoot >= |source.nodes| || targetRoot >= |target.nodes| {
      return;
    }
    forall i: nat, j: nat | i < |source.nodes| && j < |target.nodes|
      ensures TableFitsAt(source, target, TableOf(source, target), i, j)
    {
      TableOfFits(source, target, i, j);
    }
    var recorded := RecordChanges(source, target, Pair(sourceRoot, targetRoot), TableOf(source, target));
    changes := Coalesce(recorded);
  }

  /** Deep-equal statements highlight nothing. */
  lemma {:induction false} EqualStatementsHighlightNothing(
      source: Script, target: Script, i: nat, j: nat, changes: seq<Span>)
    requires source.Valid() && target.Valid()
    requires i < |source.nodes| && j < |target.nodes|
    requires Unfold(source, i) == Unfold(target, j)
    requires Coalesced(changes) && Records(target, Changed(source, target, i, j), changes)
    ensures changes == []
  {
    EqualTreesHaveNoChanges(source, target, i, j);
    assert changes != [] ==> Covers(changes, changes[0].offset);
  }
}
