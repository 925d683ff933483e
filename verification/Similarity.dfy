/** The similarity walk (`ComputeSimilarity`): a lockstep walk that folds match counts into parent entries. */
module Similarity {
  import opened Ast
  import opened Collections
  import opened SyntaxTree
  import opened Lockstep
  import opened TreeWalks
  import opened TreeSizes

  datatype StatementSimilarity = StatementSimilarity(matchingNodes: nat, totalNodes: nat) {
    /** The score in [0, 1]. */
    function Score(): real {
      if totalNodes == 0 then 0.0 else matchingNodes as real / totalNodes as real
    }
  }

  /** A stack entry; `parentEntry` is the stack position that the match count is folded into. */
  datatype Entry = Entry(pair: Pair, parentEntry: nat, matching: nat, visited: bool)

  // ---------------------------------------------------------------- sums over the stack
  // `value` says how many matches a pair contributes; `weight` bounds the visits it takes.

  type Table = map<Pair, nat>

  ghost function At(table: Table, p: Pair): nat {
    if p in table then table[p] else 0
  }

  ghost function TableSum(table: Table, pairs: seq<Pair>): nat {
    if pairs == [] then 0 else At(table, pairs[0]) + TableSum(table, pairs[1..])
  }

  ghost function EntryTotal(value: Table, e: Entry): nat {
    e.matching + if e.visited then 0 else At(value, e.pair)
  }

  /** The matches collected on the stack plus those that unvisited entries will contribute. */
  ghost function Total(value: Table, stack: seq<Entry>): nat {
    if stack == [] then 0
    else Total(value, stack[..|stack| - 1]) + EntryTotal(value, stack[|stack| - 1])
  }

  ghost function EntryWork(weight: Table, e: Entry): nat {
    if e.visited then 1 else 2 * At(weight, e.pair)
  }

  ghost function StackWork(weight: Table, stack: seq<Entry>): nat {
    if stack == [] then 0
    else StackWork(weight, stack[..|stack| - 1]) + EntryWork(weight, stack[|stack| - 1])
  }

  function Entries(pairs: seq<Pair>, parent: nat): (r: seq<Entry>)
    ensures |r| == |pairs|
    ensures forall k :: 0 <= k < |r| ==> r[k] == Entry(pairs[k], parent, 0, false)
  {
    if pairs == [] then [] else [Entry(pairs[0], parent, 0, false)] + Entries(pairs[1..], parent)
  }

  lemma {:induction false} TotalPush(value: Table, weight: Table, stack: seq<Entry>, e: Entry)
    ensures Total(value, stack + [e]) == Total(value, stack) + EntryTotal(value, e)
    ensures StackWork(weight, stack + [e]) == StackWork(weight, stack) + EntryWork(weight, e)
  {
    assert (stack + [e])[..|stack|] == stack;
  }

  lemma {:induction false} TotalAppend(value: Table, weight: Table, stack: seq<Entry>, pairs: seq<Pair>, parent: nat)
    ensures Total(value, stack + Entries(pairs, parent)) == Total(value, stack) + TableSum(value, pairs)
    ensures StackWork(weight, stack + Entries(pairs, parent))
         == StackWork(weight, stack) + 2 * TableSum(weight, pairs)
    decreases |pairs|
  {
    if pairs == [] {
      assert stack + Entries(pairs, parent) == stack;
    } else {
      var e := Entry(pairs[0], parent, 0, false);
      TotalPush(value, weight, stack, e);
      TotalAppend(value, weight, stack + [e], pairs[1..], parent);
      Associative(stack, [e], Entries(pairs[1..], parent));
    }
  }

  lemma {:induction false} TotalUpdate(value: Table, weight: Table, stack: seq<Entry>, k: nat, e: Entry)
    requires k < |stack|
    ensures Total(value, stack[k := e]) + EntryTotal(value, stack[k]) == Total(value, stack) + EntryTotal(value, e)
    ensures StackWork(weight, stack[k := e]) + EntryWork(weight, stack[k])
         == StackWork(weight, stack) + EntryWork(weight, e)
  {
    var last := |stack| - 1;
    if k == last {
      assert stack[k := e][..last] == stack[..last];
    } else {
      TotalUpdate(value, weight, stack[..last], k, e);
      assert stack[k := e][..last] == stack[..last][k := e];
    }
  }

  // ---------------------------------------------------------------- steps of the walk

  /** Entries fold into positions below their own. */
  ghost predicate FoldsDown(stack: seq<Entry>) {
    forall k :: 1 <= k < |stack| ==> stack[k].parentEntry < k
  }

  ghost predicate EntriesValid(source: Script, target: Script, stack: seq<Entry>) {
    forall k :: 0 <= k < |stack| ==>
      stack[k].pair.source < |source.nodes| && stack[k].pair.target < |target.nodes|
  }

  /** The stack after the top entry was counted (`same`), marked, and its child pairs pushed. */
  function Visited(stack: seq<Entry>, same: bool, pairs: seq<Pair>): seq<Entry>
    requires stack != []
  {
    Marked(stack, same) + Entries(pairs, |stack| - 1)
  }

  function Marked(stack: seq<Entry>, same: bool): seq<Entry>
    requires stack != []
  {
    var idx := |stack| - 1;
    var top := stack[idx];
    stack[idx := top.(visited := true, matching := top.matching + if same then 1 else 0)]
  }

  lemma {:induction false} MarkTotals(value: Table, weight: Table, stack: seq<Entry>, same: bool)
    requires stack != [] && !stack[|stack| - 1].visited
    ensures Total(value, Marked(stack, same)) + At(value, stack[|stack| - 1].pair)
         == Total(value, stack) + (if same then 1 else 0)
    ensures StackWork(weight, Marked(stack, same)) + 2 * At(weight, stack[|stack| - 1].pair)
         == StackWork(weight, stack) + 1
  {
    var idx := |stack| - 1;
    TotalUpdate(value, weight, stack, idx, Marked(stack, same)[idx]);
  }

  /** The stack after the top entry was popped and its matches were added to its parent entry. */
  function Folded(stack: seq<Entry>): seq<Entry>
    requires |stack| > 1 && stack[|stack| - 1].parentEntry < |stack| - 1
  {
    var top, rest := stack[|stack| - 1], stack[..|stack| - 1];
    var parent := rest[top.parentEntry];
    rest[top.parentEntry := parent.(matching := parent.matching + top.matching)]
  }

  lemma {:induction false} VisitTotals(value: Table, weight: Table, stack: seq<Entry>, same: bool, pairs: seq<Pair>)
    requires stack != [] && !stack[|stack| - 1].visited
    requires At(value, stack[|stack| - 1].pair) == (if same then 1 else 0) + TableSum(value, pairs)
    requires TableSum(weight, pairs) < At(weight, stack[|stack| - 1].pair)
    ensures Total(value, Visited(stack, same, pairs)) == Total(value, stack)
    ensures StackWork(weight, Visited(stack, same, pairs)) < StackWork(weight, stack)
  {
    MarkTotals(value, weight, stack, same);
    TotalAppend(value, weight, Marked(stack, same), pairs, |stack| - 1);
  }

  lemma {:induction false} VisitFolds(stack: seq<Entry>, same: bool, pairs: seq<Pair>)
    requires stack != [] && FoldsDown(stack)
    ensures FoldsDown(Visited(stack, same, pairs))
  {
  }

  lemma {:induction false} FoldTotals(value: Table, weight: Table, stack: seq<Entry>)
    requires |stack| > 1 && FoldsDown(stack) && stack[|stack| - 1].visited
    ensures Total(value, Folded(stack)) == Total(value, stack)
    ensures StackWork(weight, Folded(stack)) < StackWork(weight, stack)
    ensures FoldsDown(Folded(stack))
  {
    var top, rest := stack[|stack| - 1], stack[..|stack| - 1];
    var parent := rest[top.parentEntry];
    TotalUpdate(value, weight, rest, top.parentEntry, parent.(matching := parent.matching + top.matching));
  }

  lemma {:induction false} VisitValid(source: Script, target: Script, stack: seq<Entry>, same: bool, pairs: seq<Pair>)
    requires stack != [] && EntriesValid(source, target, stack) && PairsValid(source, target, pairs)
    ensures EntriesValid(source, target, Visited(stack, same, pairs))
  {
    var r := Visited(stack, same, pairs);
    forall k | 0 <= k < |r|
      ensures r[k].pair.source < |source.nodes| && r[k].pair.target < |target.nodes|
    {
      if k >= |stack| {
        assert r[k].pair == pairs[k - |stack|];
      }
    }
  }

  // ---------------------------------------------------------------- what a pair contributes

  /** `value` holds the matches below every pair, and `weight` shrinks from a pair to its child pairs. */
  ghost predicate TablesFit(source: Script, target: Script, value: Table, weight: Table)
    requires source.Valid() && target.Valid()
  {
    forall i: nat, j: nat :: i < |source.nodes| && j < |target.nodes| ==> PairFits(source, target, value, weight, i, j)
  }

  ghost predicate PairFits(source: Script, target: Script, value: Table, weight: Table, i: nat, j: nat)
    requires source.Valid() && target.Valid()
    requires i < |source.nodes| && j < |target.nodes|
  {
    var pairs := ChildPairs(source, target, i, j);
    && At(value, Pair(i, j))
       == (if Agree(Unfold(source, i), Unfold(target, j)) then 1 else 0) + TableSum(value, pairs)
    && TableSum(weight, pairs) < At(weight, Pair(i, j))
  }

  ghost function MatchTable(source: Script, target: Script): (r: Table)
    requires source.Valid() && target.Valid()
    ensures forall i: nat, j: nat :: i < |source.nodes| && j < |target.nodes| ==>
      At(r, Pair(i, j)) == PairMatching(source, target, Pair(i, j))
  {
    map i: nat, j: nat | i < |source.nodes| && j < |target.nodes| ::
      Pair(i, j) := PairMatching(source, target, Pair(i, j))
  }

  ghost function WeightTable(source: Script, target: Script): (r: Table)
    requires source.Valid()
    ensures forall i: nat, j: nat :: i < |source.nodes| && j < |target.nodes| ==>
      At(r, Pair(i, j)) == Size(Unfold(source, i))
  {
    map i: nat, j: nat | i < |source.nodes| && j < |target.nodes| :: Pair(i, j) := Size(Unfold(source, i))
  }

  lemma {:induction false} MatchTableAt(source: Script, target: Script, p: Pair)
    requires source.Valid() && target.Valid()
    requires p.source < |source.nodes| && p.target < |target.nodes|
    ensures At(MatchTable(source, target), p) == PairMatching(source, target, p)
  {
    assert p == Pair(p.source, p.target);
  }

  lemma {:induction false} MatchTableSum(source: Script, target: Script, pairs: seq<Pair>)
    requires source.Valid() && target.Valid() && PairsValid(source, target, pairs)
    ensures TableSum(MatchTable(source, target), pairs) == MatchingSum(source, target, pairs)
  {
    if pairs != [] {
      MatchTableSum(source, target, pairs[1..]);
      MatchTableAt(source, target, pairs[0]);
    }
  }

  lemma {:induction false} WeightTableSum(source: Script, target: Script, pairs: seq<Pair>)
    requires source.Valid() && PairsValid(source, target, pairs)
    ensures TableSum(WeightTable(source, target), pairs) == SourceSize(source, pairs)
  {
    if pairs != [] {
      WeightTableSum(source, target, pairs[1..]);
      assert pairs[0] == Pair(pairs[0].source, pairs[0].target);
    }
  }

  lemma {:induction false} TablesFitPair(source: Script, target: Script, i: nat, j: nat)
    requires source.Valid() && target.Valid()
    requires i < |source.nodes| && j < |target.nodes|
    ensures PairFits(source, target, MatchTable(source, target), WeightTable(source, target), i, j)
  {
    var pairs := ChildPairs(source, target, i, j);
    ChildPairSums(source, target, i, j);
    MatchTableSum(source, target, pairs);
    WeightTableSum(source, target, pairs);
  }

  // ---------------------------------------------------------------- the walk

  method PushEntries(pairs: seq<Pair>, parent: nat) returns (entries: seq<Entry>)
    ensures entries == Entries(pairs, parent)
  {
    entries := [];
    for i := 0 to |pairs|
      invariant |entries| == i
      invariant forall k :: 0 <= k < i ==> entries[k] == Entry(pairs[k], parent, 0, false)
    {
      entries := entries + [Entry(pairs[i], parent, 0, false)];
    }
    assert entries == Entries(pairs, parent);
  }

  /** Mark the top entry visited, count it if its nodes agree, and push its child pairs. */
  method VisitPair(source: Script, target: Script, stack: seq<Entry>) returns (pending: seq<Entry>)
    requires source.Valid() && target.Valid()
    requires stack != [] && EntriesValid(source, target, stack)
    ensures
      var top := stack[|stack| - 1].pair;
      pending == Visited(stack,
        Agree(Unfold(source, top.source), Unfold(target, top.target)),
        ChildPairs(source, target, top.source, top.target))
  {
    var idx := |stack| - 1;
    var top := stack[idx];
    var same, pairs := CompareNodes(source, target, top.pair.source, top.pair.target);
    var pushed := PushEntries(pairs, idx);
    pending := Marked(stack, same) + pushed;
  }

  /** Count the nodes that match below a pair of nodes. */
  method CountMatching(source: Script, target: Script, root: Pair, ghost value: Table, ghost weight: Table)
    returns (matching: nat)
    requires source.Valid() && target.Valid()
    requires root.source < |source.nodes| && root.target < |target.nodes|
    requires TablesFit(source, target, value, weight)
    ensures matching == At(value, root)
  {
    var pending := [Entry(root, 0, 0, false)];
    TotalPush(value, weight, [], pending[0]);
    assert [] + [pending[0]] == pending;
    while true
      invariant pending != [] && FoldsDown(pending) && EntriesValid(source, target, pending)
      invariant Total(value, pending) == At(value, root)
      decreases StackWork(weight, pending)
    {
      var top := pending[|pending| - 1];
      if top.visited {
        if |pending| == 1 {
          assert pending[..0] == [];
          return pending[0].matching;
        }
        FoldTotals(value, weight, pending);
        pending := Folded(pending);
      } else {
        VisitInvariant(source, target, value, weight, pending);
        pending := VisitPair(source, target, pending);
      }
    }
  }

  lemma {:induction false} VisitInvariant(
      source: Script, target: Script, value: Table, weight: Table, stack: seq<Entry>)
    requires source.Valid() && target.Valid() && TablesFit(source, target, value, weight)
    requires stack != [] && FoldsDown(stack) && EntriesValid(source, target, stack) && !stack[|stack| - 1].visited
    ensures
      var top := stack[|stack| - 1].pair;
      var next := Visited(stack,
        Agree(Unfold(source, top.source), Unfold(target, top.target)),
        ChildPairs(source, target, top.source, top.target));
      && next != [] && FoldsDown(next) && EntriesValid(source, target, next)
      && Total(value, next) == Total(value, stack)
      && StackWork(weight, next) < StackWork(weight, stack)
  {
    var top := stack[|stack| - 1].pair;
    var same := Agree(Unfold(source, top.source), Unfold(target, top.target));
    var pairs := ChildPairs(source, target, top.source, top.target);
    assert PairFits(source, target, value, weight, top.source, top.target);
    assert top == Pair(top.source, top.target);
    VisitTotals(value, weight, stack, same, pairs);
    VisitFolds(stack, same, pairs);
    VisitValid(source, target, stack, same, pairs);
  }

  /**
    The similarity of two statements, with both memo tables threaded through. Roots are both valid
    or both invalid; callers have ruled out the mixed case.
  */
  method ComputeSimilarity(
      source: Script, target: Script, sourceRoot: nat, targetRoot: nat, sourceMemo: seq<nat>, targetMemo: seq<nat>)
    returns (sim: StatementSimilarity, sourceSizes: seq<nat>, targetSizes: seq<nat>)
    requires source.Valid() && target.Valid()
    requires sourceRoot < |source.nodes| <==> targetRoot < |target.nodes|
    requires MemoValid(SizeTable(source), sourceMemo) && MemoValid(SizeTable(target), targetMemo)
    ensures MemoValid(SizeTable(source), sourceSizes) && MemoValid(SizeTable(target), targetSizes)
    ensures sourceRoot >= |source.nodes| ==> sim == StatementSimilarity(0, 0)
    ensures sourceRoot < |source.nodes| ==> sim == SimilarityOf(source, target, sourceRoot, targetRoot)
  {
    var sourceSize, targetSize;
    sourceSize, sourceSizes := ComputeTreeSize(source, sourceRoot, sourceMemo);
    targetSize, targetSizes := ComputeTreeSize(target, targetRoot, targetMemo);
    var nodeCount := Max(sourceSize, targetSize);
    if nodeCount == 0 {
      sim := StatementSimilarity(0, 0);
    } else {
      var matching := MatchingNodes(source, target, sourceRoot, targetRoot);
      sim := StatementSimilarity(matching, nodeCount);
    }
  }

  method MatchingNodes(source: Script, target: Script, sourceRoot: nat, targetRoot: nat) returns (matching: nat)
    requires source.Valid() && target.Valid()
    requires sourceRoot < |source.nodes| && targetRoot < |target.nodes|
    ensures matching == Matching(Unfold(source, sourceRoot), Unfold(target, targetRoot))
  {
    forall i: nat, j: nat | i < |source.nodes| && j < |target.nodes|
      ensures PairFits(source, target, MatchTable(source, target), WeightTable(source, target), i, j)
    {
      TablesFitPair(source, target, i, j);
    }
    matching := CountMatching(
      source, target, Pair(sourceRoot, targetRoot), MatchTable(source, target), WeightTable(source, target));
  }

  /** The similarity of two valid roots, in terms of their trees. */
  ghost function SimilarityOf(source: Script, target: Script, i: nat, j: nat): StatementSimilarity
    requires source.Valid() && target.Valid()
    requires i < |source.nodes| && j < |target.nodes|
  {
    var a, b := Unfold(source, i), Unfold(target, j);
    StatementSimilarity(Matching(a, b), Max(Size(a), Size(b)))
  }

  lemma {:induction false} RatioBounds(matching: nat, total: nat)
    requires matching <= total && 0 < total
    ensures 0.0 <= matching as real / total as real <= 1.0
    ensures matching as real / total as real == 1.0 <==> matching == total
  {
    var m, t := matching as real, total as real;
    var q := m / t;
    assert q * t == m;
    if q < 0.0 {
      ScaleKeepsOrder(q, 0.0, t);
    }
    if q < 1.0 {
      ScaleKeepsOrder(q, 1.0, t);
    }
    if q > 1.0 {
      ScaleKeepsOrder(1.0, q, t);
    }
  }

  lemma {:induction false} ScaleKeepsOrder(a: real, b: real, t: real)
    requires a < b && 0.0 < t
    ensures a * t < b * t
  {
    assert (b - a) * t > 0.0;
  }

  /** The score lies in [0, 1], and is 1 exactly when deep equality holds. */
  lemma {:induction false} ScoreAgreesWithEquality(source: Script, target: Script, i: nat, j: nat)
    requires source.Valid() && target.Valid()
    requires i < |source.nodes| && j < |target.nodes|
    ensures 0.0 <= SimilarityOf(source, target, i, j).Score() <= 1.0
    ensures SimilarityOf(source, target, i, j).Score() == 1.0 <==> Unfold(source, i) == Unfold(target, j)
  {
    UnfoldKeyed(source, i);
    var a, b := Unfold(source, i), Unfold(target, j);
    SimilarityAgreesWithEquality(a, b);
    RatioBounds(Matching(a, b), Max(Size(a), Size(b)));
  }
}
