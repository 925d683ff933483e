/** Mapping the statements of two scripts, with ambiguity marking (`MapStatements`). */
module StatementMapping {
  import opened Ast
  import opened Collections
  import opened SyntaxTree
  import opened TreeWalks
  import opened PatienceLcs

  datatype Estimate = NotEqual | Similar | Equal

  /** The node id of a statement's root; error-recovery statements have one that is out of range. */
  predicate RootValid(script: Script, id: nat)
    requires id < |script.statements|
  {
    script.statements[id] < |script.nodes|
  }

  /** A cheap estimate: equal texts of equally shaped roots are taken as equal without a tree walk. */
  function EstimateSimilarity(source: Script, target: Script, s: nat, t: nat): Estimate
    requires source.Valid() && target.Valid()
    requires s < |source.statements| && t < |target.statements|
  {
    if !RootValid(source, s) || !RootValid(target, t) then NotEqual
    else
      var i, j := source.statements[s], target.statements[t];
      if source.nodes[i].nodeType != target.nodes[j].nodeType then NotEqual
      else if source.nodes[i].childrenCount == target.nodes[j].childrenCount
           && source.SpanOf(i).length == target.SpanOf(j).length
           && source.NodeText(i) == target.NodeText(j) then Equal
      else Similar
  }

  /** The equality that the mapping is built on. */
  ghost predicate StatementsEqual(source: Script, target: Script, s: nat, t: nat)
    requires source.Valid() && target.Valid()
    requires s < |source.statements| && t < |target.statements|
  {
    match EstimateSimilarity(source, target, s, t)
    case NotEqual => false
    case Equal => true
    case Similar => Unfold(source, source.statements[s]) == Unfold(target, target.statements[t])
  }

  /** All equal (source, target) edges. */
  ghost function EqualEdges(source: Script, target: Script): (r: set<Pair>)
    requires source.Valid() && target.Valid()
    ensures forall p :: p in r <==>
      p.source < |source.statements| && p.target < |target.statements|
      && StatementsEqual(source, target, p.source, p.target)
  {
    var r := set i: nat, j: nat |
      i < |source.statements| && j < |target.statements| && StatementsEqual(source, target, i, j) :: Pair(i, j);
    assert forall p: Pair :: p == Pair(p.source, p.target);
    r
  }

  /** An edge that shares neither end with another edge. */
  ghost predicate Isolated(edges: set<Pair>, p: Pair) {
    p in edges && forall q :: q in edges && (q.source == p.source || q.target == p.target) ==> q == p
  }

  predicate Precedes(p: Pair, q: Pair) {
    p.source < q.source || (p.source == q.source && p.target < q.target)
  }

  /** The one list of `edges` in (source, target) order. */
  ghost predicate IsSortedListOf(pairs: seq<Pair>, edges: set<Pair>) {
    && (forall a, b :: 0 <= a < b < |pairs| ==> Precedes(pairs[a], pairs[b]))
    && (forall p :: p in pairs <==> p in edges)
  }

  ghost function IsolatedEdges(edges: set<Pair>): set<Pair> {
    set p | p in edges && Isolated(edges, p)
  }

  // ---------------------------------------------------------------- the bookkeeping

  datatype Marks = Marks(
    sourceAmbiguous: seq<bool>,
    targetAmbiguous: seq<bool>,
    mapping: seq<Option<nat>>
  )

  ghost predicate InBounds(m: nat, n: nat, seen: set<Pair>, marks: Marks) {
    && |marks.sourceAmbiguous| == m && |marks.targetAmbiguous| == n && |marks.mapping| == n
    && (forall p :: p in seen ==> p.source < m && p.target < n)
    && (forall t :: 0 <= t < n && marks.mapping[t].Some? ==> Pair(marks.mapping[t].value, t) in seen)
  }

  /** An edge is either the mapping of its target, or both its ends are marked. */
  ghost predicate MappedOrMarked(m: nat, n: nat, seen: set<Pair>, marks: Marks)
    requires InBounds(m, n, seen, marks)
  {
    forall p :: p in seen ==>
      marks.mapping[p.target] == Some(p.source)
      || (marks.sourceAmbiguous[p.source] && marks.targetAmbiguous[p.target])
  }

  ghost predicate MappingInjective(marks: Marks) {
    forall t, u | 0 <= t < |marks.mapping| && 0 <= u < |marks.mapping| ::
      marks.mapping[t].Some? && marks.mapping[t] == marks.mapping[u] ==> t == u
  }

  /** A marked source has edges, none of them isolated. */
  ghost predicate SourceMarkSound(seen: set<Pair>, s: nat) {
    (exists p :: p in seen && p.source == s) && forall p :: p in seen && p.source == s ==> !Isolated(seen, p)
  }

  ghost predicate TargetMarkSound(seen: set<Pair>, t: nat) {
    (exists p :: p in seen && p.target == t) && forall p :: p in seen && p.target == t ==> !Isolated(seen, p)
  }

  ghost predicate MarksSound(m: nat, n: nat, seen: set<Pair>, marks: Marks)
    requires InBounds(m, n, seen, marks)
  {
    && (forall s: nat :: s < m && marks.sourceAmbiguous[s] ==> SourceMarkSound(seen, s))
    && (forall t: nat :: t < n && marks.targetAmbiguous[t] ==> TargetMarkSound(seen, t))
  }

  ghost predicate MarksValid(m: nat, n: nat, seen: set<Pair>, marks: Marks) {
    && InBounds(m, n, seen, marks)
    && MappedOrMarked(m, n, seen, marks) && MappingInjective(marks) && MarksSound(m, n, seen, marks)
  }

  /** `matched` is the target that row `s` was mapped to, if any. */
  ghost predicate RowMatch(marks: Marks, s: nat, matched: Option<nat>) {
    && (matched.Some? ==> matched.value < |marks.mapping|)
    && forall t :: 0 <= t < |marks.mapping| ==> (marks.mapping[t] == Some(s) <==> matched == Some(t))
  }

  lemma {:induction false} MarkStaysSound(seen: set<Pair>, e: Pair)
    ensures forall s: nat :: SourceMarkSound(seen, s) ==> SourceMarkSound(seen + {e}, s)
    ensures forall t: nat :: TargetMarkSound(seen, t) ==> TargetMarkSound(seen + {e}, t)
  {
    forall s: nat | SourceMarkSound(seen, s)
      ensures SourceMarkSound(seen + {e}, s)
    {
      var p :| p in seen && p.source == s;
      assert p in seen + {e};
    }
    forall t: nat | TargetMarkSound(seen, t)
      ensures TargetMarkSound(seen + {e}, t)
    {
      var p :| p in seen && p.target == t;
      assert p in seen + {e};
    }
  }

  /** Two edges at one target: the target and both sources are ambiguous. */
  lemma {:induction false} BothSourcesMarked(edges: set<Pair>, p: Pair, q: Pair)
    requires p in edges && q in edges && p != q && p.target == q.target
    ensures TargetMarkSound(edges, p.target)
    ensures SourceMarkSound(edges, p.source) && SourceMarkSound(edges, q.source)
  {
  }

  /** Two edges at one source: the source and both targets are ambiguous. */
  lemma {:induction false} BothTargetsMarked(edges: set<Pair>, p: Pair, q: Pair)
    requires p in edges && q in edges && p != q && p.source == q.source
    ensures SourceMarkSound(edges, p.source)
    ensures TargetMarkSound(edges, p.target) && TargetMarkSound(edges, q.target)
  {
  }

  /** `after` keeps the mapping and all marks of `before`, marks both ends of `e`, and adds sound marks only. */
  ghost predicate MarksExtend(m: nat, n: nat, edges: set<Pair>, before: Marks, e: Pair, after: Marks) {
    && after.mapping == before.mapping
    && |after.sourceAmbiguous| == |before.sourceAmbiguous| == m
    && |after.targetAmbiguous| == |before.targetAmbiguous| == n
    && e.source < m && e.target < n
    && after.sourceAmbiguous[e.source] && after.targetAmbiguous[e.target]
    && (forall s: nat :: s < m && before.sourceAmbiguous[s] ==> after.sourceAmbiguous[s])
    && (forall t: nat :: t < n && before.targetAmbiguous[t] ==> after.targetAmbiguous[t])
    && (forall s: nat :: s < m && after.sourceAmbiguous[s] ==>
          before.sourceAmbiguous[s] || SourceMarkSound(edges, s))
    && (forall t: nat :: t < n && after.targetAmbiguous[t] ==>
          before.targetAmbiguous[t] || TargetMarkSound(edges, t))
  }

  lemma {:induction false} MarkTakenExtends(m: nat, n: nat, edges: set<Pair>, marks: Marks, e: Pair, existing: nat)
    requires |marks.sourceAmbiguous| == m && |marks.targetAmbiguous| == n
    requires e.source < m && e.target < n && existing < m
    requires SourceMarkSound(edges, e.source) && SourceMarkSound(edges, existing) && TargetMarkSound(edges, e.target)
    ensures MarksExtend(m, n, edges, marks, e, MarkTaken(marks, e, existing))
  {
  }

  lemma {:induction false} MarkMatchedExtends(m: nat, n: nat, edges: set<Pair>, marks: Marks, e: Pair, matched: nat)
    requires |marks.sourceAmbiguous| == m && |marks.targetAmbiguous| == n
    requires e.source < m && e.target < n && matched < n
    requires SourceMarkSound(edges, e.source) && TargetMarkSound(edges, e.target) && TargetMarkSound(edges, matched)
    ensures MarksExtend(m, n, edges, marks, e, MarkMatched(marks, e, matched))
  {
  }

  /** An ambiguous edge: it leaves the mapping alone and marks both its ends, and maybe more. */
  lemma {:induction false} AddMarkedEdge(m: nat, n: nat, seen: set<Pair>, before: Marks, e: Pair, after: Marks)
    requires MarksValid(m, n, seen, before)
    requires e.source < m && e.target < n
    requires MarksExtend(m, n, seen + {e}, before, e, after)
    ensures MarksValid(m, n, seen + {e}, after)
  {
    MarkStaysSound(seen, e);
    assert InBounds(m, n, seen + {e}, after);
    assert MarksSound(m, n, seen + {e}, after);
  }

  /** The target of `e` is already mapped to another source: all three ends are ambiguous. */
  function MarkTaken(marks: Marks, e: Pair, existing: nat): Marks
    requires e.source < |marks.sourceAmbiguous| && existing < |marks.sourceAmbiguous|
    requires e.target < |marks.targetAmbiguous|
  {
    marks.(
      sourceAmbiguous := marks.sourceAmbiguous[e.source := true][existing := true],
      targetAmbiguous := marks.targetAmbiguous[e.target := true])
  }

  /** The source of `e` is already mapped to another target: all three ends are ambiguous. */
  function MarkMatched(marks: Marks, e: Pair, matched: nat): Marks
    requires e.source < |marks.sourceAmbiguous|
    requires e.target < |marks.targetAmbiguous| && matched < |marks.targetAmbiguous|
  {
    marks.(
      sourceAmbiguous := marks.sourceAmbiguous[e.source := true],
      targetAmbiguous := marks.targetAmbiguous[matched := true][e.target := true])
  }

  lemma {:induction false} MarkTakenValid(m: nat, n: nat, seen: set<Pair>, marks: Marks, e: Pair, existing: nat)
    requires MarksValid(m, n, seen, marks)
    requires e !in seen && e.source < m && e.target < n
    requires marks.mapping[e.target] == Some(existing)
    ensures existing < m && MarksValid(m, n, seen + {e}, MarkTaken(marks, e, existing))
  {
    assert Pair(existing, e.target) in seen;
    BothSourcesMarked(seen + {e}, e, Pair(existing, e.target));
    MarkTakenExtends(m, n, seen + {e}, marks, e, existing);
    AddMarkedEdge(m, n, seen, marks, e, MarkTaken(marks, e, existing));
  }

  lemma {:induction false} MarkMatchedValid(m: nat, n: nat, seen: set<Pair>, marks: Marks, e: Pair, matched: nat)
    requires MarksValid(m, n, seen, marks)
    requires e !in seen && e.source < m && e.target < n
    requires matched < n && marks.mapping[matched] == Some(e.source) && matched != e.target
    ensures MarksValid(m, n, seen + {e}, MarkMatched(marks, e, matched))
  {
    assert Pair(e.source, matched) in seen;
    BothTargetsMarked(seen + {e}, e, Pair(e.source, matched));
    MarkMatchedExtends(m, n, seen + {e}, marks, e, matched);
    AddMarkedEdge(m, n, seen, marks, e, MarkMatched(marks, e, matched));
  }

  /** An edge whose ends are both free so far becomes a mapping. */
  lemma {:induction false} MapFree(m: nat, n: nat, seen: set<Pair>, marks: Marks, e: Pair)
    requires MarksValid(m, n, seen, marks)
    requires e !in seen && e.source < m && e.target < n
    requires marks.mapping[e.target] == None && RowMatch(marks, e.source, None)
    ensures MarksValid(m, n, seen + {e}, marks.(mapping := marks.mapping[e.target := Some(e.source)]))
  {
    MarkStaysSound(seen, e);
    assert forall p :: p in seen && p.target == e.target ==> marks.targetAmbiguous[p.target];
  }

  /** The mapped pairs without a mark are exactly the isolated edges. */
  lemma {:induction false} UnmarkedMappingsAreIsolated(m: nat, n: nat, edges: set<Pair>, marks: Marks, p: Pair)
    requires MarksValid(m, n, edges, marks)
    ensures Isolated(edges, p) <==>
      && p.source < m && p.target < n && marks.mapping[p.target] == Some(p.source)
      && !marks.sourceAmbiguous[p.source] && !marks.targetAmbiguous[p.target]
  {
    if Isolated(edges, p) {
      assert marks.sourceAmbiguous[p.source] ==> SourceMarkSound(edges, p.source);
      assert marks.targetAmbiguous[p.target] ==> TargetMarkSound(edges, p.target);
    }
  }

  // ---------------------------------------------------------------- the algorithm

  /** Account for one equal edge. `matched` is the target its source statement is mapped to so far. */
  method AddEdge(m: nat, n: nat, marks: Marks, e: Pair, matched: Option<nat>, ghost seen: set<Pair>)
    returns (after: Marks, nowMatched: Option<nat>)
    requires MarksValid(m, n, seen, marks) && RowMatch(marks, e.source, matched)
    requires e !in seen && e.source < m && e.target < n
    ensures MarksValid(m, n, seen + {e}, after) && RowMatch(after, e.source, nowMatched)
  {
    nowMatched := matched;
    if marks.mapping[e.target].Some? {
      MarkTakenValid(m, n, seen, marks, e, marks.mapping[e.target].value);
      after := MarkTaken(marks, e, marks.mapping[e.target].value);
    } else if matched.Some? {
      MarkMatchedValid(m, n, seen, marks, e, matched.value);
      after := MarkMatched(marks, e, matched.value);
    } else {
      MapFree(m, n, seen, marks, e);
      after := marks.(mapping := marks.mapping[e.target := Some(e.source)]);
      nowMatched := Some(e.target);
    }
  }

  // ---------------------------------------------------------------- sorting pairs

  ghost predicate SortedPairs(pairs: seq<Pair>) {
    forall a, b :: 0 <= a < b < |pairs| ==> pairs[a] == pairs[b] || Precedes(pairs[a], pairs[b])
  }

  lemma {:induction false} InsertedAt(sorted: seq<Pair>, i: nat, x: Pair)
    requires SortedPairs(sorted) && i <= |sorted|
    requires forall k :: 0 <= k < i ==> sorted[k] == x || Precedes(sorted[k], x)
    requires forall k :: i <= k < |sorted| ==> Precedes(x, sorted[k])
    ensures SortedPairs(sorted[..i] + [x] + sorted[i..])
  {
  }

  method InsertPair(sorted: seq<Pair>, x: Pair) returns (r: seq<Pair>)
    requires SortedPairs(sorted)
    ensures SortedPairs(r)
    ensures multiset(r) == multiset(sorted) + multiset{x}
  {
    var i := |sorted|;
    while i > 0 && Precedes(x, sorted[i - 1])
      invariant 0 <= i <= |sorted|
      invariant forall k :: i <= k < |sorted| ==> Precedes(x, sorted[k])
    {
      i := i - 1;
    }
    InsertedAt(sorted, i, x);
    InsertedElements(sorted, i, x);
    r := sorted[..i] + [x] + sorted[i..];
  }

  method SortPairs(pairs: seq<Pair>) returns (r: seq<Pair>)
    ensures SortedPairs(r)
    ensures multiset(r) == multiset(pairs)
  {
    r := [];
    for i := 0 to |pairs|
      invariant SortedPairs(r)
      invariant multiset(r) == multiset(pairs[..i])
    {
      r := InsertPair(r, pairs[i]);
      assert pairs[..i + 1] == pairs[..i] + [pairs[i]];
    }
    assert pairs[..|pairs|] == pairs;
  }

  /** Sorting a list without duplicates gives the sorted list of its elements. */
  lemma {:induction false} SortedWithoutDuplicates(pairs: seq<Pair>, sorted: seq<Pair>, edges: set<Pair>)
    requires SortedPairs(sorted) && multiset(sorted) == multiset(pairs)
    requires forall a, b :: 0 <= a < b < |pairs| ==> pairs[a] != pairs[b]
    requires forall p :: p in pairs <==> p in edges
    ensures IsSortedListOf(sorted, edges)
  {
    forall p
      ensures p in sorted <==> p in edges
    {
      assert p in multiset(sorted) <==> p in multiset(pairs);
    }
    forall a, b | 0 <= a < b < |sorted|
      ensures sorted[a] != sorted[b]
    {
      if sorted[a] == sorted[b] {
        TwiceInMultiset(sorted, a, b);
        OnceInMultiset(pairs, sorted[a]);
        assert false;
      }
    }
  }

  lemma {:induction false} TwiceInMultiset(pairs: seq<Pair>, a: nat, b: nat)
    requires a < b < |pairs| && pairs[a] == pairs[b]
    ensures multiset(pairs)[pairs[a]] >= 2
  {
    assert pairs == pairs[..a] + [pairs[a]] + pairs[a + 1..b] + [pairs[b]] + pairs[b + 1..];
  }

  lemma {:induction false} OnceInMultiset(pairs: seq<Pair>, x: Pair)
    requires forall a, b :: 0 <= a < b < |pairs| ==> pairs[a] != pairs[b]
    ensures multiset(pairs)[x] <= 1
  {
    if pairs != [] {
      var front := pairs[..|pairs| - 1];
      OnceInMultiset(front, x);
      SplitLast(pairs);
      assert x == pairs[|pairs| - 1] ==> x !in front;
    }
  }

  // ---------------------------------------------------------------- the loops

  /** The edges visited before (s, t), row by row. */
  ghost function SeenUpTo(edges: set<Pair>, s: nat, t: nat): set<Pair> {
    set p | p in edges && Precedes(p, Pair(s, t))
  }

  lemma {:induction false} SeenStep(edges: set<Pair>, s: nat, t: nat)
    ensures SeenUpTo(edges, s, t + 1)
         == if Pair(s, t) in edges then SeenUpTo(edges, s, t) + {Pair(s, t)} else SeenUpTo(edges, s, t)
  {
    assert forall p: Pair :: p.source == s && p.target == t ==> p == Pair(s, t);
  }

  lemma {:induction false} SeenRow(edges: set<Pair>, s: nat, n: nat)
    requires forall p :: p in edges ==> p.target < n
    ensures SeenUpTo(edges, s, n) == SeenUpTo(edges, s + 1, 0)
  {
  }

  lemma {:induction false} SortedListAppend(pairs: seq<Pair>, edges: set<Pair>, s: nat, t: nat)
    requires IsSortedListOf(pairs, SeenUpTo(edges, s, t)) && Pair(s, t) in edges
    ensures IsSortedListOf(pairs + [Pair(s, t)], SeenUpTo(edges, s, t + 1))
  {
    SeenStep(edges, s, t);
    var e := Pair(s, t);
    forall a | 0 <= a < |pairs|
      ensures Precedes(pairs[a], e)
    {
      assert pairs[a] in pairs;
    }
    forall p
      ensures p in pairs + [e] <==> p in SeenUpTo(edges, s, t + 1)
    {
      assert p in pairs + [e] <==> p in pairs || p == e;
    }
  }

  /** One source statement against all target statements. */
  method MapRow(
      source: Script, target: Script, s: nat, before: Marks, pairsBefore: seq<Pair>, ghost edges: set<Pair>)
    returns (marks: Marks, pairs: seq<Pair>)
    requires source.Valid() && target.Valid() && edges == EqualEdges(source, target)
    requires s < |source.statements|
    requires MarksValid(|source.statements|, |target.statements|, SeenUpTo(edges, s, 0), before)
    requires IsSortedListOf(pairsBefore, SeenUpTo(edges, s, 0))
    ensures MarksValid(|source.statements|, |target.statements|, SeenUpTo(edges, s + 1, 0), marks)
    ensures IsSortedListOf(pairs, SeenUpTo(edges, s + 1, 0))
  {
    marks, pairs := before, pairsBefore;
    var matched := None;
    for t := 0 to |target.statements|
      invariant MarksValid(|source.statements|, |target.statements|, SeenUpTo(edges, s, t), marks)
      invariant RowMatch(marks, s, matched)
      invariant IsSortedListOf(pairs, SeenUpTo(edges, s, t))
    {
      SeenStep(edges, s, t);
      var equal := CompareStatements(source, target, s, t);
      if equal {
        SortedListAppend(pairs, edges, s, t);
        pairs := pairs + [Pair(s, t)];
        marks, matched := AddEdge(
          |source.statements|, |target.statements|, marks, Pair(s, t), matched, SeenUpTo(edges, s, t));
      }
    }
    SeenRow(edges, s, |target.statements|);
  }

  /** The estimate first; the tree walk only if it is undecided. */
  method CompareStatements(source: Script, target: Script, s: nat, t: nat) returns (equal: bool)
    requires source.Valid() && target.Valid()
    requires s < |source.statements| && t < |target.statements|
    ensures equal == StatementsEqual(source, target, s, t)
  {
    match EstimateSimilarity(source, target, s, t)
    case NotEqual => equal := false;
    case Equal => equal := true;
    case Similar => equal := CheckDeepEquality(source, target, source.statements[s], target.statements[t]);
  }

  /** Emit the mappings without a mark. */
  method EmitUnambiguous(m: nat, n: nat, marks: Marks, ghost edges: set<Pair>) returns (pairs: seq<Pair>)
    requires MarksValid(m, n, edges, marks)
    ensures IsSortedListOf(pairs, IsolatedEdges(edges)) && SortedBySource(pairs)
  {
    var found: seq<Pair> := [];
    for t := 0 to n
      invariant forall a, b :: 0 <= a < b < |found| ==> found[a] != found[b]
      invariant forall p :: p in found <==> Isolated(edges, p) && p.target < t
    {
      if marks.mapping[t].Some? {
        var p := Pair(marks.mapping[t].value, t);
        assert p in edges;
        if !marks.sourceAmbiguous[p.source] && !marks.targetAmbiguous[t] {
          found := found + [p];
        }
      }
      AfterTarget(m, n, marks, edges, t);
    }
    pairs := SortPairs(found);
    SortedWithoutDuplicates(found, pairs, IsolatedEdges(edges));
    IsolatedSources(edges, pairs);
  }

  lemma {:induction false} AfterTarget(m: nat, n: nat, marks: Marks, edges: set<Pair>, t: nat)
    requires MarksValid(m, n, edges, marks) && t < n
    ensures forall p :: Isolated(edges, p) && p.target == t <==>
      && marks.mapping[t].Some? && p == Pair(marks.mapping[t].value, t)
      && !marks.sourceAmbiguous[p.source] && !marks.targetAmbiguous[t]
  {
    forall p: Pair
      ensures Isolated(edges, p) && p.target == t <==>
        && marks.mapping[t].Some? && p == Pair(marks.mapping[t].value, t)
        && !marks.sourceAmbiguous[p.source] && !marks.targetAmbiguous[t]
    {
      UnmarkedMappingsAreIsolated(m, n, edges, marks, p);
    }
  }

  lemma {:induction false} IsolatedSources(edges: set<Pair>, pairs: seq<Pair>)
    requires IsSortedListOf(pairs, IsolatedEdges(edges))
    ensures SortedBySource(pairs)
  {
    forall a, b | 0 <= a < b < |pairs|
      ensures pairs[a].source < pairs[b].source
    {
      assert pairs[a] in pairs && pairs[b] in pairs;
    }
  }

  /**
    Map the statements: `equalPairs` lists all equal edges in order, and `uniquePairs` exactly the
    edges whose source equals no other target and whose target equals no other source. Nothing is
    assumed about the equality.
  */
  method MapStatements(source: Script, target: Script) returns (uniquePairs: seq<Pair>, equalPairs: seq<Pair>)
    requires source.Valid() && target.Valid()
    ensures IsSortedListOf(equalPairs, EqualEdges(source, target))
    ensures IsSortedListOf(uniquePairs, IsolatedEdges(EqualEdges(source, target)))
    ensures SortedBySource(uniquePairs)
  {
    ghost var edges := EqualEdges(source, target);
    var m, n := |source.statements|, |target.statements|;
    var marks := Marks(seq(m, _ => false), seq(n, _ => false), seq(n, _ => None));
    var pairs: seq<Pair> := [];
    assert SeenUpTo(edges, 0, 0) == {};
    for s := 0 to m
      invariant MarksValid(m, n, SeenUpTo(edges, s, 0), marks)
      invariant IsSortedListOf(pairs, SeenUpTo(edges, s, 0))
    {
      marks, pairs := MapRow(source, target, s, marks, pairs, edges);
    }
    assert SeenUpTo(edges, m, 0) == edges;
    uniquePairs := EmitUnambiguous(m, n, marks, edges);
    equalPairs := SortPairs(pairs);
    SortedWithoutDuplicates(pairs, equalPairs, edges);
  }
}
