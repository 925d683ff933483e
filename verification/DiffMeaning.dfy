/** What the operations of a diff say about the statements, on the nodes and texts of the two scripts. */
module DiffMeaning {
  import opened Ast
  import opened Collections
  import opened SyntaxTree
  import opened Similarity
  import opened Spans
  import opened StatementMapping
  import opened DiffRun
  import opened ScriptDiffs
  import opened DiffTheorems
  import opened NodeMeaning
  import opened ChangeMeaning
  import opened TreeMatches

  /** Statements with roots of one type that are not written alike. */
  ghost predicate Comparable(source: Script, target: Script, s: nat, t: nat)
    requires source.Valid() && target.Valid()
  {
    && s < |source.statements| && t < |target.statements|
    && source.statements[s] < |source.nodes| && target.statements[t] < |target.nodes|
    && source.nodes[source.statements[s]].nodeType == target.nodes[target.statements[t]].nodeType
    && !WrittenAlike(source, target, source.statements[s], target.statements[t])
  }

  lemma {:induction false} ComparableIsUndecided(source: Script, target: Script, s: nat, t: nat)
    requires source.Valid() && target.Valid()
    ensures Comparable(source, target, s, t) <==> Undecided(source, target, Pair(s, t))
  {
    if s < |source.statements| && t < |target.statements| {
      EstimateMeaning(source, target, s, t);
    }
  }

  /** KEEP and MOVE pair statements that are written alike or have one tree. */
  lemma {:induction false} KeptAndMovedMeaning(
      source: Script, target: Script, lcs: seq<Pair>, ops: seq<DiffOp>, k: nat)
    requires source.Valid() && target.Valid() && IsScriptDiff(source, target, lcs, ops)
    requires k < |ops| && ops[k].op.code in {Keep, Move}
    ensures ops[k].op.source.Some? && ops[k].op.target.Some?
    ensures SameStatement(source, target, ops[k].op.source.value, ops[k].op.target.value)
  {
    KeepsAndMovesPairEqualStatements(source, target, lcs, ops, k);
    EqualEdgesMeaning(source, target, Pair(ops[k].op.source.value, ops[k].op.target.value));
  }

  // ---------------------------------------------------------------- similarity

  /** The score is the share of the larger tree at whose places the two trees agree. */
  lemma {:induction false} ScoreMeaning(source: Script, target: Script, i: nat, j: nat)
    returns (places: set<seq<Pair>>)
    requires source.Valid() && target.Valid() && i < |source.nodes| && j < |target.nodes|
    ensures forall p :: p in places <==> AgreeAt(Unfold(source, i), Unfold(target, j), p)
    ensures Max(Size(Unfold(source, i)), Size(Unfold(target, j))) > 0
    ensures SimilarityOf(source, target, i, j).Score()
         == |places| as real / Max(Size(Unfold(source, i)), Size(Unfold(target, j))) as real
  {
    UnfoldInOrder(source, i);
    UnfoldInOrder(target, j);
    places := MatchingCountsPlaces(Unfold(source, i), Unfold(target, j));
  }

  /** An UPDATE pairs statements of one type with different texts or child counts, different trees, and a high score. */
  lemma {:induction false} UpdateMeaning(
      source: Script, target: Script, lcs: seq<Pair>, ops: seq<DiffOp>, k: nat)
    requires source.Valid() && target.Valid() && IsScriptDiff(source, target, lcs, ops)
    requires k < |ops| && ops[k].op.code == Update
    ensures ops[k].op.source.Some? && ops[k].op.target.Some?
    ensures
      var s, t := ops[k].op.source.value, ops[k].op.target.value;
      && Comparable(source, target, s, t)
      && Unfold(source, source.statements[s]) != Unfold(target, target.statements[t])
      && 0.75 <= SimilarityOf(source, target, source.statements[s], target.statements[t]).Score() < 1.0
  {
    UpdatesAreSimilarNotEqual(source, target, lcs, ops, k);
    ComparableIsUndecided(source, target, ops[k].op.source.value, ops[k].op.target.value);
  }

  // ---------------------------------------------------------------- which partner a statement gets

  ghost predicate TakenBefore(ops: seq<DiffOp>, k: nat, t: nat)
    requires k <= |ops|
  {
    exists j :: 0 <= j < k && ops[j].op.target == Some(t)
  }

  lemma {:induction false} TakenIsUsed(ops: seq<DiffOp>, k: nat, t: nat)
    requires k <= |ops|
    ensures Used(Ops(ops)[..k], t) <==> TakenBefore(ops, k, t)
  {
    var done := Ops(ops)[..k];
    if Used(done, t) {
      var j :| 0 <= j < |done| && done[j].target == Some(t);
      assert ops[j].op.target == Some(t);
    }
    if TakenBefore(ops, k, t) {
      var j :| 0 <= j < k && ops[j].op.target == Some(t);
      assert done[j].target == Some(t);
    }
  }

  /** A MOVE takes the first target of the same statement that no earlier operation has taken. */
  lemma {:induction false} MoveTakesFirst(
      source: Script, target: Script, lcs: seq<Pair>, ops: seq<DiffOp>, k: nat, u: nat)
    requires source.Valid() && target.Valid() && IsScriptDiff(source, target, lcs, ops)
    requires k < |ops| && ops[k].op.code == Move
    ensures ops[k].op.source.Some? && ops[k].op.target.Some? && !TakenBefore(ops, k, ops[k].op.target.value)
    ensures u < ops[k].op.target.value && SameStatement(source, target, ops[k].op.source.value, u) ==>
      TakenBefore(ops, k, u)
  {
    var problem := ProblemOf(source, target, lcs);
    OpFollows(source, target, lcs, ops, k);
    TakenIsUsed(ops, k, ops[k].op.target.value);
    TakenIsUsed(ops, k, u);
    EqualEdgesMeaning(source, target, Pair(ops[k].op.source.value, u));
  }

  /** A statement is updated or deleted only if every target of the same statement is taken. */
  lemma {:induction false} ChangedHaveNoSame(
      source: Script, target: Script, lcs: seq<Pair>, ops: seq<DiffOp>, k: nat, u: nat)
    requires source.Valid() && target.Valid() && IsScriptDiff(source, target, lcs, ops)
    requires k < |ops| && ops[k].op.code in {Update, Delete}
    ensures ops[k].op.source.Some?
    ensures SameStatement(source, target, ops[k].op.source.value, u) ==> TakenBefore(ops, k, u)
  {
    var problem := ProblemOf(source, target, lcs);
    OpFollows(source, target, lcs, ops, k);
    TakenIsUsed(ops, k, u);
    EqualEdgesMeaning(source, target, Pair(ops[k].op.source.value, u));
  }

  /** Target `u` lies behind the targets kept before operation `k` and in front of those kept after it. */
  ghost predicate BetweenKept(ops: seq<Op>, k: nat, u: nat) {
    && (forall j :: 0 <= j < k && j < |ops| && ops[j].code == Keep ==>
          ops[j].target.Some? && ops[j].target.value < u)
    && forall j :: k < j < |ops| && ops[j].code == Keep ==>
         ops[j].target.Some? && u < ops[j].target.value
  }

  /** A kept pair was kept by an operation. */
  lemma {:induction false} KeptBy(ops: seq<Op>, n: nat, m: nat) returns (j: nat)
    requires n <= |ops| && m < |Kept(ops[..n])|
    ensures j < n && ops[j].code == Keep && |Kept(ops[..j])| == m
    ensures ops[j].source.Some? && ops[j].target.Some?
    ensures Kept(ops[..n])[m] == Pair(ops[j].source.value, ops[j].target.value)
    decreases n
  {
    TakeNext(ops, n - 1);
    CountsExtend(ops[..n - 1], ops[n - 1]);
    if m < |Kept(ops[..n - 1])| {
      j := KeptBy(ops, n - 1, m);
    } else {
      j := n - 1;
    }
  }

  lemma {:induction false} BehindSectionStart(problem: Problem, ops: seq<Op>, k: nat, u: nat)
    requires IsRun(problem, ops) && k < |ops| && BetweenKept(ops, k, u)
    ensures |Kept(ops[..k])| <= |problem.lcs|
    ensures problem.SectionStart(|Kept(ops[..k])|).target <= u
  {
    RunPrefix(problem, ops, k);
    KeptIsLcsPrefix(problem, ops[..k]);
    if |Kept(ops[..k])| > 0 {
      var j := KeptBy(ops, k, |Kept(ops[..k])| - 1);
    }
  }

  /** The next kept pair was kept after operation `k`. */
  lemma {:induction false} KeptAfter(ops: seq<Op>, k: nat) returns (j: nat)
    requires k < |ops| && ops[k].code != Keep && |Kept(ops[..k])| < |Kept(ops)|
    ensures k < j < |ops| && ops[j].code == Keep && ops[j].source.Some? && ops[j].target.Some?
    ensures Kept(ops)[|Kept(ops[..k])|] == Pair(ops[j].source.value, ops[j].target.value)
  {
    TakeAll(ops);
    j := KeptBy(ops, |ops|, |Kept(ops[..k])|);
    if j < k {
      TakeNext(ops, j);
      CountsExtend(ops[..j], ops[j]);
      CountsGrow(ops, j + 1, k);
      assert false;
    }
  }

  lemma {:induction false} BeforeSectionEnd(problem: Problem, ops: seq<Op>, k: nat, u: nat)
    requires IsDiff(problem, ops) && k < |ops| && ops[k].code != Keep && BetweenKept(ops, k, u)
    requires |Kept(ops[..k])| <= |problem.lcs| && u < problem.targetCount
    ensures u < problem.SectionEnd(|Kept(ops[..k])|).target
  {
    KeptIsLcs(problem, ops);
    if |Kept(ops[..k])| < |problem.lcs| {
      var j := KeptAfter(ops, k);
    }
  }

  /** What the operation `k` of a diff follows. */
  lemma {:induction false} OpFollows(source: Script, target: Script, lcs: seq<Pair>, ops: seq<DiffOp>, k: nat)
    requires source.Valid() && target.Valid() && IsScriptDiff(source, target, lcs, ops) && k < |ops|
    ensures Follows(ProblemOf(source, target, lcs), Ops(ops)[..k], ops[k].op)
    ensures DetailsValid(source, target, ops[k])
  {
    var problem := ProblemOf(source, target, lcs);
    assert Follows(problem, Ops(ops)[..k], Ops(ops)[k]);
  }

  lemma {:induction false} SectionIsBetweenKept(
      source: Script, target: Script, lcs: seq<Pair>, ops: seq<DiffOp>, k: nat, u: nat)
    requires source.Valid() && target.Valid() && IsScriptDiff(source, target, lcs, ops)
    requires k < |ops| && ops[k].op.code != Keep && BetweenKept(Ops(ops), k, u) && u < |target.statements|
    ensures
      var problem := ProblemOf(source, target, lcs);
      var q := |Kept(Ops(ops)[..k])|;
      q <= |lcs| && problem.SectionStart(q).target <= u < problem.SectionEnd(q).target
  {
    var problem := ProblemOf(source, target, lcs);
    BehindSectionStart(problem, Ops(ops), k, u);
    BeforeSectionEnd(problem, Ops(ops), k, u);
  }

  /**
    An UPDATE takes the best free target of its section: no other comparable one scores higher, and those
    in front of it score less.
  */
  lemma {:induction false} UpdateTakesBest(
      source: Script, target: Script, lcs: seq<Pair>, ops: seq<DiffOp>, k: nat, u: nat)
    requires source.Valid() && target.Valid() && IsScriptDiff(source, target, lcs, ops)
    requires k < |ops| && ops[k].op.code == Update
    requires ops[k].op.source.Some? && ops[k].op.target.Some?
    requires Comparable(source, target, ops[k].op.source.value, ops[k].op.target.value)
    requires BetweenKept(Ops(ops), k, u) && !TakenBefore(ops, k, u)
    requires Comparable(source, target, ops[k].op.source.value, u)
    ensures
      var i, j, n :=
        source.statements[ops[k].op.source.value], target.statements[ops[k].op.target.value], target.statements[u];
      var best, other := SimilarityOf(source, target, i, j).Score(), SimilarityOf(source, target, i, n).Score();
      other <= best && (u < ops[k].op.target.value ==> other < best)
  {
    var problem, s := ProblemOf(source, target, lcs), ops[k].op.source.value;
    OpFollows(source, target, lcs, ops, k);
    SectionIsBetweenKept(source, target, lcs, ops, k, u);
    TakenIsUsed(ops, k, u);
    ComparableIsUndecided(source, target, s, u);
    ComparableIsUndecided(source, target, s, ops[k].op.target.value);
    assert Candidate(problem, Ops(ops)[..k], |Kept(Ops(ops)[..k])|, s, u);
  }

  /** A statement is deleted only if no free comparable target of its section scores 0.75 or more. */
  lemma {:induction false} DeletedHasNoSimilar(
      source: Script, target: Script, lcs: seq<Pair>, ops: seq<DiffOp>, k: nat, u: nat)
    requires source.Valid() && target.Valid() && IsScriptDiff(source, target, lcs, ops)
    requires k < |ops| && ops[k].op.code == Delete && ops[k].op.source.Some?
    requires BetweenKept(Ops(ops), k, u) && !TakenBefore(ops, k, u)
    requires Comparable(source, target, ops[k].op.source.value, u)
    ensures
      SimilarityOf(source, target, source.statements[ops[k].op.source.value], target.statements[u]).Score() < 0.75
  {
    var problem, s := ProblemOf(source, target, lcs), ops[k].op.source.value;
    OpFollows(source, target, lcs, ops, k);
    SectionIsBetweenKept(source, target, lcs, ops, k, u);
    TakenIsUsed(ops, k, u);
    ComparableIsUndecided(source, target, s, u);
    assert Candidate(problem, Ops(ops)[..k], |Kept(Ops(ops)[..k])|, s, u);
  }

  // ---------------------------------------------------------------- what is kept, and where insertions stand

  /** The same statement on both sides, and the same as no other one. */
  ghost predicate OnlySame(source: Script, target: Script, s: nat, t: nat)
    requires source.Valid() && target.Valid()
  {
    && SameStatement(source, target, s, t)
    && (forall u: nat {:trigger SameStatement(source, target, s, u)} :: SameStatement(source, target, s, u) ==> u == t)
    && forall r: nat {:trigger SameStatement(source, target, r, t)} :: SameStatement(source, target, r, t) ==> r == s
  }

  lemma {:induction false} IsolatedMeaning(source: Script, target: Script, p: Pair)
    requires source.Valid() && target.Valid()
    ensures Isolated(EqualEdges(source, target), p) <==> OnlySame(source, target, p.source, p.target)
  {
    var edges := EqualEdges(source, target);
    forall q: Pair
      ensures q in edges <==> SameStatement(source, target, q.source, q.target)
    {
      EqualEdgesMeaning(source, target, q);
    }
    if Isolated(edges, p) {
      forall u: nat | SameStatement(source, target, p.source, u)
        ensures u == p.target
      {
        assert Pair(p.source, u) in edges;
      }
      forall r: nat | SameStatement(source, target, r, p.target)
        ensures r == p.source
      {
        assert Pair(r, p.target) in edges;
      }
    }
  }

  /** KEEP pairs statements that are the same as no other statement. */
  lemma {:induction false} KeptMeaning(source: Script, target: Script, lcs: seq<Pair>, ops: seq<DiffOp>, k: nat)
    requires source.Valid() && target.Valid() && IsScriptDiff(source, target, lcs, ops)
    requires k < |ops| && ops[k].op.code == Keep
    ensures ops[k].op.source.Some? && ops[k].op.target.Some?
    ensures OnlySame(source, target, ops[k].op.source.value, ops[k].op.target.value)
  {
    OpFollows(source, target, lcs, ops, k);
    var p := lcs[|Kept(Ops(ops)[..k])|];
    assert Isolated(EqualEdges(source, target), p);
    IsolatedMeaning(source, target, p);
  }

  ghost function KeepPositions(ops: seq<Op>): set<nat> {
    set k: nat | k < |ops| && ops[k].code == Keep
  }

  lemma {:induction false} KeptCount(problem: Problem, ops: seq<Op>)
    requires IsRun(problem, ops)
    ensures |Kept(ops)| == |KeepPositions(ops)|
    decreases |ops|
  {
    if ops == [] {
      assert KeepPositions(ops) == {};
    } else {
      var front, last := ops[..|ops| - 1], ops[|ops| - 1];
      RunSplit(problem, ops);
      KeptCount(problem, front);
      CountsExtend(front, last);
      assert KeepPositions(ops) == KeepPositions(front) + if last.code == Keep then {|front|} else {};
    }
  }

  /** A chain of statements that are the same as no other ones, in order on both sides. */
  ghost predicate IsChain(source: Script, target: Script, chain: seq<Pair>)
    requires source.Valid() && target.Valid()
  {
    && (forall a, b :: 0 <= a < b < |chain| ==>
          chain[a].source < chain[b].source && chain[a].target < chain[b].target)
    && forall k :: 0 <= k < |chain| ==> OnlySame(source, target, chain[k].source, chain[k].target)
  }

  /** No chain is longer than the KEEPs are many. */
  lemma {:induction false} KeepsAreLongest(
      source: Script, target: Script, lcs: seq<Pair>, ops: seq<DiffOp>, chain: seq<Pair>)
    requires source.Valid() && target.Valid() && IsScriptDiff(source, target, lcs, ops)
    requires IsChain(source, target, chain)
    ensures |chain| <= |KeepPositions(Ops(ops))|
  {
    var problem := ProblemOf(source, target, lcs);
    KeptCount(problem, Ops(ops));
    KeptIsLcs(problem, Ops(ops));
    forall k | 0 <= k < |chain|
      ensures Isolated(EqualEdges(source, target), chain[k])
    {
      IsolatedMeaning(source, target, chain[k]);
    }
    assert IsUnambiguousChain(EqualEdges(source, target), chain);
  }

  /** An INSERT or KEEP comes when all targets in front of its own are taken. */
  lemma {:induction false} InsertedInOrder(
      source: Script, target: Script, lcs: seq<Pair>, ops: seq<DiffOp>, k: nat, u: nat)
    requires source.Valid() && target.Valid() && IsScriptDiff(source, target, lcs, ops)
    requires k < |ops| && ops[k].op.code in {Insert, Keep}
    ensures ops[k].op.target.Some?
    ensures u < ops[k].op.target.value ==> TakenBefore(ops, k, u)
  {
    var problem, done := ProblemOf(source, target, lcs), Ops(ops)[..k];
    OpFollows(source, target, lcs, ops, k);
    RunPrefix(problem, Ops(ops), k);
    TargetsUsedUpToSection(problem, done);
    TakenIsUsed(ops, k, u);
    var from := problem.SectionStart(|Kept(done)|).target;
    assert u < from ==> Used(done, u);
    assert from <= u < ops[k].op.target.value ==> Used(done, u);
  }

  /** After an INSERT come only more INSERTs, up to the next KEEP. */
  lemma {:induction false} InsertsCloseSection(
      source: Script, target: Script, lcs: seq<Pair>, ops: seq<DiffOp>, k: nat)
    requires source.Valid() && target.Valid() && IsScriptDiff(source, target, lcs, ops)
    requires k + 1 < |ops| && ops[k].op.code == Insert
    ensures ops[k + 1].op.code in {Insert, Keep}
  {
    OpFollows(source, target, lcs, ops, k);
    OpFollows(source, target, lcs, ops, k + 1);
    TakeNext(Ops(ops), k);
    CountsExtend(Ops(ops)[..k], ops[k].op);
  }

  // ---------------------------------------------------------------- spans

  predicate InSpan(span: Span, pos: nat) {
    span.offset <= pos < span.offset + span.length
  }

  /** The text positions of a statement's span; none for an invalid root. */
  ghost predicate InStatement(script: Script, s: nat, pos: nat)
    requires script.Valid()
  {
    s < |script.statements| && Spells(script, script.statements[s], pos)
  }

  lemma {:induction false} StatementSpanMeaning(script: Script, s: nat, pos: nat)
    requires script.Valid() && s < |script.statements|
    ensures InSpan(StatementSpan(script, s), pos) <==> InStatement(script, s, pos)
  {
    if RootValid(script, s) {
      SpellsMeaning(script, script.statements[s], pos);
    }
  }

  /** The span on one side of an operation. */
  lemma {:induction false} SideSpan(script: Script, side: Option<nat>, span: Span, pos: nat)
    requires script.Valid()
    requires side.Some? ==> side.value < |script.statements| && span == StatementSpan(script, side.value)
    requires side.None? ==> span == Span(0, 0)
    ensures InSpan(span, pos) <==> side.Some? && InStatement(script, side.value, pos)
  {
    if side.Some? {
      StatementSpanMeaning(script, side.value, pos);
    }
  }

  /** The spans of an operation cover the texts of its statements, from the first symbol to the last. */
  lemma {:induction false} OpSpans(
      source: Script, target: Script, lcs: seq<Pair>, ops: seq<DiffOp>, k: nat, pos: nat)
    requires source.Valid() && target.Valid() && IsScriptDiff(source, target, lcs, ops) && k < |ops|
    ensures InSpan(ops[k].sourceSpan, pos) <==>
      ops[k].op.source.Some? && InStatement(source, ops[k].op.source.value, pos)
    ensures InSpan(ops[k].targetSpan, pos) <==>
      ops[k].op.target.Some? && InStatement(target, ops[k].op.target.value, pos)
  {
    OpFollows(source, target, lcs, ops, k);
    SideSpan(source, ops[k].op.source, ops[k].sourceSpan, pos);
    SideSpan(target, ops[k].op.target, ops[k].targetSpan, pos);
  }

  /** The highlights of an UPDATE cover the texts of the changed nodes below its target, and nothing else. */
  lemma {:induction false} UpdateHighlights(
      source: Script, target: Script, lcs: seq<Pair>, ops: seq<DiffOp>, k: nat, pos: nat)
    requires source.Valid() && target.Valid() && IsScriptDiff(source, target, lcs, ops)
    requires k < |ops| && ops[k].op.code == Update
    requires ops[k].op.source.Some? && ops[k].op.target.Some?
    requires Comparable(source, target, ops[k].op.source.value, ops[k].op.target.value)
    ensures Coalesced(ops[k].targetChanges)
    ensures Covers(ops[k].targetChanges, pos) <==>
      exists y: nat ::
        IsChange(source, target, source.statements[ops[k].op.source.value],
          target.statements[ops[k].op.target.value], y)
        && Spells(target, y, pos)
  {
    OpFollows(source, target, lcs, ops, k);
    HighlightMeaning(
      source, target, source.statements[ops[k].op.source.value], target.statements[ops[k].op.target.value],
      ops[k].targetChanges, pos);
  }
}
