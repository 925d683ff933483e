/** The semantic diff of two scripts (`ScriptDiff::Compute`). */
module ScriptDiffs {
  import opened Ast
  import opened Collections
  import opened TreeSizes
  import opened Similarity
  import opened Spans
  import opened TargetChanges
  import opened PatienceLcs
  import opened StatementMapping
  import opened DiffRun

  /** A diff operation with its resolved spans; `targetChanges` highlights the changes of an UPDATE. */
  datatype DiffOp = DiffOp(op: Op, sourceSpan: Span, targetSpan: Span, targetChanges: seq<Span>)

  function Ops(ops: seq<DiffOp>): (r: seq<Op>)
    ensures |r| == |ops|
    ensures forall k :: 0 <= k < |r| ==> r[k] == ops[k].op
  {
    seq(|ops|, k requires 0 <= k < |ops| => ops[k].op)
  }

  /** The text span of a statement's root; empty if the root is invalid. */
  function StatementSpan(script: Script, s: nat): Span
    requires script.Valid() && s < |script.statements|
  {
    if RootValid(script, s) then script.SpanOf(script.statements[s]) else Span(0, 0)
  }

  ghost function ScoreOf(source: Script, target: Script, p: Pair): real
    requires source.Valid() && target.Valid() && Undecided(source, target, p)
  {
    SimilarityOf(source, target, source.statements[p.source], target.statements[p.target]).Score()
  }

  /** The scores of all statement pairs whose estimate is undecided. */
  ghost function Scores(source: Script, target: Script): (r: map<Pair, real>)
    requires source.Valid() && target.Valid()
    ensures forall p :: p in r ==> Undecided(source, target, p)
    ensures forall p :: Undecided(source, target, p) ==> p in r && r[p] == ScoreOf(source, target, p)
  {
    var keys := set i: nat, j: nat |
      i < |source.statements| && j < |target.statements| && Undecided(source, target, Pair(i, j)) :: Pair(i, j);
    assert forall p: Pair :: p == Pair(p.source, p.target);
    map p | p in keys :: ScoreOf(source, target, p)
  }

  ghost predicate Undecided(source: Script, target: Script, p: Pair)
    requires source.Valid() && target.Valid()
  {
    && p.source < |source.statements| && p.target < |target.statements|
    && EstimateSimilarity(source, target, p.source, p.target) == Similar
  }

  /** The diff problem that two scripts pose, for a given chain of kept pairs. */
  ghost function ProblemOf(source: Script, target: Script, lcs: seq<Pair>): Problem
    requires source.Valid() && target.Valid()
  {
    Problem(|source.statements|, |target.statements|, EqualEdges(source, target), Scores(source, target), lcs)
  }

  /** A longest increasing chain of unambiguous pairs. */
  ghost predicate IsLongestUnambiguous(edges: set<Pair>, lcs: seq<Pair>) {
    && IsUnambiguousChain(edges, lcs)
    && forall chain: seq<Pair> :: IsUnambiguousChain(edges, chain) ==> |chain| <= |lcs|
  }

  ghost predicate IsUnambiguousChain(edges: set<Pair>, chain: seq<Pair>) {
    && Increasing(chain)
    && forall k {:trigger Isolated(edges, chain[k])} :: 0 <= k < |chain| ==> Isolated(edges, chain[k])
  }

  /** The spans of an operation, and the highlighted changes of an UPDATE. */
  ghost predicate DetailsValid(source: Script, target: Script, d: DiffOp)
    requires source.Valid() && target.Valid()
  {
    && (d.op.source.Some? ==>
          d.op.source.value < |source.statements| && d.sourceSpan == StatementSpan(source, d.op.source.value))
    && (d.op.target.Some? ==>
          d.op.target.value < |target.statements| && d.targetSpan == StatementSpan(target, d.op.target.value))
    && (d.op.source.None? ==> d.sourceSpan == Span(0, 0))
    && (d.op.target.None? ==> d.targetSpan == Span(0, 0))
    && (d.op.code != Update ==> d.targetChanges == [])
    && (d.op.code == Update && d.op.source.Some? && d.op.target.Some? ==>
          ChangesValid(source, target, d.op.source.value, d.op.target.value, d.targetChanges))
  }

  ghost predicate ChangesValid(source: Script, target: Script, s: nat, t: nat, changes: seq<Span>)
    requires source.Valid() && target.Valid()
    requires s < |source.statements| && t < |target.statements|
  {
    if RootValid(source, s) && RootValid(target, t)
    then Coalesced(changes)
      && Records(target, Changed(source, target, source.statements[s], target.statements[t]), changes)
    else changes == []
  }

  ghost predicate AllDetailsValid(source: Script, target: Script, ops: seq<DiffOp>)
    requires source.Valid() && target.Valid()
  {
    forall k {:trigger DetailsValid(source, target, ops[k])} ::
      0 <= k < |ops| ==> DetailsValid(source, target, ops[k])
  }

  /** The diff of two scripts, for a longest chain of unambiguous pairs. */
  ghost predicate IsScriptDiff(source: Script, target: Script, lcs: seq<Pair>, ops: seq<DiffOp>)
    requires source.Valid() && target.Valid()
  {
    && IsLongestUnambiguous(EqualEdges(source, target), lcs)
    && IsDiff(ProblemOf(source, target, lcs), Ops(ops))
    && AllDetailsValid(source, target, ops)
  }

  // ---------------------------------------------------------------- emitting operations

  /** The operations so far, and which statements they have dealt with. */
  datatype State = State(ops: seq<DiffOp>, sourceEmitted: seq<bool>, targetEmitted: seq<bool>)

  ghost predicate FlagsAgree(problem: Problem, done: seq<Op>, sourceEmitted: seq<bool>, targetEmitted: seq<bool>) {
    && |sourceEmitted| == problem.sourceCount && |targetEmitted| == problem.targetCount
    && (forall s :: 0 <= s < |sourceEmitted| ==> (sourceEmitted[s] <==> s < Sources(done)))
    && (forall t :: 0 <= t < |targetEmitted| ==> (targetEmitted[t] <==> Used(done, t)))
  }

  ghost predicate StateValid(source: Script, target: Script, problem: Problem, st: State)
    requires source.Valid() && target.Valid()
  {
    && IsRun(problem, Ops(st.ops))
    && FlagsAgree(problem, Ops(st.ops), st.sourceEmitted, st.targetEmitted)
    && AllDetailsValid(source, target, st.ops)
  }

  method Describe(source: Script, target: Script, op: Op) returns (d: DiffOp)
    requires source.Valid() && target.Valid()
    requires op.source.Some? ==> op.source.value < |source.statements|
    requires op.target.Some? ==> op.target.value < |target.statements|
    ensures d.op == op && DetailsValid(source, target, d)
  {
    var sourceSpan := if op.source.Some? then StatementSpan(source, op.source.value) else Span(0, 0);
    var targetSpan := if op.target.Some? then StatementSpan(target, op.target.value) else Span(0, 0);
    var changes := [];
    if op.code == Update && op.source.Some? && op.target.Some? {
      changes := CollectTargetChanges(
        source, target, source.statements[op.source.value], target.statements[op.target.value]);
    }
    d := DiffOp(op, sourceSpan, targetSpan, changes);
  }

  lemma {:induction false} FlagsStep(
      problem: Problem, done: seq<Op>, op: Op, sourceEmitted: seq<bool>, targetEmitted: seq<bool>)
    requires FlagsAgree(problem, done, sourceEmitted, targetEmitted)
    requires op.source.Some? ==> op.source.value == Sources(done) < problem.sourceCount
    requires op.target.Some? ==> op.target.value < problem.targetCount
    ensures FlagsAgree(problem, done + [op],
      if op.source.Some? then sourceEmitted[op.source.value := true] else sourceEmitted,
      if op.target.Some? then targetEmitted[op.target.value := true] else targetEmitted)
  {
    CountsExtend(done, op);
    forall t: nat
      ensures Used(done + [op], t) <==> Used(done, t) || op.target == Some(t)
    {
      UsedExtend(done, op, t);
    }
  }

  lemma {:induction false} OpsAppend(ops: seq<DiffOp>, d: DiffOp)
    ensures Ops(ops + [d]) == Ops(ops) + [d.op]
  {
  }

  lemma {:induction false} FollowsInRange(problem: Problem, done: seq<Op>, op: Op)
    requires problem.Valid() && Follows(problem, done, op)
    ensures op.source.Some? ==> op.source.value == Sources(done) < problem.sourceCount
    ensures op.target.Some? ==> op.target.value < problem.targetCount
  {
    var q := |Kept(done)|;
    assert q < |problem.lcs| ==> Isolated(problem.equal, problem.lcs[q]);
  }

  /** Append the operation that follows, and mark its statements as emitted. */
  method Emit(source: Script, target: Script, st: State, op: Op, ghost problem: Problem) returns (r: State)
    requires source.Valid() && target.Valid()
    requires problem.Valid()
    requires problem.sourceCount == |source.statements| && problem.targetCount == |target.statements|
    requires StateValid(source, target, problem, st)
    requires Follows(problem, Ops(st.ops), op)
    ensures StateValid(source, target, problem, r)
    ensures Ops(r.ops) == Ops(st.ops) + [op]
  {
    FollowsInRange(problem, Ops(st.ops), op);
    FlagsStep(problem, Ops(st.ops), op, st.sourceEmitted, st.targetEmitted);
    RunExtend(problem, Ops(st.ops), op);
    var d := Describe(source, target, op);
    OpsAppend(st.ops, d);
    r := State(
      st.ops + [d],
      if op.source.Some? then st.sourceEmitted[op.source.value := true] else st.sourceEmitted,
      if op.target.Some? then st.targetEmitted[op.target.value := true] else st.targetEmitted);
  }

  // ---------------------------------------------------------------- MOVE: the first free equal target

  /** The first position whose source is at least `s`. */
  method LowerBound(pairs: seq<Pair>, s: nat) returns (k: nat)
    requires forall a, b :: 0 <= a < b < |pairs| ==> pairs[a].source <= pairs[b].source
    ensures k <= |pairs|
    ensures forall a :: 0 <= a < k ==> pairs[a].source < s
    ensures forall a :: k <= a < |pairs| ==> s <= pairs[a].source
  {
    var lo, hi := 0, |pairs|;
    while lo < hi
      invariant 0 <= lo <= hi <= |pairs|
      invariant forall a :: 0 <= a < lo ==> pairs[a].source < s
      invariant forall a :: hi <= a < |pairs| ==> s <= pairs[a].source
    {
      var mid := (lo + hi) / 2;
      if pairs[mid].source < s {
        lo := mid + 1;
      } else {
        hi := mid;
      }
    }
    k := lo;
  }

  /** The first target equal to `s` that is not emitted yet. */
  method FirstFree(equalPairs: seq<Pair>, s: nat, targetEmitted: seq<bool>, ghost problem: Problem, ghost done: seq<Op>)
    returns (found: Option<nat>)
    requires problem.Valid() && IsSortedListOf(equalPairs, problem.equal)
    requires |targetEmitted| == problem.targetCount
    requires forall t :: 0 <= t < |targetEmitted| ==> (targetEmitted[t] <==> Used(done, t))
    ensures found.Some? ==> FirstFreeEqual(problem, done, s, found.value)
    ensures found.None? ==> NoFreeEqual(problem, done, s)
  {
    var begin := LowerBound(equalPairs, s);
    var end := LowerBound(equalPairs, s + 1);
    var k := begin;
    while k < end
      invariant begin <= k && (k <= end || begin > end)
      invariant forall a :: begin <= a < k && a < |equalPairs| ==> Used(done, equalPairs[a].target)
    {
      assert equalPairs[k] in equalPairs;
      if !targetEmitted[equalPairs[k].target] {
        EqualBefore(problem, equalPairs, s, begin, k, done);
        return Some(equalPairs[k].target);
      }
      k := k + 1;
    }
    EqualBefore(problem, equalPairs, s, begin, end, done);
    return None;
  }

  lemma {:induction false} EqualBefore(
      problem: Problem, equalPairs: seq<Pair>, s: nat, begin: nat, k: nat, done: seq<Op>)
    requires IsSortedListOf(equalPairs, problem.equal)
    requires begin <= |equalPairs| && k <= |equalPairs|
    requires forall a :: 0 <= a < begin ==> equalPairs[a].source < s
    requires forall a :: begin <= a < k ==> Used(done, equalPairs[a].target)
    ensures forall t: nat |
      Pair(s, t) in problem.equal && (k < |equalPairs| ==> Precedes(Pair(s, t), equalPairs[k])) :: Used(done, t)
  {
    forall t: nat | Pair(s, t) in problem.equal && (k < |equalPairs| ==> Precedes(Pair(s, t), equalPairs[k]))
      ensures Used(done, t)
    {
      var a := Position(equalPairs, Pair(s, t));
      assert k < |equalPairs| ==> a < k;
    }
  }

  // ---------------------------------------------------------------- UPDATE: the best remaining target

  /** The scripts' memo tables. */
  datatype Memos = Memos(source: seq<nat>, target: seq<nat>)

  ghost predicate MemosValid(source: Script, target: Script, memos: Memos)
    requires source.Valid() && target.Valid()
  {
    MemoValid(SizeTable(source), memos.source) && MemoValid(SizeTable(target), memos.target)
  }

  /** The best candidate among the section's targets below `bound`. */
  ghost predicate BestBelow(
      problem: Problem, done: seq<Op>, q: nat, s: nat, bound: nat, best: Option<nat>, bestScore: real)
    requires q <= |problem.lcs|
  {
    match best
    case None =>
      bestScore == -1.0
      && forall u: nat :: u < bound && Candidate(problem, done, q, s, u) ==>
           problem.score[Pair(s, u)] < UPDATE_SIMILARITY_THRESHOLD
    case Some(t) =>
      t < bound && Candidate(problem, done, q, s, t)
      && bestScore == problem.score[Pair(s, t)] >= UPDATE_SIMILARITY_THRESHOLD
      && forall u: nat :: u < bound && Candidate(problem, done, q, s, u) ==>
           problem.score[Pair(s, u)] <= bestScore && (u < t ==> problem.score[Pair(s, u)] < bestScore)
  }

  /** The similarity score of a pair of statements whose estimate is undecided. */
  method ScorePair(source: Script, target: Script, s: nat, t: nat, before: Memos) returns (score: real, memos: Memos)
    requires source.Valid() && target.Valid() && MemosValid(source, target, before)
    requires Undecided(source, target, Pair(s, t))
    ensures MemosValid(source, target, memos)
    ensures score == ScoreOf(source, target, Pair(s, t))
  {
    var sim, sizes, targetSizes := ComputeSimilarity(
      source, target, source.statements[s], target.statements[t], before.source, before.target);
    score, memos := sim.Score(), Memos(sizes, targetSizes);
  }

  lemma {:induction false} PassOver(
      problem: Problem, done: seq<Op>, q: nat, s: nat, t: nat, best: Option<nat>, bestScore: real)
    requires q <= |problem.lcs| && BestBelow(problem, done, q, s, t, best, bestScore)
    requires Candidate(problem, done, q, s, t) ==>
      !(problem.score[Pair(s, t)] >= UPDATE_SIMILARITY_THRESHOLD && problem.score[Pair(s, t)] > bestScore)
    ensures BestBelow(problem, done, q, s, t + 1, best, bestScore)
  {
  }

  lemma {:induction false} TakeOver(
      problem: Problem, done: seq<Op>, q: nat, s: nat, t: nat, best: Option<nat>, bestScore: real)
    requires q <= |problem.lcs| && BestBelow(problem, done, q, s, t, best, bestScore)
    requires Candidate(problem, done, q, s, t)
    requires problem.score[Pair(s, t)] >= UPDATE_SIMILARITY_THRESHOLD && problem.score[Pair(s, t)] > bestScore
    ensures BestBelow(problem, done, q, s, t + 1, Some(t), problem.score[Pair(s, t)])
  {
  }

  /** The problem's tables hold what the scripts say about one pair of statements. */
  lemma {:induction false} PairInTables(source: Script, target: Script, problem: Problem, s: nat, t: nat)
    requires source.Valid() && target.Valid()
    requires problem == ProblemOf(source, target, problem.lcs)
    requires s < |source.statements| && t < |target.statements|
    ensures Pair(s, t) in problem.score <==> EstimateSimilarity(source, target, s, t) == Similar
    ensures Pair(s, t) in problem.score ==> problem.score[Pair(s, t)] == ScoreOf(source, target, Pair(s, t))
    ensures EstimateSimilarity(source, target, s, t) == Equal ==> Pair(s, t) in problem.equal
  {
    assert Undecided(source, target, Pair(s, t)) <==> EstimateSimilarity(source, target, s, t) == Similar;
  }

  /**
    Consider one free target of the section for an UPDATE. An estimate of EQUAL cannot occur here:
    an equal free target would have become a MOVE before.
  */
  method Consider(
      source: Script, target: Script, s: nat, t: nat, best: Option<nat>, bestScore: real, before: Memos,
      ghost problem: Problem, ghost done: seq<Op>, ghost q: nat)
    returns (nowBest: Option<nat>, nowScore: real, memos: Memos)
    requires source.Valid() && target.Valid() && MemosValid(source, target, before)
    requires problem == ProblemOf(source, target, problem.lcs)
    requires q <= |problem.lcs| && problem.SectionStart(q).target <= t < problem.SectionEnd(q).target
    requires s < |source.statements| && t < |target.statements|
    requires !Used(done, t) && NoFreeEqual(problem, done, s)
    requires BestBelow(problem, done, q, s, t, best, bestScore)
    ensures MemosValid(source, target, memos)
    ensures BestBelow(problem, done, q, s, t + 1, nowBest, nowScore)
  {
    nowBest, nowScore, memos := best, bestScore, before;
    PairInTables(source, target, problem, s, t);
    match EstimateSimilarity(source, target, s, t)
    case NotEqual =>
      PassOver(problem, done, q, s, t, best, bestScore);
    case Equal =>
      assert false;
    case Similar =>
      var score;
      score, memos := ScorePair(source, target, s, t, before);
      if score >= UPDATE_SIMILARITY_THRESHOLD && score > bestScore {
        TakeOver(problem, done, q, s, t, best, bestScore);
        nowScore := score;
        nowBest := Some(t);
      } else {
        PassOver(problem, done, q, s, t, best, bestScore);
      }
  }

  /** The highest-scoring free target of the section, if it reaches the threshold. */
  method FindBest(
      source: Script, target: Script, s: nat, from: nat, to: nat, targetEmitted: seq<bool>, before: Memos,
      ghost problem: Problem, ghost done: seq<Op>, ghost q: nat)
    returns (best: Option<nat>, memos: Memos)
    requires source.Valid() && target.Valid() && MemosValid(source, target, before)
    requires problem == ProblemOf(source, target, problem.lcs)
    requires q <= |problem.lcs| && from == problem.SectionStart(q).target && to == problem.SectionEnd(q).target
    requires s < |source.statements| && from <= to <= |target.statements| == |targetEmitted|
    requires forall t :: 0 <= t < |targetEmitted| ==> (targetEmitted[t] <==> Used(done, t))
    requires NoFreeEqual(problem, done, s)
    ensures MemosValid(source, target, memos)
    ensures best.Some? ==> BestCandidate(problem, done, q, s, best.value)
    ensures best.None? ==> NoCandidate(problem, done, q, s)
  {
    best, memos := None, before;
    var bestScore := -1.0;
    for t := from to to
      invariant MemosValid(source, target, memos)
      invariant BestBelow(problem, done, q, s, t, best, bestScore)
    {
      if targetEmitted[t] {
        PassOver(problem, done, q, s, t, best, bestScore);
      } else {
        best, bestScore, memos := Consider(
          source, target, s, t, best, bestScore, memos, problem, done, q);
      }
    }
  }

  // ---------------------------------------------------------------- the section loop

  ghost predicate DiffState(source: Script, target: Script, problem: Problem, st: State, q: nat, sources: nat)
    requires source.Valid() && target.Valid()
  {
    && StateValid(source, target, problem, st)
    && |Kept(Ops(st.ops))| == q && Sources(Ops(st.ops)) == sources
  }

  ghost predicate ProblemFits(source: Script, target: Script, problem: Problem)
    requires source.Valid() && target.Valid()
  {
    problem.Valid() && problem == ProblemOf(source, target, problem.lcs)
  }

  /** Emit an operation other than KEEP, which stays in its section. */
  method EmitInSection(
      source: Script, target: Script, st: State, op: Op, ghost problem: Problem, ghost q: nat, ghost sources: nat)
    returns (r: State)
    requires source.Valid() && target.Valid() && ProblemFits(source, target, problem)
    requires DiffState(source, target, problem, st, q, sources)
    requires Follows(problem, Ops(st.ops), op) && op.code != Keep
    ensures DiffState(source, target, problem, r, q, if op.source.Some? then sources + 1 else sources)
    ensures Ops(r.ops) == Ops(st.ops) + [op]
  {
    KeptStep(problem, Ops(st.ops), op);
    CountsExtend(Ops(st.ops), op);
    r := Emit(source, target, st, op, problem);
  }

  /** Deal with one source statement of section `q`. The section's first one may already be kept. */
  method VisitSource(
      source: Script, target: Script, st: State, s: nat, prev: Pair, next: Pair, equalPairs: seq<Pair>, before: Memos,
      ghost problem: Problem, ghost q: nat, ghost sources: nat)
    returns (r: State, memos: Memos)
    requires source.Valid() && target.Valid() && ProblemFits(source, target, problem)
    requires MemosValid(source, target, before) && IsSortedListOf(equalPairs, problem.equal)
    requires DiffState(source, target, problem, st, q, sources)
    requires q <= |problem.lcs| && prev == problem.SectionStart(q) && next == problem.SectionEnd(q)
    requires s < next.source <= problem.sourceCount && prev.target <= next.target <= problem.targetCount
    requires sources == s || (sources == s + 1 && NoFreeEqual(problem, Ops(st.ops), s))
    ensures MemosValid(source, target, memos)
    ensures DiffState(source, target, problem, r, q, s + 1)
  {
    r, memos := st, before;
    ghost var done := Ops(st.ops);
    var free := FirstFree(equalPairs, s, st.targetEmitted, problem, done);
    if free.Some? {
      r := EmitInSection(source, target, st, Op(Move, Some(s), free), problem, q, sources);
    }
    if r.sourceEmitted[s] {
      return;
    }
    var best;
    best, memos := FindBest(
      source, target, s, prev.target, next.target, st.targetEmitted, before, problem, done, q);
    if best.Some? {
      r := EmitInSection(source, target, st, Op(Update, Some(s), best), problem, q, sources);
    } else {
      r := EmitInSection(source, target, st, Op(Delete, Some(s), None), problem, q, sources);
    }
  }

  /** The number of sources dealt with when section `q` starts: the kept pair before it is one of them. */
  function SourcesAtStart(problem: Problem, q: nat): nat
    requires q <= |problem.lcs|
  {
    if q == 0 then 0 else problem.lcs[q - 1].source + 1
  }

  lemma {:induction false} SectionBounds(problem: Problem, q: nat)
    requires problem.Valid() && q <= |problem.lcs|
    ensures problem.SectionStart(q).target <= problem.SectionEnd(q).target <= problem.targetCount
    ensures problem.SectionStart(q).source <= SourcesAtStart(problem, q) <= problem.SectionEnd(q).source
    ensures problem.SectionEnd(q).source <= problem.sourceCount
  {
    if q > 0 {
      assert Isolated(problem.equal, problem.lcs[q - 1]);
    }
    if q < |problem.lcs| {
      assert Isolated(problem.equal, problem.lcs[q]);
    }
  }

  /** The kept pair before a section has no free equal target left: its target is used and it has no other. */
  lemma {:induction false} KeptSourceIsDone(problem: Problem, done: seq<Op>, q: nat)
    requires problem.Valid() && IsRun(problem, done) && |Kept(done)| == q && 0 < q <= |problem.lcs|
    ensures NoFreeEqual(problem, done, problem.SectionStart(q).source)
  {
    TargetsUsedUpToSection(problem, done);
    var kept := problem.lcs[q - 1];
    assert Isolated(problem.equal, kept);
    forall t: nat | Pair(kept.source, t) in problem.equal
      ensures Used(done, t)
    {
      assert Pair(kept.source, t) == kept;
    }
  }

  method VisitSources(
      source: Script, target: Script, st: State, prev: Pair, next: Pair, equalPairs: seq<Pair>, before: Memos,
      ghost problem: Problem, ghost q: nat)
    returns (r: State, memos: Memos)
    requires source.Valid() && target.Valid() && ProblemFits(source, target, problem)
    requires MemosValid(source, target, before) && IsSortedListOf(equalPairs, problem.equal)
    requires q <= |problem.lcs| && prev == problem.SectionStart(q) && next == problem.SectionEnd(q)
    requires DiffState(source, target, problem, st, q, SourcesAtStart(problem, q))
    ensures MemosValid(source, target, memos)
    ensures DiffState(source, target, problem, r, q, next.source)
  {
    r, memos := st, before;
    SectionBounds(problem, q);
    ghost var start := SourcesAtStart(problem, q);
    if q > 0 {
      KeptSourceIsDone(problem, Ops(st.ops), q);
    }
    for s := prev.source to next.source
      invariant MemosValid(source, target, memos)
      invariant s == prev.source ==> r == st
      invariant DiffState(source, target, problem, r, q, if s == prev.source then start else s)
    {
      r, memos := VisitSource(source, target, r, s, prev, next, equalPairs, memos, problem, q,
        if s == prev.source then start else s);
    }
  }

  /** Insert target `t`, the first free one of the section, unless it is already used. */
  method InsertTarget(
      source: Script, target: Script, st: State, t: nat, prev: Pair, next: Pair, ghost problem: Problem, ghost q: nat)
    returns (r: State)
    requires source.Valid() && target.Valid() && ProblemFits(source, target, problem)
    requires q <= |problem.lcs| && prev == problem.SectionStart(q) && next == problem.SectionEnd(q)
    requires prev.target <= t < next.target <= problem.targetCount
    requires DiffState(source, target, problem, st, q, next.source)
    requires AllUsed(Ops(st.ops), prev.target, t)
    ensures DiffState(source, target, problem, r, q, next.source)
    ensures AllUsed(Ops(r.ops), prev.target, t + 1)
  {
    r := st;
    if !st.targetEmitted[t] {
      var op := Op(Insert, None, Some(t));
      UsedGrows(Ops(st.ops), op, prev.target, t);
      UsedExtend(Ops(st.ops), op, t);
      r := EmitInSection(source, target, st, op, problem, q, next.source);
    }
  }

  /** Insert the section's targets that are still free. */
  method InsertTargets(
      source: Script, target: Script, st: State, prev: Pair, next: Pair, ghost problem: Problem, ghost q: nat)
    returns (r: State)
    requires source.Valid() && target.Valid() && ProblemFits(source, target, problem)
    requires q <= |problem.lcs| && prev == problem.SectionStart(q) && next == problem.SectionEnd(q)
    requires DiffState(source, target, problem, st, q, next.source)
    ensures DiffState(source, target, problem, r, q, next.source)
    ensures AllUsed(Ops(r.ops), prev.target, next.target)
  {
    r := st;
    SectionBounds(problem, q);
    for t := prev.target to next.target
      invariant DiffState(source, target, problem, r, q, next.source)
      invariant AllUsed(Ops(r.ops), prev.target, t)
    {
      r := InsertTarget(source, target, r, t, prev, next, problem, q);
    }
  }

  /** Walk the sections between the kept pairs. */
  method VisitSections(
      source: Script, target: Script, lcs: seq<Pair>, equalPairs: seq<Pair>, before: Memos, ghost problem: Problem)
    returns (ops: seq<DiffOp>, memos: Memos)
    requires source.Valid() && target.Valid() && ProblemFits(source, target, problem)
    requires problem.lcs == lcs
    requires MemosValid(source, target, before) && IsSortedListOf(equalPairs, problem.equal)
    ensures MemosValid(source, target, memos)
    ensures IsDiff(problem, Ops(ops)) && AllDetailsValid(source, target, ops)
  {
    memos := before;
    var st := State([], seq(|source.statements|, _ => false), seq(|target.statements|, _ => false));
    InitialState(source, target, problem, st);
    for q := 0 to |lcs|
      invariant MemosValid(source, target, memos)
      invariant DiffState(source, target, problem, st, q, SourcesAtStart(problem, q))
    {
      st, memos := VisitSectionAndKeep(source, target, st, lcs, equalPairs, memos, problem, q);
    }
    var end := Pair(|source.statements|, |target.statements|);
    var prev := if lcs == [] then Pair(0, 0) else lcs[|lcs| - 1];
    st, memos := VisitSection(source, target, st, prev, end, equalPairs, memos, problem, |lcs|);
    ops := st.ops;
  }

  /** Section `q`, and the kept pair that ends it. */
  method VisitSectionAndKeep(
      source: Script, target: Script, st: State, lcs: seq<Pair>, equalPairs: seq<Pair>, before: Memos,
      ghost problem: Problem, q: nat)
    returns (r: State, memos: Memos)
    requires source.Valid() && target.Valid() && ProblemFits(source, target, problem)
    requires problem.lcs == lcs && q < |lcs|
    requires MemosValid(source, target, before) && IsSortedListOf(equalPairs, problem.equal)
    requires DiffState(source, target, problem, st, q, SourcesAtStart(problem, q))
    ensures MemosValid(source, target, memos)
    ensures DiffState(source, target, problem, r, q + 1, SourcesAtStart(problem, q + 1))
  {
    var prev, next := if q == 0 then Pair(0, 0) else lcs[q - 1], lcs[q];
    r, memos := VisitSection(source, target, st, prev, next, equalPairs, before, problem, q);
    r := EmitKeep(source, target, r, next, problem, q);
  }

  lemma {:induction false} InitialState(source: Script, target: Script, problem: Problem, st: State)
    requires source.Valid() && target.Valid() && ProblemFits(source, target, problem)
    requires st == State([], seq(|source.statements|, _ => false), seq(|target.statements|, _ => false))
    ensures DiffState(source, target, problem, st, 0, 0)
  {
  }

  /** Everything between two kept pairs: the source statements, then the new target statements. */
  method VisitSection(
      source: Script, target: Script, st: State, prev: Pair, next: Pair, equalPairs: seq<Pair>, before: Memos,
      ghost problem: Problem, ghost q: nat)
    returns (r: State, memos: Memos)
    requires source.Valid() && target.Valid() && ProblemFits(source, target, problem)
    requires MemosValid(source, target, before) && IsSortedListOf(equalPairs, problem.equal)
    requires q <= |problem.lcs| && prev == problem.SectionStart(q) && next == problem.SectionEnd(q)
    requires DiffState(source, target, problem, st, q, SourcesAtStart(problem, q))
    ensures MemosValid(source, target, memos)
    ensures DiffState(source, target, problem, r, q, next.source)
    ensures AllUsed(Ops(r.ops), prev.target, next.target)
  {
    r, memos := VisitSources(source, target, st, prev, next, equalPairs, before, problem, q);
    r := InsertTargets(source, target, r, prev, next, problem, q);
  }

  method EmitKeep(source: Script, target: Script, st: State, next: Pair, ghost problem: Problem, ghost q: nat)
    returns (r: State)
    requires source.Valid() && target.Valid() && ProblemFits(source, target, problem)
    requires q < |problem.lcs| && next == problem.lcs[q]
    requires DiffState(source, target, problem, st, q, next.source)
    requires AllUsed(Ops(st.ops), problem.SectionStart(q).target, next.target)
    ensures DiffState(source, target, problem, r, q + 1, SourcesAtStart(problem, q + 1))
  {
    var op := Op(Keep, Some(next.source), Some(next.target));
    KeptStep(problem, Ops(st.ops), op);
    CountsExtend(Ops(st.ops), op);
    r := Emit(source, target, st, op, problem);
  }

  // ---------------------------------------------------------------- the diff object

  lemma {:induction false} LongestAmongIsolated(edges: set<Pair>, uniquePairs: seq<Pair>, lcs: seq<Pair>)
    requires IsSortedListOf(uniquePairs, IsolatedEdges(edges)) && IsLongestIncreasing(lcs, uniquePairs)
    ensures IsLongestUnambiguous(edges, lcs)
  {
    assert forall k :: 0 <= k < |lcs| ==> lcs[k] in uniquePairs;
    forall chain: seq<Pair> | IsUnambiguousChain(edges, chain)
      ensures |chain| <= |lcs|
    {
      forall k | 0 <= k < |chain|
        ensures chain[k] in uniquePairs
      {
        assert Isolated(edges, chain[k]);
      }
      assert DrawnFrom(chain, uniquePairs);
    }
  }

  lemma {:induction false} KeptIsLongest(source: Script, target: Script, uniquePairs: seq<Pair>, kept: seq<Pair>)
    requires source.Valid() && target.Valid() && IsLongestIncreasing(kept, uniquePairs)
    requires IsSortedListOf(uniquePairs, IsolatedEdges(EqualEdges(source, target)))
    ensures IsLongestUnambiguous(EqualEdges(source, target), kept)
    ensures ProblemOf(source, target, kept).Valid()
  {
    LongestAmongIsolated(EqualEdges(source, target), uniquePairs, kept);
    ChainIsProblem(source, target, kept);
  }

  lemma {:induction false} ChainIsProblem(source: Script, target: Script, kept: seq<Pair>)
    requires source.Valid() && target.Valid() && IsLongestUnambiguous(EqualEdges(source, target), kept)
    ensures ProblemOf(source, target, kept).Valid()
  {
  }

  /** The memos and operations that a diff object holds. */
  ghost predicate ObjectValid(
      source: Script, target: Script, sourceSizes: seq<nat>, targetSizes: seq<nat>, computed: bool, lcs: seq<Pair>,
      ops: seq<DiffOp>)
  {
    && source.Valid() && target.Valid() && MemosValid(source, target, Memos(sourceSizes, targetSizes))
    && (computed ==> IsScriptDiff(source, target, lcs, ops))
  }

  /** Map the statements, find the chain to keep, and walk the sections. */
  method ComputeOps(source: Script, target: Script, before: Memos)
    returns (ops: seq<DiffOp>, sourceSizes: seq<nat>, targetSizes: seq<nat>, ghost kept: seq<Pair>)
    requires source.Valid() && target.Valid() && MemosValid(source, target, before)
    ensures ObjectValid(source, target, sourceSizes, targetSizes, true, kept, ops)
  {
    var uniquePairs, equalPairs := MapStatements(source, target);
    var lcs := FindLcs(uniquePairs);
    kept := lcs;
    KeptIsLongest(source, target, uniquePairs, kept);
    var memos;
    ops, memos := VisitSections(source, target, lcs, equalPairs, before, ProblemOf(source, target, kept));
    sourceSizes, targetSizes := memos.source, memos.target;
  }

  /** A diff of two scripts, computed once. */
  class ScriptDiff {
    const source: Script
    const target: Script
    var sourceSubtreeSizes: seq<nat>
    var targetSubtreeSizes: seq<nat>
    var ops: seq<DiffOp>
    var computed: bool
    /** The chain of kept pairs. */
    ghost var lcs: seq<Pair>

    ghost predicate Valid()
      reads this
    {
      ObjectValid(source, target, sourceSubtreeSizes, targetSubtreeSizes, computed, lcs, ops)
    }

    constructor (source: Script, target: Script)
      requires source.Valid() && target.Valid()
      ensures Valid() && !computed
      ensures this.source == source && this.target == target
    {
      this.source, this.target := source, target;
      sourceSubtreeSizes, targetSubtreeSizes := [], [];
      ops, computed, lcs := [], false, [];
    }

    /** Compute the operations for the first time. */
    method FillOps()
      requires Valid() && !computed
      modifies this
      ensures Valid() && computed
    {
      var memos := Memos(sourceSubtreeSizes, targetSubtreeSizes);
      var result, sourceSizes, targetSizes, kept := ComputeOps(source, target, memos);
      sourceSubtreeSizes, targetSubtreeSizes, ops, computed, lcs := sourceSizes, targetSizes, result, true, kept;
    }

    /** Compute the diff; later calls return the cached result. */
    method Compute() returns (result: seq<DiffOp>)
      requires Valid()
      modifies this
      ensures Valid() && computed
      ensures result == ops && IsScriptDiff(source, target, lcs, ops)
      ensures old(computed) ==> ops == old(ops) && lcs == old(lcs)
    {
      if !computed {
        FillOps();
      }
      return ops;
    }
  }
}
