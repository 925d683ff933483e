/**
  What a diff is: a sequence of operations, each of which is the one the previous operations call
  for. The lemmas derive what a reader of a diff relies on from this step-by-step description.
*/
module DiffRun {
  import opened Ast
  import opened Collections
  import opened PatienceLcs
  import opened StatementMapping

  datatype OpCode = Delete | Insert | Keep | Move | Update
  datatype Op = Op(code: OpCode, source: Option<nat>, target: Option<nat>)

  const UPDATE_SIMILARITY_THRESHOLD: real := 0.75

  /**
    A diff problem: the equal statement pairs, the similarity score of the pairs whose estimate is
    undecided, and a chain of unambiguous pairs to keep.
  */
  datatype Problem = Problem(
    sourceCount: nat,
    targetCount: nat,
    equal: set<Pair>,
    score: map<Pair, real>,
    lcs: seq<Pair>
  ) {
    ghost predicate Valid() {
      && (forall p :: p in equal ==> p.source < sourceCount && p.target < targetCount)
      && Increasing(lcs)
      && (forall k :: 0 <= k < |lcs| ==> Isolated(equal, lcs[k]))
    }

    /** Section `q` lies between the kept pairs `q - 1` and `q`. */
    function SectionStart(q: nat): Pair
      requires q <= |lcs|
    {
      if q == 0 then Pair(0, 0) else lcs[q - 1]
    }

    function SectionEnd(q: nat): Pair
      requires q <= |lcs|
    {
      if q < |lcs| then lcs[q] else Pair(sourceCount, targetCount)
    }
  }

  /** The number of source statements that the operations have dealt with. */
  function Sources(ops: seq<Op>): nat {
    if ops == [] then 0 else Sources(ops[..|ops| - 1]) + (if ops[|ops| - 1].source.Some? then 1 else 0)
  }

  /** The pairs kept so far. */
  function Kept(ops: seq<Op>): seq<Pair> {
    if ops == [] then []
    else
      var last := ops[|ops| - 1];
      Kept(ops[..|ops| - 1])
      + if last.code == Keep && last.source.Some? && last.target.Some?
        then [Pair(last.source.value, last.target.value)] else []
  }

  ghost predicate Used(ops: seq<Op>, t: nat) {
    exists k :: 0 <= k < |ops| && ops[k].target == Some(t)
  }

  ghost predicate AllUsed(ops: seq<Op>, from: nat, to: nat) {
    forall t :: from <= t < to ==> Used(ops, t)
  }

  /** `t` is the first target equal to `s` that is still free. */
  ghost predicate FirstFreeEqual(problem: Problem, done: seq<Op>, s: nat, t: nat) {
    && Pair(s, t) in problem.equal && !Used(done, t)
    && forall u: nat :: u < t && Pair(s, u) in problem.equal ==> Used(done, u)
  }

  ghost predicate NoFreeEqual(problem: Problem, done: seq<Op>, s: nat) {
    forall t: nat :: Pair(s, t) in problem.equal ==> Used(done, t)
  }

  /** A free target of the section whose similarity to `s` is undecided by the estimate. */
  ghost predicate Candidate(problem: Problem, done: seq<Op>, q: nat, s: nat, t: nat)
    requires q <= |problem.lcs|
  {
    && problem.SectionStart(q).target <= t < problem.SectionEnd(q).target
    && !Used(done, t) && Pair(s, t) in problem.score
  }

  /** The candidate with the highest score at or above the threshold; the first one among equal scores. */
  ghost predicate BestCandidate(problem: Problem, done: seq<Op>, q: nat, s: nat, t: nat)
    requires q <= |problem.lcs|
  {
    && Candidate(problem, done, q, s, t)
    && problem.score[Pair(s, t)] >= UPDATE_SIMILARITY_THRESHOLD
    && forall u: nat :: Candidate(problem, done, q, s, u) ==>
         problem.score[Pair(s, u)] <= problem.score[Pair(s, t)]
         && (u < t ==> problem.score[Pair(s, u)] < problem.score[Pair(s, t)])
  }

  ghost predicate NoCandidate(problem: Problem, done: seq<Op>, q: nat, s: nat)
    requires q <= |problem.lcs|
  {
    forall t: nat :: Candidate(problem, done, q, s, t) ==>
      problem.score[Pair(s, t)] < UPDATE_SIMILARITY_THRESHOLD
  }

  /** `op` is the operation that comes after `done`. */
  ghost predicate Follows(problem: Problem, done: seq<Op>, op: Op) {
    var q := |Kept(done)|;
    var s := Sources(done);
    && q <= |problem.lcs|
    && var from, to := problem.SectionStart(q), problem.SectionEnd(q);
    match op.code
    case Move =>
      s < to.source && op.source == Some(s)
      && op.target.Some? && FirstFreeEqual(problem, done, s, op.target.value)
    case Update =>
      s < to.source && op.source == Some(s) && NoFreeEqual(problem, done, s)
      && op.target.Some? && BestCandidate(problem, done, q, s, op.target.value)
    case Delete =>
      s < to.source && op.source == Some(s) && NoFreeEqual(problem, done, s)
      && op.target == None && NoCandidate(problem, done, q, s)
    case Insert =>
      s == to.source && op.source == None
      && op.target.Some? && from.target <= op.target.value < to.target
      && !Used(done, op.target.value) && AllUsed(done, from.target, op.target.value)
    case Keep =>
      s == to.source && q < |problem.lcs|
      && op.source == Some(to.source) && op.target == Some(to.target)
      && AllUsed(done, from.target, to.target)
  }

  ghost predicate IsRun(problem: Problem, ops: seq<Op>) {
    forall k {:trigger Follows(problem, ops[..k], ops[k])} ::
      0 <= k < |ops| ==> Follows(problem, ops[..k], ops[k])
  }

  ghost predicate Complete(problem: Problem, ops: seq<Op>) {
    && |Kept(ops)| == |problem.lcs|
    && Sources(ops) == problem.sourceCount
    && AllUsed(ops, problem.SectionStart(|problem.lcs|).target, problem.targetCount)
  }

  /** A finished diff. */
  ghost predicate IsDiff(problem: Problem, ops: seq<Op>) {
    IsRun(problem, ops) && Complete(problem, ops)
  }

  // ---------------------------------------------------------------- prefixes

  lemma {:induction false} RunPrefix(problem: Problem, ops: seq<Op>, k: nat)
    requires IsRun(problem, ops) && k <= |ops|
    ensures IsRun(problem, ops[..k])
  {
    forall j | 0 <= j < k
      ensures Follows(problem, ops[..k][..j], ops[..k][j])
    {
      assert ops[..k][..j] == ops[..j];
    }
  }

  lemma {:induction false} RunExtend(problem: Problem, ops: seq<Op>, op: Op)
    requires IsRun(problem, ops) && Follows(problem, ops, op)
    ensures IsRun(problem, ops + [op])
  {
    var all := ops + [op];
    forall k | 0 <= k < |all|
      ensures Follows(problem, all[..k], all[k])
    {
      assert all[..k] == ops[..k];
    }
  }

  lemma {:induction false} CountsGrow(ops: seq<Op>, j: nat, k: nat)
    requires j <= k <= |ops|
    ensures Sources(ops[..j]) <= Sources(ops[..k])
    ensures |Kept(ops[..j])| <= |Kept(ops[..k])|
    ensures j < k && ops[j].source.Some? ==> Sources(ops[..j]) < Sources(ops[..k])
    decreases k - j
  {
    if j < k {
      assert ops[..j + 1][..j] == ops[..j];
      CountsGrow(ops, j + 1, k);
    }
  }

  lemma {:induction false} UsedExtend(ops: seq<Op>, op: Op, t: nat)
    ensures Used(ops + [op], t) <==> Used(ops, t) || op.target == Some(t)
  {
    var all := ops + [op];
    if Used(ops, t) {
      var k :| 0 <= k < |ops| && ops[k].target == Some(t);
      assert all[k] == ops[k];
    }
    if op.target == Some(t) {
      assert all[|ops|] == op;
    }
  }

  // ---------------------------------------------------------------- kept pairs

  lemma {:induction false} CountsExtend(ops: seq<Op>, op: Op)
    ensures Sources(ops + [op]) == Sources(ops) + (if op.source.Some? then 1 else 0)
    ensures Kept(ops + [op]) == Kept(ops)
      + if op.code == Keep && op.source.Some? && op.target.Some?
        then [Pair(op.source.value, op.target.value)] else []
  {
    assert (ops + [op])[..|ops|] == ops;
  }

  /** What one operation adds to the kept pairs. */
  lemma {:induction false} KeptStep(problem: Problem, done: seq<Op>, op: Op)
    requires Follows(problem, done, op)
    ensures |Kept(done)| <= |problem.lcs|
    ensures op.code == Keep ==>
      |Kept(done)| < |problem.lcs| && Kept(done + [op]) == Kept(done) + [problem.lcs[|Kept(done)|]]
    ensures op.code != Keep ==> Kept(done + [op]) == Kept(done)
  {
    CountsExtend(done, op);
  }

  /** The kept pairs are the chain, in order. */
  ghost predicate KeptPrefix(problem: Problem, ops: seq<Op>) {
    |Kept(ops)| <= |problem.lcs| && Kept(ops) == problem.lcs[..|Kept(ops)|]
  }

  lemma {:induction false} KeptPrefixStep(problem: Problem, done: seq<Op>, op: Op)
    requires Follows(problem, done, op) && KeptPrefix(problem, done)
    ensures KeptPrefix(problem, done + [op])
  {
    KeptStep(problem, done, op);
    if op.code == Keep {
      PrefixGrows(problem.lcs, Kept(done));
    }
  }

  lemma {:induction false} KeptIsLcsPrefix(problem: Problem, ops: seq<Op>)
    requires IsRun(problem, ops)
    ensures KeptPrefix(problem, ops)
    decreases |ops|
  {
    if ops == [] {
      assert problem.lcs[..0] == [];
    } else {
      RunSplit(problem, ops);
      KeptIsLcsPrefix(problem, ops[..|ops| - 1]);
      KeptPrefixStep(problem, ops[..|ops| - 1], ops[|ops| - 1]);
    }
  }

  lemma {:induction false} RunSplit(problem: Problem, ops: seq<Op>)
    requires IsRun(problem, ops) && ops != []
    ensures ops == ops[..|ops| - 1] + [ops[|ops| - 1]]
    ensures IsRun(problem, ops[..|ops| - 1]) && Follows(problem, ops[..|ops| - 1], ops[|ops| - 1])
  {
    RunPrefix(problem, ops, |ops| - 1);
    SplitLast(ops);
  }

  lemma {:induction false} KeptIsLcs(problem: Problem, ops: seq<Op>)
    requires IsDiff(problem, ops)
    ensures Kept(ops) == problem.lcs
  {
    KeptIsLcsPrefix(problem, ops);
  }

  // ---------------------------------------------------------------- exact cover

  /** An operation before the kept pair `next` cannot have taken its target. */
  lemma {:induction false} EarlierTargets(problem: Problem, done: seq<Op>, op: Op, q: nat)
    requires problem.Valid() && Follows(problem, done, op)
    requires |Kept(done)| <= q < |problem.lcs|
    requires op.code == Keep ==> |Kept(done)| < q
    requires op.source.Some? ==> Sources(done) < problem.lcs[q].source
    ensures op.target != Some(problem.lcs[q].target)
  {
    assert Isolated(problem.equal, problem.lcs[q]);
    assert |Kept(done)| < q ==> problem.lcs[|Kept(done)|].target < problem.lcs[q].target;
  }

  lemma {:induction false} NextKeptIsFree(problem: Problem, ops: seq<Op>, j: nat)
    requires problem.Valid() && IsRun(problem, ops) && j < |ops|
    requires |Kept(ops)| < |problem.lcs| && Sources(ops) == problem.lcs[|Kept(ops)|].source
    ensures ops[j].target != Some(problem.lcs[|Kept(ops)|].target)
  {
    assert Follows(problem, ops[..j], ops[j]);
    assert ops[..|ops|] == ops;
    CountsGrow(ops, j, |ops|);
    CountsGrow(ops, j + 1, |ops|);
    TakeNext(ops, j);
    KeptStep(problem, ops[..j], ops[j]);
    EarlierTargets(problem, ops[..j], ops[j], |Kept(ops)|);
  }

  /** No two operations share a target. */
  lemma {:induction false} TargetsDistinct(problem: Problem, ops: seq<Op>, j: nat, k: nat)
    requires problem.Valid() && IsRun(problem, ops) && j < k < |ops|
    requires ops[j].target.Some?
    ensures ops[j].target != ops[k].target
  {
    var done := ops[..k];
    RunPrefix(problem, ops, k);
    assert Follows(problem, done, ops[k]);
    assert done[j] == ops[j];
    if ops[k].code == Keep {
      NextKeptIsFree(problem, done, j);
    } else if ops[k].target.Some? {
      assert !Used(done, ops[k].target.value);
    }
  }

  /** Sources come in statement order, so no two operations share one. */
  lemma {:induction false} SourceIsCount(problem: Problem, ops: seq<Op>, k: nat)
    requires IsRun(problem, ops) && k < |ops|
    ensures ops[k].source.Some? ==> ops[k].source.value == Sources(ops[..k])
  {
    assert Follows(problem, ops[..k], ops[k]);
  }

  lemma {:induction false} SourcesDistinct(problem: Problem, ops: seq<Op>, j: nat, k: nat)
    requires IsRun(problem, ops) && j < k < |ops|
    requires ops[j].source.Some? && ops[k].source.Some?
    ensures ops[j].source.value < ops[k].source.value
  {
    SourceIsCount(problem, ops, j);
    SourceIsCount(problem, ops, k);
    CountsGrow(ops, j, k);
  }

  lemma {:induction false} SourceOccurs(problem: Problem, ops: seq<Op>, s: nat) returns (k: nat)
    requires IsRun(problem, ops) && s < Sources(ops)
    ensures k < |ops| && ops[k].source == Some(s)
    decreases |ops|
  {
    var front, last := ops[..|ops| - 1], ops[|ops| - 1];
    SplitLast(ops);
    CountsExtend(front, last);
    if s < Sources(front) {
      RunPrefix(problem, ops, |front|);
      k := SourceOccurs(problem, front, s);
    } else {
      k := |front|;
      SourceIsCount(problem, ops, k);
    }
  }

  lemma {:induction false} UsedGrows(ops: seq<Op>, op: Op, from: nat, to: nat)
    requires AllUsed(ops, from, to)
    ensures AllUsed(ops + [op], from, to)
  {
    forall t | from <= t < to
      ensures Used(ops + [op], t)
    {
      UsedExtend(ops, op, t);
    }
  }

  /** All targets up to and including the last kept one are used. */
  ghost predicate UsedUpToSection(problem: Problem, ops: seq<Op>) {
    var q := |Kept(ops)|;
    && q <= |problem.lcs|
    && AllUsed(ops, 0, problem.SectionStart(q).target)
    && (q > 0 ==> Used(ops, problem.SectionStart(q).target))
  }

  lemma {:induction false} TargetsUsedUpToSection(problem: Problem, ops: seq<Op>)
    requires IsRun(problem, ops)
    ensures UsedUpToSection(problem, ops)
    decreases |ops|
  {
    if ops != [] {
      RunSplit(problem, ops);
      TargetsUsedUpToSection(problem, ops[..|ops| - 1]);
      UsedStep(problem, ops[..|ops| - 1], ops[|ops| - 1]);
    }
  }

  lemma {:induction false} UsedStep(problem: Problem, done: seq<Op>, op: Op)
    requires Follows(problem, done, op)
    requires UsedUpToSection(problem, done)
    ensures UsedUpToSection(problem, done + [op])
  {
    KeptStep(problem, done, op);
    var from := problem.SectionStart(|Kept(done)|).target;
    UsedGrows(done, op, 0, from);
    UsedExtend(done, op, from);
    if op.code == Keep {
      var to := problem.SectionEnd(|Kept(done)|).target;
      UsedGrows(done, op, from, to);
      UsedExtend(done, op, to);
    }
  }

  /** How an operation's code says which sides it has. */
  predicate WellShaped(op: Op) {
    match op.code
    case Delete => op.source.Some? && op.target.None?
    case Insert => op.source.None? && op.target.Some?
    case _ => op.source.Some? && op.target.Some?
  }

  /** Every source statement and every target statement occurs in exactly one operation. */
  ghost predicate ExactCover(sourceCount: nat, targetCount: nat, ops: seq<Op>) {
    && (forall s: nat :: s < sourceCount <==> exists k :: 0 <= k < |ops| && ops[k].source == Some(s))
    && (forall t: nat :: t < targetCount <==> Used(ops, t))
    && (forall j, k :: 0 <= j < k < |ops| && ops[j].source.Some? ==> ops[j].source != ops[k].source)
    && (forall j, k :: 0 <= j < k < |ops| && ops[j].target.Some? ==> ops[j].target != ops[k].target)
    && (forall k :: 0 <= k < |ops| ==> WellShaped(ops[k]))
  }

  lemma {:induction false} TargetInRange(problem: Problem, ops: seq<Op>, k: nat)
    requires problem.Valid() && IsRun(problem, ops) && k < |ops|
    requires ops[k].target.Some?
    ensures ops[k].target.value < problem.targetCount
  {
    assert Follows(problem, ops[..k], ops[k]);
    var q := |Kept(ops[..k])|;
    if q < |problem.lcs| {
      assert Isolated(problem.equal, problem.lcs[q]);
    }
  }

  lemma {:induction false} SourceInRange(problem: Problem, ops: seq<Op>, k: nat)
    requires problem.Valid() && IsRun(problem, ops) && k < |ops|
    requires ops[k].source.Some?
    ensures ops[k].source.value < problem.sourceCount
  {
    assert Follows(problem, ops[..k], ops[k]);
    var q := |Kept(ops[..k])|;
    if q < |problem.lcs| {
      assert Isolated(problem.equal, problem.lcs[q]);
    }
  }

  /** The diff is an exact cover of both statement lists. */
  lemma {:induction false} DiffIsExactCover(problem: Problem, ops: seq<Op>)
    requires problem.Valid() && IsDiff(problem, ops)
    ensures ExactCover(problem.sourceCount, problem.targetCount, ops)
  {
    forall s: nat
      ensures s < problem.sourceCount <==> exists k :: 0 <= k < |ops| && ops[k].source == Some(s)
    {
      if s < problem.sourceCount {
        var k := SourceOccurs(problem, ops, s);
      }
      if k :| 0 <= k < |ops| && ops[k].source == Some(s) {
        SourceInRange(problem, ops, k);
      }
    }
    TargetsUsedUpToSection(problem, ops);
    forall t: nat
      ensures t < problem.targetCount <==> Used(ops, t)
    {
      if Used(ops, t) {
        var k :| 0 <= k < |ops| && ops[k].target == Some(t);
        TargetInRange(problem, ops, k);
      }
    }
    forall j, k | 0 <= j < k < |ops| && ops[j].source.Some?
      ensures ops[j].source != ops[k].source
    {
      if ops[k].source.Some? {
        SourcesDistinct(problem, ops, j, k);
      }
    }
    forall j, k | 0 <= j < k < |ops| && ops[j].target.Some?
      ensures ops[j].target != ops[k].target
    {
      TargetsDistinct(problem, ops, j, k);
    }
    forall k | 0 <= k < |ops|
      ensures WellShaped(ops[k])
    {
      assert Follows(problem, ops[..k], ops[k]);
    }
  }

  // ---------------------------------------------------------------- updates

  /** No UPDATE pairs two equal statements, and its score reaches the threshold. */
  lemma {:induction false} UpdatesAreUnequal(problem: Problem, ops: seq<Op>, k: nat)
    requires IsRun(problem, ops) && k < |ops| && ops[k].code == Update
    ensures ops[k].source.Some? && ops[k].target.Some?
    ensures
      var p := Pair(ops[k].source.value, ops[k].target.value);
      p !in problem.equal && p in problem.score && problem.score[p] >= UPDATE_SIMILARITY_THRESHOLD
  {
    assert Follows(problem, ops[..k], ops[k]);
  }

  /** Only equal statements are kept or moved. */
  lemma {:induction false} KeptAndMovedAreEqual(problem: Problem, ops: seq<Op>, k: nat)
    requires problem.Valid() && IsRun(problem, ops) && k < |ops| && ops[k].code in {Keep, Move}
    ensures ops[k].source.Some? && ops[k].target.Some?
    ensures Pair(ops[k].source.value, ops[k].target.value) in problem.equal
  {
    assert Follows(problem, ops[..k], ops[k]);
    if ops[k].code == Keep {
      assert Isolated(problem.equal, problem.lcs[|Kept(ops[..k])|]);
    }
  }

  // ---------------------------------------------------------------- the diff is determined

  /** At most one operation follows. */
  lemma {:induction false} FollowsIsDeterministic(problem: Problem, done: seq<Op>, a: Op, b: Op)
    requires Follows(problem, done, a) && Follows(problem, done, b)
    ensures a == b
  {
    if a.code == b.code {
      match a.code {
        case Move => FirstFreeUnique(problem, done, Sources(done), a.target.value, b.target.value);
        case Update =>
          BestUnique(problem, done, |Kept(done)|, Sources(done), a.target.value, b.target.value);
        case Insert =>
          assert a.target.value == b.target.value;
        case _ =>
      }
    }
  }

  lemma {:induction false} FirstFreeUnique(problem: Problem, done: seq<Op>, s: nat, t: nat, u: nat)
    requires FirstFreeEqual(problem, done, s, t) && FirstFreeEqual(problem, done, s, u)
    ensures t == u
  {
  }

  lemma {:induction false} BestUnique(problem: Problem, done: seq<Op>, q: nat, s: nat, t: nat, u: nat)
    requires q <= |problem.lcs|
    requires BestCandidate(problem, done, q, s, t) && BestCandidate(problem, done, q, s, u)
    ensures t == u
  {
  }

  lemma {:induction false} NothingFollowsComplete(problem: Problem, done: seq<Op>, op: Op)
    requires Complete(problem, done)
    ensures !Follows(problem, done, op)
  {
  }

  /** A problem has one diff. */
  lemma {:induction false} DiffIsUnique(problem: Problem, a: seq<Op>, b: seq<Op>)
    requires IsDiff(problem, a) && IsDiff(problem, b)
    ensures a == b
  {
    if |a| <= |b| {
      LongerIsSame(problem, a, b);
    } else {
      LongerIsSame(problem, b, a);
    }
  }

  lemma {:induction false} LongerIsSame(problem: Problem, a: seq<Op>, b: seq<Op>)
    requires IsDiff(problem, a) && IsDiff(problem, b) && |a| <= |b|
    ensures a == b
  {
    CommonPrefix(problem, a, b, |a|);
    TakeAll(a);
    TakeAll(b);
    if |a| < |b| {
      NothingFollowsComplete(problem, b[..|a|], b[|a|]);
    }
  }

  lemma {:induction false} CommonPrefix(problem: Problem, a: seq<Op>, b: seq<Op>, k: nat)
    requires IsRun(problem, a) && IsRun(problem, b) && k <= |a| && k <= |b|
    ensures a[..k] == b[..k]
  {
    if k > 0 {
      CommonPrefix(problem, a, b, k - 1);
      FollowsIsDeterministic(problem, a[..k - 1], a[k - 1], b[k - 1]);
      TakeNext(a, k - 1);
      TakeNext(b, k - 1);
    }
  }
}
