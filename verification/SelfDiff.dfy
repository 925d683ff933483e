/** Diffing a script against itself. */
module SelfDiff {
  import opened Ast
  import opened Collections
  import opened PatienceLcs
  import opened StatementMapping
  import opened DiffRun
  import opened ScriptDiffs

  /** A problem in which every statement equals its own counterpart. */
  ghost predicate Reflexive(problem: Problem) {
    && problem.sourceCount == problem.targetCount
    && forall i: nat :: i < problem.sourceCount ==> Pair(i, i) in problem.equal
  }

  /** Statement `i` is kept if it is equal to no other statement, and moved onto itself otherwise. */
  ghost function Identity(problem: Problem, i: nat): Op {
    Op(if Isolated(problem.equal, Pair(i, i)) then Keep else Move, Some(i), Some(i))
  }

  ghost function IdentityOps(problem: Problem, n: nat): (r: seq<Op>)
    ensures |r| == n
    ensures forall k :: 0 <= k < n ==> r[k] == Identity(problem, k)
  {
    if n == 0 then [] else IdentityOps(problem, n - 1) + [Identity(problem, n - 1)]
  }

  lemma {:induction false} IdentityPrefix(problem: Problem, n: nat, k: nat)
    requires k <= n
    ensures IdentityOps(problem, n)[..k] == IdentityOps(problem, k)
  {
  }

  /** The chain of kept pairs holds every isolated statement, paired with itself. */
  ghost predicate KeepsAllIsolated(problem: Problem) {
    && (forall k :: 0 <= k < |problem.lcs| ==> problem.lcs[k].source == problem.lcs[k].target)
    && (forall i: nat :: Isolated(problem.equal, Pair(i, i)) ==> Pair(i, i) in problem.lcs)
  }

  lemma {:induction false} IsolatedIsDiagonal(problem: Problem, p: Pair)
    requires problem.Valid() && Reflexive(problem) && Isolated(problem.equal, p)
    ensures p.source == p.target
  {
    assert Pair(p.source, p.source) in problem.equal;
  }

  /** A diagonal chain without (i, i) has room for it. */
  lemma {:induction false} InsertDiagonal(edges: set<Pair>, chain: seq<Pair>, i: nat) returns (longer: seq<Pair>)
    requires Increasing(chain) && (forall k :: 0 <= k < |chain| ==> chain[k].source == chain[k].target)
    requires forall k :: 0 <= k < |chain| ==> Isolated(edges, chain[k])
    requires Isolated(edges, Pair(i, i)) && Pair(i, i) !in chain
    ensures |longer| == |chain| + 1 && Increasing(longer)
    ensures forall k :: 0 <= k < |longer| ==> Isolated(edges, longer[k])
  {
    var at := 0;
    while at < |chain| && chain[at].source < i
      invariant at <= |chain|
      invariant forall k :: 0 <= k < at ==> chain[k].source < i
    {
      at := at + 1;
    }
    assert forall k :: at <= k < |chain| ==> i < chain[k].source by {
      if at < |chain| {
        assert chain[at] in chain && chain[at] == Pair(chain[at].source, chain[at].source);
      }
    }
    longer := chain[..at] + [Pair(i, i)] + chain[at..];
    forall k | 0 <= k < |longer|
      ensures Isolated(edges, longer[k])
    {
      assert longer[k] == if k < at then chain[k] else if k == at then Pair(i, i) else chain[k - 1];
    }
    InsertedIncreases(chain, at, i);
  }

  lemma {:induction false} InsertedIncreases(chain: seq<Pair>, at: nat, i: nat)
    requires Increasing(chain) && at <= |chain|
    requires forall k :: 0 <= k < |chain| ==> chain[k].source == chain[k].target
    requires forall k :: 0 <= k < at ==> chain[k].source < i
    requires forall k :: at <= k < |chain| ==> i < chain[k].source
    ensures Increasing(chain[..at] + [Pair(i, i)] + chain[at..])
  {
    var longer := chain[..at] + [Pair(i, i)] + chain[at..];
    forall k | 0 <= k < |longer|
      ensures longer[k] == if k < at then chain[k] else if k == at then Pair(i, i) else chain[k - 1]
    {
    }
  }

  lemma {:induction false} LongestKeepsAllIsolated(problem: Problem)
    requires problem.Valid() && Reflexive(problem)
    requires IsLongestUnambiguous(problem.equal, problem.lcs)
    ensures KeepsAllIsolated(problem)
  {
    forall k | 0 <= k < |problem.lcs|
      ensures problem.lcs[k].source == problem.lcs[k].target
    {
      IsolatedIsDiagonal(problem, problem.lcs[k]);
    }
    forall i: nat | Isolated(problem.equal, Pair(i, i))
      ensures Pair(i, i) in problem.lcs
    {
      if Pair(i, i) !in problem.lcs {
        var longer := InsertDiagonal(problem.equal, problem.lcs, i);
      }
    }
  }

  // ---------------------------------------------------------------- the run of identities

  /** After the first `k` identities: `q` pairs are kept, the ones below `k`. */
  ghost predicate KeptBelow(problem: Problem, k: nat, q: nat) {
    && q <= |problem.lcs|
    && (forall a :: 0 <= a < q ==> problem.lcs[a].source < k)
    && (q < |problem.lcs| ==> k <= problem.lcs[q].source)
  }

  lemma {:induction false} IdentityCounts(problem: Problem, k: nat)
    requires problem.Valid() && KeepsAllIsolated(problem)
    ensures CountsMatch(problem, IdentityOps(problem, k), k)
  {
    if k > 0 {
      IdentityCounts(problem, k - 1);
      CountsMatchStep(problem, IdentityOps(problem, k - 1), k - 1);
    }
  }

  ghost predicate CountsMatch(problem: Problem, ops: seq<Op>, k: nat) {
    Sources(ops) == k && KeptBelow(problem, k, |Kept(ops)|)
  }

  lemma {:induction false} CountsMatchStep(problem: Problem, ops: seq<Op>, k: nat)
    requires problem.Valid() && KeepsAllIsolated(problem) && CountsMatch(problem, ops, k)
    ensures CountsMatch(problem, ops + [Identity(problem, k)], k + 1)
  {
    CountsExtend(ops, Identity(problem, k));
    KeptBelowStep(problem, k, |Kept(ops)|);
  }

  lemma {:induction false} KeptBelowStep(problem: Problem, k: nat, q: nat)
    requires problem.Valid() && KeepsAllIsolated(problem) && KeptBelow(problem, k, q)
    ensures Isolated(problem.equal, Pair(k, k)) ==> q < |problem.lcs| && problem.lcs[q] == Pair(k, k)
    ensures KeptBelow(problem, k + 1, if Isolated(problem.equal, Pair(k, k)) then q + 1 else q)
  {
    if Isolated(problem.equal, Pair(k, k)) {
      var a := Position(problem.lcs, Pair(k, k));
      assert q <= a;
      assert forall b :: q < b < |problem.lcs| ==> problem.lcs[q].source < problem.lcs[b].source;
    } else if q < |problem.lcs| {
      assert Isolated(problem.equal, problem.lcs[q]);
      assert problem.lcs[q] == Pair(problem.lcs[q].source, problem.lcs[q].source);
    }
  }

  lemma {:induction false} IdentityUsed(problem: Problem, k: nat, t: nat)
    ensures Used(IdentityOps(problem, k), t) <==> t < k
  {
    var ops := IdentityOps(problem, k);
    if t < k {
      assert ops[t].target == Some(t);
    }
  }

  lemma {:induction false} IdentityFollows(problem: Problem, k: nat)
    requires problem.Valid() && Reflexive(problem) && KeepsAllIsolated(problem) && k < problem.sourceCount
    ensures Follows(problem, IdentityOps(problem, k), Identity(problem, k))
  {
    var done := IdentityOps(problem, k);
    var q := |Kept(done)|;
    IdentityCounts(problem, k);
    KeptBelowStep(problem, k, q);
    forall t: nat
      ensures Used(done, t) <==> t < k
    {
      IdentityUsed(problem, k, t);
    }
    if !Isolated(problem.equal, Pair(k, k)) {
      assert k < problem.SectionEnd(q).source;
      assert FirstFreeEqual(problem, done, k, k);
    }
  }

  lemma {:induction false} IdentityIsRun(problem: Problem, n: nat)
    requires problem.Valid() && Reflexive(problem) && KeepsAllIsolated(problem) && n <= problem.sourceCount
    ensures IsRun(problem, IdentityOps(problem, n))
  {
    var ops := IdentityOps(problem, n);
    forall k | 0 <= k < |ops|
      ensures Follows(problem, ops[..k], ops[k])
    {
      IdentityPrefix(problem, n, k);
      IdentityFollows(problem, k);
    }
  }

  lemma {:induction false} IdentityIsComplete(problem: Problem)
    requires problem.Valid() && Reflexive(problem) && KeepsAllIsolated(problem)
    ensures Complete(problem, IdentityOps(problem, problem.sourceCount))
  {
    var n := problem.sourceCount;
    IdentityCounts(problem, n);
    assert forall a :: 0 <= a < |problem.lcs| ==> Isolated(problem.equal, problem.lcs[a]);
    forall t: nat | t < n
      ensures Used(IdentityOps(problem, n), t)
    {
      IdentityUsed(problem, n, t);
    }
  }

  /** Identities in statement order are a diff of a reflexive problem. */
  lemma {:induction false} IdentityIsDiff(problem: Problem)
    requires problem.Valid() && Reflexive(problem) && KeepsAllIsolated(problem)
    ensures IsDiff(problem, IdentityOps(problem, problem.sourceCount))
  {
    IdentityIsRun(problem, problem.sourceCount);
    IdentityIsComplete(problem);
  }

  /** A valid statement equals itself: its estimate is EQUAL. */
  lemma {:induction false} StatementEqualsItself(script: Script, s: nat)
    requires script.Valid() && s < |script.statements| && RootValid(script, s)
    ensures StatementsEqual(script, script, s, s)
  {
  }

  /**
    Diffing a script with valid roots against itself gives one operation per statement, in order,
    that pairs the statement with itself. It is a KEEP exactly for the statements that are equal to
    no other statement, and a MOVE for the rest.
  */
  lemma {:induction false} SelfDiffIsIdentity(script: Script, lcs: seq<Pair>, ops: seq<DiffOp>)
    requires script.Valid()
    requires forall s: nat :: s < |script.statements| ==> RootValid(script, s)
    requires IsScriptDiff(script, script, lcs, ops)
    ensures |ops| == |script.statements|
    ensures forall s: nat :: s < |script.statements| ==>
      ops[s].op == Op(
        if Isolated(EqualEdges(script, script), Pair(s, s)) then Keep else Move, Some(s), Some(s))
  {
    var problem := ProblemOf(script, script, lcs);
    forall s: nat | s < |script.statements|
      ensures Pair(s, s) in problem.equal
    {
      StatementEqualsItself(script, s);
    }
    LongestKeepsAllIsolated(problem);
    IdentityIsDiff(problem);
    DiffIsUnique(problem, Ops(ops), IdentityOps(problem, problem.sourceCount));
    forall s: nat | s < |script.statements|
      ensures ops[s].op == Identity(problem, s)
    {
      assert Ops(ops)[s] == ops[s].op;
    }
  }
}
