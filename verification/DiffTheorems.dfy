/** What every computed diff of two scripts guarantees. */
module DiffTheorems {
  import opened Ast
  import opened SyntaxTree
  import opened Similarity
  import opened Spans
  import opened StatementMapping
  import opened DiffRun
  import opened ScriptDiffs

  lemma {:induction false} ProblemIsValid(source: Script, target: Script, lcs: seq<Pair>)
    requires source.Valid() && target.Valid()
    requires IsLongestUnambiguous(EqualEdges(source, target), lcs)
    ensures ProblemOf(source, target, lcs).Valid()
  {
  }

  /**
    Every source statement and every target statement occurs in exactly one operation, and the kept
    pairs are, in order, a longest chain of unambiguous pairs.
  */
  lemma {:induction false} ScriptDiffCovers(source: Script, target: Script, lcs: seq<Pair>, ops: seq<DiffOp>)
    requires source.Valid() && target.Valid() && IsScriptDiff(source, target, lcs, ops)
    ensures ExactCover(|source.statements|, |target.statements|, Ops(ops))
    ensures IsLongestUnambiguous(EqualEdges(source, target), Kept(Ops(ops)))
  {
    var problem := ProblemOf(source, target, lcs);
    ProblemIsValid(source, target, lcs);
    DiffIsExactCover(problem, Ops(ops));
    KeptIsLcs(problem, Ops(ops));
  }

  /** KEEP and MOVE pair equal statements only. */
  lemma {:induction false} KeepsAndMovesPairEqualStatements(
      source: Script, target: Script, lcs: seq<Pair>, ops: seq<DiffOp>, k: nat)
    requires source.Valid() && target.Valid() && IsScriptDiff(source, target, lcs, ops)
    requires k < |ops| && ops[k].op.code in {Keep, Move}
    ensures ops[k].op.source.Some? && ops[k].op.target.Some?
    ensures Pair(ops[k].op.source.value, ops[k].op.target.value) in EqualEdges(source, target)
  {
    ProblemIsValid(source, target, lcs);
    KeptAndMovedAreEqual(ProblemOf(source, target, lcs), Ops(ops), k);
  }

  /** An UPDATE pairs statements that are similar but not equal: their score is in [0.75, 1). */
  lemma {:induction false} UpdatesAreSimilarNotEqual(
      source: Script, target: Script, lcs: seq<Pair>, ops: seq<DiffOp>, k: nat)
    requires source.Valid() && target.Valid() && IsScriptDiff(source, target, lcs, ops)
    requires k < |ops| && ops[k].op.code == Update
    ensures ops[k].op.source.Some? && ops[k].op.target.Some?
    ensures
      var p := Pair(ops[k].op.source.value, ops[k].op.target.value);
      && Undecided(source, target, p)
      && Unfold(source, source.statements[p.source]) != Unfold(target, target.statements[p.target])
      && UPDATE_SIMILARITY_THRESHOLD <= ScoreOf(source, target, p) < 1.0
  {
    var problem := ProblemOf(source, target, lcs);
    UpdatesAreUnequal(problem, Ops(ops), k);
    var p := Pair(ops[k].op.source.value, ops[k].op.target.value);
    ScoreAgreesWithEquality(source, target, source.statements[p.source], target.statements[p.target]);
  }

  lemma {:induction false} DetailsUnique(source: Script, target: Script, a: DiffOp, b: DiffOp)
    requires source.Valid() && target.Valid()
    requires DetailsValid(source, target, a) && DetailsValid(source, target, b)
    requires a.op == b.op && (a.op.code == Update ==> a.op.source.Some? && a.op.target.Some?)
    ensures a == b
  {
    if a.op.code == Update && RootValid(source, a.op.source.value) && RootValid(target, a.op.target.value) {
      assert SameCover(a.targetChanges, b.targetChanges);
      CoalescedUnique(a.targetChanges, b.targetChanges);
    }
  }

  /** Apart from the choice among equally long chains, two scripts have one diff, spans included. */
  lemma {:induction false} ScriptDiffIsUnique(
      source: Script, target: Script, lcs: seq<Pair>, a: seq<DiffOp>, b: seq<DiffOp>)
    requires source.Valid() && target.Valid()
    requires IsScriptDiff(source, target, lcs, a) && IsScriptDiff(source, target, lcs, b)
    ensures a == b
  {
    var problem := ProblemOf(source, target, lcs);
    DiffIsUnique(problem, Ops(a), Ops(b));
    assert |Ops(a)| == |a| && |Ops(b)| == |b|;
    forall k | 0 <= k < |a|
      ensures a[k] == b[k]
    {
      assert Ops(a)[k] == Ops(b)[k];
      if a[k].op.code == Update {
        UpdatesAreUnequal(problem, Ops(a), k);
      }
      DetailsUnique(source, target, a[k], b[k]);
    }
  }
}
