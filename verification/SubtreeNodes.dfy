/** The memoized sizes count nodes: under disjoint child ranges a subtree's size is its number of nodes. */
module SubtreeNodes {
  import opened Ast
  import opened Collections
  import opened SyntaxTree
  import opened TreeSizes

  /** No two containers share a child. */
  ghost predicate ChildRangesDisjoint(script: Script)
    requires script.Valid()
  {
    forall i: nat, j: nat, x | i < |script.nodes| && j < |script.nodes| ::
      x in RawChildren(script, i) && x in RawChildren(script, j) ==> i == j
  }

  /** The nodes reachable from `i`. */
  ghost function Subtree(script: Script, i: nat): (r: set<nat>)
    requires script.Valid() && i < |script.nodes|
    ensures forall x :: x in r ==> x <= i
    decreases i
  {
    {i} + set c, x | c in RawChildren(script, i) && x in Subtree(script, c) :: x
  }

  ghost function Forest(script: Script, ids: seq<nat>): set<nat>
    requires script.Valid() && Below(ids, |script.nodes|)
  {
    set c, x | c in ids && x in Subtree(script, c) :: x
  }

  /** A node below `r` has a parent at or below `r`. */
  lemma {:induction false} ParentBelow(script: Script, r: nat, x: nat) returns (p: nat)
    requires script.Valid() && r < |script.nodes|
    requires x in Subtree(script, r) && x != r
    ensures p < |script.nodes| && x < p <= r && p in Subtree(script, r) && x in RawChildren(script, p)
    decreases r
  {
    var c :| c in RawChildren(script, r) && x in Subtree(script, c);
    if x == c {
      p := r;
    } else {
      p := ParentBelow(script, c, x);
    }
  }

  /** The subtrees of two siblings share no node. */
  lemma {:induction false} SiblingsDisjoint(script: Script, i: nat, c: nat, d: nat, x: nat)
    requires script.Valid() && i < |script.nodes| && ChildRangesDisjoint(script)
    requires c in RawChildren(script, i) && d in RawChildren(script, i) && c != d
    requires x in Subtree(script, c)
    ensures x !in Subtree(script, d)
    decreases i - x
  {
    if x in Subtree(script, d) {
      if x == c {
        var p := ParentBelow(script, d, x);
      } else if x == d {
        var p := ParentBelow(script, c, x);
      } else {
        var p := ParentBelow(script, c, x);
        var q := ParentBelow(script, d, x);
        SiblingsDisjoint(script, i, c, d, p);
      }
    }
  }

  /** The trees of a forest share no node. */
  ghost predicate Apart(script: Script, ids: seq<nat>)
    requires script.Valid() && Below(ids, |script.nodes|)
  {
    forall j, k :: 0 <= j < k < |ids| ==> Subtree(script, ids[j]) !! Subtree(script, ids[k])
  }

  lemma {:induction false} ChildrenApart(script: Script, i: nat)
    requires script.Valid() && i < |script.nodes| && ChildRangesDisjoint(script)
    ensures Apart(script, RawChildren(script, i))
  {
    var ids := RawChildren(script, i);
    forall j, k, x | 0 <= j < k < |ids| && x in Subtree(script, ids[j])
      ensures x !in Subtree(script, ids[k])
    {
      assert ids[j] in ids && ids[k] in ids;
      SiblingsDisjoint(script, i, ids[j], ids[k], x);
    }
  }

  lemma {:induction false} ForestAppend(script: Script, ids: seq<nat>, c: nat)
    requires script.Valid() && Below(ids, |script.nodes|) && c < |script.nodes|
    ensures Forest(script, ids + [c]) == Forest(script, ids) + Subtree(script, c)
  {
    assert forall d :: d in ids + [c] <==> d in ids || d == c;
  }

  lemma {:induction false} ApartFromForest(script: Script, ids: seq<nat>, c: nat)
    requires script.Valid() && Below(ids, |script.nodes|) && c < |script.nodes| && Apart(script, ids + [c])
    ensures Apart(script, ids) && Forest(script, ids) !! Subtree(script, c)
  {
    var all := ids + [c];
    forall j | 0 <= j < |ids|
      ensures Subtree(script, ids[j]) !! Subtree(script, c)
    {
      assert all[j] == ids[j] && all[|ids|] == c;
    }
    forall j, k | 0 <= j < k < |ids|
      ensures Subtree(script, ids[j]) !! Subtree(script, ids[k])
    {
      assert all[j] == ids[j] && all[k] == ids[k];
    }
  }

  /** A forest of trees that share no node has as many nodes as its trees together. */
  lemma {:induction false} ForestCount(script: Script, size: seq<nat>, ids: seq<nat>)
    requires script.Valid() && Below(ids, |script.nodes|) && |size| == |script.nodes| && Apart(script, ids)
    requires forall c :: c in ids ==> |Subtree(script, c)| == size[c]
    ensures |Forest(script, ids)| == Sum(size, ids)
    decreases |ids|
  {
    if ids == [] {
      assert Forest(script, ids) == {};
    } else {
      var front, c := ids[..|ids| - 1], ids[|ids| - 1];
      SplitLast(ids);
      ApartFromForest(script, front, c);
      ForestCount(script, size, front);
      ForestAppend(script, front, c);
      CountStep(size, front, c, Forest(script, front), Subtree(script, c));
    }
  }

  lemma {:induction false} CountStep(size: seq<nat>, front: seq<nat>, c: nat, forest: set<nat>, tree: set<nat>)
    requires Below(front, |size|) && c < |size|
    requires |forest| == Sum(size, front) && |tree| == size[c] && forest !! tree
    ensures |forest + tree| == Sum(size, front + [c])
  {
    SumAppend(size, front, c);
    DisjointUnion(forest, tree);
  }

  lemma {:induction false} DisjointUnion(a: set<nat>, b: set<nat>)
    requires a !! b
    ensures |a + b| == |a| + |b|
  {
  }

  lemma {:induction false} SubtreeIsRootAndForest(script: Script, i: nat)
    requires script.Valid() && i < |script.nodes|
    ensures Subtree(script, i) == {i} + Forest(script, RawChildren(script, i))
    ensures i !in Forest(script, RawChildren(script, i))
  {
  }

  /** The size of the tree below a node is the number of nodes it reaches. */
  lemma {:induction false} SizeCountsNodes(script: Script, i: nat)
    requires script.Valid() && i < |script.nodes| && ChildRangesDisjoint(script)
    ensures Size(Unfold(script, i)) == |Subtree(script, i)|
    decreases i
  {
    var size := SizeTable(script);
    var children := RawChildren(script, i);
    forall c | c in children
      ensures |Subtree(script, c)| == size[c]
    {
      SizeCountsNodes(script, c);
    }
    ChildrenApart(script, i);
    ForestCount(script, size, children);
    SizeTableStep(script, i);
    SubtreeIsRootAndForest(script, i);
    DisjointUnion({i}, Forest(script, children));
  }
}
