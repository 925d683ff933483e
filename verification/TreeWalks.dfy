/** The walks over one or two index-encoded syntax trees, each with its explicit stack. */
module TreeWalks {
  import opened Ast
  import opened Collections
  import opened AttributeOrder
  import opened SyntaxTree
  import opened Lockstep

  // ---------------------------------------------------------------- comparing two nodes

  lemma {:induction false} AgreeOnFields(source: Script, target: Script, i: nat, j: nat)
    requires source.Valid() && target.Valid()
    requires i < |source.nodes| && j < |target.nodes|
    ensures Agree(Unfold(source, i), Unfold(target, j)) <==>
      && source.nodes[i].nodeType == target.nodes[j].nodeType
      && ContentOf(source, i) == ContentOf(target, j)
      && KeysOf(source, i) == KeysOf(target, j)
  {
    UnfoldShape(source, i);
    UnfoldShape(target, j);
    assert |KeysOf(source, i)| == |ChildrenOf(source, i)|;
    assert |KeysOf(target, j)| == |ChildrenOf(target, j)|;
  }

  lemma {:induction false} LeafPairs(source: Script, target: Script, i: nat, j: nat)
    requires source.Valid() && target.Valid()
    requires i < |source.nodes| && j < |target.nodes|
    requires source.nodes[i].nodeType == target.nodes[j].nodeType
    requires !HasChildren(source.nodes[i].nodeType)
    ensures ChildPairs(source, target, i, j) == []
    ensures KeysOf(source, i) == [] && KeysOf(target, j) == []
  {
  }

  lemma {:induction false} ArrayPairs(source: Script, target: Script, i: nat, j: nat)
    requires source.Valid() && target.Valid()
    requires i < |source.nodes| && j < |target.nodes|
    requires source.nodes[i].nodeType == target.nodes[j].nodeType == ARRAY
    ensures
      var s, t := source.nodes[i], target.nodes[j];
      && ChildPairs(source, target, i, j)
         == ZipPairs(s.childrenBeginOrValue, t.childrenBeginOrValue, Min(s.childrenCount, t.childrenCount))
      && (KeysOf(source, i) == KeysOf(target, j) <==> s.childrenCount == t.childrenCount)
      && ContentOf(source, i) == ContentOf(target, j)
  {
    var s, t := source.nodes[i], target.nodes[j];
    JoinPositions(0, s.childrenBeginOrValue, s.childrenCount, t.childrenBeginOrValue, t.childrenCount);
    assert |KeysOf(source, i)| == s.childrenCount && |KeysOf(target, j)| == t.childrenCount;
  }

  /** Push the common prefix of two arrays' children, pair by pair. */
  method PushArrayPairs(sb: nat, tb: nat, n: nat) returns (pairs: seq<Pair>)
    ensures pairs == ZipPairs(sb, tb, n)
  {
    pairs := [];
    for k := 0 to n
      invariant pairs == ZipPairs(sb, tb, k)
    {
      pairs := pairs + [Pair(sb + k, tb + k)];
    }
  }

  /** The `match` verdict on one node pair of the similarity walk, and the child pairs it pushes. */
  method CompareNodes(source: Script, target: Script, i: nat, j: nat) returns (same: bool, pairs: seq<Pair>)
    requires source.Valid() && target.Valid()
    requires i < |source.nodes| && j < |target.nodes|
    ensures same == Agree(Unfold(source, i), Unfold(target, j))
    ensures pairs == ChildPairs(source, target, i, j)
  {
    AgreeOnFields(source, target, i, j);
    var s, t := source.nodes[i], target.nodes[j];
    assert source.NodeValid(i) && target.NodeValid(j);
    same, pairs := true, [];
    if s.nodeType != t.nodeType {
      same := false;
    } else if s.nodeType == ARRAY {
      ArrayPairs(source, target, i, j);
      same := s.childrenCount == t.childrenCount;
      pairs := PushArrayPairs(
        s.childrenBeginOrValue, t.childrenBeginOrValue, Min(s.childrenCount, t.childrenCount));
    } else if IsObjectType(s.nodeType) {
      var ss := CollectSortedChildren(source.nodes, s);
      var ts := CollectSortedChildren(target.nodes, t);
      same, pairs := JoinAttributes(source, target, ss, ts, KeysOf(source, i), KeysOf(target, j));
    } else {
      LeafPairs(source, target, i, j);
      same := CompareLeaves(source, target, i, j);
    }
  }

  /** Compare two nodes of one leaf type: by name, by text, by value, or not at all. */
  method CompareLeaves(source: Script, target: Script, i: nat, j: nat) returns (same: bool)
    requires source.Valid() && target.Valid()
    requires i < |source.nodes| && j < |target.nodes|
    requires source.nodes[i].nodeType == target.nodes[j].nodeType
    requires !HasChildren(source.nodes[i].nodeType)
    ensures same == (ContentOf(source, i) == ContentOf(target, j))
  {
    var s, t := source.nodes[i], target.nodes[j];
    if s.nodeType == NONE {
      same := true;
    } else if s.nodeType == BOOL {
      same := s.childrenBeginOrValue == t.childrenBeginOrValue;
    } else if s.nodeType == NAME {
      same := source.NameText(i) == target.NameText(j);
    } else if s.nodeType == OPERATOR || IsLiteralType(s.nodeType) {
      same := source.NodeText(i) == target.NodeText(j);
    } else if IsEnumType(s.nodeType) {
      same := s.childrenBeginOrValue == t.childrenBeginOrValue;
    } else {
      same := true;
    }
  }

  // ---------------------------------------------------------------- deep equality

  ghost predicate PairEqual(source: Script, target: Script, p: Pair)
    requires source.Valid() && target.Valid()
    requires p.source < |source.nodes| && p.target < |target.nodes|
  {
    Unfold(source, p.source) == Unfold(target, p.target)
  }

  ghost predicate AllEqual(source: Script, target: Script, pairs: seq<Pair>)
    requires source.Valid() && target.Valid()
    requires PairsValid(source, target, pairs)
  {
    forall k :: 0 <= k < |pairs| ==> PairEqual(source, target, pairs[k])
  }

  lemma {:induction false} JoinEqualKeys(keys: seq<nat>, ss: seq<nat>, ts: seq<nat>)
    requires |keys| == |ss| == |ts|
    ensures |JoinPairs(keys, ss, keys, ts)| == |ss|
    ensures forall k :: 0 <= k < |ss| ==> JoinPairs(keys, ss, keys, ts)[k] == Pair(ss[k], ts[k])
    decreases |ss|
  {
    if ss != [] {
      JoinEqualKeys(keys[1..], ss[1..], ts[1..]);
    }
  }

  /** Two subtrees are equal exactly when their roots agree and their child pairs are equal. */
  lemma {:induction false} EqualByChildren(source: Script, target: Script, i: nat, j: nat)
    requires source.Valid() && target.Valid()
    requires i < |source.nodes| && j < |target.nodes|
    ensures PairEqual(source, target, Pair(i, j)) <==>
      && Agree(Unfold(source, i), Unfold(target, j))
      && AllEqual(source, target, ChildPairs(source, target, i, j))
  {
    UnfoldShape(source, i);
    UnfoldShape(target, j);
    AgreeOnFields(source, target, i, j);
    if Agree(Unfold(source, i), Unfold(target, j)) {
      var ss, ts := ChildrenOf(source, i), ChildrenOf(target, j);
      JoinEqualKeys(KeysOf(source, i), ss, ts);
      var pairs := ChildPairs(source, target, i, j);
      if AllEqual(source, target, pairs) {
        forall k | 0 <= k < |ss|
          ensures UnfoldAll(source, ss)[k] == UnfoldAll(target, ts)[k]
        {
          assert PairEqual(source, target, pairs[k]);
        }
        assert UnfoldAll(source, ss) == UnfoldAll(target, ts);
      }
      if PairEqual(source, target, Pair(i, j)) {
        forall k | 0 <= k < |pairs|
          ensures PairEqual(source, target, pairs[k])
        {
          assert UnfoldAll(source, ss)[k] == UnfoldAll(target, ts)[k];
        }
      }
    }
  }

  lemma {:induction false} SourceSizeAppend(source: Script, a: seq<Pair>, b: seq<Pair>)
    requires source.Valid()
    requires forall k :: 0 <= k < |a| ==> a[k].source < |source.nodes|
    requires forall k :: 0 <= k < |b| ==> b[k].source < |source.nodes|
    ensures SourceSize(source, a + b) == SourceSize(source, a) + SourceSize(source, b)
  {
    if a == [] {
      assert a + b == b;
    } else {
      assert (a + b)[1..] == a[1..] + b;
      SourceSizeAppend(source, a[1..], b);
    }
  }

  lemma {:induction false} SourceSizeLast(source: Script, a: seq<Pair>)
    requires source.Valid() && a != []
    requires forall k :: 0 <= k < |a| ==> a[k].source < |source.nodes|
    ensures SourceSize(source, a)
         == SourceSize(source, a[..|a| - 1]) + Size(Unfold(source, a[|a| - 1].source))
  {
    var last := a[|a| - 1];
    assert a == a[..|a| - 1] + [last];
    SourceSizeAppend(source, a[..|a| - 1], [last]);
    assert SourceSize(source, [last]) == Size(Unfold(source, last.source)) + SourceSize(source, []);
  }

  /** Replacing the top pair by its child pairs keeps the answer, once the pair itself agrees. */
  lemma {:induction false} EqualityStep(source: Script, target: Script, rest: seq<Pair>, top: Pair)
    requires source.Valid() && target.Valid()
    requires PairsValid(source, target, rest)
    requires top.source < |source.nodes| && top.target < |target.nodes|
    ensures AllEqual(source, target, rest + [top]) <==>
      && Agree(Unfold(source, top.source), Unfold(target, top.target))
      && AllEqual(source, target, rest + ChildPairs(source, target, top.source, top.target))
  {
    EqualByChildren(source, target, top.source, top.target);
    AllEqualAppend(source, target, rest, [top]);
    AllEqualAppend(source, target, rest, ChildPairs(source, target, top.source, top.target));
    AllEqualSingle(source, target, top);
  }

  lemma {:induction false} WalkShrinks(source: Script, target: Script, rest: seq<Pair>, top: Pair)
    requires source.Valid() && target.Valid()
    requires PairsValid(source, target, rest)
    requires top.source < |source.nodes| && top.target < |target.nodes|
    ensures SourceSize(source, rest + ChildPairs(source, target, top.source, top.target))
          < SourceSize(source, rest + [top])
  {
    ChildPairSums(source, target, top.source, top.target);
    StackShrinks(source, target, rest, top, ChildPairs(source, target, top.source, top.target));
  }

  lemma {:induction false} StackShrinks(
      source: Script, target: Script, rest: seq<Pair>, top: Pair, pairs: seq<Pair>)
    requires source.Valid() && PairsValid(source, target, rest) && PairsValid(source, target, pairs)
    requires top.source < |source.nodes| && SourceSize(source, pairs) < Size(Unfold(source, top.source))
    ensures forall k :: 0 <= k < |rest + pairs| ==> (rest + pairs)[k].source < |source.nodes|
    ensures forall k :: 0 <= k < |rest + [top]| ==> (rest + [top])[k].source < |source.nodes|
    ensures SourceSize(source, rest + pairs) < SourceSize(source, rest + [top])
  {
    SourceSizeAppend(source, rest, pairs);
    SourceSizeAppend(source, rest, [top]);
    assert SourceSize(source, [top]) == Size(Unfold(source, top.source)) by {
      assert [top][1..] == [];
    }
  }

  lemma {:induction false} AllEqualSingle(source: Script, target: Script, p: Pair)
    requires source.Valid() && target.Valid()
    requires p.source < |source.nodes| && p.target < |target.nodes|
    ensures AllEqual(source, target, [p]) <==> PairEqual(source, target, p)
  {
    assert [p][0] == p;
  }

  lemma {:induction false} AllEqualAppend(source: Script, target: Script, a: seq<Pair>, b: seq<Pair>)
    requires source.Valid() && target.Valid()
    requires PairsValid(source, target, a) && PairsValid(source, target, b)
    ensures AllEqual(source, target, a + b) <==> AllEqual(source, target, a) && AllEqual(source, target, b)
  {
    if AllEqual(source, target, a + b) {
      forall k | 0 <= k < |a| ensures PairEqual(source, target, a[k]) { assert (a + b)[k] == a[k]; }
      forall k | 0 <= k < |b| ensures PairEqual(source, target, b[k]) { assert (a + b)[|a| + k] == b[k]; }
    }
  }

  /**
    Check two statements for deep equality, with an early exit. For valid roots the result is
    equality of the two trees; an invalid root equals only another invalid root.
  */
  method CheckDeepEquality(source: Script, target: Script, sourceRoot: nat, targetRoot: nat) returns (equal: bool)
    requires source.Valid() && target.Valid()
    ensures equal ==
      if sourceRoot >= |source.nodes| || targetRoot >= |target.nodes|
      then sourceRoot >= |source.nodes| && targetRoot >= |target.nodes|
      else Unfold(source, sourceRoot) == Unfold(target, targetRoot)
  {
    if sourceRoot >= |source.nodes| || targetRoot >= |target.nodes| {
      return sourceRoot >= |source.nodes| && targetRoot >= |target.nodes|;
    }
    var root := Pair(sourceRoot, targetRoot);
    var pending := [root];
    assert pending[0] == root;
    while pending != []
      invariant PairsValid(source, target, pending)
      invariant AllEqual(source, target, pending) == PairEqual(source, target, root)
      decreases SourceSize(source, pending)
    {
      var same, next := CompareTop(source, target, pending);
      if !same {
        return false;
      }
      pending := next;
    }
    return true;
  }

  /** Compare the top pair, and push its child pairs. */
  method CompareTop(source: Script, target: Script, pending: seq<Pair>) returns (same: bool, next: seq<Pair>)
    requires source.Valid() && target.Valid() && pending != [] && PairsValid(source, target, pending)
    ensures same ==> PairsValid(source, target, next) && SourceSize(source, next) < SourceSize(source, pending)
    ensures AllEqual(source, target, pending) <==> same && (same ==> AllEqual(source, target, next))
  {
    var top, rest := pending[|pending| - 1], pending[..|pending| - 1];
    SplitLast(pending);
    EqualityStep(source, target, rest, top);
    WalkShrinks(source, target, rest, top);
    var pairs;
    same, pairs := PairUp(source, target, top.source, top.target);
    next := rest + pairs;
    PairsJoin(source, target, rest, ChildPairs(source, target, top.source, top.target));
  }

  lemma {:induction false} PairsJoin(source: Script, target: Script, a: seq<Pair>, b: seq<Pair>)
    requires source.Valid() && target.Valid()
    requires PairsValid(source, target, a) && PairsValid(source, target, b)
    ensures PairsValid(source, target, a + b)
  {
  }

  /** The early-exit comparison of one node pair: false as soon as the pair is known to differ. */
  method PairUp(source: Script, target: Script, i: nat, j: nat) returns (same: bool, pairs: seq<Pair>)
    requires source.Valid() && target.Valid()
    requires i < |source.nodes| && j < |target.nodes|
    ensures same == Agree(Unfold(source, i), Unfold(target, j))
    ensures same ==> pairs == ChildPairs(source, target, i, j)
  {
    AgreeOnFields(source, target, i, j);
    pairs := [];
    var s, t := source.nodes[i], target.nodes[j];
    assert source.NodeValid(i) && target.NodeValid(j);
    if s.nodeType != t.nodeType {
      return false, [];
    } else if s.nodeType == ARRAY {
      ArrayPairs(source, target, i, j);
      if s.childrenCount != t.childrenCount {
        return false, [];
      }
      pairs := PushArrayPairs(s.childrenBeginOrValue, t.childrenBeginOrValue, s.childrenCount);
      return true, pairs;
    } else if IsObjectType(s.nodeType) {
      if s.childrenCount != t.childrenCount {
        assert |KeysOf(source, i)| != |KeysOf(target, j)|;
        return false, [];
      }
      var ss := CollectSortedChildren(source.nodes, s);
      var ts := CollectSortedChildren(target.nodes, t);
      same, pairs := ZipAttributes(source, target, ss, ts, KeysOf(source, i), KeysOf(target, j));
    } else {
      LeafPairs(source, target, i, j);
      same := CompareLeaves(source, target, i, j);
    }
  }

  /** Pair two sorted attribute lists of one length; false at the first key that differs. */
  method ZipAttributes(
      source: Script, target: Script, ss: seq<nat>, ts: seq<nat>, ghost ks: seq<nat>, ghost kt: seq<nat>)
    returns (same: bool, pairs: seq<Pair>)
    requires InRange(source.nodes, ss) && InRange(target.nodes, ts) && |ss| == |ts|
    requires KeysMatch(source.nodes, ss, ks) && KeysMatch(target.nodes, ts, kt)
    ensures same == (ks == kt)
    ensures same ==> pairs == JoinPairs(ks, ss, kt, ts)
  {
    pairs := [];
    for k := 0 to |ss|
      invariant |pairs| == k
      invariant forall m :: 0 <= m < k ==> ks[m] == kt[m] && pairs[m] == Pair(ss[m], ts[m])
    {
      if Key(source.nodes, ss[k]) != Key(target.nodes, ts[k]) {
        return false, [];
      }
      pairs := pairs + [Pair(ss[k], ts[k])];
    }
    assert ks == kt;
    JoinEqualKeys(ks, ss, ts);
    return true, pairs;
  }
}
