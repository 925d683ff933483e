/**
  What a subtree of a script means to the diff: a tree of typed nodes whose attributes are
  sorted by key. Positions in the node array, token spans and grammar order of an object's attributes
  are gone; an array is an object whose keys are its positions.
*/
module SyntaxTree {
  import opened Ast
  import opened AttributeOrder

  datatype Content = NoContent | Value(value: nat) | Text(text: string)
  /** `keys` and `children` are parallel lists. */
  datatype Tree = Tree(nodeType: nat, content: Content, keys: seq<nat>, children: seq<Tree>)

  // ---------------------------------------------------------------- reading a script

  /** The part of a node that is compared in place. */
  function ContentOf(script: Script, i: nat): Content
    requires script.Valid() && i < |script.nodes|
  {
    var n := script.nodes[i];
    if n.nodeType == BOOL || IsEnumType(n.nodeType) then Value(n.childrenBeginOrValue)
    else if n.nodeType == NAME then Text(script.NameText(i))
    else if n.nodeType == OPERATOR || IsLiteralType(n.nodeType) then Text(script.NodeText(i))
    else NoContent
  }

  /** The children of a node, in the order the walks visit them. */
  function ChildrenOf(script: Script, i: nat): (r: seq<nat>)
    requires script.Valid() && i < |script.nodes|
    ensures InRange(script.nodes, r)
    ensures forall k :: 0 <= k < |r| ==> r[k] < i
    ensures HasChildren(script.nodes[i].nodeType) ==> |r| == script.nodes[i].childrenCount
  {
    assert script.NodeValid(i);
    var n := script.nodes[i];
    if n.nodeType == ARRAY then Range(n.childrenBeginOrValue, n.childrenCount)
    else if IsObjectType(n.nodeType) then
      SortedIsPermutation(script.nodes, n.childrenBeginOrValue, n.childrenCount);
      Sorted(script.nodes, n.childrenBeginOrValue, n.childrenCount)
    else []
  }

  /** The keys that the children are joined on. */
  function KeysOf(script: Script, i: nat): (r: seq<nat>)
    requires script.Valid() && i < |script.nodes|
    ensures |r| == |ChildrenOf(script, i)|
  {
    var children := ChildrenOf(script, i);
    if script.nodes[i].nodeType == ARRAY then Range(0, |children|)
    else AttributeKeys(script.nodes, children)
  }

  function AttributeKeys(nodes: seq<Node>, ids: seq<nat>): (r: seq<nat>)
    requires InRange(nodes, ids)
    ensures |r| == |ids|
    ensures forall k :: 0 <= k < |r| ==> r[k] == Key(nodes, ids[k])
  {
    if ids == [] then []
    else AttributeKeys(nodes, ids[..|ids| - 1]) + [Key(nodes, ids[|ids| - 1])]
  }

  /** The tree below node `i`. */
  function Unfold(script: Script, i: nat): Tree
    requires script.Valid() && i < |script.nodes|
    decreases i
  {
    var children := ChildrenOf(script, i);
    Tree(
      script.nodes[i].nodeType,
      ContentOf(script, i),
      KeysOf(script, i),
      seq(|children|, k requires 0 <= k < |children| => Unfold(script, children[k]))
    )
  }

  // ---------------------------------------------------------------- measures on trees

  function Size(t: Tree): (n: nat)
    ensures n > 0
  {
    1 + SizeAll(t.children)
  }

  function SizeAll(ts: seq<Tree>): nat {
    if ts == [] then 0 else Size(ts[0]) + SizeAll(ts[1..])
  }

  /** Do two nodes agree, their subtrees aside? */
  predicate Agree(a: Tree, b: Tree) {
    a.nodeType == b.nodeType && a.content == b.content && a.keys == b.keys && |a.children| == |b.children|
  }

  /** The number of nodes that agree in a lockstep walk which joins children by key. */
  function Matching(a: Tree, b: Tree): nat {
    (if Agree(a, b) then 1 else 0)
    + (if a.nodeType == b.nodeType then MatchingJoin(a.keys, a.children, b.keys, b.children) else 0)
  }

  /** The matches below two lists of children that are joined by key, front to back. */
  function MatchingJoin(ka: seq<nat>, a: seq<Tree>, kb: seq<nat>, b: seq<Tree>): nat
    decreases a, b
  {
    if a == [] || b == [] || ka == [] || kb == [] then 0
    else if ka[0] < kb[0] then MatchingJoin(ka[1..], a[1..], kb, b)
    else if ka[0] > kb[0] then MatchingJoin(ka, a, kb[1..], b[1..])
    else Matching(a[0], b[0]) + MatchingJoin(ka[1..], a[1..], kb[1..], b[1..])
  }

  // ---------------------------------------------------------------- similarity and equality agree

  lemma {:induction false} MatchingAtMostSize(a: Tree, b: Tree)
    ensures Matching(a, b) <= Size(a) && Matching(a, b) <= Size(b)
    decreases a, b
  {
    JoinAtMostSize(a.keys, a.children, b.keys, b.children);
  }

  lemma {:induction false} JoinAtMostSize(ka: seq<nat>, a: seq<Tree>, kb: seq<nat>, b: seq<Tree>)
    ensures MatchingJoin(ka, a, kb, b) <= SizeAll(a)
    ensures MatchingJoin(ka, a, kb, b) <= SizeAll(b)
    decreases a, b
  {
    if a != [] && b != [] && ka != [] && kb != [] {
      if ka[0] < kb[0] {
        JoinAtMostSize(ka[1..], a[1..], kb, b);
      } else if ka[0] > kb[0] {
        JoinAtMostSize(ka, a, kb[1..], b[1..]);
      } else {
        MatchingAtMostSize(a[0], b[0]);
        JoinAtMostSize(ka[1..], a[1..], kb[1..], b[1..]);
      }
    }
  }

  /** Every list of children carries one key per child. */
  predicate Keyed(t: Tree) {
    |t.keys| == |t.children| && forall c :: c in t.children ==> Keyed(c)
  }

  predicate AllKeyed(ts: seq<Tree>) {
    forall c :: c in ts ==> Keyed(c)
  }

  lemma {:induction false} MatchingSelf(a: Tree)
    requires Keyed(a)
    ensures Matching(a, a) == Size(a)
    decreases a
  {
    JoinSelf(a.keys, a.children);
  }

  lemma {:induction false} JoinSelf(ka: seq<nat>, a: seq<Tree>)
    requires |ka| == |a| && AllKeyed(a)
    ensures MatchingJoin(ka, a, ka, a) == SizeAll(a)
    decreases a
  {
    if a != [] {
      MatchingSelf(a[0]);
      JoinSelf(ka[1..], a[1..]);
    }
  }

  lemma {:induction false} FullMatchIsEqual(a: Tree, b: Tree)
    requires Matching(a, b) == Size(a) == Size(b)
    ensures a == b
    decreases a
  {
    JoinAtMostSize(a.keys, a.children, b.keys, b.children);
    FullJoinIsEqual(a.keys, a.children, b.children);
  }

  lemma {:induction false} FullJoinIsEqual(keys: seq<nat>, a: seq<Tree>, b: seq<Tree>)
    requires |a| == |b|
    requires MatchingJoin(keys, a, keys, b) == SizeAll(a) == SizeAll(b)
    ensures a == b
    decreases a
  {
    if a != [] {
      MatchingAtMostSize(a[0], b[0]);
      JoinAtMostSize(keys[1..], a[1..], keys[1..], b[1..]);
      FullMatchIsEqual(a[0], b[0]);
      FullJoinIsEqual(keys[1..], a[1..], b[1..]);
      assert a == [a[0]] + a[1..] && b == [b[0]] + b[1..];
    }
  }

  /**
    The two tree walks agree: the number of matching nodes never exceeds the smaller subtree, and
    it reaches the larger one exactly when the subtrees are equal.
  */
  lemma {:induction false} SimilarityAgreesWithEquality(a: Tree, b: Tree)
    requires Keyed(a)
    ensures Matching(a, b) <= Min(Size(a), Size(b))
    ensures Matching(a, b) == Max(Size(a), Size(b)) <==> a == b
  {
    MatchingAtMostSize(a, b);
    if a == b {
      MatchingSelf(a);
    }
    if Matching(a, b) == Max(Size(a), Size(b)) {
      FullMatchIsEqual(a, b);
    }
  }

  lemma {:induction false} UnfoldKeyed(script: Script, i: nat)
    requires script.Valid() && i < |script.nodes|
    ensures Keyed(Unfold(script, i))
    decreases i
  {
    var children := ChildrenOf(script, i);
    var t := Unfold(script, i);
    forall c | c in t.children
      ensures Keyed(c)
    {
      var k :| 0 <= k < |t.children| && t.children[k] == c;
      UnfoldKeyed(script, children[k]);
    }
  }

  function Min(a: nat, b: nat): nat { if a < b then a else b }
  function Max(a: nat, b: nat): nat { if a > b then a else b }
}
