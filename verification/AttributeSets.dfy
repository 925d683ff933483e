/** Deep equality does not depend on the grammar order of an object's attributes. */
module AttributeSets {
  import opened Ast
  import opened Collections
  import opened AttributeOrder
  import opened SyntaxTree
  import opened Lockstep
  import opened TreeSizes

  datatype Attribute = Attribute(key: nat, tree: Tree)

  /** The attribute that every node would be in its parent. */
  ghost function AttributeTable(script: Script): (r: seq<Attribute>)
    requires script.Valid()
    ensures |r| == |script.nodes|
    ensures forall i: nat :: i < |r| ==> r[i] == Attribute(Key(script.nodes, i), Unfold(script, i))
  {
    seq(|script.nodes|, i requires 0 <= i < |script.nodes| => Attribute(Key(script.nodes, i), Unfold(script, i)))
  }

  ghost function Select(table: seq<Attribute>, ids: seq<nat>): (r: seq<Attribute>)
    requires Below(ids, |table|)
    ensures |r| == |ids| && forall k :: 0 <= k < |ids| ==> r[k] == table[ids[k]]
  {
    seq(|ids|, k requires 0 <= k < |ids| => table[ids[k]])
  }

  /** An object's attributes in grammar order. */
  ghost function Attributes(script: Script, i: nat): seq<Attribute>
    requires script.Valid() && i < |script.nodes|
  {
    Select(AttributeTable(script), RawChildren(script, i))
  }

  ghost predicate DistinctKeys(attributes: seq<Attribute>) {
    forall a, b :: 0 <= a < b < |attributes| ==> attributes[a].key != attributes[b].key
  }

  ghost predicate KeysAscend(attributes: seq<Attribute>) {
    forall a, b :: 0 <= a < b < |attributes| ==> attributes[a].key <= attributes[b].key
  }

  // ---------------------------------------------------------------- permutations

  function Drop(xs: seq<Attribute>, k: nat): seq<Attribute>
    requires k < |xs|
  {
    xs[..k] + xs[k + 1..]
  }

  lemma {:induction false} DropElements(xs: seq<Attribute>, k: nat)
    requires k < |xs|
    ensures multiset(xs) == multiset(Drop(xs, k)) + multiset{xs[k]}
  {
    assert xs == xs[..k] + [xs[k]] + xs[k + 1..];
  }

  lemma {:induction false} SelectDrop(table: seq<Attribute>, ids: seq<nat>, k: nat)
    requires Below(ids, |table|) && k < |ids|
    ensures Below(Without(ids, k), |table|)
    ensures Drop(Select(table, ids), k) == Select(table, Without(ids, k))
  {
  }

  lemma {:induction false} SelectPermutation(table: seq<Attribute>, a: seq<nat>, b: seq<nat>)
    requires Below(a, |table|) && Below(b, |table|)
    requires multiset(a) == multiset(b)
    ensures multiset(Select(table, a)) == multiset(Select(table, b))
  {
    if a == [] {
      assert |multiset(b)| == 0;
      assert Select(table, a) == [] == Select(table, b);
    } else {
      assert a[0] in multiset(b);
      var k :| 0 <= k < |b| && b[k] == a[0];
      WithoutElements(a, 0);
      WithoutElements(b, k);
      SelectDrop(table, a, 0);
      SelectDrop(table, b, k);
      SelectPermutation(table, Without(a, 0), Without(b, k));
      DropElements(Select(table, a), 0);
      DropElements(Select(table, b), k);
    }
  }

  lemma {:induction false} PermutationKeepsDistinct(a: seq<Attribute>, b: seq<Attribute>)
    requires multiset(a) == multiset(b) && DistinctKeys(a)
    ensures DistinctKeys(b)
  {
    forall p, q | 0 <= p < q < |b|
      ensures b[p].key != b[q].key
    {
      assert b[p] in multiset(a) && b[q] in multiset(a);
      var x :| 0 <= x < |a| && a[x] == b[p];
      var y :| 0 <= y < |a| && a[y] == b[q];
      if x == y {
        Twice(b, p, q);
        OnceWhenDistinct(a, x);
      }
    }
  }

  lemma {:induction false} Twice(xs: seq<Attribute>, p: nat, q: nat)
    requires p < q < |xs| && xs[p] == xs[q]
    ensures multiset(xs)[xs[p]] >= 2
  {
    DropElements(xs, q);
    assert Drop(xs, q)[p] == xs[p];
    assert xs[p] in multiset(Drop(xs, q));
  }

  lemma {:induction false} OnceWhenDistinct(xs: seq<Attribute>, x: nat)
    requires DistinctKeys(xs) && x < |xs|
    ensures multiset(xs)[xs[x]] == 1
  {
    DropElements(xs, x);
    assert xs[x] !in Drop(xs, x);
    assert xs[x] !in multiset(Drop(xs, x));
  }

  lemma {:induction false} LastIsLargest(a: seq<Attribute>, b: seq<Attribute>)
    requires multiset(a) == multiset(b) && a != [] && b != []
    requires KeysAscend(a) && KeysAscend(b) && DistinctKeys(a)
    ensures a[|a| - 1] == b[|b| - 1]
  {
    var x, y := a[|a| - 1], b[|b| - 1];
    assert x in multiset(b) && y in multiset(a);
    var p :| 0 <= p < |b| && b[p] == x;
    var q :| 0 <= q < |a| && a[q] == y;
    assert x.key <= y.key && y.key <= x.key;
  }

  lemma {:induction false} SameFronts(a: seq<Attribute>, b: seq<Attribute>)
    requires multiset(a) == multiset(b) && a != [] && b != [] && a[|a| - 1] == b[|b| - 1]
    ensures multiset(a[..|a| - 1]) == multiset(b[..|b| - 1])
  {
    FrontElements(a);
    FrontElements(b);
  }

  lemma {:induction false} FrontAscends(a: seq<Attribute>)
    requires a != [] && KeysAscend(a)
    ensures KeysAscend(a[..|a| - 1]) && (DistinctKeys(a) ==> DistinctKeys(a[..|a| - 1]))
  {
  }

  lemma {:induction false} SameLength(a: seq<Attribute>, b: seq<Attribute>)
    requires multiset(a) == multiset(b)
    ensures |a| == |b|
  {
    assert |multiset(a)| == |multiset(b)|;
  }

  /** Ascending lists with distinct keys are determined by their elements. */
  lemma {:induction false} AscendingUnique(a: seq<Attribute>, b: seq<Attribute>)
    requires multiset(a) == multiset(b)
    requires KeysAscend(a) && KeysAscend(b) && DistinctKeys(a)
    ensures a == b
    decreases |a|
  {
    SameLength(a, b);
    if a != [] {
      LastIsLargest(a, b);
      SameFronts(a, b);
      FrontAscends(a);
      FrontAscends(b);
      AscendingUnique(a[..|a| - 1], b[..|b| - 1]);
      SplitLast(a);
      SplitLast(b);
    }
  }

  // ---------------------------------------------------------------- attribute lists as sets

  lemma {:induction false} SortedAttributes(script: Script, i: nat)
    requires script.Valid() && i < |script.nodes| && IsObjectType(script.nodes[i].nodeType)
    ensures KeysAscend(Select(AttributeTable(script), ChildrenOf(script, i)))
    ensures multiset(Select(AttributeTable(script), ChildrenOf(script, i))) == multiset(Attributes(script, i))
  {
    ObjectChildren(script, i);
    SelectAscends(script, ChildrenOf(script, i));
    SelectPermutation(AttributeTable(script), ChildrenOf(script, i), RawChildren(script, i));
  }

  lemma {:induction false} ObjectChildren(script: Script, i: nat)
    requires script.Valid() && i < |script.nodes| && IsObjectType(script.nodes[i].nodeType)
    ensures Ordered(script.nodes, ChildrenOf(script, i))
    ensures multiset(ChildrenOf(script, i)) == multiset(RawChildren(script, i))
  {
    var n := script.nodes[i];
    assert script.NodeValid(i);
    SortedIsPermutation(script.nodes, n.childrenBeginOrValue, n.childrenCount);
  }

  /** Attributes in the order of their ids' keys. */
  lemma {:induction false} SelectAscends(script: Script, ids: seq<nat>)
    requires script.Valid() && InRange(script.nodes, ids) && Ordered(script.nodes, ids)
    ensures KeysAscend(Select(AttributeTable(script), ids))
  {
    var all := Select(AttributeTable(script), ids);
    forall a, b | 0 <= a < b < |all|
      ensures all[a].key <= all[b].key
    {
      assert Before(script.nodes, ids[a], ids[b]);
    }
  }

  /** `tree` is an object of type `t` with exactly these attributes. */
  ghost predicate IsObject(tree: Tree, t: nat, attributes: seq<Attribute>) {
    && tree.nodeType == t && tree.content == NoContent
    && |tree.keys| == |tree.children| == |attributes|
    && forall k :: 0 <= k < |attributes| ==> attributes[k] == Attribute(tree.keys[k], tree.children[k])
  }

  lemma {:induction false} UnfoldIsObject(script: Script, i: nat)
    requires script.Valid() && i < |script.nodes| && IsObjectType(script.nodes[i].nodeType)
    ensures IsObject(Unfold(script, i), script.nodes[i].nodeType,
                     Select(AttributeTable(script), ChildrenOf(script, i)))
  {
    var children := ChildrenOf(script, i);
    var keys, trees := AttributeKeys(script.nodes, children), UnfoldAll(script, children);
    UnfoldParts(script, i, keys, trees);
    ParallelAttributes(script, children, keys, trees);
    ObjectOfParts(
      Unfold(script, i), script.nodes[i].nodeType, keys, trees, Select(AttributeTable(script), children));
  }

  lemma {:induction false} UnfoldParts(script: Script, i: nat, keys: seq<nat>, trees: seq<Tree>)
    requires script.Valid() && i < |script.nodes| && IsObjectType(script.nodes[i].nodeType)
    requires keys == AttributeKeys(script.nodes, ChildrenOf(script, i))
    requires trees == UnfoldAll(script, ChildrenOf(script, i))
    ensures Unfold(script, i) == Tree(script.nodes[i].nodeType, NoContent, keys, trees)
  {
    UnfoldShape(script, i);
  }

  lemma {:induction false} ObjectOfParts(
      tree: Tree, t: nat, keys: seq<nat>, trees: seq<Tree>, attributes: seq<Attribute>)
    requires tree == Tree(t, NoContent, keys, trees) && Parallel(keys, trees, attributes)
    ensures IsObject(tree, t, attributes)
  {
  }

  ghost predicate Parallel(keys: seq<nat>, trees: seq<Tree>, attributes: seq<Attribute>) {
    && |keys| == |trees| == |attributes|
    && forall k :: 0 <= k < |attributes| ==> attributes[k] == Attribute(keys[k], trees[k])
  }

  lemma {:induction false} ParallelAttributes(script: Script, ids: seq<nat>, keys: seq<nat>, trees: seq<Tree>)
    requires script.Valid() && InRange(script.nodes, ids)
    requires keys == AttributeKeys(script.nodes, ids) && trees == UnfoldAll(script, ids)
    ensures Parallel(keys, trees, Select(AttributeTable(script), ids))
  {
  }

  /** Objects of one type are equal exactly when their attribute lists are. */
  lemma {:induction false} EqualByAttributes(a: Tree, b: Tree, t: nat, as': seq<Attribute>, bs: seq<Attribute>)
    requires IsObject(a, t, as') && IsObject(b, t, bs)
    ensures a == b <==> as' == bs
  {
    if as' == bs {
      assert a.keys == b.keys;
      assert a.children == b.children;
    }
  }

  lemma {:induction false} UnfoldEqualBySelected(source: Script, target: Script, i: nat, j: nat)
    requires source.Valid() && target.Valid()
    requires i < |source.nodes| && j < |target.nodes|
    requires source.nodes[i].nodeType == target.nodes[j].nodeType && IsObjectType(source.nodes[i].nodeType)
    ensures Unfold(source, i) == Unfold(target, j) <==>
      Select(AttributeTable(source), ChildrenOf(source, i)) == Select(AttributeTable(target), ChildrenOf(target, j))
  {
    UnfoldIsObject(source, i);
    UnfoldIsObject(target, j);
    EqualByAttributes(Unfold(source, i), Unfold(target, j), source.nodes[i].nodeType,
      Select(AttributeTable(source), ChildrenOf(source, i)), Select(AttributeTable(target), ChildrenOf(target, j)));
  }

  lemma {:induction false} SortedEqualIff(
      a: seq<Attribute>, b: seq<Attribute>, rawA: seq<Attribute>, rawB: seq<Attribute>)
    requires multiset(a) == multiset(rawA) && multiset(b) == multiset(rawB)
    requires KeysAscend(a) && KeysAscend(b) && DistinctKeys(rawA)
    ensures a == b <==> multiset(rawA) == multiset(rawB)
  {
    if multiset(rawA) == multiset(rawB) {
      PermutationKeepsDistinct(rawA, a);
      AscendingUnique(a, b);
    }
  }

  /**
    Deep equality of two objects is order-insensitive: as long as one of them has distinct keys, they
    are equal exactly when they have the same set of attributes.
  */
  lemma {:induction false} EqualityIgnoresAttributeOrder(source: Script, target: Script, i: nat, j: nat)
    requires source.Valid() && target.Valid()
    requires i < |source.nodes| && j < |target.nodes|
    requires source.nodes[i].nodeType == target.nodes[j].nodeType && IsObjectType(source.nodes[i].nodeType)
    requires DistinctKeys(Attributes(source, i))
    ensures Unfold(source, i) == Unfold(target, j) <==>
      multiset(Attributes(source, i)) == multiset(Attributes(target, j))
  {
    SortedAttributes(source, i);
    SortedAttributes(target, j);
    UnfoldEqualBySelected(source, target, i, j);
    SortedEqualIff(
      Select(AttributeTable(source), ChildrenOf(source, i)), Select(AttributeTable(target), ChildrenOf(target, j)),
      Attributes(source, i), Attributes(target, j));
  }
}
