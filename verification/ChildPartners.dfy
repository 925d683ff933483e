/** Which children a lockstep walk pairs up, on the nodes of two scripts. */
module ChildPartners {
  import opened Ast
  import opened Collections
  import opened AttributeOrder
  import opened SyntaxTree
  import opened Lockstep
  import opened TargetChanges
  import opened KeyJoin
  import opened NodeMeaning

  ghost predicate IsChild(script: Script, i: nat, c: nat) {
    && i < |script.nodes|
    && (script.nodes[i].nodeType == ARRAY || HoldsAttributes(script.nodes[i].nodeType))
    && script.nodes[i].childrenBeginOrValue <= c < script.nodes[i].ChildrenEnd() <= |script.nodes|
  }

  /** How many children of `i` in front of `x` carry its key. */
  ghost function SameKeyBefore(script: Script, i: nat, x: nat): nat
    requires IsChild(script, i, x)
  {
    |set c: nat | script.nodes[i].childrenBeginOrValue <= c < x
       && script.nodes[c].attributeKey == script.nodes[x].attributeKey|
  }

  /**
    The children `x` of `i` and `y` of `j` are partners: they have the same position in two arrays, or in
    two objects of one type the same key, which is met as often among the children in front of them.
  */
  ghost predicate Partners(source: Script, target: Script, i: nat, j: nat, x: nat, y: nat) {
    && IsChild(source, i, x) && IsChild(target, j, y)
    && var s, t := source.nodes[i], target.nodes[j];
    && s.nodeType == t.nodeType
    && (if s.nodeType == ARRAY then x - s.childrenBeginOrValue == y - t.childrenBeginOrValue
        else
          && source.nodes[x].attributeKey == target.nodes[y].attributeKey
          && SameKeyBefore(source, i, x) == SameKeyBefore(target, j, y))
  }

  // ---------------------------------------------------------------- counting keys

  ghost function PositionsOf(keys: seq<nat>, n: nat, key: nat): set<nat>
    requires n <= |keys|
  {
    set m: nat | m < n && keys[m] == key
  }

  lemma {:induction false} CountPositions(keys: seq<nat>, n: nat, key: nat)
    requires n <= |keys|
    ensures multiset(keys[..n])[key] == |PositionsOf(keys, n, key)|
  {
    if n == 0 {
      assert PositionsOf(keys, 0, key) == {};
    } else {
      CountPositions(keys, n - 1, key);
      TakeNext(keys, n - 1);
      assert PositionsOf(keys, n, key)
          == PositionsOf(keys, n - 1, key) + if keys[n - 1] == key then {n - 1} else {};
    }
  }

  /** Distinct elements of a list are as many as their positions. */
  lemma {:induction false} DistinctImage(ids: seq<nat>, positions: set<nat>, image: set<nat>)
    requires forall m :: m in positions ==> m < |ids|
    requires forall m, n :: m in positions && n in positions && ids[m] == ids[n] ==> m == n
    requires image == set m | m in positions :: ids[m]
    ensures |image| == |positions|
    decreases |positions|
  {
    if positions != {} {
      var m :| m in positions;
      var rest := positions - {m};
      DistinctImage(ids, rest, set n | n in rest :: ids[n]);
      assert image == (set n | n in rest :: ids[n]) + {ids[m]};
    }
  }

  ghost predicate KeysListed(nodes: seq<Node>, ids: seq<nat>, keys: seq<nat>)
    requires InRange(nodes, ids)
  {
    |keys| == |ids| && forall k :: 0 <= k < |ids| ==> keys[k] == nodes[ids[k]].attributeKey
  }

  ghost function EarlierWithKey(nodes: seq<Node>, begin: nat, x: nat): set<nat>
    requires x < |nodes|
  {
    set c: nat | begin <= c < x && nodes[c].attributeKey == nodes[x].attributeKey
  }

  lemma {:induction false} EarlierAreListed(
      nodes: seq<Node>, begin: nat, count: nat, ids: seq<nat>, keys: seq<nat>, k: nat, c: nat)
    requires begin + count <= |nodes| && InRange(nodes, ids) && KeysListed(nodes, ids, keys) && k < |ids|
    requires Ordered(nodes, ids) && multiset(ids) == multiset(Range(begin, count))
    requires begin <= ids[k] < begin + count && c in EarlierWithKey(nodes, begin, ids[k])
    ensures exists m: nat :: m < k && m in PositionsOf(keys, k, keys[k]) && ids[m] == c
  {
    var m := RangeMember(begin, count, ids, c);
    if k < m {
      OrderedAt(nodes, ids, k, m);
      assert false;
    }
  }

  lemma {:induction false} OrderedAt(nodes: seq<Node>, ids: seq<nat>, j: nat, k: nat)
    requires InRange(nodes, ids) && Ordered(nodes, ids) && j < k < |ids|
    ensures Before(nodes, ids[j], ids[k])
  {
  }

  lemma {:induction false} RangeMember(begin: nat, count: nat, ids: seq<nat>, c: nat) returns (m: nat)
    requires begin <= c < begin + count && multiset(ids) == multiset(Range(begin, count))
    ensures m < |ids| && ids[m] == c
  {
    assert Range(begin, count)[c - begin] == c;
    assert c in multiset(Range(begin, count)) && c in multiset(ids);
    m :| 0 <= m < |ids| && ids[m] == c;
  }

  lemma {:induction false} EarlierIsImage(
      nodes: seq<Node>, begin: nat, count: nat, ids: seq<nat>, keys: seq<nat>, k: nat)
    requires begin + count <= |nodes| && InRange(nodes, ids) && KeysListed(nodes, ids, keys) && k < |ids|
    requires Ordered(nodes, ids) && multiset(ids) == multiset(Range(begin, count)) && Within(ids, begin, begin + count)
    ensures EarlierWithKey(nodes, begin, ids[k]) == set m | m in PositionsOf(keys, k, keys[k]) :: ids[m]
  {
    var earlier := EarlierWithKey(nodes, begin, ids[k]);
    forall c | c in earlier
      ensures c in set m | m in PositionsOf(keys, k, keys[k]) :: ids[m]
    {
      EarlierAreListed(nodes, begin, count, ids, keys, k, c);
    }
    forall m | m in PositionsOf(keys, k, keys[k])
      ensures ids[m] in earlier
    {
      assert Before(nodes, ids[m], ids[k]);
    }
  }

  /** In key order, a key occurs before a child as often as in grammar order. */
  lemma {:induction false} OccurrenceInOrder(
      nodes: seq<Node>, begin: nat, count: nat, ids: seq<nat>, keys: seq<nat>, k: nat)
    requires begin + count <= |nodes| && InRange(nodes, ids) && KeysListed(nodes, ids, keys) && k < |ids|
    requires Ordered(nodes, ids) && multiset(ids) == multiset(Range(begin, count)) && Within(ids, begin, begin + count)
    ensures Occurrence(keys, k) == |EarlierWithKey(nodes, begin, ids[k])|
  {
    CountPositions(keys, k, keys[k]);
    EarlierIsImage(nodes, begin, count, ids, keys, k);
    forall m, n | m in PositionsOf(keys, k, keys[k]) && n in PositionsOf(keys, k, keys[k]) && m < n
      ensures ids[m] != ids[n]
    {
      assert Before(nodes, ids[m], ids[n]);
    }
    DistinctImage(ids, PositionsOf(keys, k, keys[k]), EarlierWithKey(nodes, begin, ids[k]));
  }

  lemma {:induction false} OccurrenceInRange(n: nat, k: nat)
    requires k < n
    ensures Occurrence(Range(0, n), k) == 0
  {
    CountPositions(Range(0, n), k, k);
    assert PositionsOf(Range(0, n), k, k) == {};
  }

  // ---------------------------------------------------------------- the children of a node and their keys

  lemma {:induction false} KeysOfObject(script: Script, i: nat)
    requires script.Valid() && i < |script.nodes| && IsObjectType(script.nodes[i].nodeType)
    ensures
      var ids, n := ChildrenOf(script, i), script.nodes[i];
      && n.ChildrenEnd() <= |script.nodes| && KeysListed(script.nodes, ids, KeysOf(script, i))
      && Ordered(script.nodes, ids)
      && multiset(ids) == multiset(Range(n.childrenBeginOrValue, n.childrenCount))
      && Within(ids, n.childrenBeginOrValue, n.ChildrenEnd())
  {
    assert script.NodeValid(i);
    var n := script.nodes[i];
    SortedIsPermutation(script.nodes, n.childrenBeginOrValue, n.childrenCount);
  }

  lemma {:induction false} KeysAscend(script: Script, i: nat)
    requires script.Valid() && i < |script.nodes|
    ensures Ascending(KeysOf(script, i))
  {
    if IsObjectType(script.nodes[i].nodeType) {
      KeysOfObject(script, i);
      var ids, keys := ChildrenOf(script, i), KeysOf(script, i);
      forall a, b | 0 <= a < b < |keys|
        ensures keys[a] <= keys[b]
      {
        assert Before(script.nodes, ids[a], ids[b]);
      }
    }
  }

  /** Every child has its place among the children. */
  lemma {:induction false} ChildAtPlace(script: Script, i: nat, x: nat) returns (k: nat)
    requires script.Valid() && IsChild(script, i, x)
    ensures k < |ChildrenOf(script, i)| && ChildrenOf(script, i)[k] == x
  {
    var n, ids := script.nodes[i], ChildrenOf(script, i);
    if n.nodeType == ARRAY {
      k := x - n.childrenBeginOrValue;
    } else {
      KeysOfObject(script, i);
      k := RangeMember(n.childrenBeginOrValue, n.childrenCount, ids, x);
    }
  }

  lemma {:induction false} PlaceIsChild(script: Script, i: nat, k: nat)
    requires script.Valid() && i < |script.nodes| && k < |ChildrenOf(script, i)|
    ensures IsChild(script, i, ChildrenOf(script, i)[k])
  {
    assert script.NodeValid(i);
    if IsObjectType(script.nodes[i].nodeType) {
      KeysOfObject(script, i);
    }
  }

  lemma {:induction false} OccurrenceOfObject(script: Script, i: nat, k: nat)
    requires script.Valid() && i < |script.nodes| && IsObjectType(script.nodes[i].nodeType)
    requires k < |ChildrenOf(script, i)|
    ensures IsChild(script, i, ChildrenOf(script, i)[k])
    ensures KeysOf(script, i)[k] == script.nodes[ChildrenOf(script, i)[k]].attributeKey
    ensures Occurrence(KeysOf(script, i), k) == SameKeyBefore(script, i, ChildrenOf(script, i)[k])
  {
    PlaceIsChild(script, i, k);
    KeysOfObject(script, i);
    var n := script.nodes[i];
    OccurrenceInOrder(
      script.nodes, n.childrenBeginOrValue, n.childrenCount, ChildrenOf(script, i), KeysOf(script, i), k);
    assert EarlierWithKey(script.nodes, n.childrenBeginOrValue, ChildrenOf(script, i)[k])
        == set c: nat | n.childrenBeginOrValue <= c < ChildrenOf(script, i)[k]
             && script.nodes[c].attributeKey == script.nodes[ChildrenOf(script, i)[k]].attributeKey;
  }

  // ---------------------------------------------------------------- partners are what the join pairs

  /** Two places are joined exactly if the children there are partners. */
  lemma {:induction false} JoinedArePartners(source: Script, target: Script, i: nat, j: nat, k: nat, l: nat)
    requires source.Valid() && target.Valid() && i < |source.nodes| && j < |target.nodes|
    requires source.nodes[i].nodeType == target.nodes[j].nodeType
    requires k < |ChildrenOf(source, i)| && l < |ChildrenOf(target, j)|
    ensures Joined(KeysOf(source, i), KeysOf(target, j), k, l)
      <==> Partners(source, target, i, j, ChildrenOf(source, i)[k], ChildrenOf(target, j)[l])
  {
    PlaceIsChild(source, i, k);
    PlaceIsChild(target, j, l);
    if source.nodes[i].nodeType == ARRAY {
      OccurrenceInRange(|ChildrenOf(source, i)|, k);
      OccurrenceInRange(|ChildrenOf(target, j)|, l);
    } else {
      OccurrenceOfObject(source, i, k);
      OccurrenceOfObject(target, j, l);
    }
  }

  lemma {:induction false} PairsArePartners(source: Script, target: Script, i: nat, j: nat, p: Pair)
    requires source.Valid() && target.Valid() && i < |source.nodes| && j < |target.nodes|
    requires p in ChildPairs(source, target, i, j)
    ensures Partners(source, target, i, j, p.source, p.target)
  {
    KeysAscend(source, i);
    KeysAscend(target, j);
    var k, l := JoinHoldsOnly(
      KeysOf(source, i), ChildrenOf(source, i), KeysOf(target, j), ChildrenOf(target, j), p);
    JoinedArePartners(source, target, i, j, k, l);
  }

  lemma {:induction false} PartnersArePairs(source: Script, target: Script, i: nat, j: nat, x: nat, y: nat)
    requires source.Valid() && target.Valid() && i < |source.nodes| && j < |target.nodes|
    requires Partners(source, target, i, j, x, y)
    ensures Pair(x, y) in ChildPairs(source, target, i, j)
  {
    KeysAscend(source, i);
    KeysAscend(target, j);
    var k := ChildAtPlace(source, i, x);
    var l := ChildAtPlace(target, j, y);
    JoinedArePartners(source, target, i, j, k, l);
    JoinHolds(
      KeysOf(source, i), ChildrenOf(source, i), KeysOf(target, j), ChildrenOf(target, j), k, l, Pair(x, y));
  }

  /** The pairs that a walk visits below two nodes are their partner children. */
  lemma {:induction false} ChildPairsMeaning(source: Script, target: Script, i: nat, j: nat, x: nat, y: nat)
    requires source.Valid() && target.Valid() && i < |source.nodes| && j < |target.nodes|
    ensures Pair(x, y) in ChildPairs(source, target, i, j) <==> Partners(source, target, i, j, x, y)
  {
    if Pair(x, y) in ChildPairs(source, target, i, j) {
      PairsArePartners(source, target, i, j, Pair(x, y));
    }
    if Partners(source, target, i, j, x, y) {
      PartnersArePairs(source, target, i, j, x, y);
    }
  }

  // ---------------------------------------------------------------- children without a partner

  /** A target child that has no partner among the children of `i`. */
  ghost predicate Alone(source: Script, target: Script, i: nat, j: nat, y: nat) {
    IsChild(target, j, y) && forall x: nat :: !Partners(source, target, i, j, x, y)
  }

  lemma {:induction false} UnjoinedIsAlone(source: Script, target: Script, i: nat, j: nat, l: nat)
    requires source.Valid() && target.Valid() && i < |source.nodes| && j < |target.nodes|
    requires source.nodes[i].nodeType == target.nodes[j].nodeType && l < |ChildrenOf(target, j)|
    ensures Unjoined(KeysOf(source, i), KeysOf(target, j), l)
      <==> Alone(source, target, i, j, ChildrenOf(target, j)[l])
  {
    var y := ChildrenOf(target, j)[l];
    PlaceIsChild(target, j, l);
    if !Unjoined(KeysOf(source, i), KeysOf(target, j), l) {
      var k: nat :| Joined(KeysOf(source, i), KeysOf(target, j), k, l);
      JoinedArePartners(source, target, i, j, k, l);
    }
    if !Alone(source, target, i, j, y) {
      var x: nat :| Partners(source, target, i, j, x, y);
      var k := ChildAtPlace(source, i, x);
      JoinedArePartners(source, target, i, j, k, l);
    }
  }

  /** The added children of a target node are those without a partner. */
  lemma {:induction false} AddedMeaning(source: Script, target: Script, i: nat, j: nat, y: nat)
    requires source.Valid() && target.Valid() && i < |source.nodes| && j < |target.nodes|
    requires source.nodes[i].nodeType == target.nodes[j].nodeType
    ensures y in AddedIds(KeysOf(source, i), ChildrenOf(source, i), KeysOf(target, j), ChildrenOf(target, j))
      <==> Alone(source, target, i, j, y)
  {
    KeysAscend(source, i);
    KeysAscend(target, j);
    var ks, ss, kt, ts := KeysOf(source, i), ChildrenOf(source, i), KeysOf(target, j), ChildrenOf(target, j);
    if y in AddedIds(ks, ss, kt, ts) {
      var l := OnlyLeftOver(ks, ss, kt, ts, y);
      UnjoinedIsAlone(source, target, i, j, l);
    }
    if Alone(source, target, i, j, y) {
      var l := ChildAtPlace(target, j, y);
      UnjoinedIsAlone(source, target, i, j, l);
      LeftOver(ks, ss, kt, ts, l);
    }
  }
}
