/** What the number of matching nodes counts: the places at which two trees agree. */
module TreeMatches {
  import opened Ast
  import opened SyntaxTree
  import opened KeyJoin
  import opened ChildPartners

  /** The children of every node are listed in ascending key order, one key per child. */
  ghost predicate InOrder(t: Tree) {
    |t.keys| == |t.children| && Ascending(t.keys) && forall c :: c in t.children ==> InOrder(c)
  }

  ghost predicate AllInOrder(keys: seq<nat>, ts: seq<Tree>) {
    |keys| == |ts| && Ascending(keys) && forall c :: c in ts ==> InOrder(c)
  }

  /**
    Two trees agree at the end of a path: all nodes on it are joined with nodes of their type, and the last
    ones have one type, one content and children with the same keys.
  */
  ghost predicate AgreeAt(a: Tree, b: Tree, path: seq<Pair>)
    decreases |path|
  {
    && a.nodeType == b.nodeType
    && if path == [] then a.content == b.content && a.keys == b.keys && |a.children| == |b.children|
       else AgreeBelow(a.keys, a.children, b.keys, b.children, path)
  }

  ghost predicate AgreeBelow(ka: seq<nat>, a: seq<Tree>, kb: seq<nat>, b: seq<Tree>, path: seq<Pair>)
    decreases |path|, 0
  {
    && path != [] && path[0].source < |a| && path[0].target < |b|
    && Joined(ka, kb, path[0].source, path[0].target)
    && AgreeAt(a[path[0].source], b[path[0].target], path[1..])
  }

  // ---------------------------------------------------------------- moving paths

  ghost function Shifted(path: seq<Pair>, k: nat, l: nat): (r: seq<Pair>)
    requires path != []
    ensures r != [] && r[0] == Pair(path[0].source + k, path[0].target + l) && r[1..] == path[1..]
  {
    [Pair(path[0].source + k, path[0].target + l)] + path[1..]
  }

  lemma {:induction false} ShiftedBack(a: seq<Pair>, b: seq<Pair>, k: nat, l: nat)
    requires a != [] && b != [] && Shifted(a, k, l) == Shifted(b, k, l)
    ensures a == b
  {
    assert a == [a[0]] + a[1..] && b == [b[0]] + b[1..];
    assert Shifted(a, k, l)[0] == Shifted(b, k, l)[0] && Shifted(a, k, l)[1..] == Shifted(b, k, l)[1..];
  }

  lemma {:induction false} ShiftAll(paths: set<seq<Pair>>, k: nat, l: nat) returns (r: set<seq<Pair>>)
    requires forall p :: p in paths ==> p != []
    ensures |r| == |paths|
    ensures forall p :: p in r <==> exists q :: q in paths && p == Shifted(q, k, l)
    decreases |paths|
  {
    r := {};
    if paths != {} {
      var q :| q in paths;
      var rest := ShiftAll(paths - {q}, k, l);
      if Shifted(q, k, l) in rest {
        var o :| o in paths - {q} && Shifted(q, k, l) == Shifted(o, k, l);
        ShiftedBack(q, o, k, l);
        assert false;
      }
      r := rest + {Shifted(q, k, l)};
    }
  }

  lemma {:induction false} PrependAll(first: Pair, paths: set<seq<Pair>>) returns (r: set<seq<Pair>>)
    ensures |r| == |paths|
    ensures forall p :: p in r <==> p != [] && p[0] == first && p[1..] in paths
    decreases |paths|
  {
    r := {};
    if paths != {} {
      var q :| q in paths;
      var rest := PrependAll(first, paths - {q});
      assert ([first] + q)[1..] == q;
      forall p
        ensures p in rest + {[first] + q} <==> p != [] && p[0] == first && p[1..] in paths
      {
        if p != [] && p[0] == first && p[1..] == q {
          assert p == [p[0]] + p[1..];
        }
      }
      r := rest + {[first] + q};
    }
  }

  // ---------------------------------------------------------------- counting

  /** The places at which two trees agree are as many as their matching nodes. */
  lemma {:induction false} MatchingCountsPlaces(a: Tree, b: Tree) returns (paths: set<seq<Pair>>)
    requires InOrder(a) && InOrder(b)
    ensures forall p :: p in paths <==> AgreeAt(a, b, p)
    ensures |paths| == Matching(a, b)
    decreases a, b
  {
    paths := {};
    if a.nodeType == b.nodeType {
      paths := JoinCountsPlaces(a.keys, a.children, b.keys, b.children);
      assert [] !in paths;
      if Agree(a, b) {
        paths := paths + {[]};
      }
    }
  }

  lemma {:induction false} JoinCountsPlaces(ka: seq<nat>, a: seq<Tree>, kb: seq<nat>, b: seq<Tree>)
    returns (paths: set<seq<Pair>>)
    requires AllInOrder(ka, a) && AllInOrder(kb, b)
    ensures forall p :: p in paths <==> AgreeBelow(ka, a, kb, b, p)
    ensures |paths| == MatchingJoin(ka, a, kb, b)
    decreases a, b
  {
    paths := {};
    if a != [] && b != [] {
      OrderTail(ka, a);
      OrderTail(kb, b);
      if ka[0] < kb[0] {
        var rest := JoinCountsPlaces(ka[1..], a[1..], kb, b);
        paths := ShiftAll(rest, 1, 0);
        forall p
          ensures p in paths <==> AgreeBelow(ka, a, kb, b, p)
        {
          SourceBehind(ka, a, kb, b, rest, p);
        }
      } else if ka[0] > kb[0] {
        var rest := JoinCountsPlaces(ka, a, kb[1..], b[1..]);
        paths := ShiftAll(rest, 0, 1);
        forall p
          ensures p in paths <==> AgreeBelow(ka, a, kb, b, p)
        {
          TargetBehind(ka, a, kb, b, rest, p);
        }
      } else {
        paths := JoinBoth(ka, a, kb, b);
      }
    }
  }

  lemma {:induction false} JoinBoth(ka: seq<nat>, a: seq<Tree>, kb: seq<nat>, b: seq<Tree>)
    returns (paths: set<seq<Pair>>)
    requires AllInOrder(ka, a) && AllInOrder(kb, b) && a != [] && b != [] && ka[0] == kb[0]
    ensures forall p :: p in paths <==> AgreeBelow(ka, a, kb, b, p)
    ensures |paths| == Matching(a[0], b[0]) + MatchingJoin(ka[1..], a[1..], kb[1..], b[1..])
    decreases a, b, 0
  {
    OrderTail(ka, a);
    OrderTail(kb, b);
    var here := MatchingCountsPlaces(a[0], b[0]);
    var rest := JoinCountsPlaces(ka[1..], a[1..], kb[1..], b[1..]);
    var first := PrependAll(Pair(0, 0), here);
    var others := ShiftAll(rest, 1, 1);
    forall p
      ensures p !in first || p !in others
      ensures p in first + others <==> AgreeBelow(ka, a, kb, b, p)
    {
      BothBehind(ka, a, kb, b, here, rest, p);
    }
    assert first !! others;
    paths := first + others;
  }

  lemma {:induction false} OrderTail(keys: seq<nat>, ts: seq<Tree>)
    requires AllInOrder(keys, ts) && ts != []
    ensures InOrder(ts[0]) && AllInOrder(keys[1..], ts[1..])
  {
    AscendingTail(keys);
  }

  /** `p` is a path of `rest`, moved by `k` and `l`. */
  ghost predicate MovedInto(rest: set<seq<Pair>>, k: nat, l: nat, p: seq<Pair>) {
    exists q :: q in rest && q != [] && p == Shifted(q, k, l)
  }

  lemma {:induction false} MovedBack(rest: set<seq<Pair>>, k: nat, l: nat, p: seq<Pair>)
    ensures MovedInto(rest, k, l, p) <==>
      && p != [] && k <= p[0].source && l <= p[0].target
      && [Pair(p[0].source - k, p[0].target - l)] + p[1..] in rest
  {
    if MovedInto(rest, k, l, p) {
      var q :| q in rest && q != [] && p == Shifted(q, k, l);
      assert q == [q[0]] + q[1..];
    }
    if p != [] && k <= p[0].source && l <= p[0].target {
      var q := [Pair(p[0].source - k, p[0].target - l)] + p[1..];
      assert q[1..] == p[1..];
      assert p == [p[0]] + p[1..] == Shifted(q, k, l);
    }
  }

  lemma {:induction false} SourceBehind(
      ka: seq<nat>, a: seq<Tree>, kb: seq<nat>, b: seq<Tree>, rest: set<seq<Pair>>, p: seq<Pair>)
    requires AllInOrder(ka, a) && AllInOrder(kb, b) && a != [] && b != [] && ka[0] < kb[0]
    requires forall q :: q in rest <==> AgreeBelow(ka[1..], a[1..], kb, b, q)
    ensures AgreeBelow(ka, a, kb, b, p) <==> MovedInto(rest, 1, 0, p)
  {
    MovedBack(rest, 1, 0, p);
    if p != [] {
      JoinedBehind(ka, kb, p[0].source, p[0].target);
      if p[0].source > 0 {
        var q := [Pair(p[0].source - 1, p[0].target)] + p[1..];
        assert q[1..] == p[1..];
      }
    }
  }

  lemma {:induction false} TargetBehind(
      ka: seq<nat>, a: seq<Tree>, kb: seq<nat>, b: seq<Tree>, rest: set<seq<Pair>>, p: seq<Pair>)
    requires AllInOrder(ka, a) && AllInOrder(kb, b) && a != [] && b != [] && ka[0] > kb[0]
    requires forall q :: q in rest <==> AgreeBelow(ka, a, kb[1..], b[1..], q)
    ensures AgreeBelow(ka, a, kb, b, p) <==> MovedInto(rest, 0, 1, p)
  {
    MovedBack(rest, 0, 1, p);
    if p != [] {
      JoinedTarget(ka, kb, p[0].source, p[0].target);
      if p[0].target > 0 {
        var q := [Pair(p[0].source, p[0].target - 1)] + p[1..];
        assert q[1..] == p[1..];
      }
    }
  }

  lemma {:induction false} BothBehind(
      ka: seq<nat>, a: seq<Tree>, kb: seq<nat>, b: seq<Tree>, here: set<seq<Pair>>, rest: set<seq<Pair>>,
      p: seq<Pair>)
    requires AllInOrder(ka, a) && AllInOrder(kb, b) && a != [] && b != [] && ka[0] == kb[0]
    requires forall q :: q in here <==> AgreeAt(a[0], b[0], q)
    requires forall q :: q in rest <==> AgreeBelow(ka[1..], a[1..], kb[1..], b[1..], q)
    ensures AgreeBelow(ka, a, kb, b, p) <==>
      (p != [] && p[0] == Pair(0, 0) && p[1..] in here) || MovedInto(rest, 1, 1, p)
    ensures MovedInto(rest, 1, 1, p) ==> p != [] && p[0] != Pair(0, 0)
  {
    MovedBack(rest, 1, 1, p);
    if p != [] {
      JoinedBothBehind(ka, kb, p[0].source, p[0].target);
      if p[0].source > 0 && p[0].target > 0 {
        var q := [Pair(p[0].source - 1, p[0].target - 1)] + p[1..];
        assert q[1..] == p[1..];
      }
    }
  }

  /** The trees of a script are in order. */
  lemma {:induction false} UnfoldInOrder(script: Script, i: nat)
    requires script.Valid() && i < |script.nodes|
    ensures InOrder(Unfold(script, i))
    decreases i
  {
    var children, t := ChildrenOf(script, i), Unfold(script, i);
    KeysAscend(script, i);
    forall c | c in t.children
      ensures InOrder(c)
    {
      var k :| 0 <= k < |t.children| && t.children[k] == c;
      UnfoldInOrder(script, children[k]);
    }
  }
}
