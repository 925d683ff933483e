/** One step of a lockstep walk over two scripts: compare two nodes and pair up their children. */
module Lockstep {
  import opened Ast
  import opened Collections
  import opened AttributeOrder
  import opened SyntaxTree

  ghost predicate PairsValid(source: Script, target: Script, pairs: seq<Pair>) {
    forall k :: 0 <= k < |pairs| ==> pairs[k].source < |source.nodes| && pairs[k].target < |target.nodes|
  }

  /** The ids whose keys meet in a front-to-back merge of two key-sorted lists. */
  function JoinPairs(ks: seq<nat>, ss: seq<nat>, kt: seq<nat>, ts: seq<nat>): (r: seq<Pair>)
    requires |ks| == |ss| && |kt| == |ts|
    ensures |r| <= |ss| && |r| <= |ts|
    decreases |ss| + |ts|
  {
    if ss == [] || ts == [] then []
    else if ks[0] < kt[0] then JoinPairs(ks[1..], ss[1..], kt, ts)
    else if ks[0] > kt[0] then JoinPairs(ks, ss, kt[1..], ts[1..])
    else [Pair(ss[0], ts[0])] + JoinPairs(ks[1..], ss[1..], kt[1..], ts[1..])
  }

  /** The child pairs that a walk visits below the node pair (i, j). */
  function ChildPairs(source: Script, target: Script, i: nat, j: nat): (r: seq<Pair>)
    requires source.Valid() && target.Valid()
    requires i < |source.nodes| && j < |target.nodes|
    ensures PairsValid(source, target, r)
    ensures forall k :: 0 <= k < |r| ==> r[k].source < i && r[k].target < j
  {
    if source.nodes[i].nodeType != target.nodes[j].nodeType then []
    else
      var ss, ts := ChildrenOf(source, i), ChildrenOf(target, j);
      JoinWithin(KeysOf(source, i), ss, KeysOf(target, j), ts, i, j);
      JoinPairs(KeysOf(source, i), ss, KeysOf(target, j), ts)
  }

  lemma {:induction false} JoinWithin(ks: seq<nat>, ss: seq<nat>, kt: seq<nat>, ts: seq<nat>, n: nat, m: nat)
    requires |ks| == |ss| && |kt| == |ts|
    requires (forall k :: 0 <= k < |ss| ==> ss[k] < n) && forall k :: 0 <= k < |ts| ==> ts[k] < m
    ensures forall k :: 0 <= k < |JoinPairs(ks, ss, kt, ts)| ==>
      JoinPairs(ks, ss, kt, ts)[k].source < n && JoinPairs(ks, ss, kt, ts)[k].target < m
    decreases |ss| + |ts|
  {
    if ss != [] && ts != [] {
      if ks[0] < kt[0] {
        JoinWithin(ks[1..], ss[1..], kt, ts, n, m);
      } else if ks[0] > kt[0] {
        JoinWithin(ks, ss, kt[1..], ts[1..], n, m);
      } else {
        JoinWithin(ks[1..], ss[1..], kt[1..], ts[1..], n, m);
      }
    }
  }

  function UnfoldAll(script: Script, ids: seq<nat>): (r: seq<Tree>)
    requires script.Valid() && InRange(script.nodes, ids)
    ensures |r| == |ids|
    ensures forall k :: 0 <= k < |r| ==> r[k] == Unfold(script, ids[k])
  {
    seq(|ids|, k requires 0 <= k < |ids| => Unfold(script, ids[k]))
  }

  lemma {:induction false} UnfoldShape(script: Script, i: nat)
    requires script.Valid() && i < |script.nodes|
    ensures Unfold(script, i).nodeType == script.nodes[i].nodeType
    ensures Unfold(script, i).content == ContentOf(script, i)
    ensures Unfold(script, i).keys == KeysOf(script, i)
    ensures Unfold(script, i).children == UnfoldAll(script, ChildrenOf(script, i))
  {
  }

  // ---------------------------------------------------------------- sums over pairs

  ghost function PairMatching(source: Script, target: Script, p: Pair): nat
    requires source.Valid() && target.Valid()
    requires p.source < |source.nodes| && p.target < |target.nodes|
  {
    Matching(Unfold(source, p.source), Unfold(target, p.target))
  }

  ghost function MatchingSum(source: Script, target: Script, pairs: seq<Pair>): nat
    requires source.Valid() && target.Valid()
    requires PairsValid(source, target, pairs)
  {
    if pairs == [] then 0
    else PairMatching(source, target, pairs[0]) + MatchingSum(source, target, pairs[1..])
  }

  ghost function SourceSize(source: Script, pairs: seq<Pair>): nat
    requires source.Valid()
    requires forall k :: 0 <= k < |pairs| ==> pairs[k].source < |source.nodes|
  {
    if pairs == [] then 0 else Size(Unfold(source, pairs[0].source)) + SourceSize(source, pairs[1..])
  }

  lemma {:induction false} UnfoldTail(script: Script, ids: seq<nat>)
    requires script.Valid() && InRange(script.nodes, ids) && ids != []
    ensures InRange(script.nodes, ids[1..])
    ensures UnfoldAll(script, ids)[0] == Unfold(script, ids[0])
    ensures UnfoldAll(script, ids)[1..] == UnfoldAll(script, ids[1..])
  {
  }

  lemma {:induction false} JoinMatching(
      source: Script, target: Script, ks: seq<nat>, ss: seq<nat>, kt: seq<nat>, ts: seq<nat>)
    requires source.Valid() && target.Valid()
    requires |ks| == |ss| && |kt| == |ts|
    requires InRange(source.nodes, ss) && InRange(target.nodes, ts)
    ensures PairsValid(source, target, JoinPairs(ks, ss, kt, ts))
    ensures MatchingSum(source, target, JoinPairs(ks, ss, kt, ts))
         == MatchingJoin(ks, UnfoldAll(source, ss), kt, UnfoldAll(target, ts))
    decreases |ss| + |ts|
  {
    if ss != [] && ts != [] {
      UnfoldTail(source, ss);
      UnfoldTail(target, ts);
      if ks[0] < kt[0] {
        JoinMatching(source, target, ks[1..], ss[1..], kt, ts);
      } else if ks[0] > kt[0] {
        JoinMatching(source, target, ks, ss, kt[1..], ts[1..]);
      } else {
        JoinMatching(source, target, ks[1..], ss[1..], kt[1..], ts[1..]);
        var rest := JoinPairs(ks[1..], ss[1..], kt[1..], ts[1..]);
        assert JoinPairs(ks, ss, kt, ts)[1..] == rest;
      }
    }
  }

  lemma {:induction false} JoinSourceSize(
      source: Script, ks: seq<nat>, ss: seq<nat>, kt: seq<nat>, ts: seq<nat>)
    requires source.Valid()
    requires |ks| == |ss| && |kt| == |ts|
    requires InRange(source.nodes, ss)
    ensures forall k :: 0 <= k < |JoinPairs(ks, ss, kt, ts)| ==> JoinPairs(ks, ss, kt, ts)[k].source < |source.nodes|
    ensures SourceSize(source, JoinPairs(ks, ss, kt, ts)) <= SizeAll(UnfoldAll(source, ss))
    decreases |ss| + |ts|
  {
    if ss != [] && ts != [] {
      UnfoldTail(source, ss);
      if ks[0] < kt[0] {
        JoinSourceSize(source, ks[1..], ss[1..], kt, ts);
      } else if ks[0] > kt[0] {
        JoinSourceSize(source, ks, ss, kt[1..], ts[1..]);
      } else {
        JoinSourceSize(source, ks[1..], ss[1..], kt[1..], ts[1..]);
        var rest := JoinPairs(ks[1..], ss[1..], kt[1..], ts[1..]);
        assert JoinPairs(ks, ss, kt, ts)[1..] == rest;
      }
    }
  }

  /** A node's matches are its own plus those of the child pairs; the child pairs are smaller. */
  lemma {:induction false} ChildPairSums(source: Script, target: Script, i: nat, j: nat)
    requires source.Valid() && target.Valid()
    requires i < |source.nodes| && j < |target.nodes|
    ensures PairMatching(source, target, Pair(i, j))
         == (if Agree(Unfold(source, i), Unfold(target, j)) then 1 else 0)
            + MatchingSum(source, target, ChildPairs(source, target, i, j))
    ensures SourceSize(source, ChildPairs(source, target, i, j)) < Size(Unfold(source, i))
  {
    UnfoldShape(source, i);
    UnfoldShape(target, j);
    JoinMatching(source, target, KeysOf(source, i), ChildrenOf(source, i), KeysOf(target, j), ChildrenOf(target, j));
    JoinSourceSize(source, KeysOf(source, i), ChildrenOf(source, i), KeysOf(target, j), ChildrenOf(target, j));
  }

  // ---------------------------------------------------------------- comparing two nodes

  lemma {:induction false} JoinPositions(k: nat, sb: nat, n: nat, tb: nat, m: nat)
    ensures JoinPairs(Range(k, n), Range(sb, n), Range(k, m), Range(tb, m)) == ZipPairs(sb, tb, Min(n, m))
    decreases n
  {
    if n > 0 && m > 0 {
      RangeFront(k, n);
      RangeFront(sb, n);
      RangeFront(k, m);
      RangeFront(tb, m);
      JoinFront(Range(k, n), Range(sb, n), Range(k, m), Range(tb, m));
      JoinPositions(k + 1, sb + 1, n - 1, tb + 1, m - 1);
      ZipFront(sb, tb, Min(n, m));
    } else {
      assert ZipPairs(sb, tb, 0) == [];
    }
  }

  /** Two lists whose first keys meet. */
  lemma {:induction false} JoinFront(ks: seq<nat>, ss: seq<nat>, kt: seq<nat>, ts: seq<nat>)
    requires |ks| == |ss| > 0 && |kt| == |ts| > 0 && ks[0] == kt[0]
    ensures JoinPairs(ks, ss, kt, ts) == [Pair(ss[0], ts[0])] + JoinPairs(ks[1..], ss[1..], kt[1..], ts[1..])
  {
  }

  lemma {:induction false} RangeFront(b: nat, n: nat)
    requires n > 0
    ensures Range(b, n)[0] == b && Range(b, n)[1..] == Range(b + 1, n - 1)
  {
  }

  /** The first `n` children of two arrays, position by position. */
  function ZipPairs(sb: nat, tb: nat, n: nat): (r: seq<Pair>)
    ensures |r| == n
    ensures forall k :: 0 <= k < n ==> r[k] == Pair(sb + k, tb + k)
  {
    if n == 0 then [] else ZipPairs(sb, tb, n - 1) + [Pair(sb + n - 1, tb + n - 1)]
  }

  lemma {:induction false} ZipFront(sb: nat, tb: nat, n: nat)
    requires n > 0
    ensures ZipPairs(sb, tb, n) == [Pair(sb, tb)] + ZipPairs(sb + 1, tb + 1, n - 1)
  {
  }

  /** The join of the parts of two lists from positions `i` and `j` on. */
  ghost function JoinFrom(ks: seq<nat>, ss: seq<nat>, kt: seq<nat>, ts: seq<nat>, i: nat, j: nat): seq<Pair>
    requires |ks| == |ss| && |kt| == |ts| && i <= |ss| && j <= |ts|
  {
    JoinPairs(ks[i..], ss[i..], kt[j..], ts[j..])
  }

  lemma {:induction false} JoinEnds(ks: seq<nat>, ss: seq<nat>, kt: seq<nat>, ts: seq<nat>, i: nat, j: nat)
    requires |ks| == |ss| && |kt| == |ts| && i <= |ss| && j <= |ts|
    ensures JoinFrom(ks, ss, kt, ts, 0, 0) == JoinPairs(ks, ss, kt, ts)
    ensures i == |ss| || j == |ts| ==> JoinFrom(ks, ss, kt, ts, i, j) == []
  {
    assert ks[0..] == ks && ss[0..] == ss && kt[0..] == kt && ts[0..] == ts;
  }

  /** One comparison of the merge-join, on the parts of the lists that are left. */
  lemma {:induction false} JoinStep(ks: seq<nat>, ss: seq<nat>, kt: seq<nat>, ts: seq<nat>, i: nat, j: nat)
    requires |ks| == |ss| && |kt| == |ts|
    requires i < |ss| && j < |ts|
    ensures JoinFrom(ks, ss, kt, ts, i, j) ==
      if ks[i] < kt[j] then JoinFrom(ks, ss, kt, ts, i + 1, j)
      else if ks[i] > kt[j] then JoinFrom(ks, ss, kt, ts, i, j + 1)
      else [Pair(ss[i], ts[j])] + JoinFrom(ks, ss, kt, ts, i + 1, j + 1)
  {
    assert ks[i..][1..] == ks[i + 1..] && ss[i..][1..] == ss[i + 1..];
    assert kt[j..][1..] == kt[j + 1..] && ts[j..][1..] == ts[j + 1..];
  }

  ghost predicate KeysMatch(nodes: seq<Node>, ids: seq<nat>, keys: seq<nat>)
    requires InRange(nodes, ids)
  {
    |keys| == |ids| && forall k :: 0 <= k < |ids| ==> keys[k] == Key(nodes, ids[k])
  }

  /** `same` is false once the key lists are known to differ; otherwise they agree so far. */
  ghost predicate Verdict(ks: seq<nat>, kt: seq<nat>, i: nat, j: nat, same: bool) {
    if same then |ks| == |kt| && i == j && i <= |ks| && forall k :: 0 <= k < i ==> ks[k] == kt[k]
    else ks != kt
  }

  lemma {:induction false} VerdictStep(ks: seq<nat>, kt: seq<nat>, i: nat, j: nat, same: bool)
    requires Verdict(ks, kt, i, j, same) && i < |ks| && j < |kt|
    ensures ks[i] == kt[j] ==> Verdict(ks, kt, i + 1, j + 1, same)
    ensures ks[i] != kt[j] ==> ks != kt
  {
  }

  /** The pairs joined so far and the verdict on the keys, in front of positions `i` and `j`. */
  ghost predicate Joining(
      ks: seq<nat>, ss: seq<nat>, kt: seq<nat>, ts: seq<nat>, i: nat, j: nat, pairs: seq<Pair>, same: bool)
    requires |ks| == |ss| && |kt| == |ts|
  {
    && i <= |ss| && j <= |ts| && Verdict(ks, kt, i, j, same)
    && pairs + JoinFrom(ks, ss, kt, ts, i, j) == JoinPairs(ks, ss, kt, ts)
  }

  lemma {:induction false} JoiningStarts(ks: seq<nat>, ss: seq<nat>, kt: seq<nat>, ts: seq<nat>)
    requires |ks| == |ss| && |kt| == |ts|
    ensures Joining(ks, ss, kt, ts, 0, 0, [], |ss| == |ts|)
  {
    JoinEnds(ks, ss, kt, ts, 0, 0);
  }

  lemma {:induction false} JoiningStep(
      ks: seq<nat>, ss: seq<nat>, kt: seq<nat>, ts: seq<nat>, i: nat, j: nat, pairs: seq<Pair>, same: bool)
    requires |ks| == |ss| && |kt| == |ts|
    requires Joining(ks, ss, kt, ts, i, j, pairs, same) && i < |ss| && j < |ts|
    ensures
      if ks[i] < kt[j] then Joining(ks, ss, kt, ts, i + 1, j, pairs, false)
      else if ks[i] > kt[j] then Joining(ks, ss, kt, ts, i, j + 1, pairs, false)
      else Joining(ks, ss, kt, ts, i + 1, j + 1, pairs + [Pair(ss[i], ts[j])], same)
  {
    JoinStep(ks, ss, kt, ts, i, j);
    VerdictStep(ks, kt, i, j, same);
    if ks[i] == kt[j] {
      Associative(pairs, [Pair(ss[i], ts[j])], JoinFrom(ks, ss, kt, ts, i + 1, j + 1));
    }
  }

  lemma {:induction false} JoiningEnds(
      ks: seq<nat>, ss: seq<nat>, kt: seq<nat>, ts: seq<nat>, i: nat, j: nat, pairs: seq<Pair>, same: bool)
    requires |ks| == |ss| && |kt| == |ts|
    requires Joining(ks, ss, kt, ts, i, j, pairs, same) && (i == |ss| || j == |ts|)
    ensures pairs == JoinPairs(ks, ss, kt, ts) && same == (ks == kt)
  {
    JoinEnds(ks, ss, kt, ts, i, j);
  }

  /** The merge-join over two sorted attribute lists, with its verdict on the pair itself. */
  method JoinAttributes(
      source: Script, target: Script, ss: seq<nat>, ts: seq<nat>, ghost ks: seq<nat>, ghost kt: seq<nat>)
    returns (same: bool, pairs: seq<Pair>)
    requires InRange(source.nodes, ss) && InRange(target.nodes, ts)
    requires KeysMatch(source.nodes, ss, ks) && KeysMatch(target.nodes, ts, kt)
    ensures same == (ks == kt)
    ensures pairs == JoinPairs(ks, ss, kt, ts)
  {
    same := |ss| == |ts|;
    pairs := [];
    var i: nat, j: nat := 0, 0;
    JoiningStarts(ks, ss, kt, ts);
    while i < |ss| && j < |ts|
      invariant Joining(ks, ss, kt, ts, i, j, pairs, same)
      decreases |ss| + |ts| - i - j
    {
      var sk, tk := Key(source.nodes, ss[i]), Key(target.nodes, ts[j]);
      JoiningStep(ks, ss, kt, ts, i, j, pairs, same);
      if sk < tk {
        i := i + 1;
        same := false;
      } else if sk > tk {
        j := j + 1;
        same := false;
      } else {
        pairs := pairs + [Pair(ss[i], ts[j])];
        i, j := i + 1, j + 1;
      }
    }
    JoiningEnds(ks, ss, kt, ts, i, j, pairs, same);
  }
}
