/**
  What a merge of two key-sorted lists pairs up: equal keys, the first occurrence of a key with the first
  one, the second with the second, and so on.
*/
module KeyJoin {
  import opened Ast
  import opened Lockstep
  import opened TargetChanges

  ghost predicate Ascending(keys: seq<nat>) {
    forall a, b :: 0 <= a < b < |keys| ==> keys[a] <= keys[b]
  }

  /** How often the key at `k` occurs before `k`. */
  ghost function Occurrence(keys: seq<nat>, k: nat): nat
    requires k < |keys|
  {
    multiset(keys[..k])[keys[k]]
  }

  /** Positions with one key, which is met as often before them in both lists. */
  ghost predicate Joined(ks: seq<nat>, kt: seq<nat>, k: nat, l: nat) {
    k < |ks| && l < |kt| && ks[k] == kt[l] && Occurrence(ks, k) == Occurrence(kt, l)
  }

  ghost predicate Unjoined(ks: seq<nat>, kt: seq<nat>, l: nat) {
    forall k: nat :: !Joined(ks, kt, k, l)
  }

  // ---------------------------------------------------------------- dropping the first key

  lemma {:induction false} AscendingTail(keys: seq<nat>)
    requires Ascending(keys) && keys != []
    ensures Ascending(keys[1..])
  {
  }

  lemma {:induction false} OccurrenceTail(keys: seq<nat>, k: nat)
    requires 0 < k < |keys|
    ensures Occurrence(keys, k) == Occurrence(keys[1..], k - 1) + if keys[0] == keys[k] then 1 else 0
  {
    assert keys[..k] == [keys[0]] + keys[1..][..k - 1];
  }

  lemma {:induction false} OccurrenceFirst(keys: seq<nat>)
    requires keys != []
    ensures Occurrence(keys, 0) == 0
  {
  }

  /** A first key that is smaller than all keys of the other list has no partner. */
  lemma {:induction false} JoinedBehind(ks: seq<nat>, kt: seq<nat>, k: nat, l: nat)
    requires ks != [] && Ascending(kt) && kt != [] && ks[0] < kt[0]
    ensures Joined(ks, kt, k, l) <==> k > 0 && Joined(ks[1..], kt, k - 1, l)
  {
    if 0 < k < |ks| && l < |kt| {
      OccurrenceTail(ks, k);
    }
  }

  lemma {:induction false} JoinedTarget(ks: seq<nat>, kt: seq<nat>, k: nat, l: nat)
    requires kt != [] && Ascending(ks) && ks != [] && ks[0] > kt[0]
    ensures Joined(ks, kt, k, l) <==> l > 0 && Joined(ks, kt[1..], k, l - 1)
  {
    if k < |ks| && 0 < l < |kt| {
      OccurrenceTail(kt, l);
    }
  }

  /** Two equal first keys are partners; the rest is joined alone. */
  lemma {:induction false} JoinedBothBehind(ks: seq<nat>, kt: seq<nat>, k: nat, l: nat)
    requires ks != [] && kt != [] && ks[0] == kt[0]
    ensures Joined(ks, kt, k, l) <==> (k == l == 0) || (k > 0 && l > 0 && Joined(ks[1..], kt[1..], k - 1, l - 1))
  {
    OccurrenceFirst(ks);
    OccurrenceFirst(kt);
    if 0 < k < |ks| {
      OccurrenceTail(ks, k);
    }
    if 0 < l < |kt| {
      OccurrenceTail(kt, l);
    }
  }

  // ---------------------------------------------------------------- the pairs of the join

  ghost predicate PairOf(ss: seq<nat>, ts: seq<nat>, k: nat, l: nat, p: Pair) {
    k < |ss| && l < |ts| && p == Pair(ss[k], ts[l])
  }

  lemma {:induction false} JoinCases(ks: seq<nat>, ss: seq<nat>, kt: seq<nat>, ts: seq<nat>)
    requires |ks| == |ss| && |kt| == |ts|
    ensures JoinPairs(ks, ss, kt, ts) != [] ==> ss != [] && ts != []
    ensures ss != [] && ts != [] ==>
      forall p :: p in JoinPairs(ks, ss, kt, ts) <==>
        if ks[0] < kt[0] then p in JoinPairs(ks[1..], ss[1..], kt, ts)
        else if ks[0] > kt[0] then p in JoinPairs(ks, ss, kt[1..], ts[1..])
        else p == Pair(ss[0], ts[0]) || p in JoinPairs(ks[1..], ss[1..], kt[1..], ts[1..])
  {
  }

  lemma {:induction false} PairOfTail(ss: seq<nat>, ts: seq<nat>, k: nat, l: nat, p: Pair)
    ensures k > 0 ==> (PairOf(ss, ts, k, l, p) <==> ss != [] && PairOf(ss[1..], ts, k - 1, l, p))
    ensures l > 0 ==> (PairOf(ss, ts, k, l, p) <==> ts != [] && PairOf(ss, ts[1..], k, l - 1, p))
    ensures k > 0 && l > 0 ==>
      (PairOf(ss, ts, k, l, p) <==> ss != [] && ts != [] && PairOf(ss[1..], ts[1..], k - 1, l - 1, p))
  {
  }

  /** The join holds the pairs of partners. */
  lemma {:induction false} JoinHolds(
      ks: seq<nat>, ss: seq<nat>, kt: seq<nat>, ts: seq<nat>, k: nat, l: nat, p: Pair)
    requires |ks| == |ss| && |kt| == |ts| && Ascending(ks) && Ascending(kt)
    requires Joined(ks, kt, k, l) && PairOf(ss, ts, k, l, p)
    ensures p in JoinPairs(ks, ss, kt, ts)
    decreases |ss| + |ts|
  {
    JoinCases(ks, ss, kt, ts);
    AscendingTail(ks);
    AscendingTail(kt);
    PairOfTail(ss, ts, k, l, p);
    if ks[0] < kt[0] {
      JoinedBehind(ks, kt, k, l);
      JoinHolds(ks[1..], ss[1..], kt, ts, k - 1, l, p);
    } else if ks[0] > kt[0] {
      JoinedTarget(ks, kt, k, l);
      JoinHolds(ks, ss, kt[1..], ts[1..], k, l - 1, p);
    } else {
      JoinedBothBehind(ks, kt, k, l);
      if k > 0 {
        JoinHolds(ks[1..], ss[1..], kt[1..], ts[1..], k - 1, l - 1, p);
      }
    }
  }

  /** It holds no other pairs. */
  lemma {:induction false} JoinHoldsOnly(ks: seq<nat>, ss: seq<nat>, kt: seq<nat>, ts: seq<nat>, p: Pair)
    returns (k: nat, l: nat)
    requires |ks| == |ss| && |kt| == |ts| && Ascending(ks) && Ascending(kt) && p in JoinPairs(ks, ss, kt, ts)
    ensures Joined(ks, kt, k, l) && PairOf(ss, ts, k, l, p)
    decreases |ss| + |ts|
  {
    JoinCases(ks, ss, kt, ts);
    AscendingTail(ks);
    AscendingTail(kt);
    k, l := 0, 0;
    if ks[0] < kt[0] {
      k, l := JoinHoldsOnly(ks[1..], ss[1..], kt, ts, p);
      k := k + 1;
      JoinedBehind(ks, kt, k, l);
    } else if ks[0] > kt[0] {
      k, l := JoinHoldsOnly(ks, ss, kt[1..], ts[1..], p);
      l := l + 1;
      JoinedTarget(ks, kt, k, l);
    } else {
      if p != Pair(ss[0], ts[0]) {
        k, l := JoinHoldsOnly(ks[1..], ss[1..], kt[1..], ts[1..], p);
        k, l := k + 1, l + 1;
      }
      JoinedBothBehind(ks, kt, k, l);
    }
    PairOfTail(ss, ts, k, l, p);
  }

  // ---------------------------------------------------------------- what is left over

  lemma {:induction false} UnjoinedBehind(ks: seq<nat>, kt: seq<nat>, l: nat)
    requires ks != [] && Ascending(kt) && kt != [] && ks[0] < kt[0]
    ensures Unjoined(ks, kt, l) <==> Unjoined(ks[1..], kt, l)
  {
    if !Unjoined(ks, kt, l) {
      var k: nat :| Joined(ks, kt, k, l);
      JoinedBehind(ks, kt, k, l);
    }
    if !Unjoined(ks[1..], kt, l) {
      var k: nat :| Joined(ks[1..], kt, k, l);
      JoinedBehind(ks, kt, k + 1, l);
    }
  }

  lemma {:induction false} UnjoinedTarget(ks: seq<nat>, kt: seq<nat>, l: nat)
    requires Ascending(ks) && ks != [] && kt != [] && ks[0] > kt[0]
    ensures Unjoined(ks, kt, l) <==> l == 0 || Unjoined(ks, kt[1..], l - 1)
  {
    if !Unjoined(ks, kt, l) {
      var k: nat :| Joined(ks, kt, k, l);
      JoinedTarget(ks, kt, k, l);
    }
    if l > 0 && !Unjoined(ks, kt[1..], l - 1) {
      var k: nat :| Joined(ks, kt[1..], k, l - 1);
      JoinedTarget(ks, kt, k, l);
    }
  }

  lemma {:induction false} UnjoinedBothBehind(ks: seq<nat>, kt: seq<nat>, l: nat)
    requires ks != [] && kt != [] && ks[0] == kt[0]
    ensures Unjoined(ks, kt, l) <==> l > 0 && Unjoined(ks[1..], kt[1..], l - 1)
  {
    JoinedBothBehind(ks, kt, 0, l);
    if !Unjoined(ks, kt, l) {
      var k: nat :| Joined(ks, kt, k, l);
      JoinedBothBehind(ks, kt, k, l);
    }
    if l > 0 && !Unjoined(ks[1..], kt[1..], l - 1) {
      var k: nat :| Joined(ks[1..], kt[1..], k, l - 1);
      JoinedBothBehind(ks, kt, k + 1, l);
    }
  }

  /** The ids left over are those without a partner. */
  lemma {:induction false} LeftOver(ks: seq<nat>, ss: seq<nat>, kt: seq<nat>, ts: seq<nat>, l: nat)
    requires |ks| == |ss| && |kt| == |ts| && Ascending(ks) && Ascending(kt)
    requires l < |ts| && Unjoined(ks, kt, l)
    ensures ts[l] in AddedIds(ks, ss, kt, ts)
    decreases |ss| + |ts|
  {
    if ss == [] {
    } else if ks[0] < kt[0] {
      UnjoinedBehind(ks, kt, l);
      LeftOver(ks[1..], ss[1..], kt, ts, l);
    } else if ks[0] > kt[0] {
      UnjoinedTarget(ks, kt, l);
      if l > 0 {
        LeftOver(ks, ss, kt[1..], ts[1..], l - 1);
      }
    } else {
      UnjoinedBothBehind(ks, kt, l);
      LeftOver(ks[1..], ss[1..], kt[1..], ts[1..], l - 1);
    }
  }

  lemma {:induction false} OnlyLeftOver(ks: seq<nat>, ss: seq<nat>, kt: seq<nat>, ts: seq<nat>, x: nat)
    returns (l: nat)
    requires |ks| == |ss| && |kt| == |ts| && Ascending(ks) && Ascending(kt) && x in AddedIds(ks, ss, kt, ts)
    ensures l < |ts| && ts[l] == x && Unjoined(ks, kt, l)
    decreases |ss| + |ts|
  {
    if ss == [] {
      l :| 0 <= l < |ts| && ts[l] == x;
    } else if ks[0] < kt[0] {
      l := OnlyLeftOver(ks[1..], ss[1..], kt, ts, x);
      UnjoinedBehind(ks, kt, l);
    } else if ks[0] > kt[0] {
      l := 0;
      if x != ts[0] {
        l := OnlyLeftOver(ks, ss, kt[1..], ts[1..], x);
        l := l + 1;
      }
      UnjoinedTarget(ks, kt, l);
    } else {
      l := OnlyLeftOver(ks[1..], ss[1..], kt[1..], ts[1..], x);
      l := l + 1;
      UnjoinedBothBehind(ks, kt, l);
    }
  }
}
