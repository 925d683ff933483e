/** The longest common subsequence of unambiguous statement pairs, by patience sorting (`FindLCS`). */
module PatienceLcs {
  import opened Ast
  import opened Collections

  /** Strictly increasing in both ids. */
  predicate Increasing(pairs: seq<Pair>) {
    forall a, b :: 0 <= a < b < |pairs| ==> pairs[a].source < pairs[b].source && pairs[a].target < pairs[b].target
  }

  predicate SortedBySource(pairs: seq<Pair>) {
    forall a, b :: 0 <= a < b < |pairs| ==> pairs[a].source < pairs[b].source
  }

  /** `chain` uses pairs of `pairs` only. */
  ghost predicate DrawnFrom(chain: seq<Pair>, pairs: seq<Pair>) {
    forall a :: 0 <= a < |chain| ==> chain[a] in pairs
  }

  /** The longest chain that can be drawn from `pairs`. */
  ghost predicate IsLongestIncreasing(chain: seq<Pair>, pairs: seq<Pair>) {
    && Increasing(chain) && DrawnFrom(chain, pairs)
    && forall other :: Increasing(other) && DrawnFrom(other, pairs) ==> |other| <= |chain|
  }

  /** A pair on a pile, with the size of the previous pile at the time it was placed. */
  datatype Entry = Entry(pair: Pair, prevPileSize: nat)
  type Pile = seq<Entry>

  function Back(pile: Pile): Entry
    requires pile != []
  {
    pile[|pile| - 1]
  }

  ghost predicate NoPileEmpty(piles: seq<Pile>) {
    forall p :: 0 <= p < |piles| ==> piles[p] != []
  }

  /** The piles' last targets increase from left to right. */
  ghost predicate BacksIncrease(piles: seq<Pile>)
    requires NoPileEmpty(piles)
  {
    forall p, q :: 0 <= p < q < |piles| ==> Back(piles[p]).pair.target < Back(piles[q]).pair.target
  }

  /** Every entry behind the first pile links to an entry of the previous pile that precedes it in both ids. */
  ghost predicate LinksValid(piles: seq<Pile>) {
    forall p: nat :: 0 < p < |piles| ==> PileLinked(piles, p)
  }

  ghost predicate PileLinked(piles: seq<Pile>, p: nat)
    requires 0 < p < |piles|
  {
    forall e :: 0 <= e < |piles[p]| ==> LinkValid(piles[p - 1], piles[p][e])
  }

  ghost predicate LinkValid(previous: Pile, entry: Entry) {
    && 1 <= entry.prevPileSize <= |previous|
    && previous[entry.prevPileSize - 1].pair.source < entry.pair.source
    && previous[entry.prevPileSize - 1].pair.target < entry.pair.target
  }

  ghost predicate EntriesFrom(piles: seq<Pile>, pairs: seq<Pair>) {
    forall p, e :: 0 <= p < |piles| && 0 <= e < |piles[p]| ==> piles[p][e].pair in pairs
  }

  /** `pileOf` says where every placed pair went: pairs that increase in both ids went strictly to the right. */
  ghost predicate Placed(piles: seq<Pile>, placed: seq<Pair>, pileOf: seq<nat>)
    requires NoPileEmpty(piles)
  {
    && |pileOf| == |placed|
    && (forall x :: 0 <= x < |placed| ==>
          pileOf[x] < |piles| && Back(piles[pileOf[x]]).pair.target <= placed[x].target)
    && (forall x, y :: 0 <= x < y < |placed| && placed[x].target < placed[y].target ==> pileOf[x] < pileOf[y])
  }

  // ---------------------------------------------------------------- placing a pair

  /** The first pile whose last target is at least `target`, or the number of piles. */
  method FindPile(piles: seq<Pile>, target: nat) returns (p: nat)
    requires NoPileEmpty(piles)
    ensures p <= |piles|
    ensures p < |piles| ==> Back(piles[p]).pair.target >= target
    ensures forall q :: 0 <= q < p ==> Back(piles[q]).pair.target < target
  {
    p := 0;
    while p < |piles| && Back(piles[p]).pair.target < target
      invariant p <= |piles|
      invariant forall q :: 0 <= q < p ==> Back(piles[q]).pair.target < target
    {
      p := p + 1;
    }
  }

  /** The piles after `pair` was placed on pile `p`, or on a new pile if `p` is one past the end. */
  function Place(piles: seq<Pile>, p: nat, pair: Pair): seq<Pile>
    requires p <= |piles|
  {
    var link :=
      if p < |piles| then |piles[if p > 0 then p - 1 else 0]|
      else if p > 0 then |piles[p - 1]| else 0;
    if p < |piles| then piles[p := piles[p] + [Entry(pair, link)]] else piles + [[Entry(pair, link)]]
  }

  lemma {:induction false} PlaceShape(piles: seq<Pile>, p: nat, pair: Pair)
    requires NoPileEmpty(piles) && BacksIncrease(piles)
    requires p <= |piles|
    requires p < |piles| ==> Back(piles[p]).pair.target >= pair.target
    requires forall q :: 0 <= q < p ==> Back(piles[q]).pair.target < pair.target
    ensures NoPileEmpty(Place(piles, p, pair)) && BacksIncrease(Place(piles, p, pair))
    ensures Back(Place(piles, p, pair)[p]).pair == pair
    ensures forall q :: 0 <= q < |piles| && q != p ==> Place(piles, p, pair)[q] == piles[q]
  {
    PlaceOnPile(piles, p, pair);
    BacksStayIncreasing(piles, Place(piles, p, pair), p, pair.target);
  }

  /** The other piles stay, and the pair is the last one of its pile. */
  lemma {:induction false} PlaceOnPile(piles: seq<Pile>, p: nat, pair: Pair)
    requires NoPileEmpty(piles) && p <= |piles|
    ensures NoPileEmpty(Place(piles, p, pair)) && p < |Place(piles, p, pair)|
    ensures |Place(piles, p, pair)| == if p < |piles| then |piles| else |piles| + 1
    ensures Back(Place(piles, p, pair)[p]).pair == pair
    ensures forall q :: 0 <= q < |piles| && q != p ==> Place(piles, p, pair)[q] == piles[q]
  {
  }

  lemma {:induction false} BacksStayIncreasing(piles: seq<Pile>, r: seq<Pile>, p: nat, target: nat)
    requires NoPileEmpty(piles) && BacksIncrease(piles) && NoPileEmpty(r)
    requires p <= |piles| && p < |r| && |r| == if p < |piles| then |piles| else |piles| + 1
    requires p < |piles| ==> Back(piles[p]).pair.target >= target
    requires forall q :: 0 <= q < p ==> Back(piles[q]).pair.target < target
    requires Back(r[p]).pair.target == target
    requires forall q :: 0 <= q < |piles| && q != p ==> r[q] == piles[q]
    ensures BacksIncrease(r)
  {
  }

  lemma {:induction false} PlaceLinks(piles: seq<Pile>, p: nat, pair: Pair)
    requires NoPileEmpty(piles) && LinksValid(piles)
    requires p <= |piles|
    requires p > 0 ==> Back(piles[p - 1]).pair.target < pair.target
    requires forall q, e :: 0 <= q < |piles| && 0 <= e < |piles[q]| ==> piles[q][e].pair.source < pair.source
    ensures LinksValid(Place(piles, p, pair))
  {
    forall q: nat | 0 < q < |Place(piles, p, pair)|
      ensures PileLinked(Place(piles, p, pair), q)
    {
      PileStaysLinked(piles, p, pair, q);
    }
  }

  lemma {:induction false} PileStaysLinked(piles: seq<Pile>, p: nat, pair: Pair, q: nat)
    requires NoPileEmpty(piles) && LinksValid(piles) && p <= |piles|
    requires p > 0 ==> Back(piles[p - 1]).pair.target < pair.target
    requires forall q, e :: 0 <= q < |piles| && 0 <= e < |piles[q]| ==> piles[q][e].pair.source < pair.source
    requires 0 < q < |Place(piles, p, pair)|
    ensures PileLinked(Place(piles, p, pair), q)
  {
    var r: seq<Pile> := Place(piles, p, pair);
    assert q < |piles| ==> PileLinked(piles, q);
    forall e | 0 <= e < |r[q]|
      ensures LinkValid(r[q - 1], r[q][e])
    {
      if q == p && e == |r[p]| - 1 {
        assert LinkValid(piles[p - 1], r[p][e]);
      } else {
        assert LinkValid(piles[q - 1], piles[q][e]);
      }
    }
  }

  lemma {:induction false} PlaceEntries(piles: seq<Pile>, p: nat, pair: Pair, pairs: seq<Pair>)
    requires p <= |piles| && EntriesFrom(piles, pairs)
    ensures EntriesFrom(Place(piles, p, pair), pairs + [pair])
  {
    var r: seq<Pile> := Place(piles, p, pair);
    forall q, e | 0 <= q < |r| && 0 <= e < |r[q]|
      ensures r[q][e].pair in pairs + [pair]
    {
      if q == p && e == |r[p]| - 1 {
        assert (pairs + [pair])[|pairs|] == pair;
      } else {
        assert r[q][e] == piles[q][e];
      }
    }
  }

  lemma {:induction false} PlacePlaced(piles: seq<Pile>, p: nat, pair: Pair, placed: seq<Pair>, pileOf: seq<nat>)
    requires NoPileEmpty(piles) && BacksIncrease(piles)
    requires p <= |piles| && Placed(piles, placed, pileOf)
    requires p < |piles| ==> Back(piles[p]).pair.target >= pair.target
    requires forall q :: 0 <= q < p ==> Back(piles[q]).pair.target < pair.target
    ensures NoPileEmpty(Place(piles, p, pair))
    ensures Placed(Place(piles, p, pair), placed + [pair], pileOf + [p])
  {
    PlaceShape(piles, p, pair);
    var r, all, where := Place(piles, p, pair), placed + [pair], pileOf + [p];
    forall x | 0 <= x < |all|
      ensures where[x] < |r| && Back(r[where[x]]).pair.target <= all[x].target
    {
      if x < |placed| && where[x] == p {
        assert Back(piles[pileOf[x]]).pair.target <= placed[x].target;
      }
    }
    forall x, y | 0 <= x < y < |all| && all[x].target < all[y].target
      ensures where[x] < where[y]
    {
      if y == |placed| {
        assert Back(piles[pileOf[x]]).pair.target <= placed[x].target < pair.target;
        assert forall q :: p <= q < |piles| ==> Back(piles[q]).pair.target >= pair.target;
      }
    }
  }

  // ---------------------------------------------------------------- optimality

  lemma {:induction false} SourceOrder(pairs: seq<Pair>, x: nat, y: nat)
    requires SortedBySource(pairs) && x < |pairs| && y < |pairs|
    requires pairs[x].source < pairs[y].source
    ensures x < y
  {
  }

  /** Along an increasing chain the piles move strictly to the right. */
  lemma {:induction false} ChainNeedsPiles(
      chain: seq<Pair>, piles: seq<Pile>, placed: seq<Pair>, pileOf: seq<nat>, at: seq<nat>)
    requires NoPileEmpty(piles) && Placed(piles, placed, pileOf) && SortedBySource(placed)
    requires Increasing(chain) && chain != []
    requires |at| == |chain| && forall a :: 0 <= a < |at| ==> at[a] < |placed| && placed[at[a]] == chain[a]
    ensures |chain| <= pileOf[at[|at| - 1]] + 1
  {
    var last := |chain| - 1;
    if last > 0 {
      ChainNeedsPiles(chain[..last], piles, placed, pileOf, at[..last]);
      var x, y := at[last - 1], at[last];
      SourceOrder(placed, x, y);
    }
  }

  /** No increasing chain is longer than the number of piles. */
  lemma {:induction false} ChainsAtMostPiles(piles: seq<Pile>, placed: seq<Pair>, pileOf: seq<nat>, chain: seq<Pair>)
    requires NoPileEmpty(piles) && Placed(piles, placed, pileOf) && SortedBySource(placed)
    requires Increasing(chain) && DrawnFrom(chain, placed)
    ensures |chain| <= |piles|
  {
    if chain != [] {
      var at := seq(|chain|, a requires 0 <= a < |chain| => Position(placed, chain[a]));
      ChainNeedsPiles(chain, piles, placed, pileOf, at);
    }
  }

  ghost function Position(pairs: seq<Pair>, x: Pair): (k: nat)
    requires x in pairs
    ensures k < |pairs| && pairs[k] == x
  {
    var k :| 0 <= k < |pairs| && pairs[k] == x;
    k
  }

  // ---------------------------------------------------------------- the algorithm

  ghost predicate PilesValid(piles: seq<Pile>, placed: seq<Pair>, pileOf: seq<nat>) {
    && NoPileEmpty(piles) && BacksIncrease(piles)
    && LinksValid(piles) && EntriesFrom(piles, placed)
    && Placed(piles, placed, pileOf)
  }

  lemma {:induction false} PlaceKeepsPiles(piles: seq<Pile>, p: nat, pair: Pair, placed: seq<Pair>, pileOf: seq<nat>)
    requires PilesValid(piles, placed, pileOf)
    requires p <= |piles|
    requires p < |piles| ==> Back(piles[p]).pair.target >= pair.target
    requires forall q :: 0 <= q < p ==> Back(piles[q]).pair.target < pair.target
    requires SortedBySource(placed + [pair])
    ensures PilesValid(Place(piles, p, pair), placed + [pair], pileOf + [p])
  {
    forall q, e | 0 <= q < |piles| && 0 <= e < |piles[q]|
      ensures piles[q][e].pair.source < pair.source
    {
      var x := Position(placed, piles[q][e].pair);
      assert (placed + [pair])[x].source < (placed + [pair])[|placed|].source;
    }
    PlaceShape(piles, p, pair);
    PlaceLinks(piles, p, pair);
    PlaceEntries(piles, p, pair, placed);
    PlacePlaced(piles, p, pair, placed, pileOf);
  }

  /** Place one pair on the first pile that takes it. */
  method PlacePair(before: seq<Pile>, pair: Pair, ghost placed: seq<Pair>, ghost where: seq<nat>)
    returns (piles: seq<Pile>, ghost pileOf: seq<nat>)
    requires PilesValid(before, placed, where) && SortedBySource(placed + [pair])
    ensures PilesValid(piles, placed + [pair], pileOf)
  {
    var p := FindPile(before, pair.target);
    PlaceKeepsPiles(before, p, pair, placed, where);
    piles, pileOf := Place(before, p, pair), where + [p];
  }

  /** Place all pairs. */
  method BuildPiles(pairs: seq<Pair>) returns (piles: seq<Pile>, ghost pileOf: seq<nat>)
    requires SortedBySource(pairs)
    ensures PilesValid(piles, pairs, pileOf)
  {
    piles, pileOf := [], [];
    for i := 0 to |pairs|
      invariant PilesValid(piles, pairs[..i], pileOf)
    {
      TakeNext(pairs, i);
      PrefixSorted(pairs, i + 1);
      piles, pileOf := PlacePair(piles, pairs[i], pairs[..i], pileOf);
    }
    TakeAll(pairs);
  }

  lemma {:induction false} PrefixSorted(pairs: seq<Pair>, k: nat)
    requires SortedBySource(pairs) && k <= |pairs|
    ensures SortedBySource(pairs[..k])
  {
  }

  lemma {:induction false} Prepend(x: Pair, chain: seq<Pair>)
    requires Increasing(chain) && chain != []
    requires x.source < chain[0].source && x.target < chain[0].target
    ensures Increasing([x] + chain)
  {
  }

  /** Follow the back-links from the last entry of the last pile; every pile contributes one pair. */
  method WalkBack(piles: seq<Pile>, ghost pairs: seq<Pair>) returns (lcs: seq<Pair>)
    requires NoPileEmpty(piles) && LinksValid(piles) && EntriesFrom(piles, pairs)
    ensures |lcs| == |piles| && Increasing(lcs) && DrawnFrom(lcs, pairs)
  {
    if piles == [] {
      return [];
    }
    var pileId, entryId := |piles| - 1, |piles[|piles| - 1]| - 1;
    lcs := [];
    while true
      invariant 0 <= pileId < |piles| && 0 <= entryId < |piles[pileId]|
      invariant |lcs| == |piles| - 1 - pileId
      invariant DrawnFrom(lcs, pairs)
      invariant Increasing([piles[pileId][entryId].pair] + lcs)
      decreases pileId
    {
      var entry := piles[pileId][entryId];
      lcs := [entry.pair] + lcs;
      if pileId == 0 {
        return;
      }
      assert PileLinked(piles, pileId);
      assert LinkValid(piles[pileId - 1], entry);
      Prepend(piles[pileId - 1][entry.prevPileSize - 1].pair, lcs);
      pileId := pileId - 1;
      entryId := entry.prevPileSize - 1;
    }
  }

  /** The longest chain of pairs that increases in source and target, for pairs sorted by source. */
  method FindLcs(pairs: seq<Pair>) returns (lcs: seq<Pair>)
    requires SortedBySource(pairs)
    ensures IsLongestIncreasing(lcs, pairs)
  {
    var piles, pileOf := BuildPiles(pairs);
    lcs := WalkBack(piles, pairs);
    AsLongAsPilesIsLongest(piles, pairs, pileOf, lcs);
  }

  lemma {:induction false} AsLongAsPilesIsLongest(piles: seq<Pile>, pairs: seq<Pair>, pileOf: seq<nat>, lcs: seq<Pair>)
    requires NoPileEmpty(piles) && Placed(piles, pairs, pileOf) && SortedBySource(pairs)
    requires Increasing(lcs) && DrawnFrom(lcs, pairs) && |lcs| == |piles|
    ensures IsLongestIncreasing(lcs, pairs)
  {
    forall chain | Increasing(chain) && DrawnFrom(chain, pairs)
      ensures |chain| <= |lcs|
    {
      ChainsAtMostPiles(piles, pairs, pileOf, chain);
    }
  }
}
