/** The ordered set of catalog entries: by rank, then by id. */
module RankOrder {
  import opened CatalogState

  predicate Precedes(p: Ranked, q: Ranked) {
    p.rank < q.rank || (p.rank == q.rank && p.id < q.id)
  }

  ghost predicate Ascends(order: seq<Ranked>) {
    forall j, k :: 0 <= j < k < |order| ==> Precedes(order[j], order[k])
  }

  /** The elements of the set in ascending order. */
  ghost predicate IsRankOrder(order: seq<Ranked>, ranked: set<Ranked>) {
    Ascends(order) && forall p :: p in order <==> p in ranked
  }

  method FindRankPlace(order: seq<Ranked>, p: Ranked) returns (i: nat)
    requires Ascends(order) && p !in order
    ensures i <= |order| && (forall k :: 0 <= k < i ==> Precedes(order[k], p))
    ensures forall k :: i <= k < |order| ==> Precedes(p, order[k])
  {
    i := 0;
    while i < |order| && Precedes(order[i], p)
      invariant i <= |order| && forall k :: 0 <= k < i ==> Precedes(order[k], p)
    {
      i := i + 1;
    }
    forall k | i <= k < |order|
      ensures Precedes(p, order[k])
    {
      assert order[i] in order && order[i] != p;
      assert i < k ==> Precedes(order[i], order[k]);
    }
  }

  lemma {:induction false} InsertedRank(order: seq<Ranked>, i: nat, p: Ranked, done: set<Ranked>)
    requires IsRankOrder(order, done) && i <= |order|
    requires forall k :: 0 <= k < i ==> Precedes(order[k], p)
    requires forall k :: i <= k < |order| ==> Precedes(p, order[k])
    ensures IsRankOrder(order[..i] + [p] + order[i..], done + {p})
  {
    var more := order[..i] + [p] + order[i..];
    assert order == order[..i] + order[i..];
    forall q
      ensures q in more <==> q in done + {p}
    {
      assert q in order <==> q in order[..i] || q in order[i..];
    }
  }

  /** List the set in its order. */
  method ListRanked(ranked: set<Ranked>) returns (order: seq<Ranked>)
    ensures IsRankOrder(order, ranked)
  {
    order := [];
    var todo := ranked;
    ghost var done: set<Ranked> := {};
    while todo != {}
      invariant todo !! done && todo + done == ranked && IsRankOrder(order, done)
      decreases |todo|
    {
      var p :| p in todo;
      var i := FindRankPlace(order, p);
      InsertedRank(order, i, p, done);
      order := order[..i] + [p] + order[i..];
      todo, done := todo - {p}, done + {p};
    }
    assert done == ranked;
  }

  /** A front of the order and its last element. */
  lemma {:induction false} OrderFront(order: seq<Ranked>, ranked: set<Ranked>)
    requires IsRankOrder(order, ranked) && order != []
    ensures
      var last := order[|order| - 1];
      && last in ranked && IsRankOrder(order[..|order| - 1], ranked - {last})
      && forall q :: q in ranked - {last} ==> Precedes(q, last)
  {
    var last, front := order[|order| - 1], order[..|order| - 1];
    assert order == front + [last];
    forall q
      ensures q in front <==> q in ranked - {last}
      ensures q in front ==> Precedes(q, last)
    {
      assert q in order <==> q in front || q == last;
      if q in front {
        var k :| 0 <= k < |front| && front[k] == q;
        assert Precedes(order[k], order[|order| - 1]);
      }
    }
  }
}
