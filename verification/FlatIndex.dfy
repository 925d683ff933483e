/** The entries of a flat array sorted by object id. */
module FlatIndex {
  import opened Collections
  import opened FlatLayout

  /** An object id, and the position of its entry. */
  datatype IndexEntry = IndexEntry(objectId: nat, index: nat)

  function Listed(es: seq<FlatEntry>): (r: seq<IndexEntry>)
    ensures |r| == |es| && forall q :: 0 <= q < |r| ==> r[q] == IndexEntry(es[q].objectId, q)
  {
    seq(|es|, q requires 0 <= q < |es| => IndexEntry(es[q].objectId, q))
  }

  ghost predicate ById(r: seq<IndexEntry>) {
    forall j, k :: 0 <= j < k < |r| ==> r[j].objectId <= r[k].objectId
  }

  /** Every entry is listed once, in the order of object ids. */
  ghost predicate IsIndexOf(r: seq<IndexEntry>, es: seq<FlatEntry>) {
    ById(r) && multiset(r) == multiset(Listed(es))
  }

  method FindPlaceById(r: seq<IndexEntry>, objectId: nat) returns (p: nat)
    requires ById(r)
    ensures p <= |r| && (forall k :: 0 <= k < p ==> r[k].objectId <= objectId)
    ensures forall k :: p <= k < |r| ==> objectId < r[k].objectId
  {
    p := |r|;
    while p > 0 && objectId < r[p - 1].objectId
      invariant p <= |r| && forall k :: p <= k < |r| ==> objectId < r[k].objectId
    {
      p := p - 1;
    }
  }

  lemma {:induction false} InsertedById(r: seq<IndexEntry>, p: nat, e: IndexEntry)
    requires ById(r) && p <= |r| && forall k :: 0 <= k < p ==> r[k].objectId <= e.objectId
    requires forall k :: p <= k < |r| ==> e.objectId < r[k].objectId
    ensures ById(r[..p] + [e] + r[p..])
  {
  }

  lemma {:induction false} ListedNext(es: seq<FlatEntry>, n: nat)
    requires n < |es|
    ensures Listed(es[..n + 1]) == Listed(es[..n]) + [IndexEntry(es[n].objectId, n)]
  {
  }

  /** Sort the entries by object id. */
  method IndexById(es: seq<FlatEntry>) returns (r: seq<IndexEntry>)
    ensures IsIndexOf(r, es)
  {
    r := [];
    assert Listed(es[..0]) == [];
    for n := 0 to |es|
      invariant IsIndexOf(r, es[..n])
    {
      var e := IndexEntry(es[n].objectId, n);
      var p := FindPlaceById(r, e.objectId);
      InsertedById(r, p, e);
      InsertedElements(r, p, e);
      ListedNext(es, n);
      r := r[..p] + [e] + r[p..];
    }
    TakeAll(es);
  }

  /** An index lists an id and a position exactly if the entry at the position has the id. */
  lemma {:induction false} IndexLists(r: seq<IndexEntry>, es: seq<FlatEntry>, objectId: nat, q: nat)
    requires IsIndexOf(r, es)
    ensures IndexEntry(objectId, q) in r <==> q < |es| && es[q].objectId == objectId
  {
    var e := IndexEntry(objectId, q);
    assert e in r <==> e in multiset(r);
    assert e in Listed(es) <==> e in multiset(Listed(es));
    if q < |es| && es[q].objectId == objectId {
      assert Listed(es)[q] == e;
    }
  }
}
