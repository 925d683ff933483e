/** The key-sorted view of an object's attribute list (`collectSortedChildren`). */
module AttributeOrder {
  import opened Ast
  import opened Collections

  function Key(nodes: seq<Node>, i: nat): nat
    requires i < |nodes|
  {
    nodes[i].attributeKey
  }

  ghost predicate InRange(nodes: seq<Node>, ids: seq<nat>) {
    forall k :: 0 <= k < |ids| ==> ids[k] < |nodes|
  }

  /** `a` stands before `b`: by key, and by position among equal keys. */
  predicate Before(nodes: seq<Node>, a: nat, b: nat)
    requires a < |nodes| && b < |nodes|
  {
    Key(nodes, a) < Key(nodes, b) || (Key(nodes, a) == Key(nodes, b) && a < b)
  }

  ghost predicate Ordered(nodes: seq<Node>, ids: seq<nat>)
    requires InRange(nodes, ids)
  {
    forall j, k :: 0 <= j < k < |ids| ==> Before(nodes, ids[j], ids[k])
  }

  /** Insert `x` behind every id whose key is not greater. */
  function Insert(nodes: seq<Node>, ids: seq<nat>, x: nat): (r: seq<nat>)
    requires InRange(nodes, ids) && x < |nodes|
    ensures InRange(nodes, r) && |r| == |ids| + 1
  {
    if ids == [] || Key(nodes, ids[|ids| - 1]) <= Key(nodes, x) then ids + [x]
    else
      var front := Insert(nodes, ids[..|ids| - 1], x);
      front + [ids[|ids| - 1]]
  }

  /** The child ids `begin .. begin + count`, stably sorted by attribute key. */
  function Sorted(nodes: seq<Node>, begin: nat, count: nat): (r: seq<nat>)
    requires begin + count <= |nodes|
    ensures InRange(nodes, r) && |r| == count
  {
    if count == 0 then []
    else Insert(nodes, Sorted(nodes, begin, count - 1), begin + count - 1)
  }

  lemma {:induction false} InsertElements(nodes: seq<Node>, ids: seq<nat>, x: nat)
    requires InRange(nodes, ids) && x < |nodes|
    ensures multiset(Insert(nodes, ids, x)) == multiset(ids) + multiset{x}
  {
    if ids != [] && Key(nodes, ids[|ids| - 1]) > Key(nodes, x) {
      InsertElements(nodes, ids[..|ids| - 1], x);
      SplitLast(ids);
    }
  }

  lemma {:induction false} InsertBounds(nodes: seq<Node>, ids: seq<nat>, x: nat, lo: nat, hi: nat)
    requires InRange(nodes, ids) && x < |nodes|
    requires Within(ids, lo, hi) && lo <= x < hi
    ensures Within(Insert(nodes, ids, x), lo, hi)
  {
    if ids != [] && Key(nodes, ids[|ids| - 1]) > Key(nodes, x) {
      InsertBounds(nodes, ids[..|ids| - 1], x, lo, hi);
    }
  }

  predicate Within(ids: seq<nat>, lo: nat, hi: nat) {
    forall k :: 0 <= k < |ids| ==> lo <= ids[k] < hi
  }

  /** `last` goes behind everything in `ids`. */
  ghost predicate AllBefore(nodes: seq<Node>, ids: seq<nat>, last: nat)
    requires InRange(nodes, ids) && last < |nodes|
  {
    forall k :: 0 <= k < |ids| ==> Before(nodes, ids[k], last)
  }

  lemma {:induction false} InsertAllBefore(nodes: seq<Node>, ids: seq<nat>, x: nat, last: nat)
    requires InRange(nodes, ids) && x < |nodes| && last < |nodes|
    requires AllBefore(nodes, ids, last) && Before(nodes, x, last)
    ensures AllBefore(nodes, Insert(nodes, ids, x), last)
  {
    if ids != [] && Key(nodes, ids[|ids| - 1]) > Key(nodes, x) {
      InsertAllBefore(nodes, ids[..|ids| - 1], x, last);
    }
  }

  lemma {:induction false} OrderedAppend(nodes: seq<Node>, ids: seq<nat>, last: nat)
    requires InRange(nodes, ids) && last < |nodes|
    requires Ordered(nodes, ids) && AllBefore(nodes, ids, last)
    ensures Ordered(nodes, ids + [last])
  {
  }

  lemma {:induction false} OrderedLast(nodes: seq<Node>, ids: seq<nat>)
    requires InRange(nodes, ids) && ids != [] && Ordered(nodes, ids)
    ensures Ordered(nodes, ids[..|ids| - 1]) && AllBefore(nodes, ids[..|ids| - 1], ids[|ids| - 1])
  {
  }

  lemma {:induction false} InsertOrdered(nodes: seq<Node>, ids: seq<nat>, x: nat)
    requires InRange(nodes, ids) && x < |nodes|
    requires Ordered(nodes, ids) && Within(ids, 0, x)
    ensures Ordered(nodes, Insert(nodes, ids, x))
  {
    if ids == [] {
    } else if Key(nodes, ids[|ids| - 1]) <= Key(nodes, x) {
      OrderedLast(nodes, ids);
      OrderedAppend(nodes, ids, x);
    } else {
      var front, last := ids[..|ids| - 1], ids[|ids| - 1];
      OrderedLast(nodes, ids);
      InsertOrdered(nodes, front, x);
      InsertAllBefore(nodes, front, x, last);
      OrderedAppend(nodes, Insert(nodes, front, x), last);
    }
  }

  /** The ids `begin .. begin + count` in grammar order. */
  function Range(begin: nat, count: nat): (r: seq<nat>)
    ensures |r| == count
    ensures forall k :: 0 <= k < count ==> r[k] == begin + k
  {
    seq(count, k => begin + k)
  }

  lemma {:induction false} RangeLast(begin: nat, count: nat)
    requires count > 0
    ensures Range(begin, count) == Range(begin, count - 1) + [begin + count - 1]
  {
  }

  lemma {:induction false} SortedWithin(nodes: seq<Node>, begin: nat, count: nat)
    requires begin + count <= |nodes|
    ensures Within(Sorted(nodes, begin, count), begin, begin + count)
  {
    if count > 0 {
      SortedWithin(nodes, begin, count - 1);
      InsertBounds(nodes, Sorted(nodes, begin, count - 1), begin + count - 1, begin, begin + count);
    }
  }

  lemma {:induction false} SortedOrdered(nodes: seq<Node>, begin: nat, count: nat)
    requires begin + count <= |nodes|
    ensures Ordered(nodes, Sorted(nodes, begin, count))
  {
    if count > 0 {
      SortedOrdered(nodes, begin, count - 1);
      SortedWithin(nodes, begin, count - 1);
      InsertOrdered(nodes, Sorted(nodes, begin, count - 1), begin + count - 1);
    }
  }

  ghost predicate SameElements(a: seq<nat>, b: seq<nat>) {
    multiset(a) == multiset(b)
  }

  lemma {:induction false} ElementsStep(nodes: seq<Node>, sorted: seq<nat>, range: seq<nat>, x: nat, r: seq<nat>)
    requires InRange(nodes, sorted) && x < |nodes| && SameElements(sorted, range)
    requires r == Insert(nodes, sorted, x)
    ensures SameElements(r, range + [x])
  {
    InsertElements(nodes, sorted, x);
  }

  lemma {:induction false} SortedElements(nodes: seq<Node>, begin: nat, count: nat, sorted: seq<nat>)
    requires begin + count <= |nodes|
    requires sorted == Sorted(nodes, begin, count)
    ensures SameElements(sorted, Range(begin, count))
  {
    if count == 0 {
      assert Range(begin, count) == [];
    } else {
      var front := Sorted(nodes, begin, count - 1);
      SortedElements(nodes, begin, count - 1, front);
      ElementsStep(nodes, front, Range(begin, count - 1), begin + count - 1, sorted);
      RangeLast(begin, count);
    }
  }

  lemma {:induction false} LastOfOrdered(nodes: seq<Node>, ids: seq<nat>, x: nat)
    requires InRange(nodes, ids) && Ordered(nodes, ids) && x in ids
    ensures x == ids[|ids| - 1] || Before(nodes, x, ids[|ids| - 1])
  {
    var k :| 0 <= k < |ids| && ids[k] == x;
  }

  lemma {:induction false} SameLast(nodes: seq<Node>, a: seq<nat>, b: seq<nat>)
    requires InRange(nodes, a) && InRange(nodes, b) && Ordered(nodes, a) && Ordered(nodes, b)
    requires a != [] && SameElements(a, b)
    ensures b != [] && a[|a| - 1] == b[|b| - 1]
  {
    assert a[|a| - 1] in multiset(a) && a[|a| - 1] in multiset(b);
    assert a[|a| - 1] in b;
    assert b[|b| - 1] in multiset(b) && b[|b| - 1] in multiset(a);
    assert b[|b| - 1] in a;
    LastOfOrdered(nodes, b, a[|a| - 1]);
    LastOfOrdered(nodes, a, b[|b| - 1]);
  }

  /** Order and elements determine a list of ids. */
  lemma {:induction false} OrderedUnique(nodes: seq<Node>, a: seq<nat>, b: seq<nat>)
    requires InRange(nodes, a) && InRange(nodes, b) && Ordered(nodes, a) && Ordered(nodes, b)
    requires SameElements(a, b)
    ensures a == b
    decreases |a|
  {
    assert |multiset(a)| == |multiset(b)|;
    if a != [] {
      SameLast(nodes, a, b);
      FrontElements(a);
      FrontElements(b);
      OrderedLast(nodes, a);
      OrderedLast(nodes, b);
      OrderedUnique(nodes, a[..|a| - 1], b[..|b| - 1]);
      SplitLast(a);
      SplitLast(b);
    }
  }

  lemma {:induction false} SortedIsPermutation(nodes: seq<Node>, begin: nat, count: nat)
    requires begin + count <= |nodes|
    ensures Ordered(nodes, Sorted(nodes, begin, count))
    ensures multiset(Sorted(nodes, begin, count)) == multiset(Range(begin, count))
    ensures Within(Sorted(nodes, begin, count), begin, begin + count)
  {
    SortedOrdered(nodes, begin, count);
    SortedElements(nodes, begin, count, Sorted(nodes, begin, count));
    SortedWithin(nodes, begin, count);
  }

  /**
    The sorted view is a permutation of the child range, strictly ordered by (key, position), and the only
    one: the sort is by key and stable.
  */
  lemma {:induction false} SortedIsStableSort(nodes: seq<Node>, begin: nat, count: nat, ids: seq<nat>)
    requires begin + count <= |nodes|
    ensures ids == Sorted(nodes, begin, count) <==>
      InRange(nodes, ids) && Ordered(nodes, ids) && multiset(ids) == multiset(Range(begin, count))
  {
    var sorted := Sorted(nodes, begin, count);
    SortedIsPermutation(nodes, begin, count);
    if InRange(nodes, ids) && Ordered(nodes, ids) && SameElements(ids, Range(begin, count)) {
      OrderedUnique(nodes, ids, sorted);
    }
  }

  /** Fill a scratch list with the child ids and sort it, as the tree walks do for objects. */
  method CollectSortedChildren(nodes: seq<Node>, node: Node) returns (out: seq<nat>)
    requires node.ChildrenEnd() <= |nodes|
    ensures out == Sorted(nodes, node.childrenBeginOrValue, node.childrenCount)
  {
    out := [];
    for i := 0 to node.childrenCount
      invariant InRange(nodes, out)
      invariant out == Sorted(nodes, node.childrenBeginOrValue, i)
    {
      out := Insert(nodes, out, node.childrenBeginOrValue + i);
    }
  }
}
