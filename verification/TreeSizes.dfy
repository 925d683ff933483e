/** The memoized subtree size (`ComputeTreeSize`). */
module TreeSizes {
  import opened Ast
  import opened Collections
  import opened AttributeOrder
  import opened SyntaxTree
  import opened Lockstep

  // ---------------------------------------------------------------- sums of weights over node ids

  ghost predicate Below(ids: seq<nat>, n: nat) {
    forall k :: 0 <= k < |ids| ==> ids[k] < n
  }

  ghost function Sum(weights: seq<nat>, ids: seq<nat>): nat
    requires Below(ids, |weights|)
  {
    if ids == [] then 0 else Sum(weights, ids[..|ids| - 1]) + weights[ids[|ids| - 1]]
  }

  lemma {:induction false} SumAppend(weights: seq<nat>, ids: seq<nat>, x: nat)
    requires Below(ids, |weights|)
    requires x < |weights|
    ensures Sum(weights, ids + [x]) == Sum(weights, ids) + weights[x]
  {
    var r := ids + [x];
    assert r[..|r| - 1] == ids;
  }

  function Without(ids: seq<nat>, k: nat): (r: seq<nat>)
    requires k < |ids|
    ensures |r| == |ids| - 1
  {
    ids[..k] + ids[k + 1..]
  }

  lemma {:induction false} WithoutElements(ids: seq<nat>, k: nat)
    requires k < |ids|
    ensures multiset(Without(ids, k)) == multiset(ids) - multiset{ids[k]}
  {
    assert ids == ids[..k] + [ids[k]] + ids[k + 1..];
  }

  lemma {:induction false} SumWithout(weights: seq<nat>, ids: seq<nat>, k: nat)
    requires k < |ids| && Below(ids, |weights|)
    ensures Below(Without(ids, k), |weights|)
    ensures Sum(weights, ids) == Sum(weights, Without(ids, k)) + weights[ids[k]]
  {
    var last := |ids| - 1;
    if k == last {
      assert Without(ids, k) == ids[..last];
    } else {
      SumWithout(weights, ids[..last], k);
      assert Without(ids[..last], k) == Without(ids, k)[..last - 1];
    }
  }

  /** A sum does not depend on the order of the ids. */
  lemma {:induction false} SumPermutation(weights: seq<nat>, a: seq<nat>, b: seq<nat>)
    requires Below(a, |weights|) && Below(b, |weights|)
    requires multiset(a) == multiset(b)
    ensures Sum(weights, a) == Sum(weights, b)
  {
    if a == [] {
      assert |multiset(b)| == 0;
    } else {
      assert a[0] in multiset(b);
      var k :| 0 <= k < |b| && b[k] == a[0];
      WithoutElements(a, 0);
      WithoutElements(b, k);
      SumWithout(weights, a, 0);
      SumWithout(weights, b, k);
      SumPermutation(weights, Without(a, 0), Without(b, k));
    }
  }

  // ---------------------------------------------------------------- the table of subtree sizes

  /** The number of nodes in the tree below every node. */
  ghost function SizeTable(script: Script): (r: seq<nat>)
    requires script.Valid()
    ensures |r| == |script.nodes|
    ensures forall i: nat :: i < |r| ==> r[i] == Size(Unfold(script, i))
  {
    seq(|script.nodes|, i requires 0 <= i < |script.nodes| => Size(Unfold(script, i)))
  }

  lemma {:induction false} SizeAllAppend(ts: seq<Tree>, t: Tree)
    ensures SizeAll(ts + [t]) == SizeAll(ts) + Size(t)
  {
    if ts == [] {
      assert ts + [t] == [t];
    } else {
      assert (ts + [t])[1..] == ts[1..] + [t];
      SizeAllAppend(ts[1..], t);
    }
  }

  lemma {:induction false} SizeAllIsSum(weights: seq<nat>, ids: seq<nat>, trees: seq<Tree>)
    requires |trees| == |ids|
    requires forall k :: 0 <= k < |ids| ==> ids[k] < |weights| && weights[ids[k]] == Size(trees[k])
    ensures SizeAll(trees) == Sum(weights, ids)
  {
    if ids != [] {
      SizeAllIsSum(weights, ids[..|ids| - 1], trees[..|ids| - 1]);
      SizeAllAppend(trees[..|ids| - 1], trees[|ids| - 1]);
      SplitLast(trees);
    }
  }

  /** The ids a walk in grammar order pushes below node `i`. */
  function RawChildren(script: Script, i: nat): (r: seq<nat>)
    requires script.Valid() && i < |script.nodes|
    ensures forall k :: 0 <= k < |r| ==> r[k] < i
  {
    assert script.NodeValid(i);
    var n := script.nodes[i];
    if HasChildren(n.nodeType) then Range(n.childrenBeginOrValue, n.childrenCount) else []
  }

  /** A subtree is its root and the subtrees of the raw child range. */
  ghost predicate SizesAdditive(script: Script, size: seq<nat>)
    requires script.Valid()
  {
    && |size| == |script.nodes|
    && forall i: nat :: i < |size| ==> size[i] == 1 + Sum(size, RawChildren(script, i))
  }

  lemma {:induction false} SizeTableStep(script: Script, i: nat)
    requires script.Valid() && i < |script.nodes|
    ensures SizeTable(script)[i] == 1 + Sum(SizeTable(script), RawChildren(script, i))
  {
    UnfoldShape(script, i);
    var size := SizeTable(script);
    var n := script.nodes[i];
    assert script.NodeValid(i);
    SizeAllIsSum(size, ChildrenOf(script, i), UnfoldAll(script, ChildrenOf(script, i)));
    if IsObjectType(n.nodeType) {
      SortedIsPermutation(script.nodes, n.childrenBeginOrValue, n.childrenCount);
      SumPermutation(size, ChildrenOf(script, i), RawChildren(script, i));
    }
  }

  lemma {:induction false} SizeTableAdditive(script: Script)
    requires script.Valid()
    ensures SizesAdditive(script, SizeTable(script))
  {
    forall i: nat | i < |script.nodes|
      ensures SizeTable(script)[i] == 1 + Sum(SizeTable(script), RawChildren(script, i))
    {
      SizeTableStep(script, i);
    }
  }

  // ---------------------------------------------------------------- the walk

  /** Every memoized size is either unknown (zero) or right. */
  ghost predicate MemoValid(size: seq<nat>, sizes: seq<nat>) {
    |sizes| == |size| ==> forall i :: 0 <= i < |sizes| ==> sizes[i] == 0 || sizes[i] == size[i]
  }

  /** A stack entry: a node, its parent node, and whether its children were pushed. `up` is the parent's entry. */
  datatype Frame = Frame(node: nat, parent: nat, visited: bool, ghost up: nat)

  ghost predicate NodesBelow(stack: seq<Frame>, n: nat) {
    forall k :: 0 <= k < |stack| ==> stack[k].node < n
  }

  /** The sizes that entries on the stack still owe to the entry at position `p`. */
  ghost function Owed(size: seq<nat>, stack: seq<Frame>, p: nat): nat
    requires NodesBelow(stack, |size|)
  {
    if |stack| <= 1 then 0
    else
      var last := stack[|stack| - 1];
      Owed(size, stack[..|stack| - 1], p) + (if last.up == p then size[last.node] else 0)
  }

  ghost function Work(size: seq<nat>, stack: seq<Frame>): nat
    requires NodesBelow(stack, |size|)
  {
    if stack == [] then 0
    else
      var last := stack[|stack| - 1];
      Work(size, stack[..|stack| - 1]) + (if last.visited then 1 else 2 * size[last.node])
  }

  /** Below every entry lie its open ancestors, with strictly larger ids. */
  ghost predicate Nested(stack: seq<Frame>) {
    forall p, k :: 0 <= p < k < |stack| && stack[p].visited ==> stack[k].node < stack[p].node
  }

  ghost predicate Linked(stack: seq<Frame>) {
    forall k :: 1 <= k < |stack| ==>
      stack[k].up < k && stack[stack[k].up].visited && stack[stack[k].up].node == stack[k].parent
  }

  /** A node is open while its children are on the stack. */
  ghost predicate IsOpen(stack: seq<Frame>, i: nat) {
    exists p :: 0 <= p < |stack| && stack[p].visited && stack[p].node == i
  }

  /** Open nodes have collected their size up to what the stack still owes them. */
  ghost predicate OpenSums(size: seq<nat>, stack: seq<Frame>, sizes: seq<nat>)
    requires NodesBelow(stack, |size|) && |sizes| == |size|
  {
    forall p :: 0 <= p < |stack| && stack[p].visited ==>
      sizes[stack[p].node] + Owed(size, stack, p) == size[stack[p].node]
  }

  /** Nodes that are not open are memoized, or unknown. */
  ghost predicate OthersMemoized(size: seq<nat>, stack: seq<Frame>, sizes: seq<nat>)
    requires |sizes| == |size|
  {
    forall i: nat :: i < |sizes| && !IsOpen(stack, i) ==> sizes[i] == 0 || sizes[i] == size[i]
  }

  ghost predicate WalkInvariant(size: seq<nat>, stack: seq<Frame>, sizes: seq<nat>) {
    && stack != [] && |sizes| == |size| && NodesBelow(stack, |size|)
    && Nested(stack) && Linked(stack)
    && OpenSums(size, stack, sizes) && OthersMemoized(size, stack, sizes)
  }

  lemma {:induction false} NothingOwed(size: seq<nat>, stack: seq<Frame>, p: nat)
    requires NodesBelow(stack, |size|)
    requires forall k :: 1 <= k < |stack| ==> stack[k].up != p
    ensures Owed(size, stack, p) == 0
  {
    if |stack| > 1 {
      NothingOwed(size, stack[..|stack| - 1], p);
    }
  }

  /** Whether an entry is visited does not change what is owed. */
  lemma {:induction false} OwedIgnoresVisits(size: seq<nat>, a: seq<Frame>, b: seq<Frame>, p: nat)
    requires |a| == |b| && NodesBelow(a, |size|) && NodesBelow(b, |size|)
    requires forall k :: 0 <= k < |a| ==> a[k].node == b[k].node && a[k].up == b[k].up
    ensures Owed(size, a, p) == Owed(size, b, p)
  {
    if |a| > 1 {
      OwedIgnoresVisits(size, a[..|a| - 1], b[..|b| - 1], p);
    }
  }

  /** The frames pushed for a list of children. */
  function Frames(ids: seq<nat>, parent: nat, ghost up: nat): (r: seq<Frame>)
    ensures |r| == |ids|
    ensures forall k :: 0 <= k < |r| ==> r[k] == Frame(ids[k], parent, false, up)
  {
    if ids == [] then []
    else Frames(ids[..|ids| - 1], parent, up) + [Frame(ids[|ids| - 1], parent, false, up)]
  }

  lemma {:induction false} PushOwes(size: seq<nat>, stack: seq<Frame>, ids: seq<nat>, parent: nat, up: nat, p: nat)
    requires NodesBelow(stack, |size|) && stack != [] && Below(ids, |size|)
    ensures NodesBelow(stack + Frames(ids, parent, up), |size|)
    ensures Owed(size, stack + Frames(ids, parent, up), p)
         == Owed(size, stack, p) + (if p == up then Sum(size, ids) else 0)
    ensures Work(size, stack + Frames(ids, parent, up)) == Work(size, stack) + 2 * Sum(size, ids)
  {
    var all := stack + Frames(ids, parent, up);
    if ids == [] {
      assert all == stack;
    } else {
      var front := ids[..|ids| - 1];
      PushOwes(size, stack, front, parent, up, p);
      assert all[..|all| - 1] == stack + Frames(front, parent, up);
    }
  }

  // ---- visiting the top entry

  /** The stack after the top entry was marked visited and its children were pushed. */
  function Visited(stack: seq<Frame>, children: seq<nat>): seq<Frame>
    requires stack != []
  {
    var last := |stack| - 1;
    stack[last := stack[last].(visited := true)] + Frames(children, stack[last].node, last)
  }

  lemma {:induction false} VisitedEntries(stack: seq<Frame>, children: seq<nat>)
    requires stack != []
    ensures
      var r, last := Visited(stack, children), |stack| - 1;
      && |r| == |stack| + |children|
      && (forall k :: 0 <= k < last ==> r[k] == stack[k])
      && r[last] == stack[last].(visited := true)
      && (forall k :: last < k < |r| ==> r[k] == Frame(children[k - |stack|], stack[last].node, false, last))
  {
  }

  lemma {:induction false} VisitNested(stack: seq<Frame>, children: seq<nat>)
    requires stack != [] && Nested(stack) && Below(children, stack[|stack| - 1].node)
    ensures Nested(Visited(stack, children))
  {
    VisitedEntries(stack, children);
  }

  lemma {:induction false} VisitLinked(stack: seq<Frame>, children: seq<nat>)
    requires stack != [] && Linked(stack)
    ensures Linked(Visited(stack, children))
  {
    VisitedEntries(stack, children);
  }

  lemma {:induction false} VisitOwes(size: seq<nat>, stack: seq<Frame>, children: seq<nat>, p: nat)
    requires stack != [] && NodesBelow(stack, |size|) && Below(children, |size|)
    ensures NodesBelow(Visited(stack, children), |size|)
    ensures Owed(size, Visited(stack, children), p)
         == Owed(size, stack, p) + (if p == |stack| - 1 then Sum(size, children) else 0)
  {
    var last := |stack| - 1;
    var marked := stack[last := stack[last].(visited := true)];
    OwedIgnoresVisits(size, stack, marked, p);
    PushOwes(size, marked, children, stack[last].node, last, p);
  }

  lemma {:induction false} VisitOpenSums(size: seq<nat>, stack: seq<Frame>, children: seq<nat>, sizes: seq<nat>)
    requires WalkInvariant(size, stack, sizes) && Below(children, |size|)
    requires size[stack[|stack| - 1].node] == 1 + Sum(size, children)
    ensures NodesBelow(Visited(stack, children), |size|)
    ensures OpenSums(size, Visited(stack, children), sizes[stack[|stack| - 1].node := 1])
  {
    var last := |stack| - 1;
    var r := Visited(stack, children);
    VisitOwes(size, stack, children, 0);
    VisitedEntries(stack, children);
    forall p: nat | p < |r| && r[p].visited
      ensures sizes[stack[last].node := 1][r[p].node] + Owed(size, r, p) == size[r[p].node]
    {
      VisitOpenSum(size, stack, children, sizes, p);
    }
  }

  lemma {:induction false} VisitOpenSum(
      size: seq<nat>, stack: seq<Frame>, children: seq<nat>, sizes: seq<nat>, p: nat)
    requires WalkInvariant(size, stack, sizes) && Below(children, |size|)
    requires size[stack[|stack| - 1].node] == 1 + Sum(size, children)
    requires p < |Visited(stack, children)| && Visited(stack, children)[p].visited
    ensures p < |stack| && Visited(stack, children)[p].node == stack[p].node < |size|
    ensures NodesBelow(Visited(stack, children), |size|)
    ensures sizes[stack[|stack| - 1].node := 1][stack[p].node] + Owed(size, Visited(stack, children), p)
         == size[stack[p].node]
  {
    var last := |stack| - 1;
    VisitedEntries(stack, children);
    VisitOwes(size, stack, children, p);
    if p == last {
      NothingOwed(size, stack, last);
    } else {
      assert stack[p].visited && stack[last].node < stack[p].node;
    }
  }

  lemma {:induction false} OpenStaysOpen(stack: seq<Frame>, next: seq<Frame>, i: nat)
    requires |stack| <= |next|
    requires forall k :: 0 <= k < |stack| && stack[k].visited ==> next[k] == stack[k]
    requires IsOpen(stack, i)
    ensures IsOpen(next, i)
  {
    var p :| 0 <= p < |stack| && stack[p].visited && stack[p].node == i;
    assert next[p].visited && next[p].node == i;
  }

  lemma {:induction false} OpenBelowTop(stack: seq<Frame>, i: nat)
    requires IsOpen(stack, i)
    ensures IsOpen(stack[..|stack| - 1], i) || stack[|stack| - 1].node == i
  {
    var p :| 0 <= p < |stack| && stack[p].visited && stack[p].node == i;
    var rest := stack[..|stack| - 1];
    if p < |rest| {
      assert rest[p].visited && rest[p].node == i;
    }
  }

  lemma {:induction false} VisitOthers(size: seq<nat>, stack: seq<Frame>, children: seq<nat>, sizes: seq<nat>)
    requires WalkInvariant(size, stack, sizes)
    requires !stack[|stack| - 1].visited
    ensures OthersMemoized(size, Visited(stack, children), sizes[stack[|stack| - 1].node := 1])
  {
    var last := |stack| - 1;
    var r := Visited(stack, children);
    VisitedEntries(stack, children);
    forall i: nat | i < |sizes| && !IsOpen(r, i)
      ensures !IsOpen(stack, i) && i != stack[last].node
    {
      OpenAfterVisit(stack, r, i);
    }
  }

  /** Open nodes stay open, and the top one is opened. */
  lemma {:induction false} OpenAfterVisit(stack: seq<Frame>, next: seq<Frame>, i: nat)
    requires stack != [] && !stack[|stack| - 1].visited && |stack| <= |next|
    requires forall k :: 0 <= k < |stack| - 1 ==> next[k] == stack[k]
    requires next[|stack| - 1] == stack[|stack| - 1].(visited := true)
    requires !IsOpen(next, i)
    ensures !IsOpen(stack, i) && i != stack[|stack| - 1].node
  {
    assert next[|stack| - 1].visited;
    if IsOpen(stack, i) {
      OpenStaysOpen(stack, next, i);
    }
  }

  lemma {:induction false} VisitStep(size: seq<nat>, stack: seq<Frame>, children: seq<nat>, sizes: seq<nat>)
    requires WalkInvariant(size, stack, sizes) && !stack[|stack| - 1].visited
    requires Below(children, stack[|stack| - 1].node)
    requires size[stack[|stack| - 1].node] == 1 + Sum(size, children)
    ensures WalkInvariant(size, Visited(stack, children), sizes[stack[|stack| - 1].node := 1])
    ensures Visited(stack, children)[0].node == stack[0].node
    ensures Work(size, Visited(stack, children)) < Work(size, stack)
  {
    VisitNested(stack, children);
    VisitLinked(stack, children);
    VisitOpenSums(size, stack, children, sizes);
    VisitOthers(size, stack, children, sizes);
    VisitWork(size, stack, children);
  }

  lemma {:induction false} WorkMark(size: seq<nat>, stack: seq<Frame>)
    requires stack != [] && NodesBelow(stack, |size|) && !stack[|stack| - 1].visited
    ensures
      var last := |stack| - 1;
      var marked := stack[last := stack[last].(visited := true)];
      NodesBelow(marked, |size|)
      && Work(size, marked) + 2 * size[stack[last].node] == Work(size, stack) + 1
  {
    var last := |stack| - 1;
    var marked := stack[last := stack[last].(visited := true)];
    assert marked[..last] == stack[..last];
  }

  lemma {:induction false} VisitWork(size: seq<nat>, stack: seq<Frame>, children: seq<nat>)
    requires stack != [] && NodesBelow(stack, |size|) && Below(children, |size|)
    requires !stack[|stack| - 1].visited
    requires size[stack[|stack| - 1].node] == 1 + Sum(size, children)
    ensures NodesBelow(Visited(stack, children), |size|)
    ensures Work(size, Visited(stack, children)) < Work(size, stack)
  {
    var last := |stack| - 1;
    WorkMark(size, stack);
    PushOwes(size, stack[last := stack[last].(visited := true)], children, stack[last].node, last, 0);
  }

  // ---- folding the top entry into its parent

  /** The top entry owes nothing to itself, so an open top node has its full size. */
  lemma {:induction false} TopComplete(size: seq<nat>, stack: seq<Frame>, sizes: seq<nat>)
    requires stack != [] && NodesBelow(stack, |size|) && |sizes| == |size|
    requires Linked(stack) && OpenSums(size, stack, sizes) && stack[|stack| - 1].visited
    ensures sizes[stack[|stack| - 1].node] == size[stack[|stack| - 1].node]
  {
    NothingOwed(size, stack, |stack| - 1);
  }

  /** The sizes after the top node's size was added to its parent's. */
  function Credited(sizes: seq<nat>, top: Frame): seq<nat>
    requires top.parent < |sizes| && top.node < |sizes|
  {
    sizes[top.parent := sizes[top.parent] + sizes[top.node]]
  }

  lemma {:induction false} PopOpenSums(size: seq<nat>, stack: seq<Frame>, sizes: seq<nat>)
    requires WalkInvariant(size, stack, sizes) && stack[|stack| - 1].visited && |stack| > 1
    ensures stack[|stack| - 1].parent < |sizes|
    ensures NodesBelow(stack[..|stack| - 1], |size|)
    ensures OpenSums(size, stack[..|stack| - 1], Credited(sizes, stack[|stack| - 1]))
  {
    var last := |stack| - 1;
    var top, rest := stack[last], stack[..last];
    TopComplete(size, stack, sizes);
    var updated := Credited(sizes, top);
    forall p | 0 <= p < |rest| && rest[p].visited
      ensures updated[rest[p].node] + Owed(size, rest, p) == size[rest[p].node]
    {
      assert Owed(size, stack, p) == Owed(size, rest, p) + (if top.up == p then size[top.node] else 0);
    }
  }

  lemma {:induction false} PopOthers(size: seq<nat>, stack: seq<Frame>, sizes: seq<nat>)
    requires WalkInvariant(size, stack, sizes) && stack[|stack| - 1].visited && |stack| > 1
    requires stack[|stack| - 1].parent < |sizes|
    ensures OthersMemoized(size, stack[..|stack| - 1], Credited(sizes, stack[|stack| - 1]))
  {
    var last := |stack| - 1;
    var top, rest := stack[last], stack[..last];
    TopComplete(size, stack, sizes);
    forall i: nat | i < |sizes| && !IsOpen(rest, i)
      ensures i != top.parent && (i == top.node || !IsOpen(stack, i))
    {
      assert rest[top.up].visited && rest[top.up].node == top.parent;
      if IsOpen(stack, i) {
        OpenBelowTop(stack, i);
      }
    }
  }

  lemma {:induction false} PopStep(size: seq<nat>, stack: seq<Frame>, sizes: seq<nat>)
    requires WalkInvariant(size, stack, sizes) && stack[|stack| - 1].visited && |stack| > 1
    ensures stack[|stack| - 1].parent < |sizes|
    ensures WalkInvariant(size, stack[..|stack| - 1], Credited(sizes, stack[|stack| - 1]))
    ensures Work(size, stack[..|stack| - 1]) < Work(size, stack)
    ensures stack[..|stack| - 1][0] == stack[0]
  {
    PopOpenSums(size, stack, sizes);
    PopOthers(size, stack, sizes);
    PopShape(stack);
    PopWork(size, stack);
  }

  lemma {:induction false} PopShape(stack: seq<Frame>)
    requires |stack| > 1 && Nested(stack) && Linked(stack)
    ensures Nested(stack[..|stack| - 1]) && Linked(stack[..|stack| - 1])
    ensures stack[..|stack| - 1][0] == stack[0]
  {
  }

  lemma {:induction false} PopWork(size: seq<nat>, stack: seq<Frame>)
    requires stack != [] && NodesBelow(stack, |size|) && stack[|stack| - 1].visited
    ensures NodesBelow(stack[..|stack| - 1], |size|)
    ensures Work(size, stack[..|stack| - 1]) < Work(size, stack)
  {
  }

  /**
    Compute the size of the subtree at `root`, reusing and extending the memoized sizes.
    An invalid root has size zero.
  */
  method ComputeTreeSize(script: Script, root: nat, memo: seq<nat>) returns (count: nat, sizes: seq<nat>)
    requires script.Valid()
    requires MemoValid(SizeTable(script), memo)
    ensures count == if root < |script.nodes| then Size(Unfold(script, root)) else 0
    ensures MemoValid(SizeTable(script), sizes)
  {
    sizes := memo;
    if root >= |script.nodes| {
      return 0, sizes;
    }
    if |sizes| != |script.nodes| {
      sizes := seq(|script.nodes|, _ => 0);
    } else if sizes[root] > 0 {
      return sizes[root], sizes;
    }
    SizeTableAdditive(script);
    count, sizes := WalkTree(script, root, sizes, SizeTable(script));
  }

  method WalkTree(script: Script, root: nat, memo: seq<nat>, ghost size: seq<nat>) returns (count: nat, sizes: seq<nat>)
    requires script.Valid() && root < |script.nodes| == |memo|
    requires SizesAdditive(script, size) && MemoValid(size, memo)
    ensures count == size[root]
    ensures MemoValid(size, sizes)
  {
    sizes := memo;
    var pending := [Frame(root, root, false, 0)];
    while |pending| > 1 || !pending[0].visited
      invariant WalkInvariant(size, pending, sizes) && pending[0].node == root
      decreases Work(size, pending)
    {
      pending, sizes := Advance(script, pending, sizes, size);
    }
    AllMemoized(size, pending, sizes);
    count := sizes[root];
  }

  method Advance(script: Script, stack: seq<Frame>, memo: seq<nat>, ghost size: seq<nat>)
    returns (pending: seq<Frame>, sizes: seq<nat>)
    requires script.Valid() && SizesAdditive(script, size)
    requires WalkInvariant(size, stack, memo) && (|stack| > 1 || !stack[0].visited)
    ensures WalkInvariant(size, pending, sizes) && pending[0].node == stack[0].node
    ensures Work(size, pending) < Work(size, stack)
  {
    if stack[|stack| - 1].visited {
      pending, sizes := FoldTop(stack, memo, size);
    } else {
      pending, sizes := VisitTop(script, stack, memo, size);
    }
  }

  /** The top entry's children were all summed: add its size to its parent and pop it. */
  method FoldTop(stack: seq<Frame>, memo: seq<nat>, ghost size: seq<nat>) returns (pending: seq<Frame>, sizes: seq<nat>)
    requires WalkInvariant(size, stack, memo) && stack[|stack| - 1].visited && |stack| > 1
    ensures WalkInvariant(size, pending, sizes) && pending[0].node == stack[0].node
    ensures Work(size, pending) < Work(size, stack)
  {
    PopStep(size, stack, memo);
    sizes := Credited(memo, stack[|stack| - 1]);
    pending := stack[..|stack| - 1];
  }

  /** Count the top node itself, mark it visited and push its children. */
  method VisitTop(script: Script, stack: seq<Frame>, memo: seq<nat>, ghost size: seq<nat>)
    returns (pending: seq<Frame>, sizes: seq<nat>)
    requires script.Valid() && SizesAdditive(script, size)
    requires WalkInvariant(size, stack, memo) && !stack[|stack| - 1].visited
    ensures WalkInvariant(size, pending, sizes) && pending[0].node == stack[0].node
    ensures Work(size, pending) < Work(size, stack)
  {
    var last := |stack| - 1;
    var top := stack[last];
    var children := RawChildren(script, top.node);
    VisitStep(size, stack, children, memo);
    sizes := memo[top.node := 1];
    var pushed := PushChildren(children, top.node, last);
    pending := stack[last := top.(visited := true)] + pushed;
    assert pending == Visited(stack, children);
  }

  lemma {:induction false} AllMemoized(size: seq<nat>, stack: seq<Frame>, sizes: seq<nat>)
    requires WalkInvariant(size, stack, sizes) && |stack| == 1 && stack[0].visited
    ensures MemoValid(size, sizes) && sizes[stack[0].node] == size[stack[0].node]
  {
    TopComplete(size, stack, sizes);
    forall i: nat | i < |sizes|
      ensures sizes[i] == 0 || sizes[i] == size[i]
    {
      if IsOpen(stack, i) {
        OpenBelowTop(stack, i);
      }
    }
  }

  method PushChildren(children: seq<nat>, parent: nat, ghost up: nat) returns (frames: seq<Frame>)
    ensures frames == Frames(children, parent, up)
  {
    frames := [];
    for i := 0 to |children|
      invariant frames == Frames(children[..i], parent, up)
    {
      assert children[..i + 1][..i] == children[..i];
      frames := frames + [Frame(children[i], parent, false, up)];
    }
    assert children[..|children|] == children;
  }
}
