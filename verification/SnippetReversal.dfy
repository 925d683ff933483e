/** Turning the copied nodes around in place, so that children stand before their parents again. */
module SnippetReversal {
  import opened Ast
  import opened SnippetShapes

  /** Can a node be re-indexed within `size` nodes? */
  predicate Patchable(n: Node, size: nat) {
    IsContainer(n.nodeType) ==> n.parent < size && n.ChildrenEnd() <= size
  }

  /** A container's indices after the array was turned around. Leaves are left alone. */
  function Patch(n: Node, size: nat): Node
    requires Patchable(n, size)
  {
    if IsContainer(n.nodeType)
    then n.(parent := size - 1 - n.parent, childrenBeginOrValue := size - n.childrenBeginOrValue - n.childrenCount)
    else n
  }

  ghost predicate AllPatchable(nodes: seq<Node>) {
    forall p :: 0 <= p < |nodes| ==> Patchable(nodes[p], |nodes|)
  }

  ghost function TurnedAround(nodes: seq<Node>): (r: seq<Node>)
    requires AllPatchable(nodes)
    ensures |r| == |nodes|
    ensures forall p :: 0 <= p < |nodes| ==> r[p] == Patch(nodes[|nodes| - 1 - p], |nodes|)
  {
    seq(|nodes|, p requires 0 <= p < |nodes| => Patch(nodes[|nodes| - 1 - p], |nodes|))
  }

  /** All positions outside `left..right` are turned around already, the others are as before. */
  ghost predicate TurnedOutside(was: seq<Node>, now: seq<Node>, left: int, right: int)
    requires AllPatchable(was)
  {
    && |now| == |was| && 0 <= left && left + right == |was| - 1 && left <= right + 1
    && (forall p :: 0 <= p < left ==> now[p] == TurnedAround(was)[p])
    && (forall p :: left <= p <= right ==> now[p] == was[p])
    && (forall p :: right < p < |was| ==> now[p] == TurnedAround(was)[p])
  }

  lemma {:induction false} TurnedFurther(was: seq<Node>, now: seq<Node>, left: nat, right: nat)
    requires AllPatchable(was) && TurnedOutside(was, now, left, right) && left < right
    ensures right < |was| == |now| && Patchable(was[left], |was|) && Patchable(was[right], |was|)
    ensures
      var next := now[left := Patch(was[right], |was|)][right := Patch(was[left], |was|)];
      TurnedOutside(was, next, left + 1, right - 1)
  {
  }

  /** The outermost pair of the rest trades places, and both nodes are patched. */
  method SwapAndPatch(a: array<Node>, left: nat, right: nat, ghost was: seq<Node>)
    requires AllPatchable(was) && TurnedOutside(was, a[..], left, right) && left < right
    modifies a
    ensures TurnedOutside(was, a[..], left + 1, right - 1)
  {
    assert a[left] == a[..][left] && a[right] == a[..][right];
    assert Patchable(was[left], a.Length) && Patchable(was[right], a.Length);
    a[left], a[right] := a[right], a[left];
    a[left] := Patch(a[left], a.Length);
    a[right] := Patch(a[right], a.Length);
    assert a[..] == old(a[..])[left := Patch(was[right], a.Length)][right := Patch(was[left], a.Length)];
    TurnedFurther(was, old(a[..]), left, right);
  }

  /** Swap from both sides and patch every node once; an odd middle node is patched separately. */
  method TurnAround(a: array<Node>)
    requires AllPatchable(a[..])
    modifies a
    ensures a[..] == TurnedAround(old(a[..]))
  {
    ghost var was := a[..];
    var left, right := 0, a.Length - 1;
    while left < right
      invariant TurnedOutside(was, a[..], left, right)
    {
      SwapAndPatch(a, left, right, was);
      left, right := left + 1, right - 1;
    }
    if a.Length % 2 == 1 {
      assert left == right == a.Length / 2;
      assert a[left] == a[..][left] && Patchable(was[left], a.Length);
      a[left] := Patch(a[left], a.Length);
    }
  }
}
