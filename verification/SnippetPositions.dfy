/** Where extraction puts the nodes of a tree, and what becomes of the values that it overwrites. */
module SnippetPositions {
  import opened Ast
  import opened Collections
  import opened SnippetShapes
  import opened SnippetLayout
  import opened SnippetForward
  import opened SnippetWalk
  import opened SnippetExtract

  // ---------------------------------------------------------------- paths

  /** The path of child numbers leads from node `i` to node `j`. */
  ghost predicate Leads(view: View, i: nat, path: seq<nat>, j: nat)
    decreases |path|
  {
    if path == [] then i == j
    else
      && i < |view.nodes| && path[0] < view.ChildCount(i)
      && Leads(view, view.nodes[i].childrenBeginOrValue + path[0], path[1..], j)
  }

  ghost predicate IsPath(shape: Shape, path: seq<nat>) {
    path == [] || (path[0] < |shape.children| && IsPath(shape.children[path[0]], path[1..]))
  }

  ghost function ShapeBelow(shape: Shape, path: seq<nat>): Shape
    requires IsPath(shape, path)
  {
    if path == [] then shape else ShapeBelow(shape.children[path[0]], path[1..])
  }

  /** A path of the tree leads to the node that stands for its end. */
  lemma {:induction false} PathLeads(view: View, i: nat, path: seq<nat>, skip: bool) returns (j: nat)
    requires view.Valid() && i < |view.nodes| && IsPath(ShapeAt(view, i, skip), path)
    ensures Leads(view, i, path, j) && j < |view.nodes|
    ensures ShapeBelow(ShapeAt(view, i, skip), path) == ShapeAt(view, j, skip)
    decreases |path|
  {
    if path == [] {
      return i;
    }
    ShapeFields(view, i, skip);
    j := PathLeads(view, view.nodes[i].childrenBeginOrValue + path[0], path[1..], skip);
  }

  lemma {:induction false} LeadsIsPath(view: View, i: nat, path: seq<nat>, j: nat, skip: bool)
    requires view.Valid() && i < |view.nodes| && Leads(view, i, path, j)
    ensures IsPath(ShapeAt(view, i, skip), path) && j < |view.nodes|
    ensures ShapeBelow(ShapeAt(view, i, skip), path) == ShapeAt(view, j, skip)
    decreases |path|
  {
    if path != [] {
      ShapeFields(view, i, skip);
      var child := ShapeAt(view, i, skip).children[path[0]];
      assert view.nodes[i].childrenBeginOrValue + path[0] < i;
      LeadsIsPath(view, view.nodes[i].childrenBeginOrValue + path[0], path[1..], j, skip);
    }
  }

  lemma {:induction false} LeadsFurther(view: View, i: nat, path: seq<nat>, j: nat, k: nat)
    requires Leads(view, i, path, j) && j < |view.nodes| && k < view.ChildCount(j)
    ensures Leads(view, i, path + [k], view.nodes[j].childrenBeginOrValue + k)
    decreases |path|
  {
    if path == [] {
      assert path + [k] == [k] && [k][1..] == [];
    } else {
      LeadsFurther(view, view.nodes[i].childrenBeginOrValue + path[0], path[1..], j, k);
      assert (path + [k])[1..] == path[1..] + [k];
    }
  }

  /** Every node of a snippet is reached from the root. */
  lemma {:induction false} EveryNodeHasPath(view: View, i: nat) returns (path: seq<nat>)
    requires Tiled(view.nodes) && i < |view.nodes|
    ensures Leads(view, |view.nodes| - 1, path, i)
    decreases |view.nodes| - i
  {
    path := [];
    if i < |view.nodes| - 1 {
      assert HasParent(view.nodes, i);
      var q: nat :| q < |view.nodes| && InBlock(view.nodes, q, i);
      path := EveryNodeHasPath(view, q);
      LeadsFurther(view, |view.nodes| - 1, path, q, i - view.nodes[q].childrenBeginOrValue);
      path := path + [i - view.nodes[q].childrenBeginOrValue];
    }
  }

  // ---------------------------------------------------------------- pre-order

  ghost function PreOrder(shape: Shape): (r: seq<Shape>)
    ensures |r| > 0
  {
    [shape] + PreOrders(shape.children)
  }

  ghost function PreOrders(shapes: seq<Shape>): seq<Shape> {
    if shapes == [] then [] else PreOrder(shapes[0]) + PreOrders(shapes[1..])
  }

  /** The position of a node in pre-order. */
  ghost function Rank(shape: Shape, path: seq<nat>): nat
    requires IsPath(shape, path)
  {
    if path == [] then 0
    else 1 + |PreOrders(shape.children[..path[0]])| + Rank(shape.children[path[0]], path[1..])
  }

  /** How many nodes have their parent in the list. */
  ghost function Children(shapes: seq<Shape>): nat {
    if shapes == [] then 0 else |shapes[0].children| + Children(shapes[1..])
  }

  /** How many nodes have a parent that comes after the node at `path` in pre-order. */
  ghost function PlacedAfter(shape: Shape, path: seq<nat>): nat
    requires IsPath(shape, path)
  {
    RankInRange(shape, path);
    Children(PreOrder(shape)[Rank(shape, path) + 1..])
  }

  lemma {:induction false} PreOrdersAppend(a: seq<Shape>, b: seq<Shape>)
    ensures PreOrders(a + b) == PreOrders(a) + PreOrders(b)
  {
    if a == [] {
      assert a + b == b;
    } else {
      PreOrdersAppend(a[1..], b);
      assert (a + b)[1..] == a[1..] + b;
      Associative(PreOrder(a[0]), PreOrders(a[1..]), PreOrders(b));
    }
  }

  lemma {:induction false} ChildrenAppend(a: seq<Shape>, b: seq<Shape>)
    ensures Children(a + b) == Children(a) + Children(b)
  {
    if a == [] {
      assert a + b == b;
    } else {
      ChildrenAppend(a[1..], b);
      assert (a + b)[1..] == a[1..] + b;
    }
  }

  /** The nodes before, in and after the subtree of a child. */
  lemma {:induction false} PreOrderSplit(shape: Shape, k: nat)
    requires k < |shape.children|
    ensures PreOrder(shape) ==
      [shape] + PreOrders(shape.children[..k]) + PreOrder(shape.children[k]) + PreOrders(shape.children[k + 1..])
  {
    var ch := shape.children;
    assert ch == ch[..k] + ch[k..] && ch[k..][0] == ch[k] && ch[k..][1..] == ch[k + 1..];
    PreOrdersAppend(ch[..k], ch[k..]);
  }

  lemma {:induction false} RankInRange(shape: Shape, path: seq<nat>)
    requires IsPath(shape, path)
    ensures Rank(shape, path) < |PreOrder(shape)|
  {
    if path != [] {
      PreOrderSplit(shape, path[0]);
      RankInRange(shape.children[path[0]], path[1..]);
    }
  }

  /** The node at `path` stands at its rank. */
  lemma {:induction false} RankIsPosition(shape: Shape, path: seq<nat>)
    requires IsPath(shape, path)
    ensures Rank(shape, path) < |PreOrder(shape)|
    ensures PreOrder(shape)[Rank(shape, path)] == ShapeBelow(shape, path)
  {
    if path != [] {
      PreOrderSplit(shape, path[0]);
      RankIsPosition(shape.children[path[0]], path[1..]);
    }
  }

  lemma {:induction false} SuffixOfParts<T>(a: seq<T>, b: seq<T>, c: seq<T>, n: nat)
    requires n <= |b|
    ensures (a + b + c)[|a| + n..] == b[n..] + c
  {
  }

  lemma {:induction false} PlacedAfterChild(shape: Shape, path: seq<nat>)
    requires IsPath(shape, path) && path != []
    ensures PlacedAfter(shape, path) ==
      PlacedAfter(shape.children[path[0]], path[1..]) + Children(PreOrders(shape.children[path[0] + 1..]))
  {
    var k := path[0];
    var front, middle, back :=
      [shape] + PreOrders(shape.children[..k]), PreOrder(shape.children[k]), PreOrders(shape.children[k + 1..]);
    PreOrderSplit(shape, k);
    RankInRange(shape.children[k], path[1..]);
    var n := Rank(shape.children[k], path[1..]) + 1;
    SuffixOfParts(front, middle, back, n);
    ChildrenAppend(middle[n..], back);
  }

  // ---------------------------------------------------------------- sizes

  /** The nodes below a list of roots. */
  ghost function Below(shapes: seq<Shape>): nat {
    Children(PreOrders(shapes))
  }

  lemma {:induction false} BelowRoot(shape: Shape)
    ensures Children(PreOrder(shape)) == |shape.children| + Below(shape.children)
  {
    assert PreOrder(shape)[1..] == PreOrders(shape.children);
  }

  lemma {:induction false} BelowFront(shapes: seq<Shape>)
    requires shapes != []
    ensures Below(shapes) == Children(PreOrder(shapes[0])) + Below(shapes[1..])
  {
    ChildrenAppend(PreOrder(shapes[0]), PreOrders(shapes[1..]));
  }

  lemma {:induction false} BelowSplit(shapes: seq<Shape>, k: nat)
    requires k < |shapes|
    ensures Below(shapes) == Below(shapes[..k]) + Children(PreOrder(shapes[k])) + Below(shapes[k + 1..])
    ensures Below(shapes[..k + 1]) == Below(shapes[..k]) + Children(PreOrder(shapes[k]))
  {
    BelowAppend(shapes[..k], shapes[k..]);
    assert shapes == shapes[..k] + shapes[k..];
    BelowFront(shapes[k..]);
    assert shapes[k..][1..] == shapes[k + 1..];
    TakeNext(shapes, k);
    BelowAppend(shapes[..k], [shapes[k]]);
    BelowFront([shapes[k]]);
    assert [shapes[k]][1..] == [] && Below([]) == 0;
  }

  lemma {:induction false} BelowAppend(a: seq<Shape>, b: seq<Shape>)
    ensures Below(a + b) == Below(a) + Below(b)
  {
    PreOrdersAppend(a, b);
    ChildrenAppend(PreOrders(a), PreOrders(b));
  }

  // ---------------------------------------------------------------- where the layout puts a tree

  /** Only containers have children. */
  ghost predicate LeavesBare(shape: Shape) {
    && (!IsContainer(shape.nodeType) ==> shape.children == [])
    && forall k :: 0 <= k < |shape.children| ==> LeavesBare(shape.children[k])
  }

  lemma {:induction false} ShapesAreBare(view: View, i: nat, skip: bool)
    requires view.Valid() && i < |view.nodes|
    ensures LeavesBare(ShapeAt(view, i, skip))
    decreases i
  {
    ShapeFields(view, i, skip);
    forall k | 0 <= k < |ShapeAt(view, i, skip).children|
      ensures LeavesBare(ShapeAt(view, i, skip).children[k])
    {
      var child := ShapeAt(view, i, skip).children[k];
      ShapesAreBare(view, view.nodes[i].childrenBeginOrValue + k, skip);
    }
  }

  /** Where the children of the `k`-th of `shapes` are placed, if the first one's stand at `base`. */
  ghost function BaseOf(shapes: seq<Shape>, base: nat, k: nat): nat
    requires k <= |shapes|
  {
    base + |shapes| + Below(shapes[..k])
  }

  ghost predicate ChildPlaced(cells: seq<Cell>, shapes: seq<Shape>, base: nat, k: nat)
    requires k < |shapes|
    decreases shapes, 0
  {
    Placed(cells, shapes[k], base + (|shapes| - 1 - k), BaseOf(shapes, base, k))
  }

  /** The cell of a node at `o`, its children from `base` on, last child first, and so on below. */
  ghost predicate Placed(cells: seq<Cell>, shape: Shape, o: nat, base: nat)
    decreases shape, 1
  {
    && o < |cells| && (IsContainer(shape.nodeType) ==> cells[o].begin == base)
    && forall k: nat :: k < |shape.children| ==> ChildPlaced(cells, shape.children, base, k)
  }

  /** Cells that agree where a subtree stands. */
  ghost predicate Agree(cells: seq<Cell>, more: seq<Cell>, o: nat, base: nat, end: nat) {
    && end <= |cells| <= |more| && o < |cells| && cells[o] == more[o]
    && forall p :: base <= p < end ==> cells[p] == more[p]
  }

  lemma {:induction false} ChildRange(shapes: seq<Shape>, base: nat, k: nat)
    requires k < |shapes|
    ensures BaseOf(shapes, base, k) + Children(PreOrder(shapes[k])) == BaseOf(shapes, base, k + 1)
    ensures BaseOf(shapes, base, k + 1) <= base + |shapes| + Below(shapes)
  {
    BelowSplit(shapes, k);
  }

  lemma {:induction false} PlacedStays(cells: seq<Cell>, more: seq<Cell>, shape: Shape, o: nat, base: nat)
    requires Placed(cells, shape, o, base)
    requires Agree(cells, more, o, base, base + Children(PreOrder(shape)))
    ensures Placed(more, shape, o, base)
    decreases shape
  {
    BelowRoot(shape);
    forall k: nat | k < |shape.children|
      ensures ChildPlaced(more, shape.children, base, k)
    {
      assert ChildPlaced(cells, shape.children, base, k);
      ChildRange(shape.children, base, k);
      PlacedStays(
        cells, more, shape.children[k], base + (|shape.children| - 1 - k), BaseOf(shape.children, base, k));
    }
  }

  /** The walk places a whole subtree before it turns to the tasks below it on the stack. */
  lemma {:induction false} RunTask(l: Layout, rest: seq<Task>, shape: Shape, o: nat) returns (m: Layout)
    requires TasksInRange(l) && l.tasks == rest + [Task(shape, o)] && LeavesBare(shape)
    ensures m.tasks == rest && TasksInRange(m) && Finish(l) == Finish(m)
    ensures |m.cells| == |l.cells| + Children(PreOrder(shape))
    ensures forall p :: 0 <= p < |l.cells| && p != o ==> m.cells[p] == l.cells[p]
    ensures Placed(m.cells, shape, o, |l.cells|)
    decreases shape, 0
  {
    TopOf(l, rest, Task(shape, o));
    StepInRange(l);
    BelowRoot(shape);
    m := Step(l);
    if IsContainer(shape.nodeType) {
      StepContainer(l, rest, shape, o);
      m := RunChildren(m, rest, shape.children, 0, |l.cells|);
    } else {
      assert PreOrders(shape.children) == [] && Children([]) == 0;
    }
  }

  lemma {:induction false} TopOf(l: Layout, rest: seq<Task>, task: Task)
    requires l.tasks == rest + [task]
    ensures l.tasks != [] && l.tasks[|l.tasks| - 1] == task && l.tasks[..|l.tasks| - 1] == rest
  {
  }

  lemma {:induction false} StepContainer(l: Layout, rest: seq<Task>, shape: Shape, o: nat)
    requires TasksInRange(l) && l.tasks == rest + [Task(shape, o)] && IsContainer(shape.nodeType)
    ensures l.tasks != [] && l.tasks[|l.tasks| - 1].output < |l.cells|
    ensures Step(l).tasks == rest + Remaining(shape.children, 0, |l.cells|)
    ensures |Step(l).cells| == BaseOf(shape.children, |l.cells|, 0)
    ensures o < |l.cells| && Step(l).cells[o].begin == |l.cells|
    ensures forall p :: 0 <= p < |l.cells| && p != o ==> Step(l).cells[p] == l.cells[p]
  {
    TopOf(l, rest, Task(shape, o));
    assert shape.children[..0] == [] && Below([]) == 0;
    RemainingAll(shape.children, |l.cells|);
  }

  /** The tasks of the children from the `k`-th on: the first one is on top. */
  ghost function Remaining(shapes: seq<Shape>, k: nat, base: nat): (r: seq<Task>)
    requires k <= |shapes|
    ensures |r| == |shapes| - k
    ensures forall j :: 0 <= j < |r| ==> r[j] == Task(shapes[|shapes| - 1 - j], base + j)
  {
    seq(|shapes| - k, j requires 0 <= j < |shapes| - k => Task(shapes[|shapes| - 1 - j], base + j))
  }

  lemma {:induction false} RemainingAll(shapes: seq<Shape>, base: nat)
    ensures NewTasks(Reversed(shapes), base) == Remaining(shapes, 0, base)
  {
  }

  lemma {:induction false} RemainingTop(rest: seq<Task>, shapes: seq<Shape>, k: nat, base: nat)
    requires k < |shapes|
    ensures rest + Remaining(shapes, k, base)
         == (rest + Remaining(shapes, k + 1, base)) + [Task(shapes[k], base + (|shapes| - 1 - k))]
  {
    assert Remaining(shapes, k, base) == Remaining(shapes, k + 1, base) + [Task(shapes[k], base + (|shapes| - 1 - k))];
  }

  ghost predicate FirstPlaced(cells: seq<Cell>, shapes: seq<Shape>, base: nat, k: nat)
    requires k <= |shapes|
  {
    forall j: nat :: j < k ==> ChildPlaced(cells, shapes, base, j)
  }

  /** The children before the `k`-th stay where they are while the `k`-th is placed. */
  lemma {:induction false} FirstStay(cells: seq<Cell>, more: seq<Cell>, shapes: seq<Shape>, base: nat, k: nat)
    requires k < |shapes| && FirstPlaced(cells, shapes, base, k)
    requires |cells| == BaseOf(shapes, base, k) && |cells| <= |more|
    requires forall p :: 0 <= p < |cells| && p != base + (|shapes| - 1 - k) ==> more[p] == cells[p]
    ensures FirstPlaced(more, shapes, base, k)
  {
    forall j: nat | j < k
      ensures ChildPlaced(more, shapes, base, j)
    {
      ChildRange(shapes, base, j);
      BaseGrows(shapes, base, j + 1, k);
      assert ChildPlaced(cells, shapes, base, j);
      PlacedStays(cells, more, shapes[j], base + (|shapes| - 1 - j), BaseOf(shapes, base, j));
    }
  }

  lemma {:induction false} BaseGrows(shapes: seq<Shape>, base: nat, j: nat, k: nat)
    requires j <= k <= |shapes|
    ensures base + |shapes| <= BaseOf(shapes, base, j) <= BaseOf(shapes, base, k)
    decreases k
  {
    if j < k {
      BaseGrows(shapes, base, j, k - 1);
      BelowSplit(shapes, k - 1);
    }
  }

  /** The walk stands before the `k`-th child of a node whose children start at `base`. */
  ghost predicate AtChild(l: Layout, rest: seq<Task>, shapes: seq<Shape>, k: nat, base: nat)
    requires k <= |shapes|
  {
    && TasksInRange(l) && l.tasks == rest + Remaining(shapes, k, base)
    && |l.cells| == BaseOf(shapes, base, k) && FirstPlaced(l.cells, shapes, base, k)
  }

  lemma {:induction false} RunChild(l: Layout, rest: seq<Task>, shapes: seq<Shape>, k: nat, base: nat)
    returns (m: Layout)
    requires k < |shapes| && AtChild(l, rest, shapes, k, base) && LeavesBare(shapes[k])
    ensures AtChild(m, rest, shapes, k + 1, base) && Finish(l) == Finish(m)
    ensures base <= |l.cells| <= |m.cells| && forall p :: 0 <= p < base ==> m.cells[p] == l.cells[p]
    decreases shapes, 0
  {
    RemainingTop(rest, shapes, k, base);
    m := RunTask(l, rest + Remaining(shapes, k + 1, base), shapes[k], base + (|shapes| - 1 - k));
    ChildRange(shapes, base, k);
    BaseGrows(shapes, base, 0, k);
    FirstStay(l.cells, m.cells, shapes, base, k);
  }

  lemma {:induction false} RunChildren(l: Layout, rest: seq<Task>, shapes: seq<Shape>, k: nat, base: nat)
    returns (m: Layout)
    requires k <= |shapes| && AtChild(l, rest, shapes, k, base)
    requires forall j :: 0 <= j < |shapes| ==> LeavesBare(shapes[j])
    ensures m.tasks == rest && TasksInRange(m) && Finish(l) == Finish(m)
    ensures |m.cells| == base + |shapes| + Below(shapes)
    ensures base <= |l.cells| <= |m.cells| && forall p :: 0 <= p < base ==> m.cells[p] == l.cells[p]
    ensures FirstPlaced(m.cells, shapes, base, |shapes|)
    decreases shapes, 1, |shapes| - k
  {
    if k == |shapes| {
      assert Remaining(shapes, k, base) == [] && shapes[..k] == shapes;
      BaseGrows(shapes, base, 0, k);
      m := l;
    } else {
      var next := RunChild(l, rest, shapes, k, base);
      m := RunChildren(next, rest, shapes, k + 1, base);
    }
  }

  /** The canonical layout places the root at 0, its children from 1 on, and so on in pre-order. */
  lemma {:induction false} CanonicalPlaced(shape: Shape)
    requires LeavesBare(shape)
    ensures |CanonicalCells(shape)| == 1 + Children(PreOrder(shape))
    ensures Placed(CanonicalCells(shape), shape, 0, 1)
  {
    var l := Start(shape);
    assert l.tasks == [] + [Task(shape, 0)];
    var m := RunTask(l, [], shape, 0);
    FinishedCells(m);
  }

  // ---------------------------------------------------------------- child offsets in a snippet

  /** A node of a snippet and the cell of the layout it realises. */
  ghost predicate NodePlaced(
      view: View, cells: seq<Cell>, skip: bool, shape: Shape, i: nat, o: nat, base: nat)
    requires view.Valid()
  {
    && LaidOutAs(view, cells, skip) && Placed(cells, shape, o, base)
    && i < |view.nodes| && i + o + 1 == |cells| && shape == ShapeAt(view, i, skip)
  }

  lemma {:induction false} OffsetHere(
      view: View, cells: seq<Cell>, skip: bool, shape: Shape, i: nat, o: nat, base: nat)
    requires view.Valid() && NodePlaced(view, cells, skip, shape, i, o, base)
    ensures IsContainer(view.nodes[i].nodeType) ==>
      view.nodes[i].childrenBeginOrValue + base + |shape.children| == |cells|
  {
    ShapeFields(view, i, skip);
    assert Realises(view, cells[o], |cells| - 1 - o, skip);
  }

  lemma {:induction false} ChildNodePlaced(
      view: View, cells: seq<Cell>, skip: bool, shape: Shape, i: nat, o: nat, base: nat, k: nat)
    requires view.Valid() && NodePlaced(view, cells, skip, shape, i, o, base) && k < view.ChildCount(i)
    ensures k < |shape.children|
    ensures NodePlaced(
      view, cells, skip, shape.children[k], view.nodes[i].childrenBeginOrValue + k,
      base + (|shape.children| - 1 - k), BaseOf(shape.children, base, k))
  {
    ShapeFields(view, i, skip);
    OffsetHere(view, cells, skip, shape, i, o, base);
    assert ChildPlaced(cells, shape.children, base, k);
  }

  /** The child offset of a node in a subtree, counted from the end of the subtree's block. */
  lemma {:induction false} OffsetBelow(
      view: View, cells: seq<Cell>, skip: bool, shape: Shape, i: nat, o: nat, base: nat, path: seq<nat>, j: nat)
    requires view.Valid() && NodePlaced(view, cells, skip, shape, i, o, base) && Leads(view, i, path, j)
    ensures j < |view.nodes| && IsPath(shape, path)
    ensures IsContainer(view.nodes[j].nodeType) ==>
      view.nodes[j].childrenBeginOrValue + base + Children(PreOrder(shape)) == |cells| + PlacedAfter(shape, path)
    decreases |path|
  {
    BelowRoot(shape);
    if path == [] {
      OffsetHere(view, cells, skip, shape, i, o, base);
      assert PreOrder(shape)[1..] == PreOrders(shape.children);
    } else {
      var k := path[0];
      ChildNodePlaced(view, cells, skip, shape, i, o, base, k);
      OffsetBelow(
        view, cells, skip, shape.children[k], view.nodes[i].childrenBeginOrValue + k,
        base + (|shape.children| - 1 - k), BaseOf(shape.children, base, k), path[1..], j);
      BelowSplit(shape.children, k);
      PlacedAfterChild(shape, path);
    }
  }

  /**
    In a snippet the child offset of every container is the number of nodes whose parent comes after the
    container in pre-order.
  */
  lemma {:induction false} ChildOffset(source: Source, out: Snippet, path: seq<nat>, j: nat)
    requires source.Valid() && IsSnippetOf(source, out)
    requires Leads(out.AsView(), out.rootNodeId, path, j)
    ensures j < |out.nodes| && IsPath(RootShape(source, false), path)
    ensures IsContainer(out.nodes[j].nodeType) ==>
      out.nodes[j].childrenBeginOrValue == PlacedAfter(RootShape(source, false), path)
  {
    var shape := RootShape(source, false);
    var view, cells := out.AsView(), CanonicalCells(shape);
    assert ShapeAt(view, out.rootNodeId, false) == shape && LaidOutAs(view, cells, false);
    ShapesAreBare(view, out.rootNodeId, false);
    CanonicalPlaced(shape);
    OffsetBelow(view, cells, false, shape, out.rootNodeId, 0, 1, path, j);
  }

  // ---------------------------------------------------------------- visualisation enums lose their value

  /** The same path leads to a node of the snippet and to the node it was copied from. */
  lemma {:induction false} SamePath(source: Source, out: Snippet, path: seq<nat>, i: nat, s: nat)
    requires source.Valid() && IsSnippetOf(source, out)
    requires Leads(out.AsView(), out.rootNodeId, path, i) && Leads(source.View(), source.root, path, s)
    ensures i < |out.nodes| && s < |source.script.nodes|
    ensures out.nodes[i].nodeType == source.script.nodes[s].nodeType
  {
    LeadsIsPath(out.AsView(), out.rootNodeId, path, i, false);
    LeadsIsPath(source.View(), source.root, path, s, false);
    var shape := ShapeAt(source.View(), source.root, false);
    assert ShapeAt(out.AsView(), out.rootNodeId, false) == shape.(key := NONE);
    ShapeFields(out.AsView(), i, false);
    ShapeFields(source.View(), s, false);
    if path != [] {
      assert shape.(key := NONE).children == shape.children;
    }
  }

  /** Every position of a snippet and the node it was copied from are the ends of one path. */
  lemma {:induction false} EveryPositionHasSource(source: Source, out: Snippet, i: nat)
    returns (path: seq<nat>, s: nat)
    requires source.Valid() && IsSnippetOf(source, out) && i < |out.nodes|
    ensures Leads(out.AsView(), out.rootNodeId, path, i) && Leads(source.View(), source.root, path, s)
  {
    path := EveryNodeHasPath(out.AsView(), i);
    LeadsIsPath(out.AsView(), out.rootNodeId, path, i, false);
    var shape := ShapeAt(source.View(), source.root, false);
    assert ShapeAt(out.AsView(), out.rootNodeId, false) == shape.(key := NONE);
    assert shape.(key := NONE).children == shape.children;
    assert IsPath(shape, path);
    s := PathLeads(source.View(), source.root, path, false);
  }

  /** The image of a path's end is the end of the same path. */
  lemma {:induction false} ImageOfPath(a: View, b: View, image: seq<nat>, i: nat, path: seq<nat>, j: nat, s: nat)
    requires a.Valid() && |image| == |a.nodes| && ChildrenFollow(a.nodes, b.nodes, image)
    requires i < |image| && Leads(a, i, path, j) && Leads(b, image[i], path, s)
    ensures j < |image| && image[j] == s
    decreases |path|
  {
    if path != [] {
      var c := a.nodes[i].childrenBeginOrValue + path[0];
      assert InBlock(a.nodes, i, c);
      ImageOfPath(a, b, image, c, path[1..], j, s);
    }
  }

  /** A position and the node of the script at the end of the same path say the same, spans included. */
  lemma {:induction false} NodeOfPath(source: Source, out: Snippet, path: seq<nat>, i: nat, s: nat)
    requires source.Valid() && IsSnippetOf(source, out)
    requires Leads(out.AsView(), out.rootNodeId, path, i) && Leads(source.View(), source.root, path, s)
    ensures CopiesNode(source, out, i, s)
  {
    var image :| IsImage(source, out, image);
    ImageOfPath(out.AsView(), source.View(), image, out.rootNodeId, path, i, s);
    assert CopiesNode(source, out, i, image[i]);
  }

  lemma {:induction false} SliceInside(text: string, a: nat, b: nat, span: Span)
    requires a <= b <= |text| && span.End() <= b - a
    ensures TextAt(text[a..b], span) == text[a + span.offset..a + span.End()]
  {
    SliceOfSlice(text, a, b, span.offset, span.End());
  }

  /**
    The text of a position in the snippet is the text of its source in the script, and starts as far behind
    the snippet's begin as the source's text behind the root's. This holds for nodes of every type.
  */
  lemma {:induction false} TextOfPath(source: Source, out: Snippet, path: seq<nat>, i: nat, s: nat)
    requires source.Valid() && IsSnippetOf(source, out)
    requires Leads(out.AsView(), out.rootNodeId, path, i) && Leads(source.View(), source.root, path, s)
    ensures i < |out.nodes| && s < |source.script.nodes|
    ensures
      var span, origin := out.nodes[i].span, source.script.SpanOf(s);
      && span.offset + source.script.SpanOf(source.root).offset == origin.offset
      && span.length == origin.length
      && TextAt(out.text, span) == source.script.text[origin.offset..origin.End()]
  {
    NodeOfPath(source, out, path, i, s);
    var range := source.script.SpanOf(source.root);
    SliceInside(source.script.text, range.offset, range.End(), out.nodes[i].span);
  }

  predicate IsVisEnumLeaf(n: Node) {
    ENUM_VIS_ENCODING_CHANNEL <= n.nodeType <= ENUM_VIS_SCALE_TYPE && n.childrenCount == 0
  }

  /**
    A visualisation enum sorts above `OBJECT_KEYS`, so extraction takes its inline value for a child
    index and overwrites it. The value of such a leaf survives exactly when it happens to be the number of
    nodes whose parent comes after the leaf in pre-order.
  */
  lemma {:induction false} VisEnumValueOverwritten(source: Source, out: Snippet, path: seq<nat>, i: nat, s: nat)
    requires source.Valid() && IsSnippetOf(source, out)
    requires Leads(out.AsView(), out.rootNodeId, path, i) && Leads(source.View(), source.root, path, s)
    requires s < |source.script.nodes| && IsVisEnumLeaf(source.script.nodes[s])
    ensures i < |out.nodes| && IsPath(RootShape(source, false), path)
    ensures out.nodes[i].childrenBeginOrValue == PlacedAfter(RootShape(source, false), path)
    ensures out.nodes[i].childrenBeginOrValue == source.script.nodes[s].childrenBeginOrValue <==>
      source.script.nodes[s].childrenBeginOrValue == PlacedAfter(RootShape(source, false), path)
  {
    SamePath(source, out, path, i, s);
    ChildOffset(source, out, path, i);
  }

  /** As the root of a snippet, the value of a visualisation enum survives exactly when it is zero. */
  lemma {:induction false} VisEnumRootOverwritten(source: Source, out: Snippet)
    requires source.Valid() && IsSnippetOf(source, out) && IsVisEnumLeaf(source.script.nodes[source.root])
    ensures |out.nodes| == 1 && out.nodes[0].childrenBeginOrValue == 0
    ensures out.nodes[0].childrenBeginOrValue == source.script.nodes[source.root].childrenBeginOrValue <==>
      source.script.nodes[source.root].childrenBeginOrValue == 0
  {
    var shape := RootShape(source, false);
    VisEnumValueOverwritten(source, out, [], out.rootNodeId, source.root);
    ShapeFields(source.View(), source.root, false);
    assert shape.children == [] && PreOrders(shape.children) == [];
    assert PreOrder(shape)[1..] == [];
    ShapesAreBare(out.AsView(), out.rootNodeId, false);
    CanonicalPlaced(shape);
    assert LaidOutAs(out.AsView(), CanonicalCells(shape), false);
  }
}
