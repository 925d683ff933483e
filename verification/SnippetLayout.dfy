/**
  The canonical layout of a shape: where a pre-order walk with a stack puts its nodes. It is a
  function of the shape alone, so it does not depend on where the nodes were stored before.
*/
module SnippetLayout {
  import opened Collections
  import opened SnippetShapes

  /** A laid-out node; `begin` is the position of its children, once they are placed. */
  datatype Cell = Cell(nodeType: nat, key: nat, content: Content, begin: nat, count: nat)

  /** A shape whose children are still to be placed, and its own position. */
  datatype Task = Task(shape: Shape, output: nat)

  datatype Layout = Layout(cells: seq<Cell>, tasks: seq<Task>)

  function CellOf(shape: Shape): Cell {
    Cell(shape.nodeType, shape.key, shape.content, 0, |shape.children|)
  }

  /** The children in reverse: the walk writes the last child first. */
  function Reversed(children: seq<Shape>): (r: seq<Shape>)
    ensures |r| == |children|
    ensures forall k :: 0 <= k < |r| ==> r[k] == children[|children| - 1 - k]
  {
    seq(|children|, k requires 0 <= k < |children| => children[|children| - 1 - k])
  }

  function NewCells(shapes: seq<Shape>): (r: seq<Cell>)
    ensures |r| == |shapes|
    ensures forall k :: 0 <= k < |r| ==> r[k] == CellOf(shapes[k])
  {
    seq(|shapes|, k requires 0 <= k < |shapes| => CellOf(shapes[k]))
  }

  function NewTasks(shapes: seq<Shape>, base: nat): (r: seq<Task>)
    ensures |r| == |shapes|
    ensures forall k :: 0 <= k < |r| ==> r[k] == Task(shapes[k], base + k)
  {
    seq(|shapes|, k requires 0 <= k < |shapes| => Task(shapes[k], base + k))
  }

  ghost predicate TasksInRange(l: Layout) {
    forall k :: 0 <= k < |l.tasks| ==> l.tasks[k].output < |l.cells|
  }

  /** Place the children of the last task at the end. */
  function Step(l: Layout): (r: Layout)
    requires l.tasks != [] && l.tasks[|l.tasks| - 1].output < |l.cells|
  {
    var top, rest := l.tasks[|l.tasks| - 1], l.tasks[..|l.tasks| - 1];
    if IsContainer(top.shape.nodeType) then
      var children := Reversed(top.shape.children);
      Layout(
        l.cells[top.output := l.cells[top.output].(begin := |l.cells|)] + NewCells(children),
        rest + NewTasks(children, |l.cells|))
    else l.(tasks := rest)
  }

  // ---------------------------------------------------------------- the walk ends

  ghost function SizeOf(shape: Shape): (n: nat)
    ensures n > 0
  {
    1 + SizeOfAll(shape.children)
  }

  ghost function SizeOfAll(shapes: seq<Shape>): nat {
    if shapes == [] then 0 else SizeOf(shapes[0]) + SizeOfAll(shapes[1..])
  }

  ghost function Work(tasks: seq<Task>): nat {
    if tasks == [] then 0 else Work(tasks[..|tasks| - 1]) + SizeOf(tasks[|tasks| - 1].shape)
  }

  lemma {:induction false} WorkAppend(tasks: seq<Task>, shapes: seq<Shape>, base: nat)
    ensures Work(tasks + NewTasks(shapes, base)) == Work(tasks) + SizeOfAll(shapes)
    decreases |shapes|
  {
    if shapes == [] {
      assert NewTasks(shapes, base) == [];
      assert tasks + NewTasks(shapes, base) == tasks;
    } else {
      var t := Task(shapes[0], base);
      NewTasksFront(shapes, base);
      WorkAppend(tasks + [t], shapes[1..], base + 1);
      Associative(tasks, [t], NewTasks(shapes[1..], base + 1));
      assert (tasks + [t])[..|tasks|] == tasks;
    }
  }

  lemma {:induction false} NewTasksFront(shapes: seq<Shape>, base: nat)
    requires shapes != []
    ensures NewTasks(shapes, base) == [Task(shapes[0], base)] + NewTasks(shapes[1..], base + 1)
  {
  }

  lemma {:induction false} SizeOfAllAppend(shapes: seq<Shape>, s: Shape)
    ensures SizeOfAll(shapes + [s]) == SizeOfAll(shapes) + SizeOf(s)
  {
    if shapes == [] {
      assert shapes + [s] == [s];
    } else {
      SizeOfAllAppend(shapes[1..], s);
      assert (shapes + [s])[1..] == shapes[1..] + [s];
    }
  }

  lemma {:induction false} ReversedFront(shapes: seq<Shape>)
    requires shapes != []
    ensures Reversed(shapes) == Reversed(shapes[1..]) + [shapes[0]]
  {
  }

  lemma {:induction false} SizeOfReversed(shapes: seq<Shape>)
    ensures SizeOfAll(Reversed(shapes)) == SizeOfAll(shapes)
  {
    if shapes == [] {
      assert Reversed(shapes) == [];
    } else {
      ReversedFront(shapes);
      SizeOfReversed(shapes[1..]);
      SizeOfAllAppend(Reversed(shapes[1..]), shapes[0]);
    }
  }

  lemma {:induction false} StepWork(l: Layout)
    requires l.tasks != [] && TasksInRange(l)
    ensures Work(Step(l).tasks) < Work(l.tasks)
  {
    var top, rest := l.tasks[|l.tasks| - 1], l.tasks[..|l.tasks| - 1];
    if IsContainer(top.shape.nodeType) {
      WorkAppend(rest, Reversed(top.shape.children), |l.cells|);
      SizeOfReversed(top.shape.children);
    }
  }

  lemma {:induction false} StepInRange(l: Layout)
    requires l.tasks != [] && TasksInRange(l)
    ensures TasksInRange(Step(l))
  {
  }

  /** The cells once no task is left. */
  ghost function Finish(l: Layout): seq<Cell>
    requires TasksInRange(l)
    decreases Work(l.tasks)
  {
    if l.tasks == [] then l.cells
    else
      StepInRange(l);
      StepWork(l);
      Finish(Step(l))
  }

  ghost function Start(shape: Shape): (l: Layout)
    ensures TasksInRange(l)
  {
    Layout([CellOf(shape)], [Task(shape, 0)])
  }

  /** The canonical layout of a shape. */
  ghost function CanonicalCells(shape: Shape): seq<Cell> {
    Finish(Start(shape))
  }
}
