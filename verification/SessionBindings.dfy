/** Why a connection is busy, between critical sections: the converse of registered sessions being active. */
module SessionBindings {
  import opened Collections
  import opened SessionInterleavings

  /** The thread is about to register the session, or to clear its binding. */
  ghost predicate Handles(task: Task, o: Owner, x: Session) {
    (task.Inserting? || IsUnbinding(task)) && task.owner == o && task.session == x
  }

  ghost predicate HandledBy(tasks: map<nat, Task>, t: nat, o: Owner, x: Session) {
    t in tasks && Handles(tasks[t], o, x)
  }

  /** The session is registered for the connection, or some thread is about to register or clear it. */
  ghost predicate Explained(sessions: map<Session, Owner>, tasks: map<nat, Task>, o: Owner, x: Session) {
    (x in sessions && sessions[x] == o) || exists t: nat :: HandledBy(tasks, t, o, x)
  }

  ghost predicate IsBusyWith(objects: map<Owner, Binding>, o: Owner, x: Session) {
    o in objects && objects[o].Get(x.kind) == Some(x.id)
  }

  /** Every session that a connection in the table is busy with is accounted for. */
  ghost predicate BindingsExplained(s: State) {
    forall o, x {:trigger IsBusyWith(s.objects, o, x)} ::
      o in s.live && IsBusyWith(s.objects, o, x) ==> Explained(s.sessions, s.tasks, o, x)
  }

  // ---------------------------------------------------------------- what keeps an explanation

  /** A thread that did not handle the session may do anything else. */
  lemma {:induction false} TaskReplaced(
      sessions: map<Session, Owner>, tasks: map<nat, Task>, thread: nat, task: Task, o: Owner, x: Session)
    requires Explained(sessions, tasks, o, x)
    requires thread in tasks && Handles(tasks[thread], o, x) ==> Handles(task, o, x)
    ensures Explained(sessions, tasks[thread := task], o, x)
  {
    if t: nat :| HandledBy(tasks, t, o, x) {
      assert HandledBy(tasks[thread := task], t, o, x);
    }
  }

  lemma {:induction false} TaskRemoved(
      sessions: map<Session, Owner>, tasks: map<nat, Task>, thread: nat, o: Owner, x: Session)
    requires Explained(sessions, tasks, o, x) && (thread in tasks ==> !Handles(tasks[thread], o, x))
    ensures Explained(sessions, tasks - {thread}, o, x)
  {
    if t: nat :| HandledBy(tasks, t, o, x) {
      assert HandledBy(tasks - {thread}, t, o, x);
    }
  }

  lemma {:induction false} HandledIsExplained(
      sessions: map<Session, Owner>, tasks: map<nat, Task>, thread: nat, o: Owner, x: Session)
    requires HandledBy(tasks, thread, o, x)
    ensures Explained(sessions, tasks, o, x)
  {
  }

  // ---------------------------------------------------------------- steps

  /** Only binding makes a connection busy. */
  lemma {:induction false} BusyBefore(s: State, action: Action, o: Owner, x: Session)
    requires Enabled(s, action) && !action.Bind? && IsBusyWith(Step(s, action).objects, o, x)
    ensures IsBusyWith(s.objects, o, x)
  {
    if action.ClearBinding? {
      var task := s.tasks[action.thread];
      if ActiveFor(s.objects, task.owner, task.session) {
        ClearedIsNotBusy(s.objects, task.owner, task.session.kind, o, x);
      }
    }
  }

  lemma {:induction false} ClearedIsNotBusy(objects: map<Owner, Binding>, p: Owner, kind: Kind, o: Owner, x: Session)
    requires p in objects && IsBusyWith(objects[p := objects[p].With(kind, None)], o, x)
    ensures IsBusyWith(objects, o, x)
  {
  }

  /** A connection that is known before a step is in the table afterwards only if it was before. */
  lemma {:induction false} LiveBefore(s: State, action: Action, o: Owner)
    requires Enabled(s, action) && OwnersKnown(s) && o in s.objects && o in Step(s, action).live
    ensures o in s.live
  {
  }

  lemma {:induction false} BindExplains(s: State, thread: nat, ok: bool, o: Owner, x: Session)
    requires Valid(s) && BindingsExplained(s) && Enabled(s, Bind(thread, ok))
    requires o in s.live && IsBusyWith(Bound(s, thread, ok).objects, o, x)
    ensures Explained(Bound(s, thread, ok).sessions, Bound(s, thread, ok).tasks, o, x)
  {
    var task := s.tasks[thread];
    if !ok || !s.objects[task.owner].IsFree() {
      assert IsBusyWith(s.objects, o, x);
      TaskRemoved(s.sessions, s.tasks, thread, o, x);
    } else {
      var now := Inserting(Session(task.kind, NextId(s, task.kind)), task.owner);
      if o == task.owner {
        BoundIsBusyWith(s.objects, o, task.kind, NextId(s, task.kind), x);
        HandledIsExplained(s.sessions, s.tasks[thread := now], thread, o, x);
      } else {
        assert IsBusyWith(s.objects, o, x);
        TaskReplaced(s.sessions, s.tasks, thread, now, o, x);
      }
    }
  }

  /** A free connection is busy with nothing but the session it is bound to. */
  lemma {:induction false} BoundIsBusyWith(objects: map<Owner, Binding>, o: Owner, kind: Kind, id: nat, x: Session)
    requires o in objects && objects[o].IsFree()
    requires IsBusyWith(objects[o := objects[o].With(kind, Some(id))], o, x)
    ensures x == Session(kind, id)
  {
    var now := objects[o].With(kind, Some(id));
    assert now.Get(kind) == Some(id);
  }

  lemma {:induction false} ClearExplains(s: State, thread: nat, o: Owner, x: Session)
    requires Valid(s) && BindingsExplained(s) && Enabled(s, ClearBinding(thread))
    requires o in s.live && IsBusyWith(s.objects, o, x) && IsBusyWith(Cleared(s, thread).objects, o, x)
    ensures Explained(Cleared(s, thread).sessions, Cleared(s, thread).tasks, o, x)
  {
    assert Explained(s.sessions, s.tasks, o, x);
    TaskRemoved(s.sessions, s.tasks, thread, o, x);
  }

  lemma {:induction false} InsertExplains(
      sessions: map<Session, Owner>, tasks: map<nat, Task>, thread: nat, o: Owner, x: Session)
    requires thread in tasks && tasks[thread].Inserting? && tasks[thread].session !in sessions
    requires Explained(sessions, tasks, o, x)
    ensures Explained(sessions[tasks[thread].session := tasks[thread].owner], tasks - {thread}, o, x)
  {
    var more := sessions[tasks[thread].session := tasks[thread].owner];
    if t: nat :| HandledBy(tasks, t, o, x) {
      if t == thread {
        assert more[x] == o;
      } else {
        assert HandledBy(tasks - {thread}, t, o, x);
      }
    }
  }

  lemma {:induction false} RemoveExplains(
      sessions: map<Session, Owner>, tasks: map<nat, Task>, thread: nat, y: Session, o: Owner, x: Session)
    requires thread !in tasks && y in sessions && Explained(sessions, tasks, o, x)
    ensures Explained(sessions - {y}, tasks[thread := LookingUp(y, sessions[y])], o, x)
  {
    var next := tasks[thread := LookingUp(y, sessions[y])];
    if x in sessions && sessions[x] == o {
      if x == y {
        assert HandledBy(next, thread, o, x);
      }
    } else {
      var t: nat :| HandledBy(tasks, t, o, x);
      assert HandledBy(next, t, o, x);
    }
  }

  lemma {:induction false} LookUpExplains(s: State, thread: nat, o: Owner, x: Session)
    requires Enabled(s, LookUp(thread)) && o in s.live && Explained(s.sessions, s.tasks, o, x)
    ensures Explained(Step(s, LookUp(thread)).sessions, Step(s, LookUp(thread)).tasks, o, x)
  {
    var task := s.tasks[thread];
    if task.owner in s.live {
      TaskReplaced(s.sessions, s.tasks, thread, Clearing(task.session, task.owner), o, x);
    } else {
      TaskRemoved(s.sessions, s.tasks, thread, o, x);
    }
  }

  lemma {:induction false} OtherExplains(s: State, action: Action, o: Owner, x: Session)
    requires Valid(s) && BindingsExplained(s) && Enabled(s, action) && !action.Bind? && o in s.live
    requires IsBusyWith(s.objects, o, x) && IsBusyWith(Step(s, action).objects, o, x)
    requires Explained(s.sessions, s.tasks, o, x)
    ensures Explained(Step(s, action).sessions, Step(s, action).tasks, o, x)
  {
    match action
    case Insert(thread) => InsertExplains(s.sessions, s.tasks, thread, o, x);
    case RemoveSession(thread, session) => RemoveExplains(s.sessions, s.tasks, thread, session, o, x);
    case LookUp(thread) => LookUpExplains(s, thread, o, x);
    case ClearBinding(thread) => ClearExplains(s, thread, o, x);
    case StartSession(thread, kind, owner) =>
      TaskReplaced(s.sessions, s.tasks, thread, Starting(kind, owner), o, x);
    case StartPrepare(thread, owner) => TaskReplaced(s.sessions, s.tasks, thread, Preparing(owner), o, x);
    case InsertStatement(thread) => TaskRemoved(s.sessions, s.tasks, thread, o, x);
    case _ =>
  }

  lemma {:induction false} StepExplains(s: State, action: Action, o: Owner, x: Session)
    requires Valid(s) && BindingsExplained(s) && Enabled(s, action)
    requires o in Step(s, action).live && IsBusyWith(Step(s, action).objects, o, x)
    ensures Explained(Step(s, action).sessions, Step(s, action).tasks, o, x)
  {
    if action.Bind? {
      BindExplains(s, action.thread, action.ok, o, x);
    } else {
      BusyBefore(s, action, o, x);
      LiveBefore(s, action, o);
      OtherExplains(s, action, o, x);
    }
  }

  /** Every critical section keeps busy connections accounted for. */
  lemma {:induction false} StepKeepsExplained(s: State, action: Action)
    requires Valid(s) && BindingsExplained(s) && Enabled(s, action)
    ensures BindingsExplained(Step(s, action))
  {
    var t := Step(s, action);
    forall o, x | o in t.live && IsBusyWith(t.objects, o, x)
      ensures Explained(t.sessions, t.tasks, o, x)
    {
      StepExplains(s, action, o, x);
    }
  }

  // ---------------------------------------------------------------- runs

  /**
    In every interleaving, a connection in the table that is busy with a session has it registered, or some
    thread is about to register it or to clear the binding.
  */
  lemma {:induction false} EveryRunExplains(states: seq<State>, actions: seq<Action>, i: nat)
    requires IsRun(states, actions) && i < |states|
    ensures BindingsExplained(states[i])
  {
    if i > 0 {
      EveryRunExplains(states, actions, i - 1);
      EveryRunIsValid(states, actions, i - 1);
      assert IsStep(states, actions, i - 1);
      StepKeepsExplained(states[i - 1], actions[i - 1]);
    }
  }

  /** While no thread is within a call, bindings and tables agree in both directions. */
  lemma {:induction false} AtRestBothAgree(states: seq<State>, actions: seq<Action>, i: nat, o: Owner, x: Session)
    requires IsRun(states, actions) && i < |states| && states[i].tasks == map[] && o in states[i].live
    ensures IsBusyWith(states[i].objects, o, x) <==> x in states[i].sessions && states[i].sessions[x] == o
  {
    EveryRunExplains(states, actions, i);
    EveryRunIsValid(states, actions, i);
    var s := states[i];
    if IsBusyWith(s.objects, o, x) {
      assert Explained(s.sessions, s.tasks, o, x);
      assert forall t: nat :: !HandledBy(s.tasks, t, o, x);
    }
    if x in s.sessions && s.sessions[x] == o {
      assert ActiveFor(s.objects, s.sessions[x], x);
    }
  }
}
