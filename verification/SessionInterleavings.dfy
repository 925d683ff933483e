/**
  The session tables of the DuckDB proxy under concurrent calls. A step is one critical section; calls are
  split into tasks that threads hold between their critical sections, and removals may come at any time.
*/
module SessionInterleavings {
  import opened Collections

  datatype Owner = Owner(databaseId: nat, connectionId: nat)

  datatype Kind = Stream | Upload

  /** A registered query stream or Arrow upload. */
  datatype Session = Session(kind: Kind, id: nat)

  /** The active ids of a connection. */
  datatype Binding = Binding(stream: Option<nat>, upload: Option<nat>) {
    function Get(kind: Kind): Option<nat> {
      if kind == Stream then stream else upload
    }

    function With(kind: Kind, id: Option<nat>): (r: Binding)
      ensures r.Get(kind) == id
      ensures forall k :: k != kind ==> r.Get(k) == Get(k)
    {
      if kind == Stream then Binding(id, upload) else Binding(stream, id)
    }

    predicate IsFree() {
      stream.None? && upload.None?
    }
  }

  /** What a thread is about to do. */
  datatype Task =
    | Starting(kind: Kind, owner: Owner)
    | Inserting(session: Session, owner: Owner)
    | LookingUp(session: Session, owner: Owner)
    | Clearing(session: Session, owner: Owner)
    | Preparing(owner: Owner)

  /**
    `objects` holds every connection ever made: a thread may hold one that is no longer in the table.
    `live` are the connections in the table.
  */
  datatype State = State(
    nextDatabaseId: nat,
    nextConnectionIds: map<nat, nat>,
    live: set<Owner>,
    objects: map<Owner, Binding>,
    sessions: map<Session, Owner>,
    nextIds: Binding,
    statements: map<nat, Owner>,
    nextStatementId: nat,
    tasks: map<nat, Task>
  )

  datatype Action =
    | CreateDatabase
    | RemoveDatabase(databaseId: nat)
    | ClearConnections(databaseId: nat)
    | Connect(databaseId: nat)
    | RemoveConnection(owner: Owner)
    | StartSession(thread: nat, kind: Kind, owner: Owner)
    | Bind(thread: nat, ok: bool)
    | Insert(thread: nat)
    | RemoveSession(thread: nat, session: Session)
    | LookUp(thread: nat)
    | ClearBinding(thread: nat)
    | StartPrepare(thread: nat, owner: Owner)
    | InsertStatement(thread: nat)
    | RemoveStatement(id: nat)

  function NextId(s: State, kind: Kind): nat {
    if s.nextIds.Get(kind).Some? then s.nextIds.Get(kind).value + 1 else 1
  }

  function OfDatabase(owners: set<Owner>, databaseId: nat): set<Owner> {
    set o | o in owners && o.databaseId == databaseId
  }

  ghost predicate Enabled(s: State, action: Action) {
    match action
    case CreateDatabase => true
    case RemoveDatabase(db) => db in s.nextConnectionIds
    case ClearConnections(db) => db in s.nextConnectionIds
    case Connect(db) => db in s.nextConnectionIds
    case RemoveConnection(owner) => owner in s.live
    case StartSession(thread, _, owner) => thread !in s.tasks && owner in s.live
    case Bind(thread, _) => thread in s.tasks && s.tasks[thread].Starting? && s.tasks[thread].owner in s.objects
    case Insert(thread) => thread in s.tasks && s.tasks[thread].Inserting?
    case RemoveSession(thread, session) => thread !in s.tasks && session in s.sessions
    case LookUp(thread) => thread in s.tasks && s.tasks[thread].LookingUp?
    case ClearBinding(thread) => thread in s.tasks && s.tasks[thread].Clearing? && s.tasks[thread].owner in s.objects
    case StartPrepare(thread, owner) => thread !in s.tasks && owner in s.live
    case InsertStatement(thread) => thread in s.tasks && s.tasks[thread].Preparing?
    case RemoveStatement(id) => id in s.statements
  }

  function Done(s: State, thread: nat): State {
    s.(tasks := s.tasks - {thread})
  }

  /** Bind a new session to a free connection; the query may also fail to start. */
  function Bound(s: State, thread: nat, ok: bool): State
    requires Enabled(s, Bind(thread, ok))
  {
    var task := s.tasks[thread];
    var binding := s.objects[task.owner];
    if !ok || !binding.IsFree() then Done(s, thread)
    else
      var id := NextId(s, task.kind);
      s.(objects := s.objects[task.owner := binding.With(task.kind, Some(id))],
         nextIds := s.nextIds.With(task.kind, Some(id)),
         tasks := s.tasks[thread := Inserting(Session(task.kind, id), task.owner)])
  }

  function Cleared(s: State, thread: nat): State
    requires Enabled(s, ClearBinding(thread))
  {
    var task := s.tasks[thread];
    var binding := s.objects[task.owner];
    if binding.Get(task.session.kind) == Some(task.session.id)
    then Done(s, thread).(objects := s.objects[task.owner := binding.With(task.session.kind, None)])
    else Done(s, thread)
  }

  function Step(s: State, action: Action): State
    requires Enabled(s, action)
  {
    match action
    case CreateDatabase =>
      s.(nextDatabaseId := s.nextDatabaseId + 1, nextConnectionIds := s.nextConnectionIds[s.nextDatabaseId + 1 := 1])
    case RemoveDatabase(db) =>
      s.(nextConnectionIds := s.nextConnectionIds - {db}, live := s.live - OfDatabase(s.live, db))
    case ClearConnections(db) => s.(live := s.live - OfDatabase(s.live, db))
    case Connect(db) =>
      var owner := Owner(db, s.nextConnectionIds[db]);
      s.(nextConnectionIds := s.nextConnectionIds[db := s.nextConnectionIds[db] + 1],
         live := s.live + {owner}, objects := s.objects[owner := Binding(None, None)])
    case RemoveConnection(owner) => s.(live := s.live - {owner})
    case StartSession(thread, kind, owner) => s.(tasks := s.tasks[thread := Starting(kind, owner)])
    case Bind(thread, ok) => Bound(s, thread, ok)
    case Insert(thread) =>
      var task := s.tasks[thread];
      Done(s, thread).(sessions := s.sessions[task.session := task.owner])
    case RemoveSession(thread, session) =>
      s.(sessions := s.sessions - {session}, tasks := s.tasks[thread := LookingUp(session, s.sessions[session])])
    case LookUp(thread) =>
      var task := s.tasks[thread];
      if task.owner in s.live
      then s.(tasks := s.tasks[thread := Clearing(task.session, task.owner)])
      else Done(s, thread)
    case ClearBinding(thread) => Cleared(s, thread)
    case StartPrepare(thread, owner) => s.(tasks := s.tasks[thread := Preparing(owner)])
    case InsertStatement(thread) =>
      Done(s, thread).(
        statements := s.statements[s.nextStatementId + 1 := s.tasks[thread].owner],
        nextStatementId := s.nextStatementId + 1)
    case RemoveStatement(id) => s.(statements := s.statements - {id})
  }

  // ---------------------------------------------------------------- what every step keeps

  /** A connection is never active for a stream and an upload. */
  ghost predicate Exclusive(objects: map<Owner, Binding>) {
    forall o :: o in objects ==> objects[o].stream.None? || objects[o].upload.None?
  }

  /** The connection is active for the session. */
  ghost predicate ActiveFor(objects: map<Owner, Binding>, owner: Owner, session: Session) {
    owner in objects && objects[owner].Get(session.kind) == Some(session.id)
  }

  /** Registered sessions are active on their connection. */
  ghost predicate SessionsActive(objects: map<Owner, Binding>, sessions: map<Session, Owner>) {
    forall x :: x in sessions ==> ActiveFor(objects, sessions[x], x)
  }

  /** A session that is about to be registered is active already, and not registered. */
  ghost predicate InsertsActive(objects: map<Owner, Binding>, sessions: map<Session, Owner>, tasks: map<nat, Task>) {
    forall t :: t in tasks && tasks[t].Inserting? ==>
      ActiveFor(objects, tasks[t].owner, tasks[t].session) && tasks[t].session !in sessions
  }

  ghost predicate IsUnbinding(task: Task) {
    task.LookingUp? || task.Clearing?
  }

  /** No session is registered twice, and a removed session is neither registered nor about to be. */
  ghost predicate TasksApart(sessions: map<Session, Owner>, tasks: map<nat, Task>) {
    && (forall t, u :: t in tasks && u in tasks && t != u && tasks[t].Inserting? && tasks[u].Inserting? ==>
          tasks[t].session != tasks[u].session)
    && (forall t, u :: t in tasks && u in tasks && tasks[t].Inserting? && IsUnbinding(tasks[u]) ==>
          tasks[t].session != tasks[u].session)
    && (forall t :: t in tasks && IsUnbinding(tasks[t]) ==> tasks[t].session !in sessions)
  }

  ghost predicate Issued(nextIds: Binding, session: Session) {
    nextIds.Get(session.kind).Some? && session.id <= nextIds.Get(session.kind).value
  }

  /** Every session that occurs anywhere has an id that was handed out. */
  ghost predicate AllIssued(nextIds: Binding, sessions: map<Session, Owner>, tasks: map<nat, Task>) {
    && (forall x :: x in sessions ==> Issued(nextIds, x))
    && (forall t :: t in tasks && (tasks[t].Inserting? || IsUnbinding(tasks[t])) ==> Issued(nextIds, tasks[t].session))
  }

  /** Connections that were made, in databases that were made. */
  ghost predicate OwnersKnown(s: State) {
    && s.live <= s.objects.Keys
    && (forall o :: o in s.objects ==> o.databaseId <= s.nextDatabaseId)
    && (forall o :: o in s.objects && o.databaseId in s.nextConnectionIds ==>
          o.connectionId < s.nextConnectionIds[o.databaseId])
    && (forall db :: db in s.nextConnectionIds ==> db <= s.nextDatabaseId)
    && (forall t :: t in s.tasks ==> s.tasks[t].owner in s.objects)
    && (forall x :: x in s.sessions ==> s.sessions[x] in s.objects)
  }

  /** The part of the invariant that is about sessions. */
  ghost predicate SessionsValid(
      objects: map<Owner, Binding>, sessions: map<Session, Owner>, nextIds: Binding, tasks: map<nat, Task>)
  {
    && SessionsActive(objects, sessions) && InsertsActive(objects, sessions, tasks)
    && TasksApart(sessions, tasks) && AllIssued(nextIds, sessions, tasks)
  }

  ghost predicate Valid(s: State) {
    && OwnersKnown(s) && Exclusive(s.objects)
    && SessionsValid(s.objects, s.sessions, s.nextIds, s.tasks)
  }

  /** At most one session is registered for a connection: a stream or an upload, never both. */
  ghost predicate OneSessionEach(sessions: map<Session, Owner>) {
    forall x, y :: x in sessions && y in sessions && sessions[x] == sessions[y] ==> x == y
  }

  lemma {:induction false} ActiveIsOne(s: State)
    requires Valid(s)
    ensures OneSessionEach(s.sessions)
  {
    forall x, y | x in s.sessions && y in s.sessions && s.sessions[x] == s.sessions[y]
      ensures x == y
    {
      assert ActiveFor(s.objects, s.sessions[x], x) && ActiveFor(s.objects, s.sessions[y], y);
    }
  }

  // ---------------------------------------------------------------- steps

  lemma {:induction false} DoneKeepsSessions(
      objects: map<Owner, Binding>, sessions: map<Session, Owner>, nextIds: Binding, tasks: map<nat, Task>, thread: nat)
    requires SessionsValid(objects, sessions, nextIds, tasks)
    ensures SessionsValid(objects, sessions, nextIds, tasks - {thread})
  {
  }

  /** A thread's task may change as long as it names no session or the one it named before. */
  lemma {:induction false} TaskKeepsSessions(
      objects: map<Owner, Binding>, sessions: map<Session, Owner>, nextIds: Binding, tasks: map<nat, Task>,
      thread: nat, task: Task)
    requires SessionsValid(objects, sessions, nextIds, tasks)
    requires !task.Inserting?
    requires IsUnbinding(task) ==>
      thread in tasks && IsUnbinding(tasks[thread]) && tasks[thread].session == task.session
    ensures SessionsValid(objects, sessions, nextIds, tasks[thread := task])
  {
  }

  /** Connections that have no active session may be added. */
  lemma {:induction false} ConnectKeepsSessions(
      objects: map<Owner, Binding>, sessions: map<Session, Owner>, nextIds: Binding, tasks: map<nat, Task>, o: Owner)
    requires SessionsValid(objects, sessions, nextIds, tasks) && o !in objects
    ensures SessionsValid(objects[o := Binding(None, None)], sessions, nextIds, tasks)
  {
    forall y: Session, p: Owner | ActiveFor(objects, p, y)
      ensures ActiveFor(objects[o := Binding(None, None)], p, y)
    {
    }
  }

  lemma {:induction false} BindKeepsActive(
      objects: map<Owner, Binding>, sessions: map<Session, Owner>, o: Owner, kind: Kind, id: nat,
      y: Session, p: Owner)
    requires o in objects && objects[o].IsFree() && ActiveFor(objects, p, y)
    ensures ActiveFor(objects[o := objects[o].With(kind, Some(id))], p, y)
  {
  }

  lemma {:induction false} IssuedGrows(nextIds: Binding, kind: Kind, y: Session)
    requires Issued(nextIds, y)
    ensures
      var id := if nextIds.Get(kind).Some? then nextIds.Get(kind).value + 1 else 1;
      Issued(nextIds.With(kind, Some(id)), y) && y != Session(kind, id)
  {
  }

  lemma {:induction false} BindKeepsSessions(
      objects: map<Owner, Binding>, sessions: map<Session, Owner>, nextIds: Binding, tasks: map<nat, Task>,
      thread: nat, o: Owner, kind: Kind, id: nat)
    requires SessionsValid(objects, sessions, nextIds, tasks) && o in objects && objects[o].IsFree()
    requires id == if nextIds.Get(kind).Some? then nextIds.Get(kind).value + 1 else 1
    ensures SessionsValid(
      objects[o := objects[o].With(kind, Some(id))], sessions, nextIds.With(kind, Some(id)),
      tasks[thread := Inserting(Session(kind, id), o)])
  {
    forall y | Issued(nextIds, y)
      ensures Issued(nextIds.With(kind, Some(id)), y) && y != Session(kind, id)
    {
      IssuedGrows(nextIds, kind, y);
    }
    forall y: Session, p: Owner | ActiveFor(objects, p, y)
      ensures ActiveFor(objects[o := objects[o].With(kind, Some(id))], p, y)
    {
      BindKeepsActive(objects, sessions, o, kind, id, y, p);
    }
  }

  lemma {:induction false} BindKeepsOwners(s: State, thread: nat, ok: bool)
    requires OwnersKnown(s) && Enabled(s, Bind(thread, ok))
    ensures OwnersKnown(Bound(s, thread, ok))
  {
  }

  lemma {:induction false} BindKeepsExclusive(objects: map<Owner, Binding>, o: Owner, kind: Kind, id: nat)
    requires Exclusive(objects) && o in objects && objects[o].IsFree()
    ensures Exclusive(objects[o := objects[o].With(kind, Some(id))])
  {
  }

  lemma {:induction false} BindKeepsValid(s: State, thread: nat, ok: bool)
    requires Valid(s) && Enabled(s, Bind(thread, ok))
    ensures Valid(Bound(s, thread, ok))
  {
    var task := s.tasks[thread];
    BindKeepsOwners(s, thread, ok);
    if ok && s.objects[task.owner].IsFree() {
      BindKeepsExclusive(s.objects, task.owner, task.kind, NextId(s, task.kind));
      BindKeepsSessions(
        s.objects, s.sessions, s.nextIds, s.tasks, thread, task.owner, task.kind, NextId(s, task.kind));
    } else {
      DoneKeepsSessions(s.objects, s.sessions, s.nextIds, s.tasks, thread);
    }
  }

  lemma {:induction false} InsertKeepsSessions(
      objects: map<Owner, Binding>, sessions: map<Session, Owner>, nextIds: Binding, tasks: map<nat, Task>, thread: nat)
    requires SessionsValid(objects, sessions, nextIds, tasks) && thread in tasks && tasks[thread].Inserting?
    ensures SessionsValid(objects, sessions[tasks[thread].session := tasks[thread].owner], nextIds, tasks - {thread})
  {
  }

  lemma {:induction false} InsertKeepsValid(s: State, thread: nat)
    requires Valid(s) && Enabled(s, Insert(thread))
    ensures Valid(Step(s, Insert(thread)))
  {
    InsertKeepsSessions(s.objects, s.sessions, s.nextIds, s.tasks, thread);
  }

  lemma {:induction false} RemoveKeepsSessions(
      objects: map<Owner, Binding>, sessions: map<Session, Owner>, nextIds: Binding, tasks: map<nat, Task>,
      thread: nat, x: Session)
    requires SessionsValid(objects, sessions, nextIds, tasks) && thread !in tasks && x in sessions
    ensures SessionsValid(objects, sessions - {x}, nextIds, tasks[thread := LookingUp(x, sessions[x])])
  {
  }

  lemma {:induction false} RemoveKeepsValid(s: State, thread: nat, session: Session)
    requires Valid(s) && Enabled(s, RemoveSession(thread, session))
    ensures Valid(Step(s, RemoveSession(thread, session)))
  {
    RemoveKeepsSessions(s.objects, s.sessions, s.nextIds, s.tasks, thread, session);
  }

  lemma {:induction false} LookUpKeepsValid(s: State, thread: nat)
    requires Valid(s) && Enabled(s, LookUp(thread))
    ensures Valid(Step(s, LookUp(thread)))
  {
    var task := s.tasks[thread];
    if task.owner in s.live {
      TaskKeepsSessions(s.objects, s.sessions, s.nextIds, s.tasks, thread, Clearing(task.session, task.owner));
    } else {
      DoneKeepsSessions(s.objects, s.sessions, s.nextIds, s.tasks, thread);
    }
  }

  lemma {:induction false} ClearKeepsSessions(
      objects: map<Owner, Binding>, sessions: map<Session, Owner>, nextIds: Binding, tasks: map<nat, Task>,
      thread: nat, o: Owner, x: Session)
    requires SessionsValid(objects, sessions, nextIds, tasks) && ActiveFor(objects, o, x)
    requires thread in tasks && IsUnbinding(tasks[thread]) && tasks[thread].session == x
    ensures SessionsValid(objects[o := objects[o].With(x.kind, None)], sessions, nextIds, tasks - {thread})
  {
    forall y: Session, p: Owner | ActiveFor(objects, p, y) && y != x
      ensures ActiveFor(objects[o := objects[o].With(x.kind, None)], p, y)
    {
    }
  }

  lemma {:induction false} ClearKeepsValid(s: State, thread: nat)
    requires Valid(s) && Enabled(s, ClearBinding(thread))
    ensures Valid(Cleared(s, thread))
  {
    var task := s.tasks[thread];
    DoneKeepsSessions(s.objects, s.sessions, s.nextIds, s.tasks, thread);
    if ActiveFor(s.objects, task.owner, task.session) {
      ClearKeepsSessions(s.objects, s.sessions, s.nextIds, s.tasks, thread, task.owner, task.session);
    }
  }

  lemma {:induction false} StartKeepsValid(s: State, thread: nat, task: Task)
    requires Valid(s) && (task.Starting? || task.Preparing?) && task.owner in s.live
    ensures Valid(s.(tasks := s.tasks[thread := task]))
  {
    TaskKeepsSessions(s.objects, s.sessions, s.nextIds, s.tasks, thread, task);
  }

  lemma {:induction false} ConnectKeepsValid(s: State, databaseId: nat)
    requires Valid(s) && Enabled(s, Connect(databaseId))
    ensures Valid(Step(s, Connect(databaseId)))
  {
    ConnectKeepsSessions(s.objects, s.sessions, s.nextIds, s.tasks, Owner(databaseId, s.nextConnectionIds[databaseId]));
  }

  lemma {:induction false} InsertStatementKeepsValid(s: State, thread: nat)
    requires Valid(s) && Enabled(s, InsertStatement(thread))
    ensures Valid(Step(s, InsertStatement(thread)))
  {
    DoneKeepsSessions(s.objects, s.sessions, s.nextIds, s.tasks, thread);
  }

  /** Steps that touch neither bindings, sessions nor tasks. */
  lemma {:induction false} TableKeepsValid(s: State, action: Action)
    requires Valid(s) && Enabled(s, action)
    requires
      || action.CreateDatabase? || action.RemoveDatabase? || action.ClearConnections? || action.RemoveConnection?
      || action.RemoveStatement?
    ensures Valid(Step(s, action))
  {
  }

  lemma {:induction false} StepKeepsValid(s: State, action: Action)
    requires Valid(s) && Enabled(s, action)
    ensures Valid(Step(s, action))
  {
    match action
    case Bind(thread, ok) => BindKeepsValid(s, thread, ok);
    case Insert(thread) => InsertKeepsValid(s, thread);
    case RemoveSession(thread, session) => RemoveKeepsValid(s, thread, session);
    case LookUp(thread) => LookUpKeepsValid(s, thread);
    case ClearBinding(thread) => ClearKeepsValid(s, thread);
    case Connect(db) => ConnectKeepsValid(s, db);
    case StartSession(thread, kind, owner) => StartKeepsValid(s, thread, Starting(kind, owner));
    case StartPrepare(thread, owner) => StartKeepsValid(s, thread, Preparing(owner));
    case InsertStatement(thread) => InsertStatementKeepsValid(s, thread);
    case _ => TableKeepsValid(s, action);
  }

  // ---------------------------------------------------------------- runs

  const INITIAL := State(0, map[], {}, map[], map[], Binding(None, None), map[], 0, map[])

  ghost predicate IsStep(states: seq<State>, actions: seq<Action>, i: nat)
    requires i < |actions| < |states|
  {
    Enabled(states[i], actions[i]) && states[i + 1] == Step(states[i], actions[i])
  }

  ghost predicate IsRun(states: seq<State>, actions: seq<Action>) {
    && |states| == |actions| + 1 && states[0] == INITIAL
    && forall i: nat :: i < |actions| ==> IsStep(states, actions, i)
  }

  lemma {:induction false} EveryRunIsValid(states: seq<State>, actions: seq<Action>, i: nat)
    requires IsRun(states, actions) && i < |states|
    ensures Valid(states[i])
  {
    if i > 0 {
      EveryRunIsValid(states, actions, i - 1);
      assert IsStep(states, actions, i - 1);
      StepKeepsValid(states[i - 1], actions[i - 1]);
    }
  }

  /** In every interleaving at most one session is registered for any connection. */
  lemma {:induction false} OneSessionInEveryRun(states: seq<State>, actions: seq<Action>, i: nat)
    requires IsRun(states, actions) && i < |states|
    ensures OneSessionEach(states[i].sessions)
  {
    EveryRunIsValid(states, actions, i);
    ActiveIsOne(states[i]);
  }

  lemma {:induction false} RunGrows(states: seq<State>, actions: seq<Action>, action: Action)
    requires IsRun(states, actions) && Enabled(states[|actions|], action)
    ensures IsRun(states + [Step(states[|actions|], action)], actions + [action])
  {
    var more, all := states + [Step(states[|actions|], action)], actions + [action];
    forall i: nat | i < |all|
      ensures IsStep(more, all, i)
    {
      if i < |actions| {
        assert IsStep(states, actions, i);
        assert more[i] == states[i] && more[i + 1] == states[i + 1] && all[i] == actions[i];
      }
    }
  }
}
