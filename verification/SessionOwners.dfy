/** When registered sessions and prepared statements keep their connection, between critical sections. */
module SessionOwners {
  import opened Collections
  import opened SessionInterleavings

  /** All entries belong to a connection in the table. */
  ghost predicate AllLive<K>(owners: map<K, Owner>, live: set<Owner>) {
    forall k :: k in owners ==> owners[k] in live
  }

  ghost predicate SessionsAttached(s: State) {
    AllLive(s.sessions, s.live)
  }

  ghost predicate StatementsAttached(s: State) {
    AllLive(s.statements, s.live)
  }

  /** The step takes the connection out of the table. */
  predicate Removes(action: Action, o: Owner) {
    match action
    case RemoveDatabase(db) => o.databaseId == db
    case ClearConnections(db) => o.databaseId == db
    case RemoveConnection(owner) => o == owner
    case _ => false
  }

  ghost predicate RemovesNone<K>(action: Action, owners: map<K, Owner>) {
    forall k :: k in owners ==> !Removes(action, owners[k])
  }

  // ---------------------------------------------------------------- one step

  /** A session is registered while its connection is in the table, and no connection goes before its sessions. */
  ghost predicate KeepsSessions(s: State, action: Action) {
    && (action.Insert? ==> action.thread in s.tasks && s.tasks[action.thread].owner in s.live)
    && RemovesNone(action, s.sessions)
  }

  /** Likewise for prepared statements. */
  ghost predicate KeepsStatements(s: State, action: Action) {
    && (action.InsertStatement? ==> action.thread in s.tasks && s.tasks[action.thread].owner in s.live)
    && RemovesNone(action, s.statements)
  }

  /** What a step leaves in the table of connections. */
  lemma {:induction false} LiveAfterStep(s: State, action: Action, o: Owner)
    requires Enabled(s, action)
    ensures
      var connects := action.Connect? && o == Owner(action.databaseId, s.nextConnectionIds[action.databaseId]);
      o in Step(s, action).live <==> connects || (o in s.live && !Removes(action, o))
  {
  }

  lemma {:induction false} RemovalKeepsAll<K>(
      owners: map<K, Owner>, live: set<Owner>, less: set<Owner>, action: Action)
    requires AllLive(owners, live) && forall o :: o in live ==> (o in less <==> !Removes(action, o))
    ensures AllLive(owners, less) <==> RemovesNone(action, owners)
  {
  }

  lemma {:induction false} EntryKeepsAll<K>(owners: map<K, Owner>, live: set<Owner>, k: K, o: Owner)
    requires AllLive(owners, live)
    ensures AllLive(owners[k := o], live) <==> o in live
  {
    assert owners[k := o][k] == o;
  }

  /** Registered sessions keep their connections in a step exactly if the step meets the condition. */
  lemma {:induction false} StepKeepsSessionsIff(s: State, action: Action)
    requires Enabled(s, action) && SessionsAttached(s)
    ensures SessionsAttached(Step(s, action)) <==> KeepsSessions(s, action)
  {
    forall o | o in s.live
      ensures o in Step(s, action).live <==> !Removes(action, o)
    {
      LiveAfterStep(s, action, o);
    }
    RemovalKeepsAll(s.sessions, s.live, Step(s, action).live, action);
    if action.Insert? {
      var task := s.tasks[action.thread];
      EntryKeepsAll(s.sessions, s.live, task.session, task.owner);
    }
  }

  lemma {:induction false} StepKeepsStatementsIff(s: State, action: Action)
    requires Enabled(s, action) && StatementsAttached(s)
    ensures StatementsAttached(Step(s, action)) <==> KeepsStatements(s, action)
  {
    forall o | o in s.live
      ensures o in Step(s, action).live <==> !Removes(action, o)
    {
      LiveAfterStep(s, action, o);
    }
    RemovalKeepsAll(s.statements, s.live, Step(s, action).live, action);
    if action.InsertStatement? {
      EntryKeepsAll(s.statements, s.live, s.nextStatementId + 1, s.tasks[action.thread].owner);
    }
  }

  // ---------------------------------------------------------------- whole runs

  lemma {:induction false} RunStep(states: seq<State>, actions: seq<Action>, i: nat)
    requires IsRun(states, actions) && i < |actions|
    ensures Enabled(states[i], actions[i]) && states[i + 1] == Step(states[i], actions[i])
  {
    assert IsStep(states, actions, i);
  }

  /** The sessions of a run keep their connections throughout exactly if every step meets the condition. */
  lemma {:induction false} RunKeepsSessionsIff(states: seq<State>, actions: seq<Action>, n: nat)
    requires IsRun(states, actions) && n < |states|
    ensures (forall i :: 0 <= i <= n ==> SessionsAttached(states[i]))
      <==> (forall i :: 0 <= i < n ==> KeepsSessions(states[i], actions[i]))
  {
    if n > 0 {
      RunKeepsSessionsIff(states, actions, n - 1);
      RunStep(states, actions, n - 1);
      if SessionsAttached(states[n - 1]) {
        StepKeepsSessionsIff(states[n - 1], actions[n - 1]);
      }
    }
  }

  lemma {:induction false} RunKeepsStatementsIff(states: seq<State>, actions: seq<Action>, n: nat)
    requires IsRun(states, actions) && n < |states|
    ensures (forall i :: 0 <= i <= n ==> StatementsAttached(states[i]))
      <==> (forall i :: 0 <= i < n ==> KeepsStatements(states[i], actions[i]))
  {
    if n > 0 {
      RunKeepsStatementsIff(states, actions, n - 1);
      RunStep(states, actions, n - 1);
      if StatementsAttached(states[n - 1]) {
        StepKeepsStatementsIff(states[n - 1], actions[n - 1]);
      }
    }
  }

  // ---------------------------------------------------------------- one session

  ghost predicate NotRemoved(actions: seq<Action>, i: nat, n: nat, o: Owner)
    requires n <= |actions|
  {
    forall k :: i <= k < n ==> !Removes(actions[k], o)
  }

  /** A connection id is never given out again. */
  lemma {:induction false} GoneStaysGone(s: State, action: Action, o: Owner)
    requires Valid(s) && Enabled(s, action) && o in s.objects
    ensures o in Step(s, action).objects
    ensures o in Step(s, action).live <==> o in s.live && !Removes(action, o)
  {
    LiveAfterStep(s, action, o);
  }

  lemma {:induction false} LiveInNext(states: seq<State>, actions: seq<Action>, k: nat, o: Owner)
    requires IsRun(states, actions) && k < |actions| && o in states[k].objects
    ensures o in states[k + 1].objects
    ensures o in states[k + 1].live <==> o in states[k].live && !Removes(actions[k], o)
  {
    RunStep(states, actions, k);
    EveryRunIsValid(states, actions, k);
    GoneStaysGone(states[k], actions[k], o);
  }

  lemma {:induction false} LiveInRun(states: seq<State>, actions: seq<Action>, i: nat, n: nat, o: Owner)
    requires IsRun(states, actions) && i <= n < |states| && o in states[i].objects
    ensures o in states[n].objects
    ensures o in states[n].live <==> o in states[i].live && NotRemoved(actions, i, n, o)
    decreases n
  {
    if i < n {
      LiveInRun(states, actions, i, n - 1, o);
      LiveInNext(states, actions, n - 1, o);
    }
  }

  /** The session belongs to `o` as long as it is registered. */
  ghost predicate Owned(s: State, x: Session, o: Owner) {
    && Issued(s.nextIds, x) && (x in s.sessions ==> s.sessions[x] == o)
    && forall t :: t in s.tasks && s.tasks[t].Inserting? ==> s.tasks[t].session != x
  }

  lemma {:induction false} InsertedIsOwned(s: State, thread: nat)
    requires Valid(s) && Enabled(s, Insert(thread))
    ensures Owned(Step(s, Insert(thread)), s.tasks[thread].session, s.tasks[thread].owner)
  {
  }

  lemma {:induction false} OwnedStays(s: State, action: Action, x: Session, o: Owner)
    requires Enabled(s, action) && Owned(s, x, o)
    ensures Owned(Step(s, action), x, o)
  {
    if action.Bind? {
      IssuedGrows(s.nextIds, s.tasks[action.thread].kind, x);
    }
  }

  lemma {:induction false} OwnedInRun(states: seq<State>, actions: seq<Action>, i: nat, n: nat, x: Session, o: Owner)
    requires IsRun(states, actions) && i <= n < |states| && Owned(states[i], x, o)
    ensures Owned(states[n], x, o)
    decreases n
  {
    if i < n {
      OwnedInRun(states, actions, i, n - 1, x, o);
      RunStep(states, actions, n - 1);
      OwnedStays(states[n - 1], actions[n - 1], x, o);
    }
  }

  /**
    A session that was registered in step `i` and still is has its connection exactly if the connection was
    in the table in step `i` and no step since removed it. The two ways to lose it are a removal between
    binding and registering, and a removal that missed the session because it was registered too late.
  */
  lemma {:induction false} SessionHasConnectionIff(
      states: seq<State>, actions: seq<Action>, i: nat, n: nat, x: Session)
    requires IsRun(states, actions) && i < n < |states| && actions[i].Insert? && Enabled(states[i], actions[i])
    requires x == states[i].tasks[actions[i].thread].session && x in states[n].sessions
    ensures
      var o := states[i].tasks[actions[i].thread].owner;
      && states[n].sessions[x] == o
      && (o in states[n].live <==> o in states[i].live && NotRemoved(actions, i, n, o))
  {
    var o := states[i].tasks[actions[i].thread].owner;
    EveryRunIsValid(states, actions, i);
    RunStep(states, actions, i);
    InsertedIsOwned(states[i], actions[i].thread);
    OwnedInRun(states, actions, i + 1, n, x, o);
    LiveInRun(states, actions, i, n, o);
  }

  /** The statement belongs to `o` as long as it is registered. */
  ghost predicate StatementOwned(s: State, id: nat, o: Owner) {
    id <= s.nextStatementId && (id in s.statements ==> s.statements[id] == o)
  }

  lemma {:induction false} StatementOwnedInRun(
      states: seq<State>, actions: seq<Action>, i: nat, n: nat, id: nat, o: Owner)
    requires IsRun(states, actions) && i <= n < |states| && StatementOwned(states[i], id, o)
    ensures StatementOwned(states[n], id, o)
    decreases n
  {
    if i < n {
      StatementOwnedInRun(states, actions, i, n - 1, id, o);
      RunStep(states, actions, n - 1);
    }
  }

  /** Likewise for a statement that was registered in step `i`. */
  lemma {:induction false} StatementHasConnectionIff(
      states: seq<State>, actions: seq<Action>, i: nat, n: nat, id: nat)
    requires IsRun(states, actions) && i < n < |states|
    requires actions[i].InsertStatement? && Enabled(states[i], actions[i])
    requires id == states[i].nextStatementId + 1 && id in states[n].statements
    ensures
      var o := states[i].tasks[actions[i].thread].owner;
      && states[n].statements[id] == o
      && (o in states[n].live <==> o in states[i].live && NotRemoved(actions, i, n, o))
  {
    var o := states[i].tasks[actions[i].thread].owner;
    EveryRunIsValid(states, actions, i);
    RunStep(states, actions, i);
    StatementOwnedInRun(states, actions, i + 1, n, id, o);
    LiveInRun(states, actions, i, n, o);
  }

  // ---------------------------------------------------------------- the ways to lose a connection

  /** A run may go on with any enabled action. */
  lemma {:induction false} GoOn(states: seq<State>, actions: seq<Action>, action: Action)
      returns (more: seq<State>, all: seq<Action>)
    requires IsRun(states, actions) && Enabled(states[|actions|], action)
    ensures IsRun(more, all) && more[|all|] == Step(states[|actions|], action)
  {
    RunGrows(states, actions, action);
    more, all := states + [Step(states[|actions|], action)], actions + [action];
  }

  /** One connection, without sessions, statements or tasks. */
  ghost predicate IsFresh(s: State) {
    && s.live == {Owner(1, 1)} && s.objects == map[Owner(1, 1) := Binding(None, None)]
    && s.sessions == map[] && s.statements == map[] && s.tasks == map[]
    && s.nextIds == Binding(None, None)
  }

  lemma {:induction false} FreshRun() returns (states: seq<State>, actions: seq<Action>)
    ensures IsRun(states, actions) && IsFresh(states[|actions|])
  {
    states, actions := [INITIAL], [];
    states, actions := GoOn(states, actions, CreateDatabase);
    states, actions := GoOn(states, actions, Connect(1));
  }

  /** A thread has bound a session and not registered it yet. */
  ghost predicate IsBound(s: State) {
    && s.tasks == map[0 := Inserting(Session(Stream, 1), Owner(1, 1))]
    && s.live == {Owner(1, 1)} && s.sessions == map[]
  }

  lemma {:induction false} BoundRun() returns (states: seq<State>, actions: seq<Action>)
    ensures IsRun(states, actions) && IsBound(states[|actions|])
  {
    states, actions := FreshRun();
    states, actions := GoOn(states, actions, StartSession(0, Stream, Owner(1, 1)));
    states, actions := GoOn(states, actions, Bind(0, true));
  }

  ghost predicate IsStale(s: State) {
    Session(Stream, 1) in s.sessions && s.sessions[Session(Stream, 1)] !in s.live
  }

  /** The connection is removed after its session was bound and before the session is registered. */
  lemma {:induction false} StaleSession() returns (states: seq<State>, actions: seq<Action>)
    ensures IsRun(states, actions) && IsStale(states[|actions|])
  {
    states, actions := BoundRun();
    states, actions := GoOn(states, actions, RemoveConnection(Owner(1, 1)));
    states, actions := GoOn(states, actions, Insert(0));
  }

  /** The session is registered after those of its connection were collected and before the connection goes. */
  lemma {:induction false} MissedSession() returns (states: seq<State>, actions: seq<Action>)
    ensures IsRun(states, actions) && IsStale(states[|actions|])
  {
    states, actions := BoundRun();
    states, actions := GoOn(states, actions, Insert(0));
    states, actions := GoOn(states, actions, RemoveConnection(Owner(1, 1)));
  }

  /** The connection is removed while a statement for it is being prepared. */
  lemma {:induction false} StaleStatement() returns (states: seq<State>, actions: seq<Action>)
    ensures IsRun(states, actions)
    ensures
      var s := states[|actions|];
      exists id :: id in s.statements && s.statements[id] !in s.live
  {
    states, actions := FreshRun();
    states, actions := GoOn(states, actions, StartPrepare(0, Owner(1, 1)));
    states, actions := GoOn(states, actions, RemoveConnection(Owner(1, 1)));
    var s := states[|actions|];
    states, actions := GoOn(states, actions, InsertStatement(0));
    assert s.nextStatementId + 1 in states[|actions|].statements;
  }
}
