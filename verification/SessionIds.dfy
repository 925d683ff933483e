/** Which ids the proxy hands out in interleavings, and what becomes of what is registered under them. */
module SessionIds {
  import opened SessionInterleavings

  /** Every registered statement has an id that was handed out. */
  ghost predicate StatementsIssued(s: State) {
    forall id :: id in s.statements ==> id <= s.nextStatementId
  }

  lemma {:induction false} StepKeepsStatementsIssued(s: State, action: Action)
    requires StatementsIssued(s) && Enabled(s, action)
    ensures StatementsIssued(Step(s, action)) && s.nextStatementId <= Step(s, action).nextStatementId
  {
  }

  lemma {:induction false} EveryRunIssuesStatements(states: seq<State>, actions: seq<Action>, i: nat)
    requires IsRun(states, actions) && i < |states|
    ensures StatementsIssued(states[i])
  {
    if i > 0 {
      EveryRunIssuesStatements(states, actions, i - 1);
      assert IsStep(states, actions, i - 1);
      StepKeepsStatementsIssued(states[i - 1], actions[i - 1]);
    }
  }

  lemma {:induction false} IdsGrow(states: seq<State>, actions: seq<Action>, i: nat, j: nat)
    requires IsRun(states, actions) && i <= j < |states|
    ensures states[i].nextStatementId <= states[j].nextStatementId
    decreases j
  {
    if i < j {
      IdsGrow(states, actions, i, j - 1);
      EveryRunIssuesStatements(states, actions, j - 1);
      assert IsStep(states, actions, j - 1);
      StepKeepsStatementsIssued(states[j - 1], actions[j - 1]);
    }
  }

  /**
    In every interleaving, the id under which a prepared statement is registered was registered in no
    earlier state, also not for a statement that is gone.
  */
  lemma {:induction false} StatementIdIsNew(states: seq<State>, actions: seq<Action>, i: nat, k: nat, id: nat)
    requires IsRun(states, actions) && i <= k < |actions| && actions[k].InsertStatement?
    requires id in states[k + 1].statements && id !in states[k].statements
    ensures id !in states[i].statements
  {
    assert IsStep(states, actions, k);
    EveryRunIssuesStatements(states, actions, i);
    IdsGrow(states, actions, i, k);
  }

  lemma {:induction false} StatementsAfter(s: State, action: Action)
    requires Enabled(s, action)
    ensures action.InsertStatement? ==>
      Step(s, action).statements == s.statements[s.nextStatementId + 1 := s.tasks[action.thread].owner]
    ensures action.RemoveStatement? ==> Step(s, action).statements == s.statements - {action.id}
    ensures !action.InsertStatement? && !action.RemoveStatement? ==> Step(s, action).statements == s.statements
  {
  }

  /** A step keeps every statement and its owner but the one it removes, and adds only one with its thread's owner. */
  lemma {:induction false} StatementsStay(s: State, action: Action, id: nat)
    requires StatementsIssued(s) && Enabled(s, action)
    ensures id in s.statements && action != RemoveStatement(id) ==>
      id in Step(s, action).statements && Step(s, action).statements[id] == s.statements[id]
    ensures action == RemoveStatement(id) ==> id !in Step(s, action).statements
    ensures id in Step(s, action).statements && id !in s.statements ==>
      action.InsertStatement? && Step(s, action).statements[id] == s.tasks[action.thread].owner
  {
    StatementsAfter(s, action);
  }

  /** Likewise for sessions. */
  lemma {:induction false} SessionsStay(s: State, action: Action, x: Session)
    requires Valid(s) && Enabled(s, action)
    ensures x in s.sessions && !(action.RemoveSession? && action.session == x) ==>
      x in Step(s, action).sessions && Step(s, action).sessions[x] == s.sessions[x]
    ensures action.RemoveSession? && action.session == x ==> x !in Step(s, action).sessions
    ensures x in Step(s, action).sessions && x !in s.sessions ==>
      action.Insert? && s.tasks[action.thread] == Inserting(x, Step(s, action).sessions[x])
  {
  }

  /** A new session gets an id that no session of its kind had before. */
  lemma {:induction false} SessionIdIsNew(s: State, thread: nat, ok: bool, x: Session)
    requires Valid(s) && Enabled(s, Bind(thread, ok))
    requires x in s.sessions || exists t :: t in s.tasks && s.tasks[t].Inserting? && s.tasks[t].session == x
    ensures
      var task := Step(s, Bind(thread, ok)).tasks;
      thread in task && task[thread].Inserting? ==> task[thread].session != x
  {
  }

  /** A new connection is in the table under an id that no connection of its database had before. */
  lemma {:induction false} ConnectionIsNew(s: State, databaseId: nat)
    requires Valid(s) && Enabled(s, Connect(databaseId))
    ensures exists o: Owner ::
      && o.databaseId == databaseId && o !in s.objects
      && Step(s, Connect(databaseId)).live == s.live + {o}
  {
    assert Owner(databaseId, s.nextConnectionIds[databaseId]) !in s.objects;
  }

  /** In every interleaving, a thread within a call can take its next step, whatever the others did. */
  lemma {:induction false} ThreadsProceed(states: seq<State>, actions: seq<Action>, i: nat, thread: nat, ok: bool)
    requires IsRun(states, actions) && i < |states| && thread in states[i].tasks
    ensures
      match states[i].tasks[thread]
      case Starting(_, _) => Enabled(states[i], Bind(thread, ok))
      case Inserting(_, _) => Enabled(states[i], Insert(thread))
      case LookingUp(_, _) => Enabled(states[i], LookUp(thread))
      case Clearing(_, _) => Enabled(states[i], ClearBinding(thread))
      case Preparing(_) => Enabled(states[i], InsertStatement(thread))
  {
    EveryRunIsValid(states, actions, i);
  }
}
