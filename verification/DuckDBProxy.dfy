/** The DuckDB proxy with calls taken one at a time: bindings and tables agree in both directions. */
module DuckDBProxies {
  import opened Collections
  import opened SessionInterleavings

  datatype Status =
    Ok | DatabaseUnknown | ConnectionUnknown | SessionUnknown | StatementUnknown | Busy | OperationFailed

  /** What DuckDB makes of a read: chunks to return, the end of the stream, or a failure or timeout. */
  datatype ReadOutcome = Batch | EndOfStream | Failed

  type Connections = map<Owner, Binding>
  type Sessions = map<Session, Owner>

  // ---------------------------------------------------------------- consistency of the tables

  /** An active id belongs to a registered session of the connection. */
  ghost predicate BindingsRegistered(connections: Connections, sessions: Sessions) {
    forall o, kind :: o in connections && connections[o].Get(kind).Some? ==>
      var x := Session(kind, connections[o].Get(kind).value);
      x in sessions && sessions[x] == o
  }

  ghost predicate Agree(connections: Connections, sessions: Sessions) {
    SessionsActive(connections, sessions) && BindingsRegistered(connections, sessions) && Exclusive(connections)
  }

  ghost predicate Live(connections: Connections, statements: map<nat, Owner>) {
    forall id :: id in statements ==> statements[id] in connections
  }

  ghost predicate Numbered(connections: Connections, databases: map<nat, nat>, nextDatabaseId: nat) {
    && (forall o :: o in connections ==>
          o.databaseId in databases && o.connectionId < databases[o.databaseId])
    && (forall db :: db in databases ==> db <= nextDatabaseId)
  }

  ghost predicate SessionsIssued(nextIds: Binding, sessions: Sessions) {
    forall x :: x in sessions ==> Issued(nextIds, x)
  }

  function WithoutOwner<K(!new)>(table: map<K, Owner>, owner: Owner): (r: map<K, Owner>)
    ensures forall k :: k in r <==> k in table && table[k] != owner
    ensures forall k :: k in r ==> r[k] == table[k]
  {
    map k | k in table && table[k] != owner :: table[k]
  }

  function WithoutDatabase<K(!new)>(table: map<K, Owner>, databaseId: nat): (r: map<K, Owner>)
    ensures forall k :: k in r <==> k in table && table[k].databaseId != databaseId
    ensures forall k :: k in r ==> r[k] == table[k]
  {
    map k | k in table && table[k].databaseId != databaseId :: table[k]
  }

  function ConnectionsWithout(connections: Connections, databaseId: nat): (r: Connections)
    ensures forall o :: o in r <==> o in connections && o.databaseId != databaseId
    ensures forall o :: o in r ==> r[o] == connections[o]
  {
    map o | o in connections && o.databaseId != databaseId :: connections[o]
  }

  lemma {:induction false} OwnerRemoved<K(!new)>(table: map<K, Owner>, ids: set<K>, owner: Owner)
    requires forall k :: k in ids <==> k in table && table[k] == owner
    ensures table - ids == WithoutOwner(table, owner)
  {
  }

  lemma {:induction false} DatabaseRemoved<K(!new)>(table: map<K, Owner>, ids: set<K>, databaseId: nat)
    requires forall k :: k in ids <==> k in table && table[k].databaseId == databaseId
    ensures table - ids == WithoutDatabase(table, databaseId)
  {
  }

  // ---------------------------------------------------------------- ending sessions

  /** The bindings once some sessions were ended. */
  ghost predicate Ended(before: Connections, after: Connections, ended: set<Session>) {
    && after.Keys == before.Keys
    && forall o, kind :: o in before ==>
         after[o].Get(kind) ==
           if before[o].Get(kind).Some? && Session(kind, before[o].Get(kind).value) in ended then None
           else before[o].Get(kind)
  }

  lemma {:induction false} EndKeepsAgreement(connections: Connections, sessions: Sessions, x: Session)
    requires Agree(connections, sessions) && x in sessions
    ensures Agree(connections[sessions[x] := connections[sessions[x]].With(x.kind, None)], sessions - {x})
  {
    var o := sessions[x];
    var after := connections[o := connections[o].With(x.kind, None)];
    forall y | y in sessions && y != x
      ensures ActiveFor(after, sessions[y], y)
    {
      assert ActiveFor(connections, sessions[y], y) && ActiveFor(connections, o, x);
    }
  }

  lemma {:induction false} EndOne(
      before: Connections, after: Connections, sessions: Sessions, ended: set<Session>, x: Session)
    requires Agree(after, sessions) && x in sessions && Ended(before, after, ended)
    ensures Ended(before, after[sessions[x] := after[sessions[x]].With(x.kind, None)], ended + {x})
  {
    var o := sessions[x];
    assert ActiveFor(after, o, x);
    var next := after[o := after[o].With(x.kind, None)];
    forall p, kind | p in before
      ensures next[p].Get(kind) ==
        if before[p].Get(kind).Some? && Session(kind, before[p].Get(kind).value) in ended + {x} then None
        else before[p].Get(kind)
    {
      if before[p].Get(kind).Some? && Session(kind, before[p].Get(kind).value) == x && x !in ended {
        assert after[p].Get(kind) == Some(x.id);
        assert sessions[x] == p;
      }
    }
  }

  /** Once all sessions of some connections ended, the connections can go. */
  lemma {:induction false} RemoveKeepsAgreement(connections: Connections, sessions: Sessions, kept: Connections)
    requires Agree(connections, sessions)
    requires kept.Keys <= connections.Keys && forall o :: o in kept ==> kept[o] == connections[o]
    requires forall x :: x in sessions ==> sessions[x] in kept
    ensures Agree(kept, sessions)
  {
    forall x | x in sessions
      ensures ActiveFor(kept, sessions[x], x)
    {
      assert ActiveFor(connections, sessions[x], x);
    }
  }

  /** Connections without an ended session keep their bindings. */
  lemma {:induction false} EndedElsewhere(
      before: Connections, after: Connections, sessions: Sessions, ended: set<Session>, o: Owner)
    requires Agree(before, sessions) && Ended(before, after, ended) && o in before
    requires forall x :: x in ended && x in sessions ==> sessions[x] != o
    ensures after[o] == before[o]
  {
    assert after[o].Get(Stream) == before[o].Get(Stream) && after[o].Get(Upload) == before[o].Get(Upload);
  }

  // ---------------------------------------------------------------- the proxy

  class DuckDBProxy {
    /** The databases with their next connection ids, and the connections of all databases. */
    var databases: map<nat, nat>
    var connections: Connections
    /** Streams and uploads, told apart by their kind. */
    var sessions: Sessions
    var statements: map<nat, Owner>
    var nextDatabaseId: nat
    var nextStatementId: nat
    var nextIds: Binding

    ghost predicate Consistent()
      reads this
    {
      && Agree(connections, sessions) && Live(connections, statements)
      && Numbered(connections, databases, nextDatabaseId) && SessionsIssued(nextIds, sessions)
      && forall id :: id in statements ==> id <= nextStatementId
    }

    constructor ()
      ensures Consistent() && databases == map[] && connections == map[] && sessions == map[] && statements == map[]
    {
      databases, connections, sessions, statements := map[], map[], map[], map[];
      nextDatabaseId, nextStatementId, nextIds := 0, 0, Binding(None, None);
    }

    method CreateDatabase() returns (id: nat)
      requires Consistent()
      modifies this
      ensures Consistent() && id !in old(databases) && databases == old(databases)[id := 1]
      ensures old(nextDatabaseId) < id <= nextDatabaseId
      ensures connections == old(connections) && sessions == old(sessions) && statements == old(statements)
    {
      nextDatabaseId := nextDatabaseId + 1;
      id := nextDatabaseId;
      databases := databases[id := 1];
    }

    /** `accepted` says whether DuckDB accepts the connection. */
    method Connect(databaseId: nat, accepted: bool) returns (status: Status, owner: Owner)
      requires Consistent()
      modifies `databases, `connections
      ensures Consistent()
      ensures status ==
        (if databaseId !in old(databases) then DatabaseUnknown else if !accepted then OperationFailed else Ok)
      ensures status != Ok ==> databases == old(databases) && connections == old(connections)
      ensures status == Ok ==> owner.databaseId == databaseId && owner !in old(connections)
      ensures status == Ok ==>
        databaseId in databases && old(databases)[databaseId] <= owner.connectionId < databases[databaseId]
      ensures status == Ok ==> connections == old(connections)[owner := Binding(None, None)]
    {
      owner := Owner(databaseId, 0);
      if databaseId !in databases {
        return DatabaseUnknown, owner;
      }
      if !accepted {
        return OperationFailed, owner;
      }
      owner := Owner(databaseId, databases[databaseId]);
      AddConnectionAgrees(connections, sessions, owner);
      databases := databases[databaseId := databases[databaseId] + 1];
      connections := connections[owner := Binding(None, None)];
      return Ok, owner;
    }

    // -------------------------------------------------------------- sessions

    /** Remove a session from its table, and clear the binding of its connection. */
    method DestroySessionEntry(x: Session)
      requires Consistent()
      modifies `sessions, `connections
      ensures Consistent() && sessions == old(sessions) - {x}
      ensures connections == if x !in old(sessions) then old(connections) else
        old(connections)[old(sessions)[x] := old(connections)[old(sessions)[x]].With(x.kind, None)]
    {
      if x in sessions {
        EndKeepsAgreement(connections, sessions, x);
        var owner := sessions[x];
        sessions := sessions - {x};
        if owner in connections && connections[owner].Get(x.kind) == Some(x.id) {
          connections := connections[owner := connections[owner].With(x.kind, None)];
        }
      }
    }

    /** Some of the sessions of a consistent state have been removed. */
    ghost predicate EndedSoFar(before: Connections, all: Sessions, ended: set<Session>)
      reads this
    {
      Consistent() && sessions == all - ended && Ended(before, connections, ended)
    }

    method DestroyNextSession(x: Session, ghost before: Connections, ghost all: Sessions, ghost ended: set<Session>)
      requires EndedSoFar(before, all, ended) && x in all && x !in ended
      modifies `sessions, `connections
      ensures EndedSoFar(before, all, ended + {x})
    {
      EndOne(before, connections, sessions, ended, x);
      EraseNext(all, ended, x);
      DestroySessionEntry(x);
    }

    /** Remove some registered sessions one by one. */
    method DestroySessions(ids: set<Session>)
      requires Consistent() && ids <= sessions.Keys
      modifies `sessions, `connections
      ensures Consistent() && sessions == old(sessions) - ids
      ensures Ended(old(connections), connections, ids)
    {
      var todo := ids;
      TodoBegins(ids, ids);
      while todo != {}
        invariant todo <= ids && EndedSoFar(old(connections), old(sessions), ids - todo)
        decreases |todo|
      {
        var x :| x in todo;
        TodoShrinks(ids, todo, x);
        DestroyNextSession(x, old(connections), old(sessions), ids - todo);
        todo := todo - {x};
      }
      TodoEnds(ids);
    }

    /** Remove some prepared statements one by one. */
    method DestroyStatements(ids: set<nat>)
      modifies `statements
      ensures statements == old(statements) - ids
    {
      var todo := ids;
      ghost var removed: set<nat> := {};
      while todo != {}
        invariant todo !! removed && todo + removed == ids
        invariant statements == old(statements) - removed
        decreases |todo|
      {
        var id :| id in todo;
        EraseNext(old(statements), removed, id);
        statements := statements - {id};
        todo, removed := todo - {id}, removed + {id};
      }
      assert removed == ids;
    }

    /** Remove everything that belongs to a connection. */
    method DestroyConnectionSessions(owner: Owner)
      requires Consistent()
      modifies `sessions, `connections, `statements
      ensures Consistent()
      ensures sessions == WithoutOwner(old(sessions), owner) && statements == WithoutOwner(old(statements), owner)
      ensures connections.Keys == old(connections).Keys
      ensures forall o :: o in connections && o != owner ==> connections[o] == old(connections)[o]
    {
      var statementIds := set id | id in statements && statements[id] == owner;
      OwnerRemoved(statements, statementIds, owner);
      DestroyStatements(statementIds);
      var ids := set x | x in sessions && sessions[x] == owner;
      OwnerRemoved(sessions, ids, owner);
      DestroySessions(ids);
      forall o | o in connections && o != owner
        ensures connections[o] == old(connections)[o]
      {
        EndedElsewhere(old(connections), connections, old(sessions), ids, o);
      }
    }

    /** Remove everything that belongs to a database. */
    method DestroyDatabaseSessions(databaseId: nat)
      requires Consistent()
      modifies `sessions, `connections, `statements
      ensures Consistent()
      ensures sessions == WithoutDatabase(old(sessions), databaseId)
      ensures statements == WithoutDatabase(old(statements), databaseId)
      ensures connections.Keys == old(connections).Keys
      ensures forall o :: o in connections && o.databaseId != databaseId ==> connections[o] == old(connections)[o]
    {
      var statementIds := set id | id in statements && statements[id].databaseId == databaseId;
      DatabaseRemoved(statements, statementIds, databaseId);
      DestroyStatements(statementIds);
      var ids := set x | x in sessions && sessions[x].databaseId == databaseId;
      DatabaseRemoved(sessions, ids, databaseId);
      DestroySessions(ids);
      forall o | o in connections && o.databaseId != databaseId
        ensures connections[o] == old(connections)[o]
      {
        EndedElsewhere(old(connections), connections, old(sessions), ids, o);
      }
    }

    method Disconnect(owner: Owner) returns (status: Status)
      requires Consistent()
      modifies `sessions, `connections, `statements
      ensures Consistent()
      ensures status == (if owner.databaseId !in databases then DatabaseUnknown
                         else if owner !in old(connections) then ConnectionUnknown else Ok)
      ensures connections == old(connections) - {owner}
      ensures sessions == WithoutOwner(old(sessions), owner) && statements == WithoutOwner(old(statements), owner)
    {
      DestroyConnectionSessions(owner);
      assert owner in connections ==> owner.databaseId in databases;
      assert owner !in connections ==> connections == old(connections) - {owner};
      if owner.databaseId !in databases {
        return DatabaseUnknown;
      }
      if owner !in connections {
        return ConnectionUnknown;
      }
      SessionsKept(sessions, connections, connections - {owner});
      RemoveKeepsAgreement(connections, sessions, connections - {owner});
      connections := connections - {owner};
      return Ok;
    }

    /** `reset` says whether DuckDB could reset the database; the connections are gone in any case. */
    method ResetDatabase(databaseId: nat, reset: bool) returns (status: Status)
      requires Consistent()
      modifies `sessions, `connections, `statements
      ensures Consistent()
      ensures status == (if databaseId !in databases then DatabaseUnknown else if !reset then OperationFailed else Ok)
      ensures connections == ConnectionsWithout(old(connections), databaseId)
      ensures sessions == WithoutDatabase(old(sessions), databaseId)
      ensures statements == WithoutDatabase(old(statements), databaseId)
    {
      DestroyDatabaseSessions(databaseId);
      if databaseId !in databases {
        assert connections == ConnectionsWithout(old(connections), databaseId);
        return DatabaseUnknown;
      }
      DropConnections(databaseId);
      return if reset then Ok else OperationFailed;
    }

    method DropConnections(databaseId: nat)
      requires Consistent()
      requires forall x :: x in sessions ==> sessions[x].databaseId != databaseId
      requires forall id :: id in statements ==> statements[id].databaseId != databaseId
      modifies `connections
      ensures Consistent() && connections == ConnectionsWithout(old(connections), databaseId)
    {
      SessionsKept(sessions, connections, ConnectionsWithout(connections, databaseId));
      RemoveKeepsAgreement(connections, sessions, ConnectionsWithout(connections, databaseId));
      connections := ConnectionsWithout(connections, databaseId);
    }

    method DestroyDatabase(databaseId: nat) returns (status: Status)
      requires Consistent()
      modifies `databases, `sessions, `connections, `statements
      ensures Consistent()
      ensures status == if databaseId !in old(databases) then DatabaseUnknown else Ok
      ensures databases == old(databases) - {databaseId}
      ensures connections == ConnectionsWithout(old(connections), databaseId)
      ensures sessions == WithoutDatabase(old(sessions), databaseId)
      ensures statements == WithoutDatabase(old(statements), databaseId)
    {
      status := ResetDatabase(databaseId, true);
      databases := databases - {databaseId};
    }

    // -------------------------------------------------------------- streams and uploads

    /** Begin a stream or an upload; `started` says whether DuckDB accepts the query of a stream. */
    method StartSession(kind: Kind, owner: Owner, started: bool) returns (status: Status, session: Session)
      requires Consistent() && (kind == Upload ==> started)
      modifies `sessions, `connections, `nextIds
      ensures Consistent()
      ensures status ==
        if owner.databaseId !in databases then DatabaseUnknown
        else if owner !in old(connections) then ConnectionUnknown
        else if exists x :: x in old(sessions) && old(sessions)[x] == owner then Busy
        else if !started then OperationFailed else Ok
      ensures status != Ok ==> sessions == old(sessions) && connections == old(connections)
      ensures status == Ok ==> session.kind == kind && session !in old(sessions)
      ensures status == Ok ==> !Issued(old(nextIds), session) && Issued(nextIds, session)
      ensures forall x :: Issued(old(nextIds), x) ==> Issued(nextIds, x)
      ensures status == Ok ==> sessions == old(sessions)[session := owner]
      ensures status == Ok ==>
        connections == old(connections)[owner := old(connections)[owner].With(kind, Some(session.id))]
    {
      session := Session(kind, 0);
      if owner.databaseId !in databases {
        return DatabaseUnknown, session;
      }
      if owner !in connections {
        return ConnectionUnknown, session;
      }
      BusyIffSession(connections, sessions, owner);
      if !connections[owner].IsFree() {
        return Busy, session;
      }
      if !started {
        return OperationFailed, session;
      }
      var id := if nextIds.Get(kind).Some? then nextIds.Get(kind).value + 1 else 1;
      session := Session(kind, id);
      StartKeepsAgreement(connections, sessions, nextIds, owner, kind, id);
      nextIds := nextIds.With(kind, Some(id));
      connections := connections[owner := connections[owner].With(kind, Some(id))];
      sessions := sessions[session := owner];
      return Ok, session;
    }

    /** A session of a call: it must be registered for the connection, and the connection must be known. */
    method FindSession(session: Session, owner: Owner) returns (status: Status)
      requires Consistent()
      ensures status == if Registered(sessions, session, owner) then Ok else SessionUnknown
    {
      if session !in sessions || sessions[session] != owner {
        return SessionUnknown;
      }
      assert ActiveFor(connections, owner, session);
      assert owner in connections;
      return Ok;
    }

    /** The tables after a session ended, or as they were. */
    ghost predicate SessionEnded(
        ended: bool, session: Session, owner: Owner, wasSessions: Sessions, wasConnections: Connections)
      requires ended ==> owner in wasConnections
      reads this
    {
      && sessions == (if ended then wasSessions - {session} else wasSessions)
      && connections ==
         if ended then wasConnections[owner := wasConnections[owner].With(session.kind, None)] else wasConnections
    }

    /** Read a batch of a stream: the read that meets its end removes the stream. */
    method ReadQueryStream(streamId: nat, owner: Owner, outcome: ReadOutcome) returns (status: Status)
      requires Consistent()
      modifies `sessions, `connections
      ensures Consistent()
      ensures status ==
        if !Registered(old(sessions), Session(Stream, streamId), owner) then SessionUnknown
        else if outcome == Failed then OperationFailed else Ok
      ensures status == Ok ==> owner in old(connections)
      ensures SessionEnded(
        status == Ok && outcome == EndOfStream, Session(Stream, streamId), owner, old(sessions), old(connections))
    {
      status := FindSession(Session(Stream, streamId), owner);
      if status != Ok {
        return;
      }
      match outcome
      case Batch =>
      case EndOfStream => DestroySessionEntry(Session(Stream, streamId));
      case Failed => status := OperationFailed;
    }

    /** Cancel a query: the stream is gone unless DuckDB could not cancel it. */
    method DestroyQueryStream(streamId: nat, owner: Owner, cancelled: bool) returns (status: Status)
      requires Consistent()
      modifies `sessions, `connections
      ensures Consistent()
      ensures status ==
        if !Registered(old(sessions), Session(Stream, streamId), owner) then SessionUnknown
        else if !cancelled then OperationFailed else Ok
      ensures status == Ok ==> owner in old(connections)
      ensures SessionEnded(status == Ok, Session(Stream, streamId), owner, old(sessions), old(connections))
    {
      status := FindSession(Session(Stream, streamId), owner);
      if status != Ok {
        return;
      }
      if !cancelled {
        return OperationFailed;
      }
      DestroySessionEntry(Session(Stream, streamId));
    }

    /** Push a chunk of an upload: the chunk that finishes it removes the upload, if DuckDB takes the chunk. */
    method PushUploadChunk(uploadId: nat, owner: Owner, accepted: bool, finish: bool) returns (status: Status)
      requires Consistent()
      modifies `sessions, `connections
      ensures Consistent()
      ensures status ==
        if !Registered(old(sessions), Session(Upload, uploadId), owner) then SessionUnknown
        else if !accepted then OperationFailed else Ok
      ensures status == Ok ==> owner in old(connections)
      ensures SessionEnded(status == Ok && finish, Session(Upload, uploadId), owner, old(sessions), old(connections))
    {
      status := FindSession(Session(Upload, uploadId), owner);
      if status != Ok {
        return;
      }
      if !accepted {
        return OperationFailed;
      }
      if finish {
        DestroySessionEntry(Session(Upload, uploadId));
      }
    }

    // -------------------------------------------------------------- prepared statements

    method CreatePreparedStatement(owner: Owner) returns (status: Status, id: nat)
      requires Consistent()
      modifies `statements, `nextStatementId
      ensures Consistent()
      ensures status == if owner.databaseId !in databases then DatabaseUnknown
                        else if owner !in connections then ConnectionUnknown else Ok
      ensures status == Ok ==>
        id !in old(statements) && old(nextStatementId) < id && id <= nextStatementId
      ensures status == Ok ==> statements == old(statements)[id := owner]
      ensures forall k :: k in old(statements) ==> k in statements && statements[k] == old(statements)[k]
      ensures status != Ok ==> statements == old(statements) && nextStatementId == old(nextStatementId)
    {
      id := 0;
      if owner.databaseId !in databases {
        return DatabaseUnknown, id;
      }
      if owner !in connections {
        return ConnectionUnknown, id;
      }
      nextStatementId := nextStatementId + 1;
      id := nextStatementId;
      statements := statements[id := owner];
      return Ok, id;
    }

    method DestroyPreparedStatement(owner: Owner, id: nat) returns (status: Status)
      requires Consistent()
      modifies `statements
      ensures Consistent()
      ensures status == if id in old(statements) && old(statements)[id] == owner then Ok else StatementUnknown
      ensures statements == if status == Ok then old(statements) - {id} else old(statements)
    {
      if id !in statements || statements[id] != owner {
        return StatementUnknown;
      }
      statements := statements - {id};
      return Ok;
    }
  }

  /** The session is registered for the connection. */
  predicate Registered(sessions: Sessions, session: Session, owner: Owner) {
    session in sessions && sessions[session] == owner
  }

  lemma {:induction false} SessionsKept(sessions: Sessions, connections: Connections, kept: Connections)
    requires SessionsActive(connections, sessions)
    requires forall x :: x in sessions && sessions[x] in connections ==> sessions[x] in kept
    ensures forall x :: x in sessions ==> sessions[x] in kept
  {
    forall x | x in sessions
      ensures sessions[x] in connections
    {
      assert ActiveFor(connections, sessions[x], x);
    }
  }

  /** A connection is busy exactly when a session is registered for it. */
  lemma {:induction false} BusyIffSession(connections: Connections, sessions: Sessions, owner: Owner)
    requires Agree(connections, sessions) && owner in connections
    ensures !connections[owner].IsFree() <==> exists x :: x in sessions && sessions[x] == owner
  {
    var b := connections[owner];
    if !b.IsFree() {
      var kind := if b.stream.Some? then Stream else Upload;
      assert b.Get(kind).Some?;
      assert Session(kind, b.Get(kind).value) in sessions;
    }
    if x :| x in sessions && sessions[x] == owner {
      assert ActiveFor(connections, owner, x);
    }
  }

  lemma {:induction false} StartKeepsAgreement(
      connections: Connections, sessions: Sessions, nextIds: Binding, owner: Owner, kind: Kind, id: nat)
    requires Agree(connections, sessions) && SessionsIssued(nextIds, sessions)
    requires owner in connections && connections[owner].IsFree()
    requires id == if nextIds.Get(kind).Some? then nextIds.Get(kind).value + 1 else 1
    ensures Session(kind, id) !in sessions
    ensures Agree(connections[owner := connections[owner].With(kind, Some(id))], sessions[Session(kind, id) := owner])
    ensures SessionsIssued(nextIds.With(kind, Some(id)), sessions[Session(kind, id) := owner])
  {
    var after := connections[owner := connections[owner].With(kind, Some(id))];
    forall x | x in sessions
      ensures ActiveFor(after, sessions[x], x) && Issued(nextIds.With(kind, Some(id)), x) && x != Session(kind, id)
    {
      assert ActiveFor(connections, sessions[x], x);
      IssuedGrows(nextIds, kind, x);
    }
  }

  /** Between calls no connection has two sessions, and every binding names the registered one. */
  lemma {:induction false} OneSessionBetweenCalls(connections: Connections, sessions: Sessions, x: Session, y: Session)
    requires Agree(connections, sessions) && x in sessions && y in sessions && sessions[x] == sessions[y]
    ensures x == y
    ensures connections[sessions[x]] == Binding(None, None).With(x.kind, Some(x.id))
  {
    assert ActiveFor(connections, sessions[x], x) && ActiveFor(connections, sessions[y], y);
  }

  lemma {:induction false} AddConnectionAgrees(connections: Connections, sessions: Sessions, o: Owner)
    requires Agree(connections, sessions) && o !in connections
    ensures Agree(connections[o := Binding(None, None)], sessions)
  {
    var after := connections[o := Binding(None, None)];
    forall x | x in sessions
      ensures ActiveFor(after, sessions[x], x)
    {
      assert ActiveFor(connections, sessions[x], x);
    }
  }
}
