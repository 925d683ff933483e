/** What every run of a server stream keeps: nothing is lost, reordered or read twice. */
module StreamRuns {
  import opened Collections
  import opened StreamSteps

  // ---------------------------------------------------------------- the invariant

  ghost predicate NoFinishedBatch(batches: seq<Batch>) {
    forall k :: 0 <= k < |batches| ==> batches[k].event != StreamFinished
  }

  /** The messages that callers got, in the batches they got them in. */
  function AllMessages(batches: seq<Batch>): seq<Bytes> {
    if batches == [] then [] else AllMessages(batches[..|batches| - 1]) + batches[|batches| - 1].messages
  }

  function DeliveredBodies(taken: seq<Taken>): seq<Bytes> {
    if taken == [] then []
    else
      var last := taken[|taken| - 1];
      DeliveredBodies(taken[..|taken| - 1]) + if last.delivered then [last.bytes] else []
  }

  ghost predicate Channel(s: State) {
    && |s.queue| <= STREAM_CAPACITY && Terminated(Rest(s))
    && (s.producing <==> s.inFlight.Some? || s.unsent != [])
  }

  ghost predicate Batches(s: State) {
    && (forall k :: 0 <= k < |s.batches| ==> WithinLimit(s.batches[k]))
    && AllMessages(s.batches) == DeliveredBodies(s.taken)
    && (!NoFinishedBatch(s.batches) ==> Rest(s) == [])
  }

  /** Messages are taken, held by the read, or still to come, in the order of production. */
  ghost predicate Conserves(s: State, produced: seq<Bytes>) {
    Counted(s) && Channel(s) && Batches(s) && Everything(s) == produced
  }

  ghost predicate Valid(s: State, produced: seq<Bytes>) {
    Conserves(s, produced) && ReadingFits(s)
  }

  // ---------------------------------------------------------------- sequences

  lemma {:induction false} MarkedAppend(taken: seq<Taken>, messages: seq<Bytes>, delivered: bool)
    ensures Bodies(taken + Marked(messages, delivered)) == Bodies(taken) + messages
  {
  }

  lemma {:induction false} DeliveredAppend(taken: seq<Taken>, messages: seq<Bytes>, delivered: bool)
    ensures DeliveredBodies(taken + Marked(messages, delivered)) ==
      DeliveredBodies(taken) + if delivered then messages else []
    decreases |messages|
  {
    if messages == [] {
      assert Marked(messages, delivered) == [];
      assert taken + [] == taken;
      assert DeliveredBodies(taken) + [] == DeliveredBodies(taken);
    } else {
      var front, m := messages[..|messages| - 1], messages[|messages| - 1];
      DeliveredAppend(taken, front, delivered);
      SplitLast(messages);
      assert Marked(messages, delivered) == Marked(front, delivered) + [Taken(m, delivered)];
      Associative(taken, Marked(front, delivered), [Taken(m, delivered)]);
      DeliveredNext(taken + Marked(front, delivered), Taken(m, delivered));
      Associative(DeliveredBodies(taken), front, [m]);
    }
  }

  lemma {:induction false} DeliveredNext(taken: seq<Taken>, t: Taken)
    ensures DeliveredBodies(taken + [t]) == DeliveredBodies(taken) + if t.delivered then [t.bytes] else []
  {
    assert (taken + [t])[..|taken|] == taken;
  }

  lemma {:induction false} AllMessagesNext(batches: seq<Batch>, b: Batch)
    ensures AllMessages(batches + [b]) == AllMessages(batches) + b.messages
  {
    assert (batches + [b])[..|batches|] == batches;
  }

  lemma {:induction false} TotalNext(messages: seq<Bytes>, m: Bytes)
    ensures TotalLength(messages + [m]) == TotalLength(messages) + |m|
    ensures (messages + [m])[..|messages + [m]| - 1] == messages
  {
    assert (messages + [m])[..|messages|] == messages;
  }

  lemma {:induction false} PopRest(s: State)
    requires s.queue != []
    ensures Rest(s) == [s.queue[0]] + Rest(s.(queue := s.queue[1..]))
    ensures Rest(s)[1..] == Rest(s.(queue := s.queue[1..]))
  {
    assert s.queue == [s.queue[0]] + s.queue[1..];
    Associative([s.queue[0]], s.queue[1..], Flight(s.inFlight) + s.unsent);
  }

  lemma {:induction false} ContentsPop(events: seq<Event>)
    requires events != []
    ensures Contents(events) == (if events[0].Message? then [events[0].bytes] else []) + Contents(events[1..])
  {
  }

  // ---------------------------------------------------------------- the producer's steps

  lemma {:induction false} ProduceKeepsRest(s: State)
    requires Enabled(s, Produce)
    ensures Rest(Step(s, Produce)) == Rest(s)
  {
    assert [s.unsent[0]] + s.unsent[1..] == s.unsent;
    assert [] + s.unsent == s.unsent;
  }

  lemma {:induction false} SendKeepsRest(s: State)
    requires Enabled(s, Send)
    ensures Rest(Step(s, Send)) == Rest(s)
  {
    var e := s.inFlight.value;
    Associative(s.queue, [e], s.unsent);
    assert [] + s.unsent == s.unsent;
  }

  /** The final event is sent last. */
  lemma {:induction false} FinalIsLast(s: State)
    requires Terminated(Rest(s)) && s.inFlight.Some? && !s.inFlight.value.Message?
    ensures s.unsent == []
  {
    var rest := Rest(s);
    assert rest[|s.queue|] == s.inFlight.value;
    assert |rest| == |s.queue| + 1 + |s.unsent|;
  }

  lemma {:induction false} MessageIsNotLast(s: State)
    requires Terminated(Rest(s)) && s.inFlight.Some? && s.inFlight.value.Message?
    ensures s.unsent != []
  {
    var rest := Rest(s);
    assert rest[|s.queue|] == s.inFlight.value;
    assert |rest| == |s.queue| + 1 + |s.unsent|;
  }

  lemma {:induction false} ProducerKeepsValid(s: State, produced: seq<Bytes>, action: Action)
    requires Valid(s, produced) && Enabled(s, action) && (action.Produce? || action.Send?)
    ensures Valid(Step(s, action), produced)
  {
    StepKeepsCounted(s, action);
    if action.Produce? {
      ProduceKeepsRest(s);
    } else {
      SendKeepsRest(s);
      if s.inFlight.value.Message? {
        MessageIsNotLast(s);
      } else {
        FinalIsLast(s);
      }
    }
  }

  // ---------------------------------------------------------------- the readers' steps

  /** The read ends with what it holds, delivered in a batch or thrown away. */
  ghost predicate ReadEnds(s: State, t: State, delivered: bool) {
    && s.active.Some? && t.active.None? && t.taken == s.taken + Marked(s.active.value.messages, delivered)
    && (if delivered then t.batches != [] && t.batches[..|t.batches| - 1] == s.batches
            && t.batches[|t.batches| - 1].messages == s.active.value.messages
        else t.batches == s.batches)
  }

  lemma {:induction false} ReadEndsKeepsMessages(s: State, t: State, delivered: bool)
    requires ReadEnds(s, t, delivered)
    ensures Bodies(t.taken) + Held(t) == Bodies(s.taken) + Held(s)
    ensures AllMessages(s.batches) == DeliveredBodies(s.taken) ==> AllMessages(t.batches) == DeliveredBodies(t.taken)
  {
    MarkedAppend(s.taken, s.active.value.messages, delivered);
    DeliveredAppend(s.taken, s.active.value.messages, delivered);
    assert Bodies(t.taken) + [] == Bodies(t.taken);
    if delivered {
      AllMessagesNext(s.batches, t.batches[|t.batches| - 1]);
      assert t.batches == s.batches + [t.batches[|t.batches| - 1]];
    } else {
      assert DeliveredBodies(s.taken) + [] == DeliveredBodies(s.taken);
    }
  }

  lemma {:induction false} AbandonEnds(s: State)
    requires s.active.Some?
    ensures ReadEnds(s, Abandon(s), false) && Rest(Abandon(s)) == Rest(s)
  {
  }

  lemma {:induction false} ReturnEnds(s: State, event: BatchEvent, trailers: Option<Bytes>)
    requires s.active.Some?
    ensures ReadEnds(s, Return(s, event, trailers), true) && Rest(Return(s, event, trailers)) == Rest(s)
  {
  }

  /** A read that ends keeps everything in place. */
  lemma {:induction false} EndKeepsValid(s: State, t: State, produced: seq<Bytes>, delivered: bool)
    requires Conserves(s, produced) && Counted(t) && ReadEnds(s, t, delivered) && Rest(t) == Rest(s)
    requires t.queue == s.queue && t.inFlight == s.inFlight && t.unsent == s.unsent && t.producing == s.producing
    requires delivered ==>
      var b := t.batches[|t.batches| - 1];
      WithinLimit(b) && (b.event == StreamFinished ==> Rest(s) == [])
    ensures Valid(t, produced)
  {
    ReadEndsKeepsMessages(s, t, delivered);
    BatchesSplit(s, t, delivered);
  }

  lemma {:induction false} BatchesSplit(s: State, t: State, delivered: bool)
    requires ReadEnds(s, t, delivered)
    requires forall k :: 0 <= k < |s.batches| ==> WithinLimit(s.batches[k])
    requires delivered ==> WithinLimit(t.batches[|t.batches| - 1])
    ensures forall k :: 0 <= k < |t.batches| ==> WithinLimit(t.batches[k])
    ensures !NoFinishedBatch(t.batches) ==>
      !NoFinishedBatch(s.batches) || (delivered && t.batches[|t.batches| - 1].event == StreamFinished)
  {
    if delivered {
      SplitLast(t.batches);
      forall k | 0 <= k < |t.batches|
        ensures t.batches[k] == if k < |s.batches| then s.batches[k] else t.batches[|t.batches| - 1]
      {
      }
    }
  }

  lemma {:induction false} ReadingWithinLimit(r: Reading, event: BatchEvent, trailers: Option<Bytes>)
    requires r.totalBytes == TotalLength(r.messages) <= r.flushBytes
    requires event.StreamFinished? || (event.FlushAfterTimeout? && r.messages != [])
    requires event.StreamFinished? <==> trailers.Some?
    ensures WithinLimit(Batch(event, r.messages, r.totalBytes, r.flushBytes, trailers))
  {
    if r.messages != [] {
      SplitLast(r.messages);
      TotalNext(r.messages[..|r.messages| - 1], r.messages[|r.messages| - 1]);
    }
  }

  lemma {:induction false} AcceptedWithinLimit(r: Reading, m: Bytes)
    requires r.totalBytes == TotalLength(r.messages) <= r.flushBytes
    ensures
      var a := Accept(r, m);
      && a.totalBytes == TotalLength(a.messages)
      && (a.totalBytes > a.flushBytes ==>
            WithinLimit(Batch(FlushAfterBytes, a.messages, a.totalBytes, a.flushBytes, None)))
  {
    TotalNext(r.messages, m);
  }

  lemma {:induction false} ReturnKeepsValid(s: State, produced: seq<Bytes>, event: BatchEvent, trailers: Option<Bytes>)
    requires Conserves(s, produced) && s.active.Some? && Counted(Return(s, event, trailers))
    requires
      var r := s.active.value;
      WithinLimit(Batch(event, r.messages, r.totalBytes, r.flushBytes, trailers))
    requires event == StreamFinished ==> Rest(s) == []
    ensures Valid(Return(s, event, trailers), produced)
  {
    ReturnEnds(s, event, trailers);
    EndKeepsValid(s, Return(s, event, trailers), produced, true);
  }

  lemma {:induction false} TimeOutKeepsCounted(s: State)
    requires Counted(s) && s.active.Some?
    ensures Counted(TimedOut(s))
  {
  }

  lemma {:induction false} TimeOutKeepsValid(s: State, produced: seq<Bytes>)
    requires Valid(s, produced) && s.active.Some?
    ensures Valid(TimedOut(s), produced)
  {
    TimeOutKeepsCounted(s);
    if s.active.value.messages == [] {
      AbandonEnds(s);
      EndKeepsValid(s, Abandon(s), produced, false);
    } else {
      ReadingWithinLimit(s.active.value, FlushAfterTimeout, None);
      ReturnKeepsValid(s, produced, FlushAfterTimeout, None);
    }
  }

  lemma {:induction false} CancelKeepsValid(s: State, produced: seq<Bytes>)
    requires Valid(s, produced) && s.active.Some?
    ensures Valid(Abandon(s), produced)
  {
    StepKeepsCounted(s, CancelRead);
    AbandonEnds(s);
    EndKeepsValid(s, Abandon(s), produced, false);
  }

  // ---------------------------------------------------------------- taking an event

  /** The state after the first event left the queue: a message goes to the read. */
  function Popped(s: State): State
    requires s.active.Some? && s.queue != []
  {
    var t := s.(queue := s.queue[1..]);
    if s.queue[0].Message? then t.(active := Some(Accept(s.active.value, s.queue[0].bytes))) else Unregister(t)
  }

  lemma {:induction false} PoppedRest(s: State)
    requires s.active.Some? && s.queue != []
    ensures Rest(s) == [s.queue[0]] + Rest(Popped(s)) && Rest(s)[1..] == Rest(Popped(s))
  {
    PopRest(s);
  }

  lemma {:induction false} PoppedEverything(s: State)
    requires s.active.Some? && s.queue != []
    ensures Everything(Popped(s)) == Everything(s)
  {
    PoppedRest(s);
    ContentsPop(Rest(s));
    var held, rest := s.active.value.messages, Contents(Rest(Popped(s)));
    if s.queue[0].Message? {
      var m := s.queue[0].bytes;
      Associative(Bodies(s.taken), held, [m]);
      Associative(Bodies(s.taken) + held, [m], rest);
    } else {
      assert [] + rest == rest;
    }
  }

  /** The event that ends the stream is the last one. */
  lemma {:induction false} FinalIsTheRest(s: State)
    requires s.active.Some? && s.queue != [] && Terminated(Rest(s))
    ensures Terminated(Rest(Popped(s)))
    ensures !s.queue[0].Message? ==> Rest(Popped(s)) == []
  {
    PoppedRest(s);
    var rest, next := Rest(s), Rest(Popped(s));
    assert rest[0] == s.queue[0];
    assert forall k :: 0 <= k < |next| ==> next[k] == rest[k + 1];
  }

  lemma {:induction false} PoppedConserves(s: State, produced: seq<Bytes>)
    requires Valid(s, produced) && s.active.Some? && s.queue != []
    ensures Conserves(Popped(s), produced)
  {
    PoppedEverything(s);
    FinalIsTheRest(s);
    assert Rest(s) != [];
  }

  /** What receiving does, in terms of the popped state. */
  lemma {:induction false} ReceivedFromPopped(s: State)
    requires s.active.Some? && s.queue != []
    ensures Popped(s).active.Some?
    ensures s.queue[0].Message? ==>
      var r := Popped(s).active.value;
      Received(s) == if r.totalBytes > r.flushBytes then Return(Popped(s), FlushAfterBytes, None) else Popped(s)
    ensures s.queue[0].End? ==> Received(s) == Return(Popped(s), StreamFinished, Some(s.queue[0].trailers))
    ensures s.queue[0].ReadFailed? ==> Received(s) == Abandon(Popped(s))
  {
  }

  lemma {:induction false} ReceiveMessageKeepsValid(s: State, produced: seq<Bytes>)
    requires Valid(s, produced) && s.active.Some? && s.queue != [] && s.queue[0].Message?
    ensures Valid(Received(s), produced)
  {
    ReceiveKeepsCounted(s);
    PoppedConserves(s, produced);
    ReceivedFromPopped(s);
    AcceptedWithinLimit(s.active.value, s.queue[0].bytes);
    var r := Popped(s).active.value;
    assert r == Accept(s.active.value, s.queue[0].bytes);
    if r.totalBytes > r.flushBytes {
      ReturnKeepsValid(Popped(s), produced, FlushAfterBytes, None);
    }
  }

  lemma {:induction false} ReceiveEndKeepsValid(s: State, produced: seq<Bytes>)
    requires Valid(s, produced) && s.active.Some? && s.queue != [] && s.queue[0].End?
    ensures Valid(Received(s), produced)
  {
    ReceiveKeepsCounted(s);
    PoppedConserves(s, produced);
    ReceivedFromPopped(s);
    FinalIsTheRest(s);
    ReadingWithinLimit(Popped(s).active.value, StreamFinished, Some(s.queue[0].trailers));
    ReturnKeepsValid(Popped(s), produced, StreamFinished, Some(s.queue[0].trailers));
  }

  lemma {:induction false} ReceiveFailureKeepsValid(s: State, produced: seq<Bytes>)
    requires Valid(s, produced) && s.active.Some? && s.queue != [] && s.queue[0].ReadFailed?
    ensures Valid(Received(s), produced)
  {
    StepKeepsCounted(s, Receive);
    PoppedConserves(s, produced);
    AbandonEnds(Popped(s));
    EndKeepsValid(Popped(s), Abandon(Popped(s)), produced, false);
  }

  lemma {:induction false} ReceiveKeepsValid(s: State, produced: seq<Bytes>)
    requires Valid(s, produced) && s.active.Some? && s.queue != []
    ensures Valid(Received(s), produced)
  {
    match s.queue[0]
    case Message(_) => ReceiveMessageKeepsValid(s, produced);
    case End(_) => ReceiveEndKeepsValid(s, produced);
    case ReadFailed(_) => ReceiveFailureKeepsValid(s, produced);
  }

  // ---------------------------------------------------------------- the remaining steps

  /** Steps that only move references. */
  lemma {:induction false} BookkeepingKeepsValid(s: State, produced: seq<Bytes>, action: Action)
    requires Valid(s, produced) && Enabled(s, action)
    requires action.BeginRead? || action.Lock? || action.CancelWait? || action.Destroy?
    ensures Valid(Step(s, action), produced)
  {
    StepKeepsCounted(s, action);
    var t := Step(s, action);
    assert Rest(t) == Rest(s);
    assert Held(t) == Held(s);
  }

  /** While a read or the producer is under way the sender lives, so the channel is never seen closed. */
  lemma {:induction false} CloseUnreachable(s: State, produced: seq<Bytes>)
    requires Valid(s, produced)
    ensures !Enabled(s, Close) && !Enabled(s, SendFail)
  {
  }

  lemma {:induction false} StepKeepsValid(s: State, produced: seq<Bytes>, action: Action)
    requires Valid(s, produced) && Enabled(s, action)
    ensures Valid(Step(s, action), produced)
  {
    CloseUnreachable(s, produced);
    match action
    case Produce => ProducerKeepsValid(s, produced, action);
    case Send => ProducerKeepsValid(s, produced, action);
    case SendFail =>
    case BeginRead => BookkeepingKeepsValid(s, produced, action);
    case Lock(_) => BookkeepingKeepsValid(s, produced, action);
    case Receive => ReceiveKeepsValid(s, produced);
    case TimeOut => TimeOutKeepsValid(s, produced);
    case Close =>
    case CancelWait => BookkeepingKeepsValid(s, produced, action);
    case CancelRead => CancelKeepsValid(s, produced);
    case Destroy => BookkeepingKeepsValid(s, produced, action);
  }

  // ---------------------------------------------------------------- runs

  ghost predicate IsRun(states: seq<State>, actions: seq<Action>, produced: seq<Bytes>, final: Event) {
    && |states| == |actions| + 1 && !final.Message?
    && states[0] == Started(produced, final)
    && forall i: nat :: i < |actions| ==> IsStepOf(states, actions, i)
  }

  ghost predicate IsStepOf(states: seq<State>, actions: seq<Action>, i: nat)
    requires i < |actions| < |states|
  {
    Enabled(states[i], actions[i]) && states[i + 1] == Step(states[i], actions[i])
  }

  lemma {:induction false} ContentsOfEvents(messages: seq<Bytes>, final: Event)
    requires !final.Message?
    ensures Contents(Events(messages) + [final]) == messages
  {
    var events := Events(messages) + [final];
    if messages == [] {
      assert events == [final];
      assert Contents(events[1..]) == [];
    } else {
      ContentsOfEvents(messages[1..], final);
      assert events[0] == Message(messages[0]) && events[1..] == Events(messages[1..]) + [final];
      assert [messages[0]] + messages[1..] == messages;
    }
  }

  lemma {:induction false} StartedIsValid(produced: seq<Bytes>, final: Event)
    requires !final.Message?
    ensures Valid(Started(produced, final), produced)
  {
    var s := Started(produced, final);
    ContentsOfEvents(produced, final);
    assert Rest(s) == Events(produced) + [final];
    assert Bodies([]) + [] + produced == produced;
  }

  /** In every state of every run the stream is conserved and the batches are within their limits. */
  lemma {:induction false} EveryRunConserves(
      states: seq<State>, actions: seq<Action>, produced: seq<Bytes>, final: Event, i: nat)
    requires IsRun(states, actions, produced, final) && i < |states|
    ensures Valid(states[i], produced)
  {
    if i == 0 {
      StartedIsValid(produced, final);
    } else {
      EveryRunConserves(states, actions, produced, final, i - 1);
      assert IsStepOf(states, actions, i - 1);
      StepKeepsValid(states[i - 1], produced, actions[i - 1]);
    }
  }

  /** The channel is never seen closed by a reader, and never refuses the producer. */
  lemma {:induction false} NeverClosed(
      states: seq<State>, actions: seq<Action>, produced: seq<Bytes>, final: Event, i: nat)
    requires IsRun(states, actions, produced, final) && i < |actions|
    ensures !actions[i].Close? && !actions[i].SendFail?
  {
    assert IsStepOf(states, actions, i);
    EveryRunConserves(states, actions, produced, final, i);
    CloseUnreachable(states[i], produced);
  }

  /** Steps that can throw messages away: a read failure, or a caller that gives up on its read. */
  ghost predicate Loses(s: State, action: Action) {
    action.CancelRead? || (action.Receive? && s.queue != [] && s.queue[0].ReadFailed?)
  }

  ghost predicate AllDelivered(taken: seq<Taken>) {
    forall k :: 0 <= k < |taken| ==> taken[k].delivered
  }

  lemma {:induction false} MarkedDelivered(taken: seq<Taken>, messages: seq<Bytes>)
    requires AllDelivered(taken)
    ensures AllDelivered(taken + Marked(messages, true))
  {
  }

  lemma {:induction false} NothingMarked(taken: seq<Taken>)
    ensures taken + Marked([], false) == taken
  {
  }

  lemma {:induction false} ReceiveDelivers(s: State)
    requires s.active.Some? && s.queue != [] && !s.queue[0].ReadFailed? && AllDelivered(s.taken)
    ensures AllDelivered(Received(s).taken)
  {
    MarkedDelivered(s.taken, Popped(s).active.value.messages);
  }

  lemma {:induction false} TimeOutDelivers(s: State)
    requires s.active.Some? && AllDelivered(s.taken)
    ensures AllDelivered(TimedOut(s).taken)
  {
    MarkedDelivered(s.taken, s.active.value.messages);
    NothingMarked(s.taken);
  }

  /** Any other step delivers what it takes; a timeout drops nothing. */
  lemma {:induction false} OtherStepsDeliver(s: State, produced: seq<Bytes>, action: Action)
    requires Valid(s, produced) && Enabled(s, action) && !Loses(s, action) && AllDelivered(s.taken)
    ensures AllDelivered(Step(s, action).taken)
  {
    CloseUnreachable(s, produced);
    if action.Receive? {
      ReceiveDelivers(s);
    } else if action.TimeOut? {
      TimeOutDelivers(s);
    } else {
      assert Step(s, action).taken == s.taken;
    }
  }

  lemma {:induction false} AllDeliveredBodies(taken: seq<Taken>)
    requires AllDelivered(taken)
    ensures DeliveredBodies(taken) == Bodies(taken)
  {
    if taken == [] {
      assert Bodies(taken) == [];
    } else {
      AllDeliveredBodies(taken[..|taken| - 1]);
      assert Bodies(taken) == Bodies(taken[..|taken| - 1]) + [taken[|taken| - 1].bytes];
    }
  }

  lemma {:induction false} RunDelivers(
      states: seq<State>, actions: seq<Action>, produced: seq<Bytes>, final: Event, i: nat)
    requires IsRun(states, actions, produced, final) && i < |states|
    requires forall j :: 0 <= j < i ==> !Loses(states[j], actions[j])
    ensures AllDelivered(states[i].taken)
  {
    if i > 0 {
      RunDelivers(states, actions, produced, final, i - 1);
      EveryRunConserves(states, actions, produced, final, i - 1);
      assert IsStepOf(states, actions, i - 1);
      OtherStepsDeliver(states[i - 1], produced, actions[i - 1]);
    }
  }

  /**
    Until a read failure or a cancelled read: the messages of all returned batches, then those the current
    read holds, then those still to be read, are the produced messages.
  */
  lemma {:induction false} BatchesConserve(
      states: seq<State>, actions: seq<Action>, produced: seq<Bytes>, final: Event, i: nat)
    requires IsRun(states, actions, produced, final) && i < |states|
    requires forall j :: 0 <= j < i ==> !Loses(states[j], actions[j])
    ensures AllMessages(states[i].batches) + Held(states[i]) + Contents(Rest(states[i])) == produced
  {
    EveryRunConserves(states, actions, produced, final, i);
    RunDelivers(states, actions, produced, final, i);
    AllDeliveredBodies(states[i].taken);
  }

  /** The end of the stream is reported only once every message was delivered. */
  lemma {:induction false} FinishedMeansComplete(
      states: seq<State>, actions: seq<Action>, produced: seq<Bytes>, final: Event, i: nat)
    requires IsRun(states, actions, produced, final) && i < |states|
    requires forall j :: 0 <= j < i ==> !Loses(states[j], actions[j])
    requires !NoFinishedBatch(states[i].batches) && states[i].active.None?
    ensures AllMessages(states[i].batches) == produced
  {
    BatchesConserve(states, actions, produced, final, i);
    EveryRunConserves(states, actions, produced, final, i);
    assert Contents(Rest(states[i])) == [];
    assert AllMessages(states[i].batches) + [] + [] == AllMessages(states[i].batches);
  }
}
