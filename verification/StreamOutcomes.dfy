/** What callers see of a stream over whole runs: trailers, limits, and when the stream can still be read. */
module StreamOutcomes {
  import opened Collections
  import opened StreamSteps
  import opened StreamRuns

  // ---------------------------------------------------------------- one step

  /** The read takes the event at the head of the queue. */
  ghost predicate Takes(s: State, action: Action) {
    action.Receive? && s.active.Some? && s.queue != []
  }

  /** What is still to be read loses at most its head. */
  lemma {:induction false} RestAfterStep(s: State, action: Action)
    requires Enabled(s, action) && !action.SendFail?
    ensures Rest(Step(s, action)) == if Takes(s, action) then Rest(s)[1..] else Rest(s)
    ensures Takes(s, action) ==> Rest(s) != [] && Rest(s)[0] == s.queue[0]
  {
    match action
    case Produce => ProduceKeepsRest(s);
    case Send => SendKeepsRest(s);
    case Receive =>
      PoppedRest(s);
      ReceivedFromPopped(s);
    case _ =>
  }

  ghost predicate EndsWith(events: seq<Event>, final: Event) {
    events != [] ==> events[|events| - 1] == final
  }

  lemma {:induction false} TailEndsWith(events: seq<Event>, final: Event)
    requires events != [] && EndsWith(events, final)
    ensures EndsWith(events[1..], final)
  {
  }

  lemma {:induction false} HeadIsFinal(events: seq<Event>, final: Event)
    requires Terminated(events) && events != [] && EndsWith(events, final) && !events[0].Message?
    ensures events[0] == final
  {
  }

  /** A batch that reports the end carries the trailers of the final event, no other batch has any. */
  ghost predicate TrailersOf(b: Batch, final: Event) {
    && (b.event == StreamFinished ==> final.End? && b.trailers == Some(final.trailers))
    && (b.event != StreamFinished ==> b.trailers == None)
  }

  /** The batches grow by at most one, which has the limit of the read and the right trailers. */
  ghost predicate ReturnsOne(s: State, t: State, final: Event) {
    t.batches == s.batches
    || (s.active.Some? && exists b ::
          t.batches == s.batches + [b] && b.flushBytes == s.active.value.flushBytes && TrailersOf(b, final))
  }

  lemma {:induction false} ReturnedOne(s: State, r: State, event: BatchEvent, trailers: Option<Bytes>, final: Event)
    requires s.active.Some? && r.active.Some? && r.batches == s.batches
    requires r.active.value.flushBytes == s.active.value.flushBytes
    requires if event == StreamFinished then final.End? && trailers == Some(final.trailers) else trailers == None
    ensures ReturnsOne(s, Return(r, event, trailers), final)
  {
    var reading := r.active.value;
    var b := Batch(event, reading.messages, reading.totalBytes, reading.flushBytes, trailers);
    assert Return(r, event, trailers).batches == s.batches + [b] && TrailersOf(b, final);
  }

  lemma {:induction false} ReceiveReturns(s: State, final: Event)
    requires s.active.Some? && s.queue != [] && Terminated(Rest(s)) && EndsWith(Rest(s), final)
    ensures ReturnsOne(s, Received(s), final)
  {
    ReceivedFromPopped(s);
    PoppedRest(s);
    if s.queue[0].End? {
      HeadIsFinal(Rest(s), final);
      ReturnedOne(s, Popped(s), StreamFinished, Some(s.queue[0].trailers), final);
    } else if s.queue[0].Message? {
      ReturnedOne(s, Popped(s), FlushAfterBytes, None, final);
    }
  }

  lemma {:induction false} TimeOutReturns(s: State, final: Event)
    requires s.active.Some?
    ensures ReturnsOne(s, TimedOut(s), final)
  {
    ReturnedOne(s, s, FlushAfterTimeout, None, final);
  }

  lemma {:induction false} BatchesAfterStep(s: State, action: Action, final: Event)
    requires Enabled(s, action) && !action.SendFail? && !action.Close?
    requires Terminated(Rest(s)) && EndsWith(Rest(s), final)
    ensures ReturnsOne(s, Step(s, action), final)
  {
    if action.Receive? {
      ReceiveReturns(s, final);
    } else if action.TimeOut? {
      TimeOutReturns(s, final);
    }
  }

  /** The event that the step takes is a message, and with it the read holds more than its limit. */
  ghost predicate Overflows(s: State, action: Action) {
    && Takes(s, action) && s.queue[0].Message?
    && TotalLength(s.active.value.messages) + |s.queue[0].bytes| > s.active.value.flushBytes
  }

  ghost predicate Finishes(s: State, action: Action) {
    Takes(s, action) && s.queue[0].End?
  }

  ghost predicate Expires(s: State, action: Action) {
    action.TimeOut? && Held(s) != []
  }

  /** The batches grow by one batch with these messages, for this reason. */
  ghost predicate Grows(before: seq<Batch>, after: seq<Batch>, event: BatchEvent, messages: seq<Bytes>) {
    && |after| == |before| + 1 && after[..|before|] == before
    && after[|before|].event == event && after[|before|].messages == messages
  }

  lemma {:induction false} ReceiveStep(s: State)
    requires s.active.Some? && s.queue != [] && ReadingFits(s)
    ensures
      var m, t := s.queue[0], Received(s);
      if m.Message? && TotalLength(Held(s)) + |m.bytes| > s.active.value.flushBytes then
        Grows(s.batches, t.batches, FlushAfterBytes, Held(s) + [m.bytes])
      else if m.End? then Grows(s.batches, t.batches, StreamFinished, Held(s))
      else t.batches == s.batches
  {
  }

  lemma {:induction false} TimeOutStep(s: State)
    requires s.active.Some?
    ensures
      if Held(s) == [] then TimedOut(s).batches == s.batches
      else Grows(s.batches, TimedOut(s).batches, FlushAfterTimeout, Held(s))
  {
  }

  /**
    A step returns a batch exactly if the read overflows, meets the end, or expires with messages, and the
    batch says which. It holds what the read held, and the message that made it overflow.
  */
  lemma {:induction false} StepReturns(s: State, action: Action)
    requires Enabled(s, action) && !action.SendFail? && !action.Close? && ReadingFits(s)
    ensures
      var t := Step(s, action);
      if Overflows(s, action) then Grows(s.batches, t.batches, FlushAfterBytes, Held(s) + [s.queue[0].bytes])
      else if Finishes(s, action) then Grows(s.batches, t.batches, StreamFinished, Held(s))
      else if Expires(s, action) then Grows(s.batches, t.batches, FlushAfterTimeout, Held(s))
      else t.batches == s.batches
  {
    if action.Receive? {
      ReceiveStep(s);
    } else if action.TimeOut? {
      TimeOutStep(s);
    }
  }

  // ---------------------------------------------------------------- runs

  lemma {:induction false} StepOfRun(
      states: seq<State>, actions: seq<Action>, produced: seq<Bytes>, final: Event, i: nat)
    requires IsRun(states, actions, produced, final) && i < |actions|
    ensures IsStepOf(states, actions, i) && !actions[i].SendFail? && !actions[i].Close?
    ensures Valid(states[i], produced) && Terminated(Rest(states[i]))
  {
    EveryRunConserves(states, actions, produced, final, i);
    NeverClosed(states, actions, produced, final, i);
    assert IsStepOf(states, actions, i);
  }

  lemma {:induction false} FinalStaysLast(
      states: seq<State>, actions: seq<Action>, produced: seq<Bytes>, final: Event, i: nat)
    requires IsRun(states, actions, produced, final) && i < |states|
    ensures EndsWith(Rest(states[i]), final)
  {
    if i == 0 {
      StartEndsWith(produced, final);
    } else {
      FinalStaysLast(states, actions, produced, final, i - 1);
      StepOfRun(states, actions, produced, final, i - 1);
      FinalAfterStep(states[i - 1], actions[i - 1], final);
    }
  }

  lemma {:induction false} StartEndsWith(produced: seq<Bytes>, final: Event)
    ensures EndsWith(Rest(Started(produced, final)), final)
  {
    assert Rest(Started(produced, final)) == Events(produced) + [final];
  }

  lemma {:induction false} FinalAfterStep(s: State, action: Action, final: Event)
    requires Enabled(s, action) && !action.SendFail? && EndsWith(Rest(s), final)
    ensures EndsWith(Rest(Step(s, action)), final)
  {
    RestAfterStep(s, action);
    if Takes(s, action) {
      TailEndsWith(Rest(s), final);
    }
  }

  ghost predicate AllTrailersOf(batches: seq<Batch>, final: Event) {
    forall k :: 0 <= k < |batches| ==> TrailersOf(batches[k], final)
  }

  /**
    In every run a batch reports the end of the stream only if the stream ended, and then with exactly the
    trailers that the server sent; all other batches have none.
  */
  lemma {:induction false} TrailersAreTheServers(
      states: seq<State>, actions: seq<Action>, produced: seq<Bytes>, final: Event, i: nat)
    requires IsRun(states, actions, produced, final) && i < |states|
    ensures AllTrailersOf(states[i].batches, final)
  {
    if i > 0 {
      TrailersAreTheServers(states, actions, produced, final, i - 1);
      StepOfRun(states, actions, produced, final, i - 1);
      FinalStaysLast(states, actions, produced, final, i - 1);
      BatchesAfterStep(states[i - 1], actions[i - 1], final);
      TrailersGrow(states[i - 1], states[i], final);
    }
  }

  lemma {:induction false} TrailersGrow(s: State, t: State, final: Event)
    requires ReturnsOne(s, t, final) && AllTrailersOf(s.batches, final)
    ensures AllTrailersOf(t.batches, final)
  {
  }

  // ---------------------------------------------------------------- progress

  /**
    In every run a registered stream can be read, a waiting read gets the receiver as soon as it is free, and
    a read that holds it can take an event or will get one: a full queue does not block it.
  */
  lemma {:induction false} NeverStuck(
      states: seq<State>, actions: seq<Action>, produced: seq<Bytes>, final: Event, i: nat, limit: nat)
    requires IsRun(states, actions, produced, final) && i < |states|
    ensures
      var s := states[i];
      && (s.registered ==> Enabled(s, BeginRead))
      && (s.waiting > 0 && s.active.None? ==> Enabled(s, Lock(limit)))
      && (s.active.Some? ==> Enabled(s, TimeOut) && Enabled(s, CancelRead))
      && (s.active.Some? && Rest(s) != [] ==> Enabled(s, Receive) || Enabled(s, Send) || Enabled(s, Produce))
  {
    EveryRunConserves(states, actions, produced, final, i);
  }

  // ---------------------------------------------------------------- limits

  /** The limit that the last read locked the receiver with. */
  ghost function LastLimit(actions: seq<Action>, i: nat): nat
    requires i <= |actions|
  {
    if i == 0 then 0 else if actions[i - 1].Lock? then actions[i - 1].flushBytes else LastLimit(actions, i - 1)
  }

  lemma {:induction false} LimitAfterStep(s: State, action: Action)
    requires Enabled(s, action) && Step(s, action).active.Some?
    ensures action.Lock? ==> Step(s, action).active.value.flushBytes == action.flushBytes
    ensures !action.Lock? ==>
      s.active.Some? && Step(s, action).active.value.flushBytes == s.active.value.flushBytes
  {
  }

  lemma {:induction false} ReadsKeepTheirLimit(
      states: seq<State>, actions: seq<Action>, produced: seq<Bytes>, final: Event, i: nat)
    requires IsRun(states, actions, produced, final) && i < |states| && states[i].active.Some?
    ensures states[i].active.value.flushBytes == LastLimit(actions, i)
  {
    assert Started(produced, final).active.None?;
    if i > 0 {
      LimitInNext(states, actions, produced, final, i - 1);
      if !actions[i - 1].Lock? {
        ReadsKeepTheirLimit(states, actions, produced, final, i - 1);
      }
    }
  }

  lemma {:induction false} LimitInNext(
      states: seq<State>, actions: seq<Action>, produced: seq<Bytes>, final: Event, k: nat)
    requires IsRun(states, actions, produced, final) && k < |actions| && states[k + 1].active.Some?
    ensures actions[k].Lock? ==> states[k + 1].active.value.flushBytes == actions[k].flushBytes
    ensures !actions[k].Lock? ==>
      states[k].active.Some? && states[k + 1].active.value.flushBytes == states[k].active.value.flushBytes
  {
    assert IsStepOf(states, actions, k);
    LimitAfterStep(states[k], actions[k]);
  }

  lemma {:induction false} ReturnedKeepsLimit(s: State, t: State, final: Event, limit: nat)
    requires ReturnsOne(s, t, final) && |t.batches| > |s.batches|
    requires s.active.Some? ==> s.active.value.flushBytes == limit
    requires forall k :: 0 <= k < |t.batches| ==> WithinLimit(t.batches[k])
    ensures
      var b := t.batches[|s.batches|];
      && t.batches == s.batches + [b] && b.flushBytes == limit
      && (b.messages != [] ==> TotalLength(b.messages[..|b.messages| - 1]) <= b.flushBytes)
      && (b.event == FlushAfterBytes <==> TotalLength(b.messages) > b.flushBytes)
  {
    assert WithinLimit(t.batches[|s.batches|]);
  }

  /**
    A batch that a step returns holds the limit of the caller's read. All its messages but the last fit in
    it, and it is flushed for its size exactly if all of them do not. At most ten events wait in the queue.
  */
  lemma {:induction false} NewBatchKeepsLimit(
      states: seq<State>, actions: seq<Action>, produced: seq<Bytes>, final: Event, i: nat)
    requires IsRun(states, actions, produced, final) && i < |actions|
    ensures |states[i].queue| <= 10
    ensures |states[i + 1].batches| > |states[i].batches| ==>
      var b := states[i + 1].batches[|states[i].batches|];
      && states[i + 1].batches == states[i].batches + [b] && b.flushBytes == LastLimit(actions, i)
      && (b.messages != [] ==> TotalLength(b.messages[..|b.messages| - 1]) <= b.flushBytes)
      && (b.event == FlushAfterBytes <==> TotalLength(b.messages) > b.flushBytes)
  {
    StepOfRun(states, actions, produced, final, i);
    if |states[i + 1].batches| > |states[i].batches| {
      FinalStaysLast(states, actions, produced, final, i);
      BatchesAfterStep(states[i], actions[i], final);
      EveryRunConserves(states, actions, produced, final, i + 1);
      if states[i].active.Some? {
        ReadsKeepTheirLimit(states, actions, produced, final, i);
      }
      ReturnedKeepsLimit(states[i], states[i + 1], final, LastLimit(actions, i));
    }
  }

  // ---------------------------------------------------------------- registration

  /** The step ends the stream for new readers: it is destroyed, or its final event is read. */
  ghost predicate EndsStream(s: State, action: Action) {
    action.Destroy? || (Takes(s, action) && !s.queue[0].Message?)
  }

  lemma {:induction false} RegisteredAfterStep(s: State, action: Action)
    requires Enabled(s, action)
    ensures Step(s, action).registered <==> s.registered && !EndsStream(s, action)
  {
  }

  /** In every run the stream can be read exactly until it is destroyed or its final event is read. */
  lemma {:induction false} RegisteredUntilTheEnd(
      states: seq<State>, actions: seq<Action>, produced: seq<Bytes>, final: Event, i: nat)
    requires IsRun(states, actions, produced, final) && i < |states|
    ensures states[i].registered <==> forall j :: 0 <= j < i ==> !EndsStream(states[j], actions[j])
  {
    if i > 0 {
      RegisteredUntilTheEnd(states, actions, produced, final, i - 1);
      StepOfRun(states, actions, produced, final, i - 1);
      RegisteredAfterStep(states[i - 1], actions[i - 1]);
    }
  }
}
