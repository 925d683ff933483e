/**
  A server stream as a transition system: a producer that fills a bounded queue, readers that take turns
  to collect batches, and the shared entry that keeps both ends of the queue alive.
*/
module StreamSteps {
  import opened Collections

  type Bytes = seq<nat>

  const STREAM_CAPACITY := 10

  datatype Event = Message(bytes: Bytes) | End(trailers: Bytes) | ReadFailed(error: Bytes)

  datatype BatchEvent = StreamFinished | FlushAfterClose | FlushAfterTimeout | FlushAfterBytes

  /** A batch that was returned to a caller, with the limit it was read under. */
  datatype Batch = Batch(
    event: BatchEvent, messages: seq<Bytes>, totalBytes: nat, flushBytes: nat, trailers: Option<Bytes>)

  /** The read that holds the receiver. */
  datatype Reading = Reading(messages: seq<Bytes>, totalBytes: nat, flushBytes: nat)

  /** A message that left the queue and the read that took it: did the caller get it? */
  datatype Taken = Taken(bytes: Bytes, delivered: bool)

  datatype State = State(
    unsent: seq<Event>,
    inFlight: Option<Event>,
    producing: bool,
    queue: seq<Event>,
    registered: bool,
    waiting: nat,
    active: Option<Reading>,
    references: nat,
    senderAlive: bool,
    taken: seq<Taken>,
    batches: seq<Batch>
  )

  datatype Action =
    | Produce
    | Send
    | SendFail
    | BeginRead
    | Lock(flushBytes: nat)
    | Receive
    | TimeOut
    | Close
    | CancelWait
    | CancelRead
    | Destroy

  // ---------------------------------------------------------------- steps

  /** A new stream: the map and the producer refer to the entry. */
  function Started(messages: seq<Bytes>, final: Event): State {
    State(Events(messages) + [final], None, true, [], true, 0, None, 2, true, [], [])
  }

  function Events(messages: seq<Bytes>): (r: seq<Event>)
    ensures |r| == |messages| && forall k :: 0 <= k < |r| ==> r[k] == Message(messages[k])
  {
    seq(|messages|, k requires 0 <= k < |messages| => Message(messages[k]))
  }

  /** Dropping the last reference drops the sender. */
  function Release(s: State): State {
    s.(references := if s.references > 0 then s.references - 1 else 0, senderAlive := s.references > 1)
  }

  function Unregister(s: State): State {
    if s.registered then Release(s.(registered := false)) else s
  }

  function Marked(messages: seq<Bytes>, delivered: bool): (r: seq<Taken>)
    ensures |r| == |messages| && forall k :: 0 <= k < |r| ==> r[k] == Taken(messages[k], delivered)
  {
    seq(|messages|, k requires 0 <= k < |messages| => Taken(messages[k], delivered))
  }

  /** The read returns without a batch; messages it holds are thrown away. */
  function Abandon(s: State): State
    requires s.active.Some?
  {
    Release(s.(active := None, taken := s.taken + Marked(s.active.value.messages, false)))
  }

  function Return(s: State, event: BatchEvent, trailers: Option<Bytes>): State
    requires s.active.Some?
  {
    var r := s.active.value;
    Release(s.(
      active := None, taken := s.taken + Marked(r.messages, true),
      batches := s.batches + [Batch(event, r.messages, r.totalBytes, r.flushBytes, trailers)]))
  }

  function Accept(r: Reading, m: Bytes): Reading {
    Reading(r.messages + [m], r.totalBytes + |m|, r.flushBytes)
  }

  function Received(s: State): State
    requires s.active.Some? && s.queue != []
  {
    var t := s.(queue := s.queue[1..]);
    match s.queue[0]
    case Message(m) =>
      var r := Accept(s.active.value, m);
      if r.totalBytes > r.flushBytes then Return(t.(active := Some(r)), FlushAfterBytes, None)
      else t.(active := Some(r))
    case End(trailers) => Return(Unregister(t), StreamFinished, Some(trailers))
    case ReadFailed(_) => Abandon(Unregister(t))
  }

  function TimedOut(s: State): State
    requires s.active.Some?
  {
    if s.active.value.messages == [] then Abandon(s) else Return(s, FlushAfterTimeout, None)
  }

  function Closed(s: State): State
    requires s.active.Some?
  {
    if s.active.value.messages == [] then Abandon(s) else Return(s, FlushAfterClose, None)
  }

  /** When can a step be taken? */
  ghost predicate Enabled(s: State, action: Action) {
    match action
    case Produce => s.producing && s.inFlight.None? && s.unsent != []
    case Send => s.inFlight.Some? && |s.queue| < STREAM_CAPACITY && s.senderAlive
    case SendFail => s.inFlight.Some? && !s.senderAlive
    case BeginRead => s.registered
    case Lock(_) => s.waiting > 0 && s.active.None?
    case Receive => s.active.Some? && s.queue != []
    case TimeOut => s.active.Some?
    case Close => s.active.Some? && s.queue == [] && !s.senderAlive
    case CancelWait => s.waiting > 0
    case CancelRead => s.active.Some?
    case Destroy => true
  }

  function Sent(s: State): State
    requires s.inFlight.Some?
  {
    var t := s.(inFlight := None, queue := s.queue + [s.inFlight.value]);
    if s.inFlight.value.Message? then t else Release(t.(producing := false))
  }

  function Step(s: State, action: Action): State
    requires Enabled(s, action)
  {
    match action
    case Produce => s.(inFlight := Some(s.unsent[0]), unsent := s.unsent[1..])
    case Send => Sent(s)
    case SendFail => Release(s.(inFlight := None, producing := false))
    case BeginRead => s.(waiting := s.waiting + 1, references := s.references + 1)
    case Lock(flushBytes) => s.(waiting := s.waiting - 1, active := Some(Reading([], 0, flushBytes)))
    case Receive => Received(s)
    case TimeOut => TimedOut(s)
    case Close => Closed(s)
    case CancelWait => Release(s.(waiting := s.waiting - 1))
    case CancelRead => Abandon(s)
    case Destroy => Unregister(s)
  }

  // ---------------------------------------------------------------- what every step keeps

  function One(b: bool): nat {
    if b then 1 else 0
  }

  /** The references to the entry: the map's, the producer's, and one for every read. */
  ghost predicate Counted(s: State) {
    && s.references == One(s.registered) + One(s.producing) + s.waiting + One(s.active.Some?)
    && (s.senderAlive <==> s.references > 0)
    && (s.inFlight.Some? ==> s.producing)
  }

  lemma {:induction false} ReceiveKeepsCounted(s: State)
    requires Counted(s) && Enabled(s, Receive)
    ensures Counted(Received(s))
  {
  }

  lemma {:induction false} StepKeepsCounted(s: State, action: Action)
    requires Counted(s) && Enabled(s, action)
    ensures Counted(Step(s, action))
  {
    if action.Receive? {
      ReceiveKeepsCounted(s);
    }
  }

  /** What was produced and not yet read, in order. */
  function Flight(event: Option<Event>): seq<Event> {
    if event.Some? then [event.value] else []
  }

  function Rest(s: State): seq<Event> {
    s.queue + (Flight(s.inFlight) + s.unsent)
  }

  /** Messages, and one final event behind them. */
  ghost predicate Terminated(events: seq<Event>) {
    && (forall k :: 0 <= k < |events| - 1 ==> events[k].Message?)
    && (events != [] ==> !events[|events| - 1].Message?)
  }

  function Contents(events: seq<Event>): seq<Bytes> {
    if events == [] then []
    else (if events[0].Message? then [events[0].bytes] else []) + Contents(events[1..])
  }

  function Bodies(taken: seq<Taken>): (r: seq<Bytes>)
    ensures |r| == |taken| && forall k :: 0 <= k < |r| ==> r[k] == taken[k].bytes
  {
    seq(|taken|, k requires 0 <= k < |taken| => taken[k].bytes)
  }

  function Held(s: State): seq<Bytes> {
    if s.active.Some? then s.active.value.messages else []
  }

  /** Everything: taken, held by the read, and still to be read. */
  function Everything(s: State): seq<Bytes> {
    Bodies(s.taken) + Held(s) + Contents(Rest(s))
  }

  function TotalLength(messages: seq<Bytes>): nat {
    if messages == [] then 0 else TotalLength(messages[..|messages| - 1]) + |messages[|messages| - 1]|
  }

  /** All messages but the last fit in the limit; the batch was flushed for its size exactly when all do not. */
  ghost predicate WithinLimit(b: Batch) {
    && b.totalBytes == TotalLength(b.messages)
    && (b.messages != [] ==> TotalLength(b.messages[..|b.messages| - 1]) <= b.flushBytes)
    && (b.event == FlushAfterBytes <==> b.totalBytes > b.flushBytes)
    && (b.event == StreamFinished <==> b.trailers.Some?)
    && (b.event.FlushAfterTimeout? ==> b.messages != [])
    && !b.event.FlushAfterClose?
  }

  ghost predicate ReadingFits(s: State) {
    s.active.Some? ==>
      s.active.value.totalBytes == TotalLength(s.active.value.messages) <= s.active.value.flushBytes
  }
}
