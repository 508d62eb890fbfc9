/** The in-memory broadcast broker (a2asrv/eventqueue/queue_in_memory_impl.go) as a transition
    system: one broker goroutine and any number of goroutines in Write, Read, Close and destroy.
    Every step is atomic and `select` may take any ready branch. */
module Broker {
  import opened Json
  import opened Tasks

  type Payload = Event

  /** A broadcast the broker has taken, with the queues it was to be sent to. */
  datatype Entry = Entry(writer: nat, sender: nat, payload: Payload, audience: set<nat>)

  /** `taken` is everything received from the channel, by Read or by the draining Close.
      `joinedAt` and `leftAt` are positions in the broker's log. */
  datatype Queue = Queue(
    buffer: seq<Payload>, taken: seq<Payload>, closed: bool, destroys: nat,
    joinedAt: nat, leftAt: Option<nat>, reading: nat, closing: nat)
  {
    function Received(): seq<Payload> {
      taken + buffer
    }
  }

  datatype WriteResult = Acknowledged | QueueClosed | ContextDone

  /** A Write call: offering its broadcast, waiting for the dispatch of a log entry, or done. */
  datatype Phase = Offering | Waiting(index: nat) | Returned(result: WriteResult)

  datatype Writer = Writer(sender: nat, payload: Payload, phase: Phase)

  /** What the goroutine does: wait in the outer select, dispatch (blocked on `current`, if any),
      run the deferred destruction of the queues in `left`, or nothing any more. */
  datatype Mode = Idle | Dispatching(current: Option<nat>) | Stopping(left: set<nat>) | Stopped

  /** `pending` are the queues that the newest log entry has not been sent to yet; a stop that
      interrupts the dispatch leaves them behind. `completed` counts closed `dispatched` channels. */
  datatype State = State(
    capacity: nat, mode: Mode, registered: set<nat>, pending: set<nat>, completed: nat,
    queues: seq<Queue>, writers: seq<Writer>, log: seq<Entry>, destroyers: nat, panicked: bool)

  datatype Step =
    | Connect
    | BeginWrite(q: nat, payload: Payload) | Accept(w: nat)
    | CancelWrite(w: nat) | AbortWrite(w: nat) | AckWrite(w: nat)
    | Pick(q: nat) | Deliver | HandToReader | HandToCloser | Finish
    | BeginRead(q: nat) | TakeRead(q: nat) | EndRead(q: nat) | CancelRead(q: nat)
    | BeginClose(q: nat) | Drain(q: nat) | Unregister(q: nat) | EndClose(q: nat)
    | BeginDestroy | Stop | DestroyQueue(q: nat) | Terminate

  function Init(capacity: nat): State {
    State(capacity, Idle, {}, {}, 0, [], [], [], 0, false)
  }

  predicate Running(s: State) {
    s.mode.Idle? || s.mode.Dispatching?
  }

  /** The queue that the dispatch is blocked on. */
  predicate BlockedOn(s: State, q: nat) {
    s.mode == Dispatching(Some(q)) && q < |s.queues| && |s.log| > 0
  }

  predicate Enabled(s: State, step: Step) {
    match step
    case Connect => s.mode.Idle?
    case BeginWrite(q, _) => q < |s.queues|
    case Accept(w) => s.mode.Idle? && w < |s.writers| && s.writers[w].phase.Offering?
    case CancelWrite(w) => w < |s.writers| && !s.writers[w].phase.Returned?
    case AbortWrite(w) =>
      && w < |s.writers| && !s.writers[w].phase.Returned? && s.writers[w].sender < |s.queues|
      && s.queues[s.writers[w].sender].closed
    case AckWrite(w) => w < |s.writers| && s.writers[w].phase.Waiting? && s.writers[w].phase.index < s.completed
    case Pick(q) => s.mode == Dispatching(None) && q in s.pending
    case Deliver =>
      s.mode.Dispatching? && s.mode.current.Some? && BlockedOn(s, s.mode.current.value) &&
      var queue := s.queues[s.mode.current.value]; queue.closed || |queue.buffer| < s.capacity
    case HandToReader =>
      s.mode.Dispatching? && s.mode.current.Some? && BlockedOn(s, s.mode.current.value) &&
      var queue := s.queues[s.mode.current.value]; !queue.closed && queue.buffer == [] && queue.reading > 0
    case HandToCloser =>
      s.mode.Dispatching? && s.mode.current.Some? && BlockedOn(s, s.mode.current.value) &&
      var queue := s.queues[s.mode.current.value]; !queue.closed && queue.buffer == [] && queue.closing > 0
    case Finish => s.mode == Dispatching(None) && s.pending == {}
    case BeginRead(q) => q < |s.queues|
    case TakeRead(q) => q < |s.queues| && s.queues[q].reading > 0 && s.queues[q].buffer != []
    case EndRead(q) => q < |s.queues| && s.queues[q].reading > 0 && s.queues[q].buffer == [] && s.queues[q].closed
    case CancelRead(q) => q < |s.queues| && s.queues[q].reading > 0
    case BeginClose(q) => q < |s.queues|
    case Drain(q) => q < |s.queues| && s.queues[q].closing > 0 && s.queues[q].buffer != []
    case Unregister(q) => s.mode.Idle? && q < |s.queues| && s.queues[q].closing > 0
    case EndClose(q) => q < |s.queues| && s.queues[q].closing > 0 && s.queues[q].buffer == [] && s.queues[q].closed
    case BeginDestroy => true
    case Stop => s.destroyers > 0 && (s.mode.Idle? || (s.mode.Dispatching? && s.mode.current.Some?))
    case DestroyQueue(q) => s.mode.Stopping? && q in s.mode.left && q < |s.queues|
    case Terminate => s.mode == Stopping({})
  }

  /** `queue.destroy()`: closing a channel twice panics. */
  function Destroy(s: State, q: nat): State
    requires q < |s.queues|
  {
    var queue := s.queues[q];
    s.(queues := s.queues[q := queue.(closed := true, destroys := queue.destroys + 1)],
       panicked := s.panicked || queue.closed)
  }

  function Update(s: State, q: nat, queue: Queue): State
    requires q < |s.queues|
  {
    s.(queues := s.queues[q := queue])
  }

  function SetPhase(s: State, w: nat, phase: Phase): State
    requires w < |s.writers|
  {
    s.(writers := s.writers[w := s.writers[w].(phase := phase)])
  }

  function Take(queue: Queue): Queue
    requires queue.buffer != []
  {
    queue.(taken := queue.taken + [queue.buffer[0]], buffer := queue.buffer[1..])
  }

  function Next(s: State, step: Step): State
    requires Enabled(s, step)
  {
    match step
    case Connect =>
      s.(queues := s.queues + [Queue([], [], false, 0, |s.log|, None, 0, 0)], registered := s.registered + {|s.queues|})
    case BeginWrite(q, payload) =>
      s.(writers := s.writers + [Writer(q, payload, if s.queues[q].closed then Returned(QueueClosed) else Offering)])
    case Accept(w) =>
      var sender, payload := s.writers[w].sender, s.writers[w].payload;
      SetPhase(s, w, Waiting(|s.log|)).(
        log := s.log + [Entry(w, sender, payload, s.registered - {sender})],
        pending := s.registered - {sender}, mode := Dispatching(None))
    case CancelWrite(w) => SetPhase(s, w, Returned(ContextDone))
    case AbortWrite(w) => SetPhase(s, w, Returned(QueueClosed))
    case AckWrite(w) => SetPhase(s, w, Returned(Acknowledged))
    case Pick(q) => s.(mode := Dispatching(Some(q)))
    case Deliver =>
      var q := s.mode.current.value;
      var queue := s.queues[q];
      if queue.closed then s.(panicked := true)
      else
        Update(s, q, queue.(buffer := queue.buffer + [s.log[|s.log| - 1].payload]))
        .(pending := s.pending - {q}, mode := Dispatching(None))
    case HandToReader =>
      var q := s.mode.current.value;
      var queue := s.queues[q];
      Update(s, q, queue.(taken := queue.taken + [s.log[|s.log| - 1].payload], reading := queue.reading - 1))
      .(pending := s.pending - {q}, mode := Dispatching(None))
    case HandToCloser =>
      var q := s.mode.current.value;
      var queue := s.queues[q];
      Update(s, q, queue.(taken := queue.taken + [s.log[|s.log| - 1].payload]))
      .(pending := s.pending - {q}, mode := Dispatching(None))
    case Finish => s.(mode := Idle, completed := |s.log|)
    case BeginRead(q) => Update(s, q, s.queues[q].(reading := s.queues[q].reading + 1))
    case TakeRead(q) => Update(s, q, Take(s.queues[q]).(reading := s.queues[q].reading - 1))
    case EndRead(q) => Update(s, q, s.queues[q].(reading := s.queues[q].reading - 1))
    case CancelRead(q) => Update(s, q, s.queues[q].(reading := s.queues[q].reading - 1))
    case BeginClose(q) => Update(s, q, s.queues[q].(closing := s.queues[q].closing + 1))
    case Drain(q) => Update(s, q, Take(s.queues[q]))
    case Unregister(q) =>
      var done := Update(s, q, s.queues[q].(closing := s.queues[q].closing - 1));
      if q in s.registered then
        Destroy(Update(done, q, done.queues[q].(leftAt := Some(|s.log|))), q).(registered := s.registered - {q})
      else done
    case EndClose(q) => Update(s, q, s.queues[q].(closing := s.queues[q].closing - 1))
    case BeginDestroy => s.(destroyers := s.destroyers + 1)
    case Stop => s.(mode := Stopping(s.registered))
    case DestroyQueue(q) => Destroy(s, q).(mode := Stopping(s.mode.left - {q}))
    case Terminate => s.(mode := Stopped)
  }

  // ---- What a queue is to receive ----

  /** The log positions in [from, to) whose broadcast is not the queue's own, in order. */
  function Positions(log: seq<Entry>, from: nat, until: nat, q: nat): seq<nat>
    requires from <= until <= |log|
    ensures forall i :: 0 <= i < |Positions(log, from, until, q)| ==> Positions(log, from, until, q)[i] < until
    decreases until
  {
    if from == until then []
    else Positions(log, from, until - 1, q) + if log[until - 1].sender == q then [] else [until - 1]
  }

  function Payloads(log: seq<Entry>, positions: seq<nat>): seq<Payload>
    requires forall i :: 0 <= i < |positions| ==> positions[i] < |log|
  {
    seq(|positions|, i requires 0 <= i < |positions| => log[positions[i]].payload)
  }

  /** The foreign payloads in [from, until). */
  function Due(log: seq<Entry>, from: nat, until: nat, q: nat): seq<Payload>
    requires from <= until <= |log|
  {
    Payloads(log, Positions(log, from, until, q))
  }

  lemma DueSnoc(log: seq<Entry>, from: nat, until: nat, q: nat)
    requires from <= until < |log|
    ensures Due(log, from, until + 1, q) ==
            Due(log, from, until, q) + if log[until].sender == q then [] else [log[until].payload]
  {
  }

  lemma {:induction false} DueInLongerLog(log: seq<Entry>, longer: seq<Entry>, from: nat, until: nat, q: nat)
    requires from <= until <= |log| && log <= longer
    ensures Due(longer, from, until, q) == Due(log, from, until, q)
    decreases until
  {
    if from < until {
      DueInLongerLog(log, longer, from, until - 1, q);
      DueSnoc(log, from, until - 1, q);
      DueSnoc(longer, from, until - 1, q);
    }
  }

  /** Strictly increasing, and exactly the foreign positions: nothing skipped, repeated or reordered. */
  lemma {:induction false} PositionsExact(log: seq<Entry>, from: nat, until: nat, q: nat)
    requires from <= until <= |log|
    ensures forall i, j :: 0 <= i < j < |Positions(log, from, until, q)| ==>
              Positions(log, from, until, q)[i] < Positions(log, from, until, q)[j]
    ensures forall p :: p in Positions(log, from, until, q) <==> from <= p < until && log[p].sender != q
    decreases until
  {
    if from < until {
      PositionsExact(log, from, until - 1, q);
      var front := Positions(log, from, until - 1, q);
      assert forall i :: 0 <= i < |front| ==> front[i] in front;
    }
  }

  /** Up to where in the log the queue has been served. */
  function End(s: State, q: nat): int
    requires q < |s.queues|
  {
    if s.queues[q].leftAt.Some? then s.queues[q].leftAt.value
    else if q in s.pending then |s.log| - 1
    else |s.log|
  }

  // ---- The invariant ----

  /** Bookkeeping of the goroutine. */
  ghost predicate Shape(s: State) {
    && (forall q :: q in s.registered ==> q < |s.queues|)
    && s.pending <= s.registered
    && (s.mode.Idle? ==> s.pending == {} && s.completed == |s.log|)
    && (s.mode.Dispatching? ==> s.completed == |s.log| - 1)
    && (s.mode.Dispatching? && s.mode.current.Some? ==> s.mode.current.value in s.pending)
    && (s.mode.Stopping? ==> s.mode.left <= s.registered)
    && s.completed <= |s.log| <= s.completed + 1
    && (s.pending != {} ==> s.completed == |s.log| - 1 && s.log[|s.log| - 1].sender !in s.pending)
    && (s.completed < |s.log| ==> s.log[|s.log| - 1].audience <= s.registered)
  }

  /** A queue is closed once it has left, or once the stopped broker has come to it. */
  ghost predicate Lifetime(s: State) {
    && !s.panicked
    && forall q :: 0 <= q < |s.queues| ==> QueueAlive(s, q)
  }

  ghost predicate QueueAlive(s: State, q: nat)
    requires q < |s.queues|
  {
    && (s.queues[q].leftAt.None? <==> q in s.registered)
    && s.queues[q].destroys == (if s.queues[q].closed then 1 else 0)
    && (s.queues[q].closed <==> s.queues[q].leftAt.Some? || s.mode.Stopped? || (s.mode.Stopping? && q !in s.mode.left))
  }

  /** What has been received is what the log holds for the queue. */
  ghost predicate Delivery(s: State) {
    forall q :: 0 <= q < |s.queues| ==> Delivered(s, q)
  }

  ghost predicate Delivered(s: State, q: nat)
    requires q < |s.queues|
  {
    && s.queues[q].joinedAt <= End(s, q) <= |s.log|
    && s.queues[q].Received() == Due(s.log, s.queues[q].joinedAt, End(s, q), q)
  }

  /** Every log entry stems from its own Write call. */
  ghost predicate Provenance(s: State) {
    && (forall i :: 0 <= i < |s.log| ==> StemsFrom(s, s.log[i]))
    && (forall i, j :: 0 <= i < j < |s.log| ==> s.log[i].writer != s.log[j].writer)
  }

  ghost predicate StemsFrom(s: State, e: Entry) {
    && e.writer < |s.writers|
    && e.sender == s.writers[e.writer].sender && e.payload == s.writers[e.writer].payload
    && !s.writers[e.writer].phase.Offering?
  }

  /** A waiting Write has its entry in the log, an acknowledged one among the completed entries. */
  ghost predicate Acknowledgements(s: State) {
    forall w :: 0 <= w < |s.writers| ==>
      match s.writers[w].phase
      case Waiting(i) => i < |s.log| && s.log[i].writer == w
      case Returned(Acknowledged) => CompletedBy(s, w)
      case _ => true
  }

  ghost predicate CompletedBy(s: State, w: nat) {
    exists i :: 0 <= i < s.completed && i < |s.log| && s.log[i].writer == w
  }

  /** A completed broadcast lies within what every queue of its audience has been served. */
  ghost predicate Served(s: State) {
    forall i, q :: 0 <= i < |s.log| && q in s.log[i].audience ==> ServedBy(s, i, q)
  }

  ghost predicate ServedBy(s: State, i: nat, q: nat)
    requires i < |s.log|
  {
    && q < |s.queues| && q != s.log[i].sender
    && s.queues[q].joinedAt <= i
    && (i < s.completed ==> i < End(s, q))
  }

  ghost predicate Bounded(s: State) {
    forall q :: 0 <= q < |s.queues| ==> |s.queues[q].buffer| <= s.capacity
  }

  /** Every Write call is one on a queue of this broker. */
  ghost predicate Senders(s: State) {
    forall w :: 0 <= w < |s.writers| ==> s.writers[w].sender < |s.queues|
  }

  ghost predicate Inv(s: State) {
    && Shape(s) && Lifetime(s) && Delivery(s) && Provenance(s) && Acknowledgements(s) && Served(s)
    && Bounded(s) && Senders(s)
  }

  // ---- Every step keeps it ----

  lemma ShapeKept(s: State, step: Step)
    requires Shape(s) && Enabled(s, step)
    ensures Shape(Next(s, step))
  {
    match step
    case Accept(_) =>
    case Deliver =>
    case Unregister(_) =>
    case DestroyQueue(_) =>
    case _ =>
  }

  /** What the steps do to a queue that is already there. */
  lemma QueueStep(s: State, step: Step, q: nat)
    requires Enabled(s, step) && q < |s.queues|
    ensures var before, after := s.queues[q], Next(s, step).queues[q];
            && |Next(s, step).queues| >= |s.queues|
            && after.joinedAt == before.joinedAt
            && (step == Unregister(q) && q in s.registered ==>
                  after.leftAt == Some(|s.log|) && after.closed && after.destroys == before.destroys + 1)
            && (step == DestroyQueue(q) ==>
                  after.leftAt == before.leftAt && after.closed && after.destroys == before.destroys + 1)
            && (step != DestroyQueue(q) && !(step == Unregister(q) && q in s.registered) ==>
                  after.leftAt == before.leftAt && after.closed == before.closed && after.destroys == before.destroys)
  {
    match step
    case Unregister(_) =>
    case DestroyQueue(_) =>
    case Connect =>
    case _ =>
  }

  lemma LifetimeKept(s: State, step: Step)
    requires Shape(s) && Lifetime(s) && Enabled(s, step)
    ensures Lifetime(Next(s, step))
  {
    forall q: nat | q < |s.queues| ensures QueueAlive(Next(s, step), q) {
      assert QueueAlive(s, q);
      QueueStep(s, step, q);
    }
    forall q: nat | |s.queues| <= q < |Next(s, step).queues| ensures QueueAlive(Next(s, step), q) {
    }
    assert step.Unregister? && step.q in s.registered ==> QueueAlive(s, step.q);
    assert step.DestroyQueue? ==> QueueAlive(s, step.q);
    assert step.Deliver? ==> QueueAlive(s, s.mode.current.value);
  }

  lemma ProvenanceKept(s: State, step: Step)
    requires Provenance(s) && Enabled(s, step)
    ensures Provenance(Next(s, step))
  {
    var next := Next(s, step);
    forall i | 0 <= i < |s.log| ensures StemsFrom(next, s.log[i]) {
      assert StemsFrom(s, s.log[i]);
    }
    if step.Accept? {
      forall i | 0 <= i < |s.log| ensures s.log[i].writer != step.w {
        assert StemsFrom(s, s.log[i]);
      }
    }
  }

  lemma AcknowledgementsKept(s: State, step: Step)
    requires Shape(s) && Acknowledgements(s) && Enabled(s, step)
    ensures Acknowledgements(Next(s, step))
  {
    var next := Next(s, step);
    assert s.log <= next.log && s.completed <= next.completed;
    forall w | 0 <= w < |s.writers| && CompletedBy(s, w) ensures CompletedBy(next, w) {
      var i :| 0 <= i < s.completed && i < |s.log| && s.log[i].writer == w;
      assert next.log[i] == s.log[i];
    }
    if step.AckWrite? {
      var i := s.writers[step.w].phase.index;
      assert next.log[i].writer == step.w;
    }
  }

  lemma ServedKept(s: State, step: Step)
    requires Shape(s) && Lifetime(s) && Delivery(s) && Served(s) && Enabled(s, step)
    ensures Served(Next(s, step))
  {
    var next := Next(s, step);
    assert s.log <= next.log && (step.Accept? || next.log == s.log);
    forall i: nat, q | i < |s.log| && q in s.log[i].audience ensures ServedBy(next, i, q) {
      assert ServedBy(s, i, q);
      assert QueueAlive(s, q);
      QueueStep(s, step, q);
    }
    if step.Accept? {
      forall q | q in next.log[|s.log|].audience ensures ServedBy(next, |s.log|, q) {
        assert Delivered(s, q);
      }
    }
  }

  /** The queue that a step sends the newest payload to. */
  predicate SendsTo(s: State, step: Step, q: nat) {
    (step.Deliver? || step.HandToReader? || step.HandToCloser?) && s.mode == Dispatching(Some(q))
  }

  lemma TakeKeepsReceived(queue: Queue)
    requires queue.buffer != []
    ensures Take(queue).Received() == queue.Received()
  {
  }

  /** A queue gets more only by a send, and a take moves the head without losing it. */
  lemma ReceivedStep(s: State, step: Step, q: nat)
    requires Enabled(s, step) && q < |s.queues| && (SendsTo(s, step, q) ==> !s.queues[q].closed)
    ensures q < |Next(s, step).queues|
    ensures Next(s, step).queues[q].Received() ==
            s.queues[q].Received() + if SendsTo(s, step, q) then [s.log[|s.log| - 1].payload] else []
  {
    var before, after := s.queues[q], Next(s, step).queues[q];
    if step == TakeRead(q) || step == Drain(q) {
      TakeKeepsReceived(before);
      assert after.Received() == Take(before).Received();
    } else if SendsTo(s, step, q) {
      SendReceived(s, step, q);
    } else {
      assert after.taken == before.taken && after.buffer == before.buffer;
    }
  }

  lemma SendReceived(s: State, step: Step, q: nat)
    requires Enabled(s, step) && q < |s.queues| && SendsTo(s, step, q) && !s.queues[q].closed
    ensures Next(s, step).queues[q].Received() == s.queues[q].Received() + [s.log[|s.log| - 1].payload]
  {
  }

  lemma EndStep(s: State, step: Step, q: nat)
    requires Shape(s) && Lifetime(s) && Enabled(s, step) && q < |s.queues|
    ensures QueueAlive(s, q)
    ensures var next := Next(s, step);
            && |next.queues| >= |s.queues|
            && End(next, q) ==
               End(s, q) +
               (if SendsTo(s, step, q) then 1
                else if step.Accept? && q == s.writers[step.w].sender && q in s.registered then 1
                else 0)
            && (SendsTo(s, step, q) ==>
                  End(s, q) == |s.log| - 1 && s.log[|s.log| - 1].sender != q && !s.queues[q].closed)
            && (step.Accept? && q in s.registered ==> End(s, q) == |s.log|)
  {
    assert QueueAlive(s, q);
  }

  lemma DeliveryKept(s: State, step: Step)
    requires Shape(s) && Lifetime(s) && Delivery(s) && Enabled(s, step)
    ensures Delivery(Next(s, step))
  {
    var next := Next(s, step);
    forall q: nat | q < |next.queues| ensures Delivered(next, q) {
      if q < |s.queues| {
        assert Delivered(s, q);
        QueueStep(s, step, q);
        EndStep(s, step, q);
        ReceivedStep(s, step, q);
        DueInLongerLog(s.log, next.log, s.queues[q].joinedAt, End(s, q), q);
        if End(next, q) == End(s, q) + 1 {
          DueSnoc(next.log, s.queues[q].joinedAt, End(s, q), q);
        }
      }
    }
  }

  lemma BoundKept(s: State, step: Step)
    requires Enabled(s, step) && Bounded(s)
    ensures Bounded(Next(s, step))
  {
  }

  lemma SendersKept(s: State, step: Step)
    requires Enabled(s, step) && Senders(s)
    ensures Senders(Next(s, step))
  {
  }

  lemma {:induction false} InvKept(s: State, step: Step)
    requires Inv(s) && Enabled(s, step)
    ensures Inv(Next(s, step))
  {
    ShapeKept(s, step);
    LifetimeKept(s, step);
    DeliveryKept(s, step);
    ProvenanceKept(s, step);
    AcknowledgementsKept(s, step);
    ServedKept(s, step);
    BoundKept(s, step);
    SendersKept(s, step);
  }

  // ---- Whole runs ----

  function Run(s: State, steps: seq<Step>): Option<State>
    decreases |steps|
  {
    if steps == [] then Some(s)
    else if Enabled(s, steps[0]) then Run(Next(s, steps[0]), steps[1..])
    else None
  }

  lemma {:induction false} InvAlong(s: State, steps: seq<Step>)
    requires Inv(s) && Run(s, steps).Some?
    ensures Inv(Run(s, steps).value)
    decreases |steps|
  {
    if steps != [] {
      InvKept(s, steps[0]);
      InvAlong(Next(s, steps[0]), steps[1..]);
    }
  }

  /** In every reachable state of a broker the invariant holds. */
  lemma {:induction false} Reachable(capacity: nat, steps: seq<Step>)
    requires Run(Init(capacity), steps).Some?
    ensures Inv(Run(Init(capacity), steps).value)
  {
    InvAlong(Init(capacity), steps);
  }

  lemma {:induction false} RunConcat(s: State, front: seq<Step>, back: seq<Step>)
    ensures Run(s, front + back) == (match Run(s, front) case Some(mid) => Run(mid, back) case None => None)
    decreases |front|
  {
    if front == [] {
      assert front + back == back;
    } else {
      assert (front + back)[1..] == front[1..] + back;
      if Enabled(s, front[0]) {
        RunConcat(Next(s, front[0]), front[1..], back);
      }
    }
  }

  // ---- Agreed delivery order ----

  /** The place of a log position among the messages of the queue. */
  function Rank(s: State, q: nat, p: nat): nat
    requires q < |s.queues| && s.queues[q].joinedAt <= p <= |s.log|
  {
    |Positions(s.log, s.queues[q].joinedAt, p, q)|
  }

  ghost predicate DueTo(s: State, q: nat, p: nat) {
    q < |s.queues| && s.queues[q].joinedAt <= p < End(s, q) && p < |s.log| && s.log[p].sender != q
  }

  lemma {:induction false} RanksIncrease(log: seq<Entry>, from: nat, p: nat, until: nat, q: nat)
    requires from <= p < until <= |log| && log[p].sender != q
    ensures |Positions(log, from, p, q)| < |Positions(log, from, until, q)|
    ensures Positions(log, from, until, q)[|Positions(log, from, p, q)|] == p
    decreases until
  {
    if p < until - 1 {
      RanksIncrease(log, from, p, until - 1, q);
    }
  }

  /** What a queue has received is exactly its due part of the log, in log order. */
  lemma {:induction false} AgreedOrder(capacity: nat, steps: seq<Step>, q: nat)
    requires Run(Init(capacity), steps).Some? && q < |Run(Init(capacity), steps).value.queues|
    ensures Delivered(Run(Init(capacity), steps).value, q)
    ensures forall p: nat :: DueTo(Run(Init(capacity), steps).value, q, p) ==>
              var s := Run(Init(capacity), steps).value;
              Rank(s, q, p) < |s.queues[q].Received()| && s.queues[q].Received()[Rank(s, q, p)] == s.log[p].payload
  {
    Reachable(capacity, steps);
    var s := Run(Init(capacity), steps).value;
    assert Delivered(s, q);
    forall p: nat | DueTo(s, q, p)
      ensures Rank(s, q, p) < |s.queues[q].Received()| && s.queues[q].Received()[Rank(s, q, p)] == s.log[p].payload
    {
      RanksIncrease(s.log, s.queues[q].joinedAt, p, End(s, q), q);
    }
  }

  /** The queue has received the broadcasts at the two log positions, the first one before the second. */
  ghost predicate InOrder(s: State, q: nat, p: nat, r: nat)
    requires q < |s.queues| && p < |s.log| && r < |s.log|
  {
    exists i, j :: 0 <= i < j < |s.queues[q].Received()| &&
                   s.queues[q].Received()[i] == s.log[p].payload && s.queues[q].Received()[j] == s.log[r].payload
  }

  lemma ReceivedInOrder(s: State, q: nat, p: nat, r: nat)
    requires Inv(s) && p < r && DueTo(s, q, p) && DueTo(s, q, r)
    ensures InOrder(s, q, p, r)
  {
    assert Delivered(s, q);
    var from := s.queues[q].joinedAt;
    RanksIncrease(s.log, from, p, r, q);
    RanksIncrease(s.log, from, p, End(s, q), q);
    RanksIncrease(s.log, from, r, End(s, q), q);
    var i, j := Rank(s, q, p), Rank(s, q, r);
    assert s.queues[q].Received()[i] == s.log[p].payload && s.queues[q].Received()[j] == s.log[r].payload;
  }

  /** Two queues that are both due two broadcasts have both received them in log order. */
  lemma ReadersAgree(s: State, a: nat, b: nat, p: nat, r: nat)
    requires Inv(s) && p < r
    requires DueTo(s, a, p) && DueTo(s, a, r) && DueTo(s, b, p) && DueTo(s, b, r)
    ensures InOrder(s, a, p, r) && InOrder(s, b, p, r)
  {
    ReceivedInOrder(s, a, p, r);
    ReceivedInOrder(s, b, p, r);
  }

  // ---- Write acknowledgement ----

  lemma {:induction false} LogGrows(s: State, steps: seq<Step>)
    requires Run(s, steps).Some?
    ensures s.log <= Run(s, steps).value.log
    decreases |steps|
  {
    if steps != [] {
      assert s.log <= Next(s, steps[0]).log;
      LogGrows(Next(s, steps[0]), steps[1..]);
    }
  }

  /** Whether the call succeeds or fails, its broadcast is taken at most once. */
  lemma {:induction false} BroadcastAtMostOnce(capacity: nat, steps: seq<Step>, i: nat, j: nat)
    requires Run(Init(capacity), steps).Some?
    requires i < |Run(Init(capacity), steps).value.log| && j < |Run(Init(capacity), steps).value.log|
    requires Run(Init(capacity), steps).value.log[i].writer == Run(Init(capacity), steps).value.log[j].writer
    ensures i == j
  {
    Reachable(capacity, steps);
  }

  /** A successful Write was taken by the broker, and the dispatch of its entry is complete. */
  lemma {:induction false} AcknowledgedIsLogged(capacity: nat, steps: seq<Step>, w: nat) returns (i: nat)
    requires Run(Init(capacity), steps).Some?
    requires w < |Run(Init(capacity), steps).value.writers|
    requires Run(Init(capacity), steps).value.writers[w].phase == Returned(Acknowledged)
    ensures i < |Run(Init(capacity), steps).value.log| && Run(Init(capacity), steps).value.log[i].writer == w
    ensures Run(Init(capacity), steps).value.log[i].sender == Run(Init(capacity), steps).value.writers[w].sender
    ensures Run(Init(capacity), steps).value.log[i].payload == Run(Init(capacity), steps).value.writers[w].payload
    ensures forall q :: q in Run(Init(capacity), steps).value.log[i].audience ==>
              DueTo(Run(Init(capacity), steps).value, q, i)
  {
    Reachable(capacity, steps);
    var s := Run(Init(capacity), steps).value;
    assert CompletedBy(s, w);
    i :| 0 <= i < s.completed && i < |s.log| && s.log[i].writer == w;
    assert StemsFrom(s, s.log[i]);
    forall q | q in s.log[i].audience ensures DueTo(s, q, i) {
      assert ServedBy(s, i, q);
    }
  }

  /** When Write returns nil, every other queue that was registered when the broker took the
      broadcast has the payload in what it took or in its buffer. */
  lemma {:induction false} AcknowledgedReachesAll(capacity: nat, front: seq<Step>, w: nat, back: seq<Step>, q: nat)
    requires Run(Init(capacity), front + [Accept(w)] + back).Some?
    requires w < |Run(Init(capacity), front + [Accept(w)] + back).value.writers|
    requires Run(Init(capacity), front + [Accept(w)] + back).value.writers[w].phase == Returned(Acknowledged)
    requires Run(Init(capacity), front).Some? && q in Run(Init(capacity), front).value.registered
    requires q != Run(Init(capacity), front + [Accept(w)] + back).value.writers[w].sender
    ensures q < |Run(Init(capacity), front + [Accept(w)] + back).value.queues|
    ensures Run(Init(capacity), front + [Accept(w)] + back).value.writers[w].payload
            in Run(Init(capacity), front + [Accept(w)] + back).value.queues[q].Received()
  {
    var steps := front + [Accept(w)] + back;
    var s, mid := Run(Init(capacity), steps).value, Run(Init(capacity), front).value;
    assert steps == front + ([Accept(w)] + back) && ([Accept(w)] + back)[1..] == back;
    RunConcat(Init(capacity), front, [Accept(w)] + back);
    LogGrows(Next(mid, Accept(w)), back);
    var n := |mid.log|;
    assert s.log[n] == Next(mid, Accept(w)).log[n];
    Reachable(capacity, steps);
    assert StemsFrom(s, s.log[n]);
    var i := AcknowledgedIsLogged(capacity, steps, w);
    BroadcastAtMostOnce(capacity, steps, i, n);
    assert DueTo(s, q, n);
    AgreedOrder(capacity, steps, q);
  }

  // ---- Channel lifetime ----

  /** No send on a closed channel and no second close ever happens. */
  lemma {:induction false} ChannelsAreSafe(capacity: nat, steps: seq<Step>, q: nat)
    requires Run(Init(capacity), steps).Some? && q < |Run(Init(capacity), steps).value.queues|
    ensures var s := Run(Init(capacity), steps).value;
            && !s.panicked
            && s.queues[q].destroys <= 1
            && (Running(s) && q in s.registered ==> !s.queues[q].closed)
            && (s.mode.Stopped? ==> s.queues[q].closed)
  {
    Reachable(capacity, steps);
    assert QueueAlive(Run(Init(capacity), steps).value, q);
  }

  /** Once a queue is closed, its readers get what is buffered, in order, and then the error. */
  lemma {:induction false} ClosedQueueOnlyDrains(s: State, steps: seq<Step>, q: nat)
    requires Inv(s) && Run(s, steps).Some? && q < |s.queues| && s.queues[q].closed
    ensures var t := Run(s, steps).value;
            && q < |t.queues| && t.queues[q].closed
            && s.queues[q].taken <= t.queues[q].taken
            && t.queues[q].Received() == s.queues[q].Received()
            && (Enabled(t, EndRead(q)) <==> t.queues[q].reading > 0 && t.queues[q].taken == s.queues[q].Received())
    decreases |steps|
  {
    if steps != [] {
      var next := Next(s, steps[0]);
      assert QueueAlive(s, q);
      QueueStep(s, steps[0], q);
      EndStep(s, steps[0], q);
      ReceivedStep(s, steps[0], q);
      TakenGrows(s, steps[0], q);
      InvKept(s, steps[0]);
      ClosedQueueOnlyDrains(next, steps[1..], q);
    }
  }

  lemma TakenGrows(s: State, step: Step, q: nat)
    requires Enabled(s, step) && q < |s.queues|
    ensures q < |Next(s, step).queues| && s.queues[q].taken <= Next(s, step).queues[q].taken
  {
  }

  // ---- Progress ----

  /** Steps that finish work already begun: no new call, registration or broadcast. */
  predicate Quiet(step: Step) {
    || step.Pick? || step.Deliver? || step.HandToReader? || step.HandToCloser? || step.Finish?
    || step.TakeRead? || step.Drain? || step.Stop? || step.DestroyQueue? || step.Terminate?
  }

  predicate Attended(s: State, q: nat) {
    q < |s.queues| && s.queues[q].reading + s.queues[q].closing > 0
  }

  /** While a broadcast is in flight, some step is enabled unless the dispatch is blocked on a queue
      that nobody reads or closes, and nobody called destroy. */
  lemma NeverStuck(s: State) returns (step: Step)
    requires Inv(s) && s.mode.Dispatching?
    requires s.mode.current.Some? ==> Attended(s, s.mode.current.value) || s.destroyers > 0
    ensures Enabled(s, step) && Quiet(step)
  {
    if s.mode.current.None? {
      if s.pending == {} {
        return Finish;
      }
      var q :| q in s.pending;
      return Pick(q);
    }
    if s.destroyers > 0 {
      return Stop;
    }
    var q := s.mode.current.value;
    assert QueueAlive(s, q);
    if s.queues[q].buffer == [] {
      return if s.queues[q].reading > 0 then HandToReader else HandToCloser;
    }
    return if s.queues[q].reading > 0 then TakeRead(q) else Drain(q);
  }

  /** Receivers still to serve, then messages in the buffer of a closing queue. */
  lemma {:induction false} LexicographicProgress(s: State, step: Step, q: nat)
    requires Inv(s) && Enabled(s, step) && q < |s.queues|
    ensures step.Deliver? || step.HandToReader? || step.HandToCloser? ==> |Next(s, step).pending| < |s.pending|
    ensures step == Drain(q) ==>
              Next(s, step).pending == s.pending && |Next(s, step).queues[q].buffer| < |s.queues[q].buffer|
  {
    if step.Deliver? {
      assert QueueAlive(s, s.mode.current.value);
    }
    if step.Deliver? || step.HandToReader? || step.HandToCloser? {
      assert Next(s, step).pending == s.pending - {s.mode.current.value};
    }
  }

  function Buffered(queues: seq<Queue>): nat {
    if queues == [] then 0 else Buffered(queues[..|queues| - 1]) + |queues[|queues| - 1].buffer|
  }

  lemma {:induction false} BufferedUpdate(queues: seq<Queue>, q: nat, queue: Queue)
    requires q < |queues|
    ensures Buffered(queues[q := queue]) == Buffered(queues) - |queues[q].buffer| + |queue.buffer|
  {
    var n := |queues| - 1;
    if q == n {
      assert queues[q := queue][..n] == queues[..n];
    } else {
      assert queues[q := queue][..n] == queues[..n][q := queue];
      BufferedUpdate(queues[..n], q, queue);
    }
  }

  /** An upper bound for the quiet steps that are still possible. */
  function Work(s: State): nat {
    3 * |s.pending| + Buffered(s.queues) +
    match s.mode
    case Idle => |s.registered| + 2
    case Dispatching(None) => |s.registered| + 4
    case Dispatching(Some(_)) => |s.registered| + 3
    case Stopping(left) => |left| + 1
    case Stopped => 0
  }

  lemma SendShrinksWork(s: State, step: Step)
    requires Inv(s) && Enabled(s, step) && (step.Deliver? || step.HandToReader? || step.HandToCloser?)
    ensures Work(Next(s, step)) < Work(s)
  {
    hide Provenance, Acknowledgements, Served, Delivery;
    var q := s.mode.current.value;
    assert QueueAlive(s, q);
    BufferedUpdate(s.queues, q, Next(s, step).queues[q]);
    assert Next(s, step).pending == s.pending - {q};
  }

  lemma TakeShrinksWork(s: State, step: Step)
    requires Enabled(s, step) && (step.TakeRead? || step.Drain? || step.DestroyQueue?)
    ensures Work(Next(s, step)) < Work(s)
  {
    BufferedUpdate(s.queues, step.q, Next(s, step).queues[step.q]);
    if step.DestroyQueue? {
      assert Next(s, step).mode.left == s.mode.left - {step.q};
    }
  }

  lemma {:induction false} QuietStepsShrinkWork(s: State, step: Step)
    requires Inv(s) && Enabled(s, step) && Quiet(step)
    ensures Work(Next(s, step)) < Work(s)
  {
    if step.Deliver? || step.HandToReader? || step.HandToCloser? {
      SendShrinksWork(s, step);
    } else if step.TakeRead? || step.Drain? || step.DestroyQueue? {
      TakeShrinksWork(s, step);
    } else {
      assert Next(s, step).queues == s.queues;
    }
  }

  /** Anything but a new broadcast or a new queue. */
  predicate AddsNoWork(step: Step) {
    !step.Accept? && !step.Connect?
  }

  lemma CallShrinksNothing(s: State, step: Step)
    requires Enabled(s, step) && !Quiet(step) && AddsNoWork(step) && !step.Unregister?
    ensures Work(Next(s, step)) == Work(s)
  {
    if step.BeginRead? || step.EndRead? || step.CancelRead? || step.BeginClose? || step.EndClose? {
      BufferedUpdate(s.queues, step.q, Next(s, step).queues[step.q]);
    }
  }

  lemma UnregisterShrinksWork(s: State, q: nat)
    requires Inv(s) && Enabled(s, Unregister(q))
    ensures Work(Next(s, Unregister(q))) <= Work(s)
  {
    hide Provenance, Acknowledgements, Served, Delivery, Lifetime;
    var next := Next(s, Unregister(q));
    BufferedUpdate(s.queues, q, next.queues[q]);
    var done := s.queues[q].(closing := s.queues[q].closing - 1);
    assert next.queues == s.queues[q := next.queues[q]];
    assert q in s.registered ==> next.registered == s.registered - {q};
  }

  /** Calls that begin, return or give up leave the remaining work as it is or shrink it; only a new
      broadcast or a new queue adds to it. */
  lemma {:induction false} WorkNeverGrows(s: State, step: Step)
    requires Inv(s) && Enabled(s, step) && AddsNoWork(step)
    ensures Work(Next(s, step)) <= Work(s)
    ensures Quiet(step) ==> Work(Next(s, step)) < Work(s)
  {
    hide Inv, Enabled, Next, Work;
    if Quiet(step) {
      QuietStepsShrinkWork(s, step);
    } else if step.Unregister? {
      UnregisterShrinksWork(s, step.q);
    } else {
      CallShrinksNothing(s, step);
    }
  }

  ghost predicate AddNoWork(steps: seq<Step>) {
    forall i :: 0 <= i < |steps| ==> AddsNoWork(steps[i])
  }

  function QuietSteps(steps: seq<Step>): nat {
    if steps == [] then 0 else (if Quiet(steps[0]) then 1 else 0) + QuietSteps(steps[1..])
  }

  /** With no new broadcast and no new queue, whatever calls are made or return meanwhile, the
      goroutine and the channels move on only boundedly often. */
  lemma {:induction false} QuietStepsAreBounded(s: State, steps: seq<Step>)
    requires Inv(s) && AddNoWork(steps) && Run(s, steps).Some?
    ensures QuietSteps(steps) + Work(Run(s, steps).value) <= Work(s)
    decreases |steps|
  {
    if steps != [] {
      WorkNeverGrows(s, steps[0]);
      InvKept(s, steps[0]);
      QuietStepsAreBounded(Next(s, steps[0]), steps[1..]);
    }
  }

  lemma StoppingMovesOn(s: State) returns (step: Step)
    requires Inv(s) && s.mode.Stopping?
    ensures Enabled(s, step) && Quiet(step)
  {
    if s.mode.left == {} {
      return Terminate;
    }
    var r :| r in s.mode.left;
    return DestroyQueue(r);
  }

  /** No quiet step is possible. */
  ghost predicate Resting(s: State) {
    forall step :: Quiet(step) ==> !Enabled(s, step)
  }

  /** The dispatch is blocked on a queue that nobody reads or closes, and nobody called destroy. */
  predicate Hanging(s: State) {
    s.mode.Dispatching? && s.mode.current.Some? && !Attended(s, s.mode.current.value) && s.destroyers == 0
  }

  /** At rest the broker takes calls again, or has stopped, unless it hangs. */
  lemma {:induction false} RestingIff(s: State)
    requires Inv(s) && Resting(s)
    ensures s.mode.Idle? || s.mode.Stopped? <==> !Hanging(s)
  {
    hide Enabled, Quiet;
    if !Hanging(s) {
      if s.mode.Dispatching? {
        var step := NeverStuck(s);
      } else if s.mode.Stopping? {
        var step := StoppingMovesOn(s);
      }
    }
  }

  /** A send blocks only on a full buffer: while there is room, the broadcast goes through. */
  lemma {:induction false} HangsOnlyWhenFull(s: State)
    requires Inv(s) && Resting(s) && Hanging(s)
    ensures |s.queues[s.mode.current.value].buffer| == s.capacity
  {
    assert QueueAlive(s, s.mode.current.value);
    assert Quiet(Deliver) && !Enabled(s, Deliver);
  }

  lemma {:induction false} CapacityStays(s: State, steps: seq<Step>)
    requires Run(s, steps).Some?
    ensures Run(s, steps).value.capacity == s.capacity
    decreases |steps|
  {
    if steps != [] {
      assert Next(s, steps[0]).capacity == s.capacity;
      CapacityStays(Next(s, steps[0]), steps[1..]);
    }
  }

  /** A pending read has a ready branch exactly when a message is buffered or handed over, or the queue
      is closed. */
  lemma {:induction false} ReadReadyIff(s: State, q: nat)
    requires Inv(s) && q < |s.queues| && s.queues[q].reading > 0
    ensures (Enabled(s, TakeRead(q)) || Enabled(s, EndRead(q))
             || (s.mode == Dispatching(Some(q)) && Enabled(s, HandToReader))) <==>
            s.queues[q].buffer != [] || s.queues[q].closed || s.mode == Dispatching(Some(q))
  {
    assert QueueAlive(s, q);
  }

  /** A pending Close can go on exactly on an idle broker, with something to drain, or once its channel
      is closed; on an idle broker it need not drain first. */
  lemma {:induction false} CloseReadyIff(s: State, q: nat)
    requires q < |s.queues| && s.queues[q].closing > 0
    ensures Enabled(s, Unregister(q)) <==> s.mode.Idle?
    ensures Enabled(s, Unregister(q)) || Enabled(s, Drain(q)) || Enabled(s, EndClose(q)) <==>
            s.mode.Idle? || s.queues[q].buffer != [] || s.queues[q].closed
  {
  }

  /** Once destroy was called, the broker can only come to rest stopped. */
  lemma {:induction false} DestroyStops(s: State)
    requires Inv(s) && Resting(s) && s.destroyers > 0
    ensures s.mode.Stopped?
  {
    RestingIff(s);
    assert Quiet(Stop) && !Enabled(s, Stop);
  }

  /** While the dispatch hangs on a full queue, nothing but a read or a close of that queue, or a
      destroy call, makes it move again, whatever else is called. */
  lemma {:induction false} HangsOn(s: State, steps: seq<Step>, q: nat)
    requires Inv(s) && Run(s, steps).Some?
    requires s.mode == Dispatching(Some(q)) && Hanging(s) && |s.queues[q].buffer| == s.capacity
    requires forall i :: 0 <= i < |steps| ==>
               steps[i] != BeginRead(q) && steps[i] != BeginClose(q) && !steps[i].BeginDestroy?
    ensures Run(s, steps).value.mode == s.mode && Hanging(Run(s, steps).value)
    decreases |steps|
  {
    if steps != [] {
      assert QueueAlive(s, q);
      HangsOnce(s, steps[0], q);
      InvKept(s, steps[0]);
      HangsOn(Next(s, steps[0]), steps[1..], q);
    }
  }

  lemma HangsOnce(s: State, step: Step, q: nat)
    requires Enabled(s, step) && q < |s.queues| && !s.queues[q].closed
    requires s.mode == Dispatching(Some(q)) && Hanging(s) && |s.queues[q].buffer| == s.capacity
    requires step != BeginRead(q) && step != BeginClose(q) && !step.BeginDestroy?
    ensures Next(s, step).mode == s.mode && Hanging(Next(s, step))
    ensures Next(s, step).capacity == s.capacity && Next(s, step).queues[q] == s.queues[q]
  {
  }

  lemma {:induction false} RestingClose(s: State, q: nat)
    requires Inv(s) && Resting(s) && q < |s.queues| && s.queues[q].closing > 0
    requires s.mode.Idle? || s.mode.Stopped?
    ensures Enabled(s, Unregister(q)) || Enabled(s, EndClose(q))
  {
    if s.mode.Stopped? {
      assert QueueAlive(s, q);
      assert Quiet(Drain(q)) && !Enabled(s, Drain(q));
    }
  }

  /** With no new broadcast or queue, every Close has returned or can return once the work has run out:
      it meets an idle broker or its own closed channel, unless the dispatch hangs. */
  lemma {:induction false} CloseCanFinish(s: State, steps: seq<Step>, q: nat)
    requires Inv(s) && AddNoWork(steps) && Run(s, steps).Some?
    requires Resting(Run(s, steps).value) && !Hanging(Run(s, steps).value)
    ensures QuietSteps(steps) <= Work(s)
    ensures var t := Run(s, steps).value;
            q < |t.queues| && t.queues[q].closing > 0 ==> Enabled(t, Unregister(q)) || Enabled(t, EndClose(q))
  {
    hide Enabled, Resting, Hanging, Inv;
    InvAlong(s, steps);
    QuietStepsAreBounded(s, steps);
    var t := Run(s, steps).value;
    RestingIff(t);
    if q < |t.queues| && t.queues[q].closing > 0 {
      RestingClose(t, q);
    }
  }

  /** The same for every Write call that has not returned: the broker takes its broadcast, its
      dispatch is complete, or its queue is closed. */
  lemma {:induction false} WriteCanReturn(s: State, w: nat)
    requires Inv(s) && (s.mode.Idle? || s.mode.Stopped?)
    requires w < |s.writers| && !s.writers[w].phase.Returned?
    ensures Enabled(s, Accept(w)) || Enabled(s, AckWrite(w)) || Enabled(s, AbortWrite(w))
  {
    assert s.writers[w].sender < |s.queues|;
    assert QueueAlive(s, s.writers[w].sender);
  }
}
