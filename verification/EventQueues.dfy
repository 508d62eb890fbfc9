/** The loops of the broker goroutine and of `Close`, and the manager that owns one broker per task
    (a2asrv/eventqueue/queue_in_memory_impl.go, manager_in_memory_impl.go). Each loop returns the
    trace of transition-system steps it went through. */
module EventQueues {
  import opened Json
  import opened Broker

  lemma RunSnoc(s: State, steps: seq<Step>, step: Step)
    requires Run(s, steps).Some? && Enabled(Run(s, steps).value, step)
    ensures Run(s, steps + [step]) == Some(Next(Run(s, steps).value, step))
  {
    RunConcat(s, steps, [step]);
    assert [step][1..] == [];
  }

  /** Steps of other goroutines while the manager holds no lock or waits for this broker: queues are
      created and brokers destroyed only through the manager. */
  ghost predicate OthersOnly(steps: seq<Step>) {
    forall i :: 0 <= i < |steps| ==> !steps[i].Connect? && !steps[i].BeginDestroy?
  }

  /** Running, and nobody has called destroy. */
  predicate Alive(s: State) {
    Running(s) && s.destroyers == 0
  }

  /** Without a destroy call the broker keeps running. */
  lemma {:induction false} OthersKeepRunning(s: State, steps: seq<Step>)
    requires Alive(s) && OthersOnly(steps) && Run(s, steps).Some?
    ensures Alive(Run(s, steps).value)
    ensures |Run(s, steps).value.queues| == |s.queues|
    decreases |steps|
  {
    if steps != [] {
      assert Alive(Next(s, steps[0])) && |Next(s, steps[0]).queues| == |s.queues|;
      OthersKeepRunning(Next(s, steps[0]), steps[1..]);
    }
  }

  datatype DispatchOutcome = Completed | Interrupted | Unattended

  datatype CloseOutcome = Closed | Blocking

  datatype ReadOutcome = Received(message: Payload) | EndOfQueue | ReadCanceled | NothingYet

  lemma NoSteps(s: State)
    ensures Run(s, []) == Some(s)
  {
  }

  /** Steps that are not those of the given Write call. */
  ghost predicate LeaveWriter(steps: seq<Step>, w: nat) {
    forall i :: 0 <= i < |steps| ==>
      match steps[i]
      case Accept(v) => v != w
      case CancelWrite(v) => v != w
      case AbortWrite(v) => v != w
      case AckWrite(v) => v != w
      case _ => true
  }

  lemma {:induction false} WriterStays(s: State, steps: seq<Step>, w: nat)
    requires LeaveWriter(steps, w) && Run(s, steps).Some? && w < |s.writers|
    ensures w < |Run(s, steps).value.writers| && Run(s, steps).value.writers[w] == s.writers[w]
    ensures s.log <= Run(s, steps).value.log && |s.queues| <= |Run(s, steps).value.queues|
    decreases |steps|
  {
    if steps != [] {
      var next := Next(s, steps[0]);
      assert w < |next.writers| && next.writers[w] == s.writers[w] && s.log <= next.log && |s.queues| <= |next.queues|;
      WriterStays(next, steps[1..], w);
    }
  }

  /** What a Write call that returned nil tells about its broadcast, the log entry `i`. */
  ghost predicate Delivers(s: State, i: nat, w: nat, q: nat, payload: Payload, audience: set<nat>) {
    && i < |s.log| && s.log[i] == Entry(w, q, payload, audience)
    && forall r :: r in audience ==> DueTo(s, r, i)
  }

  lemma CompletedDelivers(s: State, i: nat, w: nat)
    requires Inv(s) && i < s.completed && i < |s.log| && s.log[i].writer == w
    ensures Delivers(s, i, w, s.log[i].sender, s.log[i].payload, s.log[i].audience)
  {
    forall r | r in s.log[i].audience ensures DueTo(s, r, i) {
      assert ServedBy(s, i, r);
    }
  }

  ghost predicate SelectOutcome(s: State, q: nat, done: bool, result: Option<WriteResult>) {
    && q < |s.queues|
    && (result == Some(QueueClosed) ==> s.queues[q].closed)
    && (result == Some(ContextDone) ==> done)
    && (result.None? ==> !s.queues[q].closed && !done)
  }

  lemma IsAlive(s: State, q: nat)
    requires Inv(s) && q < |s.queues|
    ensures QueueAlive(s, q)
  {
  }

  lemma ClosingStep(s: State, q: nat, step: Step)
    requires Enabled(s, step) && q < |s.queues|
    requires step == BeginClose(q) || step == Drain(q) || step == Unregister(q) || step == EndClose(q)
    ensures var next := Next(s, step);
            && next.mode == s.mode && next.log == s.log && next.pending == s.pending && q < |next.queues|
            && next.queues[q].closing ==
               s.queues[q].closing + (if step.BeginClose? then 1 else if step.Drain? then 0 else -1)
            && (step.Drain? ==> |next.queues[q].buffer| == |s.queues[q].buffer| - 1)
            && (step.Unregister? ==> q !in next.registered)
            && (!step.Unregister? ==> next.queues[q].closed == s.queues[q].closed && next.registered == s.registered)
  {
  }

  lemma InitInv(capacity: nat)
    ensures Inv(Init(capacity)) && Alive(Init(capacity))
  {
  }

  /** What the steps of a send do. */
  lemma SendSteps(s: State, q: nat)
    requires Inv(s) && (s.mode.Dispatching? ==> s.mode == Dispatching(None) || s.mode == Dispatching(Some(q)))
    ensures q in s.pending ==> q < |s.queues|
    ensures Enabled(s, Pick(q)) ==> Next(s, Pick(q)) == s.(mode := Dispatching(Some(q)))
    ensures Enabled(s, Stop) ==> Next(s, Stop) == s.(mode := Stopping(s.registered))
    ensures s.mode == Dispatching(Some(q)) ==> |s.log| > 0 && q < |s.queues|
    ensures s.mode == Dispatching(Some(q)) && !s.queues[q].closed ==>
              forall step :: Enabled(s, step) && (step == Deliver || step == HandToReader || step == HandToCloser) ==>
                               Sent(s, Next(s, step), q)
  {
    hide Lifetime, Delivery, Provenance, Acknowledgements, Served, Senders;
  }

  lemma AcceptStep(s: State, w: nat)
    requires Inv(s) && Enabled(s, Accept(w))
    ensures var next := Next(s, Accept(w));
            && next.mode == Dispatching(None) && next.registered == s.registered && next.capacity == s.capacity
            && next.destroyers == s.destroyers && (AllHaveRoom(s) ==> PendingHaveRoom(next))
  {
  }

  lemma FinishStep(s: State)
    requires Enabled(s, Finish)
    ensures var next := Next(s, Finish);
            next.mode == Idle && next.log == s.log && next.registered == s.registered
  {
  }

  /** The queue has been served, and nothing else has changed. */
  ghost predicate Sent(before: State, after: State, q: nat) {
    && after.mode == Dispatching(None) && after.pending == before.pending - {q}
    && after.log == before.log && after.registered == before.registered && after.destroyers == before.destroyers
    && OthersKeep(before, after, q)
  }

  lemma HandingOver(s: State, q: nat)
    requires Inv(s) && q < |s.queues| && s.mode == Dispatching(Some(q))
    ensures |s.log| > 0 && !s.queues[q].closed
  {
    assert QueueAlive(s, q);
  }

  lemma WriteBegins(s: State, q: nat, payload: Payload)
    requires q < |s.queues|
    ensures Enabled(s, BeginWrite(q, payload))
    ensures Next(s, BeginWrite(q, payload)).queues == s.queues && Next(s, BeginWrite(q, payload)).log == s.log
    ensures |Next(s, BeginWrite(q, payload)).writers| == |s.writers| + 1
    ensures Next(s, BeginWrite(q, payload)).writers[|s.writers|] ==
            Writer(q, payload, if s.queues[q].closed then Returned(QueueClosed) else Offering)
  {
  }

  datatype ConnectOutcome = Connected(queue: nat) | BrokerDestroyed | StillBlocked

  /** The broker has stopped, and no queue of it is open. */
  ghost predicate Ended(s: State) {
    s.mode.Stopped? && forall q :: 0 <= q < |s.queues| ==> s.queues[q].closed
  }

  lemma {:induction false} DestroyersStay(s: State, steps: seq<Step>)
    requires Run(s, steps).Some?
    ensures Run(s, steps).value.destroyers >= s.destroyers
    decreases |steps|
  {
    if steps != [] {
      assert Next(s, steps[0]).destroyers >= s.destroyers;
      DestroyersStay(Next(s, steps[0]), steps[1..]);
    }
  }

  /** All other queues are as they were. */
  ghost predicate OthersKeep(before: State, after: State, q: nat) {
    && after.capacity == before.capacity && |after.queues| == |before.queues|
    && forall r :: 0 <= r < |before.queues| && r != q ==> after.queues[r] == before.queues[r]
  }

  /** Every registered queue has a free place in its buffer. */
  ghost predicate AllHaveRoom(s: State) {
    forall q :: q in s.registered && q < |s.queues| ==> |s.queues[q].buffer| < s.capacity
  }

  ghost predicate PendingHaveRoom(s: State) {
    forall q :: q in s.pending && q < |s.queues| ==> |s.queues[q].buffer| < s.capacity
  }

  class EventBroker {
    var state: State

    constructor (capacity: nat)
      ensures state == Init(capacity)
    {
      state := Init(capacity);
    }

    method Perform(step: Step, ghost start: State, ghost trace: seq<Step>) returns (ghost longer: seq<Step>)
      requires Inv(state) && Enabled(state, step) && Run(start, trace) == Some(state)
      modifies this
      ensures state == Next(old(state), step) && Inv(state)
      ensures longer == trace + [step] && Run(start, longer) == Some(state)
    {
      InvKept(state, step);
      RunSnoc(start, trace, step);
      state := Next(state, step);
      longer := trace + [step];
    }

    /** Waits until the channel of `q` has room, while its readers and closers keep taking. */
    method AwaitRoom(q: nat, ghost start: State, ghost trace: seq<Step>) returns (ready: bool, ghost longer: seq<Step>)
      requires Inv(state) && state.mode == Dispatching(Some(q)) && Run(start, trace) == Some(state)
      modifies this
      ensures Inv(state) && Run(start, longer) == Some(state)
      ensures state.mode == old(state.mode) && state.log == old(state.log) && state.pending == old(state.pending)
      ensures state.registered == old(state.registered) && state.destroyers == old(state.destroyers)
      ensures ready ==> Enabled(state, Deliver) || Enabled(state, HandToReader) || Enabled(state, HandToCloser)
      ensures !ready ==> !Attended(state, q) && |state.queues[q].buffer| == state.capacity
      ensures OthersKeep(old(state), state, q)
      ensures q < |state.queues| && |state.queues[q].buffer| <= |old(state.queues[q].buffer)|
    {
      hide Provenance, Acknowledgements, Served, Delivery, Run;
      longer := trace;
      while |state.queues[q].buffer| >= state.capacity && state.queues[q].buffer != []
        invariant Inv(state) && Run(start, longer) == Some(state)
        invariant state.mode == old(state.mode) && state.log == old(state.log) && state.pending == old(state.pending)
        invariant state.registered == old(state.registered) && state.destroyers == old(state.destroyers)
        invariant OthersKeep(old(state), state, q)
        invariant |state.queues[q].buffer| <= |old(state.queues[q].buffer)|
        decreases |state.queues[q].buffer|
      {
        if state.queues[q].reading > 0 {
          longer := Perform(TakeRead(q), start, longer);
        } else if state.queues[q].closing > 0 {
          longer := Perform(Drain(q), start, longer);
        } else {
          return false, longer;
        }
      }
      assert QueueAlive(state, q);
      ready := |state.queues[q].buffer| < state.capacity || state.queues[q].reading > 0 || state.queues[q].closing > 0;
    }

    /** Sends the newest payload to one queue, or sees the destroy signal first. */
    method SendTo(q: nat, ghost start: State, ghost trace: seq<Step>)
      returns (outcome: DispatchOutcome, ghost longer: seq<Step>)
      requires Inv(state) && state.mode == Dispatching(None) && q in state.pending && Run(start, trace) == Some(state)
      modifies this
      ensures Inv(state) && Run(start, longer) == Some(state)
      ensures state.log == old(state.log) && state.registered == old(state.registered)
      ensures outcome.Completed? ==> state.mode == Dispatching(None) && state.pending == old(state.pending) - {q}
      ensures outcome.Interrupted? ==> state.mode == Stopping(state.registered)
      ensures outcome.Interrupted? ==> old(state.destroyers) > 0
      ensures outcome.Unattended? ==> state.mode == Dispatching(Some(q)) && Hanging(state)
      ensures outcome.Unattended? ==> |state.queues[q].buffer| == state.capacity
      ensures q < |old(state.queues)| && (outcome.Unattended? ==> |old(state.queues[q].buffer)| >= state.capacity)
      ensures state.capacity == old(state.capacity) && state.destroyers == old(state.destroyers)
      ensures OthersKeep(old(state), state, q)
    {
      hide Inv, Run, Next;
      SendSteps(state, q);
      longer := Perform(Pick(q), start, trace);
      var ready;
      ready, longer := AwaitRoom(q, start, longer);
      var stop: bool := *;
      SendSteps(state, q);
      if state.destroyers > 0 && (stop || !ready) {
        longer := Perform(Stop, start, longer);
        return Interrupted, longer;
      }
      if !ready {
        return Unattended, longer;
      }
      HandingOver(state, q);
      var step :=
        if Enabled(state, Deliver) then Deliver
        else if Enabled(state, HandToReader) then HandToReader
        else HandToCloser;
      longer := Perform(step, start, longer);
      return Completed, longer;
    }

    /** The broadcast case of the goroutine's select: one send for every other registered queue. */
    method Dispatch(w: nat) returns (outcome: DispatchOutcome, ghost trace: seq<Step>)
      requires Inv(state) && Enabled(state, Accept(w))
      modifies this
      ensures Inv(state) && Run(old(state), trace) == Some(state)
      ensures outcome.Completed? ==> state.mode.Idle? && state.registered == old(state.registered)
      ensures outcome.Completed? ==> forall q :: q in old(state.registered) ==> ReceivedOneMore(old(state), w, state, q)
      ensures outcome.Interrupted? ==> state.mode == Stopping(old(state.registered))
      ensures outcome.Interrupted? ==> old(state.destroyers) > 0
      ensures outcome.Unattended? ==>
                Hanging(state) && |state.queues[state.mode.current.value].buffer| == state.capacity
      ensures old(state.destroyers) == 0 && AllHaveRoom(old(state)) ==> outcome.Completed?
    {
      hide Inv, Run, Next, ReceivedOneMore, Hanging;
      ghost var start := state;
      NoSteps(start);
      AcceptStep(start, w);
      trace := Perform(Accept(w), start, []);
      ghost var log := state.log;
      while state.pending != {}
        invariant Inv(state) && Run(start, trace) == Some(state)
        invariant state.mode == Dispatching(None) && state.log == log && state.registered == start.registered
        invariant state.capacity == start.capacity && state.destroyers == start.destroyers
        invariant AllHaveRoom(start) ==> PendingHaveRoom(state)
        decreases |state.pending|
      {
        var q :| q in state.pending;
        outcome, trace := SendTo(q, start, trace);
        if !outcome.Completed? {
          return;
        }
      }
      FinishStep(state);
      trace := Perform(Finish, start, trace);
      outcome := Completed;
      forall q | q in start.registered ensures ReceivedOneMore(start, w, state, q) {
        CompletedDelivery(start, w, trace, q);
      }
    }

    /** The deferred part of the goroutine: destroys every registered queue, then reports the end. */
    method RunDeferred() returns (ghost trace: seq<Step>)
      requires Inv(state) && state.mode.Stopping?
      modifies this
      ensures Inv(state) && Run(old(state), trace) == Some(state)
      ensures state.mode.Stopped? && state.registered == old(state.registered) && state.log == old(state.log)
    {
      ghost var start := state;
      trace := [];
      while state.mode.left != {}
        invariant Inv(state) && Run(start, trace) == Some(state) && state.mode.Stopping?
        invariant state.registered == start.registered && state.log == start.log
        decreases |state.mode.left|
      {
        var q :| q in state.mode.left;
        ghost var left := state.mode.left;
        trace := Perform(DestroyQueue(q), start, trace);
        assert state.mode.left == left - {q};
      }
      trace := Perform(Terminate, start, trace);
    }

    /** `connect`: `waiting` is what the others do until its select is looked at. On a broker that is
        neither idle nor destroyed both branches block; at rest that is a dispatch that hangs. */
    method Connect(waiting: seq<Step>) returns (outcome: ConnectOutcome)
      requires Inv(state) && OthersOnly(waiting) && Run(state, waiting).Some?
      modifies this
      ensures Inv(state)
      ensures old(Alive(state)) ==> Alive(state) && outcome != BrokerDestroyed
      ensures outcome.Connected? ==>
                && outcome.queue == old(|Run(state, waiting).value.queues|) < |state.queues|
                && outcome.queue in state.registered && !state.queues[outcome.queue].closed
      ensures outcome.StillBlocked? ==> !state.mode.Idle? && !state.mode.Stopped? && (Resting(state) ==> Hanging(state))
    {
      InvAlong(state, waiting);
      if Alive(state) {
        OthersKeepRunning(state, waiting);
      }
      state := Run(state, waiting).value;
      if state.mode.Stopped? {
        return BrokerDestroyed;
      }
      if !state.mode.Idle? {
        if Resting(state) {
          RestingIff(state);
        }
        return StillBlocked;
      }
      outcome := Connected(|state.queues|);
      var _ := Perform(Step.Connect, state, []);
      assert QueueAlive(state, outcome.queue);
    }

    /** `destroy`: `waiting` is what the others do until the broker may take the signal or has stopped.
        A call that is not done waits for a broker that is still moving. */
    method Shutdown(waiting: seq<Step>) returns (done: bool)
      requires Inv(state) && Run(Next(state, BeginDestroy), waiting).Some?
      modifies this
      ensures Inv(state)
      ensures if done then Ended(state) else !Resting(state)
    {
      InvKept(state, BeginDestroy);
      InvAlong(Next(state, BeginDestroy), waiting);
      DestroyersStay(Next(state, BeginDestroy), waiting);
      state := Run(Next(state, BeginDestroy), waiting).value;
      if Enabled(state, Stop) {
        var _ := Perform(Stop, state, []);
        var _ := RunDeferred();
      } else if !state.mode.Stopped? {
        if Resting(state) {
          DestroyStops(state);
        }
        return false;
      }
      forall q: nat | q < |state.queues| ensures state.queues[q].closed {
        assert QueueAlive(state, q);
      }
      return true;
    }

    /** What other goroutines do while a call waits. */
    method Meanwhile(steps: seq<Step>, ghost start: State, ghost trace: seq<Step>) returns (ghost longer: seq<Step>)
      requires Inv(state) && Run(start, trace) == Some(state) && Run(state, steps).Some?
      modifies this
      ensures Inv(state) && state == Run(old(state), steps).value
      ensures Run(start, longer) == Some(state)
    {
      InvAlong(state, steps);
      RunConcat(start, trace, steps);
      longer := trace + steps;
      state := Run(state, steps).value;
    }

    /** `Write`: offers the broadcast, then waits for its dispatch. `first` and `second` are what the
        others do until the two selects, `done1` and `done2` whether the context is done there.
        No result means that no branch is ready yet. */
    method Write(q: nat, payload: Payload, first: seq<Step>, second: seq<Step>, done1: bool, done2: bool)
      returns (result: Option<WriteResult>, ghost trace: seq<Step>)
      requires Inv(state) && q < |state.queues|
      requires LeaveWriter(first, |state.writers|) && LeaveWriter(second, |state.writers|)
      requires Run(Next(state, BeginWrite(q, payload)), first).Some?
      requires Enabled(AfterFirst(q, payload, first), Accept(|state.writers|)) ==>
                 Run(Next(AfterFirst(q, payload, first), Accept(|state.writers|)), second).Some?
      modifies this
      ensures Inv(state) && Run(old(state), trace) == Some(state)
      ensures result == Some(Acknowledged) ==>
                Delivers(state, |old(AfterFirst(q, payload, first)).log|, |old(state.writers)|, q, payload,
                         old(AfterFirst(q, payload, first)).registered - {q})
      ensures old(state.queues[q].closed) ==> result == Some(QueueClosed) && state.log == old(state.log)
      ensures result == Some(QueueClosed) ==> q < |state.queues| && state.queues[q].closed
      ensures result == Some(ContextDone) ==> done1 || done2
      ensures result.None? ==> q < |state.queues| && !state.queues[q].closed && |old(state.writers)| < |state.writers|
      ensures result.None? ==>
                match state.writers[|old(state.writers)|].phase
                case Offering => !state.mode.Idle? && !done1
                case Waiting(i) => state.completed <= i && !done2
                case Returned(_) => false
    {
      hide Inv, Run, Next, Enabled, Delivers;
      ghost var start := state;
      var w := |state.writers|;
      NoSteps(start);
      WriteBegins(state, q, payload);
      trace := Perform(BeginWrite(q, payload), start, []);
      if state.writers[w].phase.Returned? {
        return Some(QueueClosed), trace;
      }
      WriterStays(state, first, w);
      trace := Meanwhile(first, start, trace);
      var accepted;
      accepted, result, trace := OfferBroadcast(w, q, done1, start, trace);
      if !accepted {
        return;
      }
      ghost var i := |old(AfterFirst(q, payload, first)).log|;
      WriterStays(state, second, w);
      trace := Meanwhile(second, start, trace);
      result, trace := AwaitDispatch(w, q, i, done2, start, trace);
    }

    /** The first select of `Write`; any ready branch may be taken. */
    method OfferBroadcast(w: nat, q: nat, done: bool, ghost start: State, ghost trace: seq<Step>)
      returns (accepted: bool, result: Option<WriteResult>, ghost longer: seq<Step>)
      requires Inv(state) && Run(start, trace) == Some(state)
      requires w < |state.writers| && state.writers[w].phase.Offering? && state.writers[w].sender == q < |state.queues|
      modifies this
      ensures Inv(state) && Run(start, longer) == Some(state)
      ensures state.queues == old(state.queues) && w < |state.writers|
      ensures accepted ==> Enabled(old(state), Accept(w)) && state == Next(old(state), Accept(w))
      ensures accepted ==> state.writers[w] == old(state.writers[w]).(phase := Waiting(|old(state.log)|))
      ensures accepted ==> |state.log| == |old(state.log)| + 1
      ensures accepted ==>
                state.log[|old(state.log)|] == Entry(w, q, state.writers[w].payload, old(state.registered) - {q})
      ensures !accepted ==> SelectOutcome(state, q, done, result) && result != Some(Acknowledged)
      ensures !accepted && result.None? ==> state == old(state) && !state.mode.Idle?
    {
      hide Inv, Run;
      var choice: nat := *;
      if done && (choice == 0 || !(state.queues[q].closed || state.mode.Idle?)) {
        longer := Perform(CancelWrite(w), start, trace);
        return false, Some(ContextDone), longer;
      }
      if state.queues[q].closed && (choice == 1 || !state.mode.Idle?) {
        longer := Perform(AbortWrite(w), start, trace);
        return false, Some(QueueClosed), longer;
      }
      if !state.mode.Idle? {
        return false, None, trace;
      }
      longer := Perform(Accept(w), start, trace);
      return true, None, longer;
    }

    /** The second select of `Write`. */
    method AwaitDispatch(w: nat, q: nat, ghost i: nat, done: bool, ghost start: State, ghost trace: seq<Step>)
      returns (result: Option<WriteResult>, ghost longer: seq<Step>)
      requires Inv(state) && Run(start, trace) == Some(state)
      requires w < |state.writers| && state.writers[w].phase == Waiting(i)
      requires state.writers[w].sender == q < |state.queues|
      requires i < |state.log| && state.log[i].writer == w
      modifies this
      ensures Inv(state) && Run(start, longer) == Some(state)
      ensures state.queues == old(state.queues) && state.log == old(state.log) && w < |state.writers|
      ensures SelectOutcome(state, q, done, result)
      ensures result == Some(Acknowledged) ==>
                Delivers(state, i, w, state.log[i].sender, state.log[i].payload, state.log[i].audience)
      ensures result.None? ==> state == old(state) && state.completed <= i
    {
      hide Inv, Run, Delivers;
      var choice: nat := *;
      var dispatched := state.writers[w].phase.index < state.completed;
      if done && (choice == 0 || !(state.queues[q].closed || dispatched)) {
        longer := Perform(CancelWrite(w), start, trace);
        return Some(ContextDone), longer;
      }
      if state.queues[q].closed && (choice == 1 || !dispatched) {
        longer := Perform(AbortWrite(w), start, trace);
        return Some(QueueClosed), longer;
      }
      if !dispatched {
        return None, trace;
      }
      longer := Perform(AckWrite(w), start, trace);
      CompletedDelivers(state, i, w);
      return Some(Acknowledged), longer;
    }

    /** The state in which the first select of a Write call finds the broker. */
    ghost function AfterFirst(q: nat, payload: Payload, first: seq<Step>): State
      requires q < |state.queues| && Run(Next(state, BeginWrite(q, payload)), first).Some?
      reads this
    {
      Run(Next(state, BeginWrite(q, payload)), first).value
    }

    /** `Read`: `waiting` is what the others do until its select, short of serving this very call. */
    method Read(q: nat, waiting: seq<Step>, done: bool) returns (r: ReadOutcome, ghost trace: seq<Step>)
      requires Inv(state) && q < |state.queues| && Run(Next(state, BeginRead(q)), waiting).Some?
      requires var t := Run(Next(state, BeginRead(q)), waiting).value; q < |t.queues| && t.queues[q].reading > 0
      modifies this
      ensures Inv(state) && Run(old(state), trace) == Some(state)
      ensures q < |state.queues|
      ensures ReadFrom(Run(Next(old(state), BeginRead(q)), waiting).value.queues[q], state.queues[q], r)
      ensures r.ReadCanceled? ==> done
      ensures r.NothingYet? ==> !done && state.mode != Dispatching(Some(q))
    {
      hide Inv, Run;
      ghost var start := state;
      NoSteps(start);
      trace := Perform(BeginRead(q), start, []);
      trace := Meanwhile(waiting, start, trace);
      r, trace := SelectRead(q, done, start, trace);
    }

    /** The select of `Read`; any ready branch may be taken. */
    method SelectRead(q: nat, done: bool, ghost start: State, ghost trace: seq<Step>)
      returns (r: ReadOutcome, ghost longer: seq<Step>)
      requires Inv(state) && Run(start, trace) == Some(state) && q < |state.queues| && state.queues[q].reading > 0
      modifies this
      ensures Inv(state) && Run(start, longer) == Some(state)
      ensures q < |state.queues| && ReadFrom(old(state.queues[q]), state.queues[q], r)
      ensures r.ReadCanceled? ==> done
      ensures r.NothingYet? ==> !done && state.mode != Dispatching(Some(q))
    {
      hide Inv, Run, Next, ReadFrom;
      if state.mode == Dispatching(Some(q)) {
        HandingOver(state, q);
      }
      var canceled: bool := *;
      var step;
      if done && canceled {
        r, step := ReadCanceled, CancelRead(q);
      } else if state.queues[q].buffer != [] {
        r, step := Received(state.queues[q].buffer[0]), TakeRead(q);
      } else if state.queues[q].closed {
        r, step := EndOfQueue, EndRead(q);
      } else if state.mode == Dispatching(Some(q)) {
        r, step := Received(state.log[|state.log| - 1].payload), HandToReader;
      } else if done {
        r, step := ReadCanceled, CancelRead(q);
      } else {
        NothingRead(state.queues[q]);
        return NothingYet, trace;
      }
      ReadStep(state, q, step, r);
      longer := Perform(step, start, trace);
    }

    /** `Close`: drains its own channel until the broker takes the unregistration or the channel is
        found closed. With an empty open channel and a busy broker both cases of the select block. */
    method Close(q: nat) returns (outcome: CloseOutcome, ghost trace: seq<Step>)
      requires Inv(state) && q < |state.queues|
      modifies this
      ensures Inv(state) && Run(old(state), trace) == Some(state)
      ensures q < |state.queues| && state.log == old(state.log) && state.pending == old(state.pending)
      ensures outcome.Closed? ==> state.queues[q].closed && (old(state.mode.Idle?) ==> q !in state.registered)
      ensures outcome.Blocking? ==> state.queues[q].closing == old(state.queues[q].closing) + 1
      ensures outcome.Blocking? ==> !state.queues[q].closed && state.queues[q].buffer == [] && !state.mode.Idle?
    {
      hide Inv, Run, Next;
      ghost var start := state;
      NoSteps(start);
      ClosingStep(state, q, BeginClose(q));
      trace := Perform(BeginClose(q), start, []);
      while true
        invariant Inv(state) && Run(start, trace) == Some(state)
        invariant q < |state.queues|
        invariant state.mode == start.mode && state.log == start.log && state.pending == start.pending
        invariant state.queues[q].closing == start.queues[q].closing + 1
        decreases |state.queues[q].buffer|
      {
        IsAlive(state, q);
        var unregister: bool := *;
        if state.mode.Idle? && (unregister || (state.queues[q].buffer == [] && !state.queues[q].closed)) {
          ClosingStep(state, q, Unregister(q));
          trace := Perform(Unregister(q), start, trace);
          IsAlive(state, q);
          return Closed, trace;
        }
        if state.queues[q].buffer == [] {
          if state.queues[q].closed {
            ClosingStep(state, q, EndClose(q));
            trace := Perform(EndClose(q), start, trace);
            return Closed, trace;
          }
          return Blocking, trace;
        }
        ClosingStep(state, q, Drain(q));
        trace := Perform(Drain(q), start, trace);
      }
    }
  }

  /** A read takes the head of the buffer, or is handed the message by the broker when the buffer is
      empty; it sees the end only of a closed queue with nothing left. */
  ghost predicate ReadFrom(before: Queue, after: Queue, r: ReadOutcome) {
    match r
    case Received(m) =>
      && after.taken == before.taken + [m] && after.reading == before.reading - 1
      && (before.buffer != [] ==> m == before.buffer[0] && after.buffer == before.buffer[1..])
      && (before.buffer == [] ==> !before.closed && after.buffer == [])
    case EndOfQueue =>
      before.closed && before.buffer == [] && after.taken == before.taken && after.reading == before.reading - 1
    case ReadCanceled => after.(reading := before.reading) == before && after.reading == before.reading - 1
    case NothingYet => !before.closed && before.buffer == [] && after == before
  }

  lemma NothingRead(queue: Queue)
    requires !queue.closed && queue.buffer == []
    ensures ReadFrom(queue, queue, NothingYet)
  {
  }

  lemma ReadStep(s: State, q: nat, step: Step, r: ReadOutcome)
    requires Enabled(s, step) && q < |s.queues|
    requires || (step == CancelRead(q) && r.ReadCanceled?)
             || (step == TakeRead(q) && r == Received(s.queues[q].buffer[0]))
             || (step == EndRead(q) && r.EndOfQueue?)
             || (step == HandToReader && s.mode == Dispatching(Some(q)) && r == Received(s.log[|s.log| - 1].payload))
    ensures q < |Next(s, step).queues| && ReadFrom(s.queues[q], Next(s, step).queues[q], r)
  {
  }

  /** The queue got the payload of the Write call, unless it is the sender's own. */
  ghost predicate ReceivedOneMore(before: State, w: nat, after: State, q: nat) {
    && w < |before.writers| && q < |before.queues| && q < |after.queues|
    && after.queues[q].Received() ==
       before.queues[q].Received() + if q == before.writers[w].sender then [] else [before.writers[w].payload]
  }

  lemma {:induction false} JoinedAtStays(s: State, steps: seq<Step>, q: nat)
    requires Run(s, steps).Some? && q < |s.queues|
    ensures q < |Run(s, steps).value.queues| && Run(s, steps).value.queues[q].joinedAt == s.queues[q].joinedAt
    decreases |steps|
  {
    if steps != [] {
      QueueStep(s, steps[0], q);
      JoinedAtStays(Next(s, steps[0]), steps[1..], q);
    }
  }

  lemma CompletedDelivery(s: State, w: nat, steps: seq<Step>, q: nat)
    requires Inv(s) && Enabled(s, Accept(w)) && Run(s, steps).Some? && q in s.registered
    requires var t := Run(s, steps).value;
             t.mode.Idle? && t.log == Next(s, Accept(w)).log && t.registered == s.registered
    ensures ReceivedOneMore(s, w, Run(s, steps).value, q)
  {
    var t, n := Run(s, steps).value, |s.log|;
    InvAlong(s, steps);
    JoinedAtStays(s, steps, q);
    assert QueueAlive(s, q) && QueueAlive(t, q) && Delivered(s, q) && Delivered(t, q);
    assert End(s, q) == n && End(t, q) == n + 1 == |t.log|;
    assert s.log <= t.log && t.log[n].sender == s.writers[w].sender && t.log[n].payload == s.writers[w].payload;
    hide Run, Next, Enabled, Due, Shape, Lifetime, Provenance, Acknowledgements, Served;
    DueInLongerLog(s.log, t.log, s.queues[q].joinedAt, n, q);
    DueSnoc(t.log, s.queues[q].joinedAt, n, q);
  }

  // ---- The manager ----

  class InMemoryManager {
    var brokers: map<string, EventBroker>
    const bufferSize: nat

    ghost predicate Valid()
      reads this, brokers.Values
    {
      && (forall t :: t in brokers ==> Inv(brokers[t].state) && Alive(brokers[t].state))
      && (forall t, u :: t in brokers && u in brokers && t != u ==> brokers[t] != brokers[u])
    }

    constructor (bufferSize: nat)
      ensures Valid() && brokers == map[] && this.bufferSize == bufferSize
    {
      brokers := map[];
      this.bufferSize := bufferSize;
    }

    /** Other goroutines at work on one broker between two calls of the manager. */
    method Background(taskId: string, steps: seq<Step>)
      requires Valid() && taskId in brokers && OthersOnly(steps) && Run(brokers[taskId].state, steps).Some?
      modifies brokers[taskId]
      ensures Valid() && brokers[taskId].state == Run(old(brokers[taskId].state), steps).value
    {
      var broker := brokers[taskId];
      InvAlong(broker.state, steps);
      OthersKeepRunning(broker.state, steps);
      broker.state := Run(broker.state, steps).value;
    }

    /** The broker in the map, or a new one. */
    method BrokerFor(taskId: string) returns (broker: EventBroker)
      requires Valid()
      modifies this
      ensures Valid() && taskId in brokers && broker == brokers[taskId]
      ensures brokers.Keys == old(brokers.Keys) + {taskId}
      ensures forall t :: t in old(brokers) ==> brokers[t] == old(brokers[t])
      ensures taskId !in old(brokers) ==> fresh(broker) && broker.state == Init(bufferSize)
    {
      hide Inv, Init, Alive;
      if taskId !in brokers {
        InitInv(bufferSize);
        var created := new EventBroker(bufferSize);
        brokers := brokers[taskId := created];
      }
      broker := brokers[taskId];
    }

    /** Never fails: every broker in the map is alive, so `connect` finds it running. While it blocks,
        the mutex is held; at rest it does so only on a dispatch that hangs. */
    method CreateReadWriter(taskId: string, waiting: seq<Step>) returns (outcome: ConnectOutcome)
      requires Valid() && OthersOnly(waiting)
      requires Run(if taskId in brokers then brokers[taskId].state else Init(bufferSize), waiting).Some?
      modifies this, brokers.Values
      ensures Valid() && outcome != BrokerDestroyed
      ensures brokers.Keys == old(brokers.Keys) + {taskId}
      ensures forall t :: t in old(brokers) ==> brokers[t] == old(brokers[t])
      ensures forall t :: t in old(brokers) && t != taskId ==> brokers[t].state == old(brokers[t].state)
      ensures outcome.Connected? ==>
                && outcome.queue < |brokers[taskId].state.queues| && outcome.queue in brokers[taskId].state.registered
                && !brokers[taskId].state.queues[outcome.queue].closed
      ensures outcome.StillBlocked? && Resting(brokers[taskId].state) ==> Hanging(brokers[taskId].state)
    {
      hide Inv, Run, Resting, Hanging;
      var broker := BrokerFor(taskId);
      outcome := broker.Connect(waiting);
    }

    /** Removes the broker once it has stopped; all its queues are then closed. Until then the call
        waits for a broker that is still moving. */
    method Destroy(taskId: string, waiting: seq<Step>) returns (done: bool)
      requires Valid() && OthersOnly(waiting)
      requires taskId in brokers ==> Run(Next(brokers[taskId].state, BeginDestroy), waiting).Some?
      modifies this, brokers.Values
      ensures done ==> Valid() && brokers == old(brokers) - {taskId}
      ensures done && taskId in old(brokers) ==> Ended(old(brokers[taskId]).state)
      ensures !done ==> taskId in old(brokers) && brokers == old(brokers) && !Resting(brokers[taskId].state)
      ensures forall t :: t in brokers && t != taskId ==> brokers[t].state == old(brokers[t].state)
    {
      hide Inv, Run, Resting;
      if taskId !in brokers {
        assert brokers - {taskId} == brokers;
        return true;
      }
      var broker := brokers[taskId];
      done := broker.Shutdown(waiting);
      if done {
        brokers := brokers - {taskId};
      }
    }
  }
}
