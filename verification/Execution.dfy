/** Processing agent events against a shared task store (a2asrv/agentexec.go,
    internal/taskupdate/manager.go, a2asrv/taskstore/inmemory.go). The code is that of one actor;
    before each of its store operations, any other actors may have taken any steps. */
module Execution {
  import opened Json
  import opened Tasks
  import opened Patch
  import opened OptimisticStore

  // ---- The store ----

  /** Versions were only added, and none of them by the actor. */
  ghost predicate Moved(before: State, after: State, self: Actor) {
    && before.log <= after.log && before.commits <= after.commits
    && By(after.commits, self) == By(before.commits, self)
  }

  /** The actor has added a version, with nothing else of its own. */
  ghost predicate Committed(before: State, after: State, self: Actor, e: Event, version: nat) {
    && before.log <= after.log && before.commits <= after.commits
    && By(after.commits, self) == By(before.commits, self) + [e]
    && |before.log| < version <= |after.log| == |after.commits|
    && after.commits[version - 1] == Commit(self, e)
  }

  lemma MovedThenCommitted(s0: State, s1: State, s2: State, self: Actor, e: Event, version: nat)
    requires Moved(s0, s1, self) && Committed(s1, s2, self, e, version)
    ensures Committed(s0, s2, self, e, version)
  {
  }

  lemma OtherStep(m: Materializer, trace: seq<Step>, s: State, step: Step, self: Actor)
    requires s == After(m, START, trace) && Inv(m, s) && step.actor != self
    ensures Next(m, s, step) == After(m, START, trace + [step]) && Inv(m, Next(m, s, step))
    ensures Moved(s, Next(m, s, step), self)
    ensures self in Next(m, s, step).handles <==> self in s.handles
    ensures self in s.handles ==> Next(m, s, step).handles[self] == s.handles[self]
  {
    hide Next, After, Inv, By;
    AfterSnoc(m, START, trace, step);
    InvKept(m, s, step);
    NextGrows(m, s, step);
    NextBy(m, s, step, self);
    if self !in s.handles {
      OthersHandle(m, s, step, self);
    }
  }

  lemma OthersHandle(m: Materializer, s: State, step: Step, self: Actor)
    requires step.actor != self && self !in s.handles
    ensures self !in Next(m, s, step).handles
  {
  }

  lemma HandleKnown(m: Materializer, s: State, a: Actor)
    requires Inv(m, s) && a in s.handles
    ensures 1 <= s.handles[a].version <= |s.log| == |s.commits|
    ensures m.Full? ==> s.handles[a].tracked == s.log[s.handles[a].version - 1]
  {
  }

  ghost predicate SameHandle(before: State, after: State, self: Actor) {
    && (self in after.handles <==> self in before.handles)
    && (self in before.handles ==> after.handles[self] == before.handles[self])
  }

  /** Why an update fails. */
  ghost predicate UpdateRefused(m: Materializer, s: State, fault: bool, event: Event, output: Task, prevVersion: nat,
                                error: StoreError) {
    match error
    case Unavailable => fault
    case Conflict => prevVersion < |s.log|
    case NotKept => 0 < prevVersion == |s.log| && m.Kept(s.log[prevVersion - 1], event, output).None?
    case _ => false
  }

  /** Either one version more, the previous one with the event applied, or no change by this actor. */
  ghost predicate UpdateOutcome(m: Materializer, before: State, after: State, fault: bool, self: Actor,
                                event: Event, output: Task, prevVersion: nat, r: Result<nat, StoreError>) {
    match r
    case Err(error) =>
      && Moved(before, after, self) && SameHandle(before, after, self)
      && UpdateRefused(m, after, fault, event, output, prevVersion, error)
    case Ok(version) =>
      && Committed(before, after, self, event, version) && 1 <= prevVersion && version == prevVersion + 1 == |after.log|
      && Apply(after.log[prevVersion - 1], event) == Ok(after.log[prevVersion])
      && self in after.handles && after.handles[self] == Handle(output, version)
  }

  lemma UpdateFails(m: Materializer, before: State, after: State, fault: bool, self: Actor,
                    event: Event, output: Task, prevVersion: nat, error: StoreError)
    requires Moved(before, after, self) && SameHandle(before, after, self)
    requires UpdateRefused(m, after, fault, event, output, prevVersion, error)
    ensures UpdateOutcome(m, before, after, fault, self, event, output, prevVersion, Err(error))
  {
  }

  lemma UpdateWorks(m: Materializer, before: State, after: State, self: Actor,
                    event: Event, output: Task, prevVersion: nat, task: Task)
    requires Committed(before, after, self, event, |after.log|) && 1 <= prevVersion && prevVersion + 1 == |after.log|
    requires Apply(after.log[prevVersion - 1], event) == Ok(task) && after.log[prevVersion] == task
    requires self in after.handles && after.handles[self] == Handle(output, |after.log|)
    ensures UpdateOutcome(m, before, after, false, self, event, output, prevVersion, Ok(|after.log|))
  {
  }

  class TaskStore {
    const m: Materializer
    /** What the other actors do before the n-th operation. */
    const rivals: nat -> seq<Step>
    /** Whether the n-th operation fails for a reason of its own. */
    const faults: nat -> bool
    var state: State
    var turn: nat
    /** All steps so far: the store is always in a state that the transition system reaches. */
    ghost var trace: seq<Step>

    ghost predicate Valid()
      reads this
    {
      state == After(m, START, trace) && Inv(m, state)
    }

    constructor (m: Materializer, rivals: nat -> seq<Step>, faults: nat -> bool)
      ensures Valid() && state == START && this.m == m && this.rivals == rivals && this.faults == faults
    {
      this.m, this.rivals, this.faults := m, rivals, faults;
      state, turn, trace := START, 0, [];
    }

    /** An operation since then has failed for a reason of its own. */
    ghost predicate Faulted(since: nat)
      reads this
    {
      exists n :: since < n <= turn && faults(n)
    }

    method Others(self: Actor)
      requires Valid()
      modifies this
      ensures Valid() && Moved(old(state), state, self) && SameHandle(old(state), state, self)
      ensures turn == old(turn) + 1
    {
      hide Inv, After, Next, By;
      var steps := rivals(turn);
      turn := turn + 1;
      for i := 0 to |steps|
        invariant Valid() && Moved(old(state), state, self) && SameHandle(old(state), state, self)
        invariant turn == old(turn) + 1
      {
        if steps[i].actor != self {
          OtherStep(m, trace, state, steps[i], self);
          state, trace := Next(m, state, steps[i]), trace + [steps[i]];
        }
      }
    }

    /** The latest task and its version. */
    method Get(self: Actor) returns (r: Result<Handle, StoreError>)
      requires Valid()
      modifies this
      ensures Valid() && Moved(old(state), state, self) && SameHandle(old(state), state, self)
      ensures r.Ok? ==> state.log != [] && r.value == Handle(state.log[|state.log| - 1], |state.log|)
      ensures turn == old(turn) + 1 && (r.Ok? <==> !faults(turn) && state.log != [])
      ensures r.Err? ==> r.error == if faults(turn) then Unavailable else NotFound
    {
      Others(self);
      if faults(turn) {
        return Err(Unavailable);
      }
      if state.log == [] {
        return Err(NotFound);
      }
      return Ok(Handle(state.log[|state.log| - 1], |state.log|));
    }

    method Create(self: Actor, task: Task) returns (r: Result<nat, StoreError>)
      requires Valid()
      modifies this
      ensures Valid()
      ensures r.Err? ==> Moved(old(state), state, self)
      ensures r.Err? ==> (r.error == Unavailable && faults(turn)) || (r.error == AlreadyExists && state.log != [])
      ensures turn == old(turn) + 1
      ensures r.Ok? ==> Committed(old(state), state, self, TaskEvent(task), r.value) && state.log[r.value - 1] == task
      ensures r.Ok? ==> self in state.handles && state.handles[self] == Handle(task, r.value)
    {
      Others(self);
      if faults(turn) {
        return Err(Unavailable);
      }
      if state.log != [] {
        return Err(AlreadyExists);
      }
      ghost var before, step := state, Step.Create(self, task);
      AfterSnoc(m, START, trace, step);
      InvKept(m, state, step);
      BySnoc(state.commits, Commit(self, TaskEvent(task)), self);
      state, trace := Next(m, state, Step.Create(self, task)), trace + [step];
      MovedThenCommitted(old(state), before, state, self, TaskEvent(task), 1);
      return Ok(1);
    }

    method Write(self: Actor, event: Event, output: Task, task: Task)
      requires Valid() && self in state.handles && state.handles[self].version == |state.log|
      requires m.Materialize(state.handles[self].tracked, event) == Some(output)
      requires m.Kept(state.log[|state.log| - 1], event, output) == Some(task)
      requires event.MessageEvent? ==> !HasMessage(state.log[|state.log| - 1].history, event.message.id)
      modifies this
      ensures Valid() && state.log == old(state.log) + [task] && turn == old(turn)
      ensures Committed(old(state), state, self, event, |state.log|)
      ensures Apply(old(state.log)[|old(state.log)| - 1], event) == Ok(task)
      ensures self in state.handles && state.handles[self] == Handle(output, |state.log|)
    {
      hide Apply, Inv, After, Committed, HasMessage, StepFor, By;
      CommitStep(m, trace, state, self, event, output, task);
      var next := State(state.log + [task], state.commits + [Commit(self, event)],
                        state.handles[self := Handle(output, |state.log| + 1)]);
      ghost var longer := trace + [StepFor(self, event)];
      assert next == After(m, START, longer) && Inv(m, next) && Committed(state, next, self, event, |next.log|);
      state, trace := next, longer;
    }

    /** The check of `PrevVersion` and the write are one atomic step. */
    method Update(self: Actor, event: Event, output: Task, prevVersion: nat) returns (r: Result<nat, StoreError>)
      requires Valid() && self in state.handles && state.handles[self].version == prevVersion
      requires m.Materialize(state.handles[self].tracked, event) == Some(output)
      requires event.MessageEvent? ==> !HasMessage(state.log[prevVersion - 1].history, event.message.id)
      modifies this
      ensures Valid() && turn == old(turn) + 1
      ensures UpdateOutcome(m, old(state), state, faults(turn), self, event, output, prevVersion, r)
    {
      HandleKnown(m, state, self);
      hide After, Inv, By, Apply, HasMessage, UpdateOutcome;
      ghost var start := state;
      Others(self);
      HandleKnown(m, state, self);
      if faults(turn) {
        UpdateFails(m, start, state, true, self, event, output, prevVersion, Unavailable);
        return Err(Unavailable);
      }
      if state.log == [] {
        return Err(NotFound);
      }
      if prevVersion != 0 && prevVersion != |state.log| {
        UpdateFails(m, start, state, false, self, event, output, prevVersion, Conflict);
        return Err(Conflict);
      }
      ghost var before := state;
      var kept := m.Kept(state.log[|state.log| - 1], event, output);
      if kept.None? {
        UpdateFails(m, start, state, false, self, event, output, prevVersion, NotKept);
        return Err(NotKept);
      }
      Write(self, event, output, kept.value);
      MovedThenCommitted(start, before, state, self, event, |state.log|);
      UpdateWorks(m, start, state, self, event, output, prevVersion, kept.value);
      return Ok(|state.log|);
    }

    /** The actor takes over a version that it has read. */
    method Track(self: Actor, version: nat)
      requires Valid() && 1 <= version <= |state.log|
      modifies this
      ensures Valid() && state.log == old(state.log) && state.commits == old(state.commits) && turn == old(turn)
      ensures self in state.handles && state.handles[self] == Handle(state.log[version - 1], version)
    {
      var step := Step.Track(self, version);
      AfterSnoc(m, START, trace, step);
      InvKept(m, state, step);
      state, trace := Next(m, state, step), trace + [step];
    }
  }

  ghost function StepFor(a: Actor, e: Event): Step {
    if e.MessageEvent? then Append(a, e.message) else Update(a, e)
  }

  lemma StepStores(m: Materializer, s: State, a: Actor, e: Event, output: Task)
    requires Inv(m, s) && a in s.handles && s.handles[a].version == |s.log|
    requires m.Materialize(s.handles[a].tracked, e) == Some(output)
    requires m.Kept(s.log[|s.log| - 1], e, output).Some?
    requires e.MessageEvent? ==> !HasMessage(s.log[|s.log| - 1].history, e.message.id)
    ensures TryCommit(m, s, a, e) ==
            Ok(State(s.log + [m.Kept(s.log[|s.log| - 1], e, output).value], s.commits + [Commit(a, e)],
                     s.handles[a := Handle(output, |s.log| + 1)]))
    ensures Next(m, s, StepFor(a, e)) == TryCommit(m, s, a, e).value
  {
    hide Apply, HasMessage;
  }

  /** Writing the materialized task is a step of the transition system. */
  lemma CommitStep(m: Materializer, trace: seq<Step>, s: State, a: Actor, e: Event, output: Task, kept: Task)
    requires s == After(m, START, trace) && Inv(m, s) && a in s.handles && s.handles[a].version == |s.log|
    requires m.Materialize(s.handles[a].tracked, e) == Some(output)
    requires m.Kept(s.log[|s.log| - 1], e, output) == Some(kept)
    requires e.MessageEvent? ==> !HasMessage(s.log[|s.log| - 1].history, e.message.id)
    ensures var next := State(s.log + [kept], s.commits + [Commit(a, e)], s.handles[a := Handle(output, |s.log| + 1)]);
            && next == After(m, START, trace + [StepFor(a, e)])
            && Inv(m, next)
            && Apply(s.log[|s.log| - 1], e) == Ok(kept)
            && Committed(s, next, a, e, |next.log|)
  {
    hide *;
    StepStores(m, s, a, e, output);
    AfterSnoc(m, START, trace, StepFor(a, e));
    InvKept(m, s, StepFor(a, e));
    CommitApplies(m, s, a, e);
    HandleKnown(m, s, a);
    var next := State(s.log + [kept], s.commits + [Commit(a, e)], s.handles[a := Handle(output, |s.log| + 1)]);
    OneCommit(s, next, a, e, kept);
  }

  lemma OneCommit(s: State, next: State, a: Actor, e: Event, kept: Task)
    requires |s.log| == |s.commits| && next.log == s.log + [kept] && next.commits == s.commits + [Commit(a, e)]
    ensures Committed(s, next, a, e, |next.log|) && next.log[|s.log|] == kept
  {
    hide By;
    BySnoc(s.commits, Commit(a, e), a);
  }

  lemma CommittedVersion(before: State, after: State, self: Actor, e: Event, version: nat)
    requires Committed(before, after, self, e, version)
    ensures before.log <= after.log && |before.log| < version <= |after.log|
  {
  }

  // ---- The update manager ----

  function StateOf(event: Event, state: TaskState): TaskState {
    match event
    case TaskEvent(task) => task.status.state
    case StatusEvent(_, _, status, _) => status.state
    case _ => state
  }

  lemma StateApplied(t: Task, e: Event)
    ensures Patch.Apply(t, e).Ok? ==> Patch.Apply(t, e).value.status.state == StateOf(e, t.status.state)
  {
    hide IndexOf, Recorded;
  }

  datatype ProcessError =
    | InvalidResponse | WrongIds | EmptyArtifact | NothingTracked | AlreadyTerminal(state: TaskState)
    | StoreFailed(cause: StoreError) | MovedTo(state: TaskState) | TooManyAttempts
    | ParallelExecution | PushFailed
  {
    /** `errors.Is(err, ErrConcurrentModification)` */
    predicate LostRace() {
      this == StoreFailed(Conflict) || MovedTo? || TooManyAttempts?
    }
  }

  const MAX_CANCELATION_ATTEMPTS := 10

  predicate IsCancelation(event: Event) {
    event.StatusEvent? && event.status.state.Canceled?
  }

  /** Another actor has canceled the task, which is the latest version. */
  ghost predicate CanceledMeanwhile(s: State, event: Event, version: nat) {
    && event.StatusEvent? && event.status.state.Canceled?
    && 0 < version == |s.log| && s.log[version - 1].status.state.Canceled?
  }

  /** The latest version is terminal. */
  ghost predicate EndedAs(s: State, state: TaskState) {
    s.log != [] && state.Terminal() && s.log[|s.log| - 1].status.state == state
  }

  /** The status was committed, or the cancelation of another actor stands in for it. */
  ghost predicate StatusStored(before: State, after: State, self: Actor, event: Event, version: nat, state: TaskState) {
    || (Committed(before, after, self, event, version) && state == StateOf(event, state))
    || (Moved(before, after, self) && CanceledMeanwhile(after, event, version) && state.Canceled?)
  }

  lemma StatusStoredItself(s0: State, s1: State, s2: State, self: Actor, event: Event, version: nat, state: TaskState)
    requires Moved(s0, s1, self) && Committed(s1, s2, self, event, version)
    requires event.StatusEvent? && state == event.status.state
    ensures StatusStored(s0, s2, self, event, version, state)
  {
    MovedThenCommitted(s0, s1, s2, self, event, version);
  }

  lemma NothingMoved(s: State, self: Actor)
    ensures Moved(s, s, self)
  {
  }

  lemma NothingCommitted(s0: State, s1: State, s2: State, self: Actor)
    requires Moved(s0, s1, self) && s2.log == s1.log && s2.commits == s1.commits
    ensures Moved(s0, s2, self)
  {
  }

  lemma MovedTwice(s0: State, s1: State, s2: State, self: Actor)
    requires Moved(s0, s1, self) && Moved(s1, s2, self)
    ensures Moved(s0, s2, self)
  {
  }

  lemma StatusFound(s0: State, s1: State, s2: State, self: Actor, event: Event, version: nat, state: TaskState)
    requires Moved(s0, s1, self) && Moved(s1, s2, self)
    ensures StatusStored(s1, s2, self, event, version, state) ==> StatusStored(s0, s2, self, event, version, state)
  {
    if Committed(s1, s2, self, event, version) {
      MovedThenCommitted(s0, s1, s2, self, event, version);
    }
  }

  lemma StatusStoredByOther(s0: State, s1: State, self: Actor, event: Event)
    requires Moved(s0, s1, self) && IsCancelation(event)
    requires s1.log != [] && s1.log[|s1.log| - 1].status.state.Canceled?
    ensures StatusStored(s0, s1, self, event, |s1.log|, Canceled)
  {
  }

  /** Why the manager rejects an event, given what it tracked before. */
  ghost predicate Justified(m: Materializer, tracked: Option<Task>, version: nat, state: TaskState, ownIds: bool,
                            s: State, faulted: bool, event: Event, same: bool, error: ProcessError) {
    match error
    case InvalidResponse => if event.MessageEvent? then tracked.Some? else state.Terminal() && !same
    case WrongIds => !event.MessageEvent? && !ownIds
    case EmptyArtifact => event.ArtifactEvent? && event.artifact.parts == []
    case NothingTracked => tracked.None? && !event.TaskEvent?
    case MovedTo(ended) => IsCancelation(event) && tracked.Some? && version < |s.log|
    case TooManyAttempts => IsCancelation(event) && tracked.Some? && version + 10 <= |s.log|
    case StoreFailed(Conflict) => !IsCancelation(event) && tracked.Some? && version < |s.log|
    case StoreFailed(AlreadyExists) => event.TaskEvent? && tracked.None? && s.log != []
    case StoreFailed(NotApplicable) =>
      tracked.Some? && (m.Materialize(tracked.value, event).None? || IsCancelation(event))
    case StoreFailed(NotKept) => tracked.Some? && m.Partial?
    case StoreFailed(Unavailable) => faulted
    case _ => false
  }

  lemma RaceWasLost(m: Materializer, tracked: Option<Task>, version: nat, state: TaskState, ownIds: bool, s: State,
                    faulted: bool, event: Event, same: bool, error: ProcessError)
    requires Justified(m, tracked, version, state, ownIds, s, faulted, event, same, error) && error.LostRace()
    ensures version < |s.log|
  {
  }

  lemma JustifiedLater(m: Materializer, tracked: Option<Task>, version: nat, state: TaskState, ownIds: bool, s: State,
                       faulted: bool, event: Event, same: bool, error: ProcessError, later: State, faultedLater: bool)
    requires Justified(m, tracked, version, state, ownIds, s, faulted, event, same, error)
    requires s.log <= later.log && (faulted ==> faultedLater)
    ensures Justified(m, tracked, version, state, ownIds, later, faultedLater, event, same, error)
  {
  }

  /** The version is the one before it with the failed state at the given time, and no message. */
  ghost predicate HasFailed(before: Task, after: Task, now: int) {
    && after.status == Status(TaskState.Failed, None, Some(now))
    && after.history == Archived(before.history, before.status)
    && after.(status := before.status, history := before.history) == before
  }

  /** A task that has not ended can be moved to the failed state under its own IDs, and only under them. */
  lemma FailedEventApplies(t: Task, taskId: string, contextId: string, now: int)
    ensures var e := StatusEvent(taskId, contextId, Status(TaskState.Failed, None, Some(now)), map[]);
            && (Patch.Apply(t, e).Ok? <==> !t.Terminal() && t.id == taskId && t.contextId == contextId)
            && (Patch.Apply(t, e).Ok? ==> HasFailed(t, Patch.Apply(t, e).value, now))
  {
    assert t.metadata + map[] == t.metadata;
  }

  class Manager {
    const store: TaskStore
    const self: Actor
    const taskId: string
    const contextId: string
    /** The task that the manager was created with. */
    const initTask: Option<Task>
    var tracked: Option<Task>
    var state: TaskState
    var version: nat

    ghost predicate Valid()
      reads this, store
    {
      && store.Valid()
      && (tracked.Some? ==>
            && self in store.state.handles
            && store.state.handles[self] == Handle(tracked.value, version)
            && 1 <= version <= |store.state.log|
            && (store.m.Full? ==> tracked.value == store.state.log[version - 1] && state == tracked.value.status.state))
      && (tracked.None? ==> version == 0 && state.Unspecified?)
    }

    constructor (store: TaskStore, self: Actor, taskId: string, contextId: string, task: Option<Handle>)
      requires store.Valid()
      requires task.Some? ==> self in store.state.handles && store.state.handles[self] == task.value
      ensures Valid() && this.store == store && this.self == self
      ensures this.taskId == taskId && this.contextId == contextId
      ensures task.Some? ==> initTask == tracked == Some(task.value.tracked) && version == task.value.version
      ensures task.Some? ==> state == task.value.tracked.status.state
      ensures task.None? ==> initTask == tracked == None
    {
      this.store, this.self, this.taskId, this.contextId := store, self, taskId, contextId;
      initTask := if task.Some? then Some(task.value.tracked) else None;
      tracked := if task.Some? then Some(task.value.tracked) else None;
      state := if task.Some? then task.value.tracked.status.state else Unspecified;
      version := if task.Some? then task.value.version else 0;
      if task.Some? {
        HandleKnown(store.m, store.state, self);
      }
    }

    /** Why the manager cannot store an event. */
    ghost predicate Refused(event: Event, error: ProcessError)
      reads this, store
    {
      match error
      case NothingTracked => tracked.None?
      case StoreFailed(NotApplicable) => tracked.Some? && store.m.Materialize(tracked.value, event).None?
      case StoreFailed(Unavailable) => store.faults(store.turn)
      case StoreFailed(Conflict) => tracked.Some? && version < |store.state.log|
      case StoreFailed(NotKept) =>
        && store.m.Partial? && tracked.Some? && 0 < version == |store.state.log|
        && Applied(store.state.log[version - 1], event).None?
      case _ => false
    }

    method InMemorySnapshot() returns (r: Option<Handle>)
      requires Valid()
      ensures r.Some? <==> tracked.Some? && store.m.Full?
      ensures r.Some? ==> 1 <= r.value.version == version <= |store.state.log|
      ensures r.Some? ==> r.value.tracked == store.state.log[r.value.version - 1]
    {
      if tracked.Some? && store.m.Full? {
        return Some(Handle(tracked.value, version));
      }
      return None;
    }

    method Create(task: Task) returns (r: Result<nat, ProcessError>)
      requires Valid() && tracked.None?
      modifies this, store
      ensures Valid()
      ensures r.Ok? ==> Committed(old(store.state), store.state, self, TaskEvent(task), r.value)
      ensures r.Ok? ==> tracked == Some(task) && version == r.value && state == task.status.state
      ensures r.Ok? ==> store.state.log[r.value - 1] == task
      ensures r.Err? ==> Moved(old(store.state), store.state, self) && unchanged(this)
      ensures r.Err? ==> || (r.error == StoreFailed(Unavailable) && store.faults(store.turn))
                         || (r.error == StoreFailed(AlreadyExists) && store.state.log != [])
      ensures store.turn > old(store.turn)
    {
      var created := store.Create(self, task);
      if created.Err? {
        return Err(StoreFailed(created.error));
      }
      tracked, version, state := Some(task), created.value, task.status.state;
      return Ok(created.value);
    }

    method Apply(event: Event) returns (r: Result<nat, ProcessError>)
      requires Valid() && !event.MessageEvent?
      modifies this, store
      ensures Valid()
      ensures r.Ok? ==> Committed(old(store.state), store.state, self, event, r.value)
      ensures r.Ok? ==> tracked.Some? && version == r.value == old(version) + 1 >= 2
      ensures r.Ok? ==> state == StateOf(event, old(state))
      ensures r.Ok? ==> Patch.Apply(store.state.log[version - 2], event) == Ok(store.state.log[version - 1])
      ensures r.Err? ==> Moved(old(store.state), store.state, self) && unchanged(this)
      ensures r.Err? ==> Refused(event, r.error)
      ensures store.turn >= old(store.turn)
      ensures r == Err(StoreFailed(Unavailable)) ==> store.turn > old(store.turn)
    {
      hide Inv, After, By, Patch.Apply, HasMessage, Committed, TaskStore.Valid;
      if tracked.None? {
        return Err(NothingTracked);
      }
      var output := store.m.Materialize(tracked.value, event);
      if output.None? {
        return Err(StoreFailed(NotApplicable));
      }
      var updated := store.Update(self, event, output.value, version);
      if updated.Err? {
        return Err(StoreFailed(updated.error));
      }
      StateApplied(store.state.log[version - 1], event);
      CommittedVersion(old(store.state), store.state, self, event, updated.value);
      state := StateOf(event, state);
      tracked, version := output, updated.value;
      return Ok(updated.value);
    }

    /** `track`, for a task that was read. */
    method Track(stored: Handle)
      requires Valid() && 1 <= stored.version <= |store.state.log|
      requires stored.tracked == store.state.log[stored.version - 1]
      modifies this, store
      ensures Valid() && store.state.log == old(store.state.log) && store.state.commits == old(store.state.commits)
      ensures tracked == Some(stored.tracked) && version == stored.version && state == stored.tracked.status.state
      ensures store.turn == old(store.turn)
    {
      store.Track(self, stored.version);
      tracked, version, state := Some(stored.tracked), stored.version, stored.tracked.status.state;
    }

    /** Takes over the state that the winner of a race has left, unless that ends the cancelation. */
    method Reload(event: Event) returns (r: Option<Result<nat, ProcessError>>)
      requires Valid() && tracked.Some? && IsCancelation(event) && version < |store.state.log|
      modifies this, store
      ensures Valid() && Moved(old(store.state), store.state, self) && tracked.Some?
      ensures version >= old(version) && (r.None? ==> version > old(version)) && |store.state.log| > old(version)
      ensures store.turn > old(store.turn)
      ensures r.Some? && r.value.Ok? ==>
                r.value.value == version && StatusStored(old(store.state), store.state, self, event, version, state)
      ensures r.Some? && r.value.Err? ==>
                || (r.value.error == StoreFailed(Unavailable) && store.faults(store.turn))
                || (r.value.error.MovedTo? && EndedAs(store.state, r.value.error.state)
                    && !r.value.error.state.Canceled?)
    {
      hide Inv, After, By, Patch.Apply, HasMessage, TaskStore.Valid, StatusStored;
      var stored := store.Get(self);
      ghost var before := store.state;
      if stored.Err? {
        return Some(Err(StoreFailed(stored.error)));
      }
      var found := stored.value.tracked.status.state;
      if found.Terminal() && !found.Canceled? {
        return Some(Err(MovedTo(found)));
      }
      Track(stored.value);
      NothingCommitted(old(store.state), before, store.state, self);
      if found.Canceled? {
        StatusStoredByOther(old(store.state), store.state, self, event);
        return Some(Ok(version));
      }
      return None;
    }

    /** Retries a cancelation that lost a race on the state that the winner left. */
    method UpdateStatus(event: Event) returns (r: Result<nat, ProcessError>)
      requires Valid() && event.StatusEvent?
      modifies this, store
      ensures Valid()
      ensures r.Ok? ==> tracked.Some? && r.value == version
      ensures r.Ok? ==> StatusStored(old(store.state), store.state, self, event, version, state)
      ensures r.Err? ==> Moved(old(store.state), store.state, self) && (tracked.None? <==> old(tracked.None?))
      ensures r.Err? ==>
                if r.error.MovedTo? then
                  event.status.state.Canceled? && EndedAs(store.state, r.error.state) && !r.error.state.Canceled?
                else if r.error.TooManyAttempts? then event.status.state.Canceled? && tracked.Some?
                else Refused(event, r.error) && (r.error.LostRace() ==> !event.status.state.Canceled?)
      ensures version >= old(version) && (r.Err? && !IsCancelation(event) ==> unchanged(this))
      ensures r.Err? && r.error.LostRace() ==> old(tracked.Some?) && old(version) < |store.state.log|
      ensures store.turn >= old(store.turn)
      ensures r == Err(StoreFailed(Unavailable)) ==> store.turn > old(store.turn)
      ensures r == Err(TooManyAttempts) ==> |store.state.log| >= old(version) + 10
    {
      hide Inv, After, By, Patch.Apply, HasMessage, TaskStore.Valid, Committed, StatusStored, Moved;
      NothingMoved(store.state, self);
      for attempt := 0 to MAX_CANCELATION_ATTEMPTS
        invariant Valid() && Moved(old(store.state), store.state, self)
        invariant (tracked.None? <==> old(tracked.None?)) && version >= old(version) + attempt
        invariant attempt > 0 ==> tracked.Some? && event.status.state.Canceled?
        invariant store.turn >= old(store.turn) && (attempt == 0 ==> unchanged(this))
      {
        ghost var before := store.state;
        r := Apply(event);
        if r.Ok? {
          StatusStoredItself(old(store.state), before, store.state, self, event, version, state);
          return;
        }
        MovedTwice(old(store.state), before, store.state, self);
        if !r.error.LostRace() || !event.status.state.Canceled? {
          return;
        }
        before := store.state;
        var reloaded := Reload(event);
        MovedTwice(old(store.state), before, store.state, self);
        if reloaded.Some? {
          StatusFound(old(store.state), before, store.state, self, event, version, state);
          return reloaded.value;
        }
      }
      return Err(TooManyAttempts);
    }

    function FailedEvent(now: int): Event {
      StatusEvent(taskId, contextId, Status(Failed, None, Some(now)), map[])
    }

    /** The task has the IDs that the manager was created for. */
    predicate Tracks(t: Task) {
      t.id == taskId && t.contextId == contextId
    }

    /** Why the task cannot be moved to the failed state: a running one always can, unless its IDs are
        not the manager's, the store fails or others were faster. */
    ghost predicate FailureRefused(now: int, error: ProcessError)
      reads this, store
    {
      if state.Terminal() then error == AlreadyTerminal(state)
      else
        && Refused(FailedEvent(now), error)
        && (error == StoreFailed(NotApplicable) && store.m.Full? ==> !Tracks(tracked.value))
        && (error == StoreFailed(NotKept) ==>
              !Tracks(store.state.log[version - 1]) || store.state.log[version - 1].Terminal())
    }

    method SetTaskFailed(now: int) returns (error: Option<ProcessError>)
      requires Valid()
      modifies this, store
      ensures Valid()
      ensures error.None? ==> tracked.Some? && Committed(old(store.state), store.state, self, FailedEvent(now), version)
      ensures error.None? ==> version >= 2 && HasFailed(store.state.log[version - 2], store.state.log[version - 1], now)
      ensures error.Some? ==> Moved(old(store.state), store.state, self) && unchanged(this)
      ensures error.Some? ==> FailureRefused(now, error.value)
      ensures store.turn >= old(store.turn)
    {
      hide Inv, After, By, Patch.Apply, HasMessage, TaskStore.Valid;
      if tracked.None? {
        return Some(NothingTracked);
      }
      if state.Terminal() {
        return Some(AlreadyTerminal(state));
      }
      FailedEventApplies(tracked.value, taskId, contextId, now);
      var applied := Apply(FailedEvent(now));
      if applied.Err? {
        if applied.error == StoreFailed(NotKept) {
          FailedEventApplies(store.state.log[version - 1], taskId, contextId, now);
        }
        return Some(applied.error);
      }
      FailedEventApplies(store.state.log[version - 2], taskId, contextId, now);
      return None;
    }

    predicate OwnIds(event: Event) {
      event.TaskId() == taskId && event.ContextId() == contextId
    }

    /** `same` says that the event is the very task that the manager was created with. */
    method Process(event: Event, same: bool) returns (r: Result<nat, ProcessError>)
      requires Valid() && (same ==> initTask.Some? && event == TaskEvent(initTask.value))
      modifies this, store
      ensures Valid()
      ensures r.Err? ==> Moved(old(store.state), store.state, self)
      ensures r.Err? ==>
                Justified(store.m, old(tracked), old(version), old(state),
                          event.TaskId() == taskId && event.ContextId() == contextId, store.state,
                          store.Faulted(old(store.turn)), event, same, r.error)
      ensures store.turn >= old(store.turn)
      ensures event.MessageEvent? ==> store.state == old(store.state) && unchanged(this) && (r.Ok? <==> tracked.None?)
      ensures !event.MessageEvent? && old(state).Terminal() ==>
                store.state == old(store.state) && unchanged(this) && (r.Ok? <==> same)
      ensures !event.MessageEvent? && r.Ok? ==> tracked.Some? && r.value == version
      ensures !event.MessageEvent? && r.Ok? && !old(state).Terminal() ==>
                && event.TaskId() == taskId && event.ContextId() == contextId
                && (event.ArtifactEvent? ==> event.artifact.parts != [])
      ensures !event.MessageEvent? && r.Ok? && !old(state).Terminal() ==>
                || (&& Committed(old(store.state), store.state, self, event, version)
                    && state == StateOf(event, old(state)))
                || StatusStored(old(store.state), store.state, self, event, version, state)
    {
      hide Inv, After, By, Patch.Apply, HasMessage, TaskStore.Valid, Committed, StatusStored;
      if event.MessageEvent? {
        return if tracked.Some? then Err(InvalidResponse) else Ok(0);
      }
      if state.Terminal() {
        return if same then Ok(version) else Err(InvalidResponse);
      }
      if !OwnIds(event) {
        return Err(WrongIds);
      }
      match event
      case TaskEvent(task) =>
        if tracked.None? {
          r := Create(task);
        } else {
          r := Apply(event);
        }
      case ArtifactEvent(_, _, artifact, _, _, _) =>
        if artifact.parts == [] {
          return Err(ProcessError.EmptyArtifact);
        }
        r := Apply(event);
      case StatusEvent(_, _, _, _) =>
        r := UpdateStatus(event);
    }
  }

  // ---- The processor ----

  datatype SendResult = TaskResult(task: Task) | MessageResult(message: Message)

  /** Without an execution result, processing continues. */
  datatype ProcessorResult = ProcessorResult(
    executionResult: Option<SendResult>, eventOverride: Option<Task>, taskVersion: nat,
    failureCause: Option<ProcessError>)

  /** The result is a stored version. */
  ghost predicate IsVersion(s: State, r: ProcessorResult) {
    && 1 <= r.taskVersion <= |s.log|
    && r.executionResult == Some(TaskResult(s.log[r.taskVersion - 1]))
  }

  /** The result is the stored terminal task, which is the latest version. */
  ghost predicate IsStoredEnd(s: State, r: ProcessorResult) {
    IsVersion(s, r) && r.taskVersion == |s.log| && s.log[r.taskVersion - 1].Terminal()
  }

  /** Subscribers get the result in place of the event. */
  predicate Overridden(r: ProcessorResult) {
    r.eventOverride.Some? && r.executionResult == Some(TaskResult(r.eventOverride.value))
  }

  /** What the actor itself has stored meanwhile. */
  ghost predicate Own(before: State, after: State, self: Actor, events: seq<Event>) {
    && before.log <= after.log && before.commits <= after.commits
    && By(after.commits, self) == By(before.commits, self) + events
  }

  lemma MovedMeansNone(before: State, after: State, self: Actor)
    requires Moved(before, after, self)
    ensures Own(before, after, self, [])
  {
  }

  lemma CommittedMeansOne(before: State, after: State, self: Actor, e: Event, version: nat)
    requires Committed(before, after, self, e, version)
    ensures Own(before, after, self, [e])
  {
  }

  lemma OwnThen(s0: State, s1: State, s2: State, self: Actor, first: seq<Event>, second: seq<Event>)
    requires Own(s0, s1, self, first) && Own(s1, s2, self, second)
    ensures Own(s0, s2, self, first + second)
  {
    assert By(s0.commits, self) + first + second == By(s0.commits, self) + (first + second);
  }

  /** Whether the event was stored. */
  ghost function OwnSoFar(s0: State, s1: State, self: Actor, event: Event, version: nat): (own: seq<Event>)
    ensures own == [event] || own == []
    ensures Committed(s0, s1, self, event, version) ==> own == [event] && Own(s0, s1, self, own)
    ensures s0 == s1 || Moved(s0, s1, self) ==> own == [] && Own(s0, s1, self, own)
  {
    if Committed(s0, s1, self, event, version) then [event] else []
  }

  lemma OnlyLonger(s0: State, s1: State, self: Actor)
    requires Moved(s0, s1, self)
    ensures s0.log <= s1.log
  {
  }

  lemma OwnLonger(s0: State, s1: State, self: Actor, own: seq<Event>, other: seq<Event>)
    requires Own(s0, s1, self, own) || Own(s0, s1, self, other)
    ensures s0.log <= s1.log
  {
  }

  lemma OwnAlso(s0: State, s1: State, s2: State, self: Actor, own: seq<Event>, e: Event)
    requires Own(s0, s1, self, own)
    ensures Own(s1, s2, self, []) ==> Own(s0, s2, self, own)
    ensures Own(s1, s2, self, [e]) ==> Own(s0, s2, self, own + [e])
    ensures own == [] ==> own + [e] == [e]
    ensures |own| == 1 ==> own + [e] == [own[0], e]
  {
    if Own(s1, s2, self, []) {
      OwnThen(s0, s1, s2, self, own, []);
      assert own + [] == own;
    }
    if Own(s1, s2, self, [e]) {
      OwnThen(s0, s1, s2, self, own, [e]);
    }
  }

  lemma VersionStays(s0: State, s1: State, self: Actor, version: nat)
    requires Moved(s0, s1, self) && 1 <= version <= |s0.log|
    ensures version <= |s1.log| && s1.log[version - 1] == s0.log[version - 1]
  {
  }

  lemma EndIsLatest(m: Materializer, s: State, version: nat, r: ProcessorResult)
    requires Inv(m, s) && 1 <= version <= |s.log| && s.log[version - 1].Terminal()
    requires IsVersion(s, r) && r.taskVersion >= version
    ensures IsStoredEnd(s, r) && r.taskVersion == version
  {
    TerminalIsLast(m, s, version - 1);
  }

  ghost predicate Unfinished(s: State) {
    s.log != [] && !s.log[|s.log| - 1].Terminal()
  }

  /** What a successful answer to an event means. `again` says that the initial task was emitted once
      more after the end, which is accepted without storing anything. */
  ghost predicate Answers(m: Materializer, s0: State, s1: State, self: Actor, event: Event, again: bool,
                          pushFails: bool, r: ProcessorResult) {
    // a failure ends with the stored terminal task, and a lost race stores nothing
    && (r.failureCause.Some? ==>
          && IsStoredEnd(s1, r) && Overridden(r)
          && (r.failureCause.value.PushFailed? ==> pushFails)
          && (r.failureCause.value.LostRace() ==> Own(s0, s1, self, [])))
    && (r.failureCause.None? ==> !pushFails)
    // a message is the result itself
    && (event.MessageEvent? && r.failureCause.None? ==>
          r.executionResult == Some(MessageResult(event.message)) && s1 == s0)
    && (!event.MessageEvent? ==>
          // any result is a stored version; there is one exactly for final events and failures
          && (r.executionResult.Some? ==> IsVersion(s1, r))
          && (r.failureCause.None? ==> (r.executionResult.Some? <==> event.Final()))
          // processing continues only with the version of the stored event
          && (!again && r.executionResult.None? ==> Committed(s0, s1, self, event, r.taskVersion))
          // without the event of this call in the store, the result is the stored terminal task
          && (!again ==> Own(s0, s1, self, [event]) || IsStoredEnd(s1, r))
          && (again && m.Full? && r.executionResult.Some? ==> IsStoredEnd(s1, r)))
  }

  lemma FailureAnswers(m: Materializer, s0: State, s1: State, self: Actor, event: Event, again: bool, pushFails: bool,
                       r: ProcessorResult)
    requires IsStoredEnd(s1, r) && Overridden(r) && r.failureCause.Some?
    requires r.failureCause.value.PushFailed? ==> pushFails
    requires r.failureCause.value.LostRace() ==> Own(s0, s1, self, [])
    ensures Answers(m, s0, s1, self, event, again, pushFails, r)
  {
  }

  lemma MessageAnswers(m: Materializer, s: State, self: Actor, event: Event, again: bool)
    requires event.MessageEvent?
    ensures Answers(m, s, s, self, event, again, false,
                    ProcessorResult(Some(MessageResult(event.message)), None, 0, None))
  {
  }

  /** What is known once the manager has accepted an event: it was stored, or the stored task has ended. */
  ghost predicate Accepted(m: Materializer, s0: State, s1: State, self: Actor, event: Event, version: nat,
                           again: bool) {
    && 1 <= version <= |s1.log|
    && (again ==> s1 == s0 && (m.Full? ==> s1.log[version - 1].Terminal()))
    && (!again ==>
          || Committed(s0, s1, self, event, version)
          || (Moved(s0, s1, self) && event.Final() && s1.log[version - 1].Terminal()))
  }

  lemma AcceptedEvent(m: Materializer, s0: State, s1: State, self: Actor, event: Event, version: nat, state: TaskState,
                      again: bool)
    requires 1 <= version <= |s1.log|
    requires again ==> s1 == s0 && (m.Full? ==> s1.log[version - 1].Terminal())
    requires !again ==> Committed(s0, s1, self, event, version) || StatusStored(s0, s1, self, event, version, state)
    ensures Accepted(m, s0, s1, self, event, version, again)
  {
  }

  lemma AcceptedAnswers(m: Materializer, s0: State, s1: State, s2: State, self: Actor, event: Event, version: nat,
                        again: bool, r: ProcessorResult)
    requires Inv(m, s2) && Accepted(m, s0, s1, self, event, version, again) && Moved(s1, s2, self)
    requires !event.MessageEvent? && r.failureCause.None?
    requires if event.Final() then IsVersion(s2, r) && r.taskVersion >= version
             else r == ProcessorResult(None, None, version, None)
    ensures Answers(m, s0, s2, self, event, again, false, r)
  {
    assert |s2.commits| == |s2.log|;
    hide By;
    VersionStays(s1, s2, self, version);
    if s2.log[version - 1].Terminal() && event.Final() {
      EndIsLatest(m, s2, version, r);
    }
    if Committed(s0, s1, self, event, version) {
      CommittedThenMoved(s0, s1, s2, self, event, version);
    }
  }

  lemma CommittedThenMoved(s0: State, s1: State, s2: State, self: Actor, event: Event, version: nat)
    requires Committed(s0, s1, self, event, version) && Moved(s1, s2, self) && |s2.commits| == |s2.log|
    ensures Committed(s0, s2, self, event, version) && Own(s0, s2, self, [event])
  {
  }

  class Processor {
    const manager: Manager

    constructor (manager: Manager)
      ensures this.manager == manager
    {
      this.manager := manager;
    }

    method LoadResult() returns (r: Result<ProcessorResult, ProcessError>)
      requires manager.Valid() && manager.tracked.Some?
      modifies manager.store
      ensures manager.Valid() && Moved(old(manager.store.state), manager.store.state, manager.self)
      ensures r.Ok? ==> IsVersion(manager.store.state, r.value) && r.value.taskVersion >= manager.version
      ensures r.Ok? ==> r.value.eventOverride.None? && r.value.failureCause.None?
      ensures r.Err? ==> r.error == StoreFailed(Unavailable) && manager.store.faults(manager.store.turn)
      ensures manager.store.turn >= old(manager.store.turn)
    {
      hide Inv, After, By, TaskStore.Valid;
      var snapshot := manager.InMemorySnapshot();
      if snapshot.Some? {
        return Ok(ProcessorResult(Some(TaskResult(snapshot.value.tracked)), None, snapshot.value.version, None));
      }
      var stored := manager.store.Get(manager.self);
      if stored.Err? {
        return Err(StoreFailed(stored.error));
      }
      return Ok(ProcessorResult(Some(TaskResult(stored.value.tracked)), None, stored.value.version, None));
    }

    ghost predicate FailureNotSet(now: int, error: ProcessError)
      reads manager, manager.store
    {
      || (error == StoreFailed(Unavailable) && manager.store.faults(manager.store.turn))
      || manager.FailureRefused(now, error)
    }

    /** Moves the task to the failed state and makes that the result. */
    method SetTaskFailed(cause: ProcessError, now: int) returns (r: Result<ProcessorResult, ProcessError>)
      requires manager.Valid()
      modifies manager, manager.store
      ensures manager.Valid()
      ensures || (r.Err? && Own(old(manager.store.state), manager.store.state, manager.self, []))
              || Own(old(manager.store.state), manager.store.state, manager.self, [manager.FailedEvent(now)])
      ensures r.Ok? ==> IsStoredEnd(manager.store.state, r.value) && EndedAs(manager.store.state, Failed)
      ensures r.Ok? ==> r.value.failureCause == Some(cause) && Overridden(r.value)
      ensures r.Err? ==> FailureNotSet(now, r.error)
      ensures manager.store.turn >= old(manager.store.turn)
    {
      hide Inv, After, By, Patch.Apply, Own, Committed, Moved;
      ghost var s0 := manager.store.state;
      var failed := manager.SetTaskFailed(now);
      ghost var s1 := manager.store.state;
      if failed.Some? {
        MovedMeansNone(s0, s1, manager.self);
        return Err(failed.value);
      }
      CommittedMeansOne(s0, s1, manager.self, manager.FailedEvent(now), manager.version);
      r := LoadResult();
      MovedMeansNone(s1, manager.store.state, manager.self);
      OwnThen(s0, s1, manager.store.state, manager.self, [manager.FailedEvent(now)], []);
      assert [manager.FailedEvent(now)] + [] == [manager.FailedEvent(now)];
      if r.Ok? {
        VersionStays(s1, manager.store.state, manager.self, manager.version);
        EndIsLatest(manager.store.m, manager.store.state, manager.version, r.value);
        r := Ok(r.value.(eventOverride := Some(r.value.executionResult.value.task), failureCause := Some(cause)));
      }
    }

    /** `ProcessError`: a failure of the agent or of the queue. */
    method FailExecution(cause: ProcessError, now: int) returns (r: Result<SendResult, ProcessError>)
      requires manager.Valid()
      modifies manager, manager.store
      ensures manager.Valid()
      ensures || (r.Err? && Own(old(manager.store.state), manager.store.state, manager.self, []))
              || Own(old(manager.store.state), manager.store.state, manager.self, [manager.FailedEvent(now)])
      ensures r.Err? ==> FailureNotSet(now, r.error)
      ensures r.Ok? ==> EndedAs(manager.store.state, Failed)
      ensures r.Ok? ==> r.value == TaskResult(manager.store.state.log[|manager.store.state.log| - 1])
    {
      hide Inv, After, By, Patch.Apply, Own, Committed, Moved;
      var failed := SetTaskFailed(cause, now);
      if failed.Err? {
        return Err(failed.error);
      }
      return Ok(failed.value.executionResult.value);
    }

    /** After a lost race: the stored task is the result if it has ended. */
    method ResolveConflict(cause: ProcessError) returns (r: Result<ProcessorResult, ProcessError>)
      requires manager.Valid() && manager.store.state.log != []
      modifies manager.store
      ensures manager.Valid() && Moved(old(manager.store.state), manager.store.state, manager.self)
      ensures r.Ok? ==>
                IsStoredEnd(manager.store.state, r.value) && Overridden(r.value) && r.value.failureCause == Some(cause)
      ensures r.Err? ==>
                || (r.error == StoreFailed(Unavailable) && manager.store.faults(manager.store.turn))
                || (r.error == ParallelExecution && Unfinished(manager.store.state))
      ensures manager.store.turn >= old(manager.store.turn)
    {
      hide Inv, After, By, TaskStore.Valid;
      var stored := manager.store.Get(manager.self);
      if stored.Err? {
        return Err(StoreFailed(stored.error));
      }
      var task := stored.value.tracked;
      if !task.Terminal() {
        return Err(ParallelExecution);
      }
      return Ok(ProcessorResult(Some(TaskResult(task)), Some(task), stored.value.version, Some(cause)));
    }

    /** After an accepted task event: notifications, and the result if the event is final. */
    method Conclude(event: Event, version: nat, pushFails: bool, now: int)
      returns (r: Result<ProcessorResult, ProcessError>)
      requires manager.Valid() && manager.tracked.Some? && manager.version == version
      modifies manager, manager.store
      ensures manager.Valid()
      ensures || Own(old(manager.store.state), manager.store.state, manager.self, [])
              || (pushFails
                  && Own(old(manager.store.state), manager.store.state, manager.self, [manager.FailedEvent(now)]))
      ensures r.Err? ==> FailureNotSet(now, r.error)
      ensures r.Ok? && pushFails ==>
                && IsStoredEnd(manager.store.state, r.value) && Overridden(r.value)
                && r.value.failureCause == Some(PushFailed)
      ensures r.Ok? && !pushFails ==>
                r.value.failureCause.None? && Moved(old(manager.store.state), manager.store.state, manager.self)
      ensures r.Ok? && !pushFails ==>
                if event.Final() then IsVersion(manager.store.state, r.value) && r.value.taskVersion >= version
                else r.value == ProcessorResult(None, None, version, None)
    {
      hide Inv, After, By, Patch.Apply, Own, Committed, Moved, TaskStore.Valid;
      ghost var start := manager.store.state;
      if pushFails {
        r := SetTaskFailed(PushFailed, now);
        return;
      }
      NothingMoved(start, manager.self);
      if !event.Final() {
        r := Ok(ProcessorResult(None, None, version, None));
      } else {
        r := LoadResult();
      }
      MovedMeansNone(start, manager.store.state, manager.self);
    }

    /** Processes one event of the agent. `pushFails` says whether a push notification fails.
        Only a stored event lets processing continue; a call that has not stored it ends with the
        stored terminal task or with an error. */
    method Process(event: Event, same: bool, pushFails: bool, now: int)
      returns (r: Result<ProcessorResult, ProcessError>)
      requires manager.Valid()
      requires same ==> manager.initTask.Some? && event == TaskEvent(manager.initTask.value)
      modifies manager, manager.store
      ensures manager.Valid()
      ensures || Own(old(manager.store.state), manager.store.state, manager.self, [])
              || Own(old(manager.store.state), manager.store.state, manager.self, [event])
              || Own(old(manager.store.state), manager.store.state, manager.self, [manager.FailedEvent(now)])
              || (pushFails
                  && Own(old(manager.store.state), manager.store.state, manager.self,
                         [event, manager.FailedEvent(now)]))
      ensures r.Err? ==>
                if r.error.ParallelExecution? then Unfinished(manager.store.state)
                else if r.error.PushFailed? then pushFails && event.MessageEvent?
                else FailureNotSet(now, r.error)
      ensures r.Ok? ==>
                Answers(manager.store.m, old(manager.store.state), manager.store.state, manager.self, event,
                        old(manager.state).Terminal() && same, pushFails, r.value)
      ensures r.Ok? && event.MessageEvent? && r.value.failureCause.None? ==> manager.tracked.None?
      ensures r.Ok? && r.value.failureCause.Some? && !r.value.failureCause.value.PushFailed? ==>
                Justified(manager.store.m, old(manager.tracked), old(manager.version), old(manager.state),
                          manager.OwnIds(event), manager.store.state,
                          manager.store.Faulted(old(manager.store.turn)), event, same, r.value.failureCause.value)
    {
      hide Inv, After, By, Patch.Apply, Own, Committed, Moved;
      hide Answers, Justified, StatusStored, IsStoredEnd, IsVersion, Overridden;
      ghost var m, self, s0, again :=
        manager.store.m, manager.self, manager.store.state, manager.state.Terminal() && same;
      var processed := manager.Process(event, same);
      ghost var s1 := manager.store.state;
      ghost var own := OwnSoFar(s0, s1, self, event, manager.version);
      ghost var faulted := manager.store.Faulted(old(manager.store.turn));
      if processed.Err? && processed.error.LostRace() {
        RaceWasLost(m, old(manager.tracked), old(manager.version), old(manager.state), manager.OwnIds(event), s1,
                    faulted, event, same, processed.error);
        r := ResolveConflict(processed.error);
        MovedMeansNone(s1, manager.store.state, self);
        OwnAlso(s0, s1, manager.store.state, self, [], event);
        OnlyLonger(s1, manager.store.state, self);
        JustifiedLater(m, old(manager.tracked), old(manager.version), old(manager.state), manager.OwnIds(event), s1,
                       faulted, event, same, processed.error, manager.store.state,
                       manager.store.Faulted(old(manager.store.turn)));
        if r.Ok? {
          FailureAnswers(m, s0, manager.store.state, self, event, again, pushFails, r.value);
        }
        return;
      }
      if processed.Err? {
        r := SetTaskFailed(processed.error, now);
        OwnAlso(s0, s1, manager.store.state, self, [], manager.FailedEvent(now));
        OwnLonger(s1, manager.store.state, self, [], [manager.FailedEvent(now)]);
        JustifiedLater(m, old(manager.tracked), old(manager.version), old(manager.state), manager.OwnIds(event), s1,
                       faulted, event, same, processed.error, manager.store.state,
                       manager.store.Faulted(old(manager.store.turn)));
        if r.Ok? {
          FailureAnswers(m, s0, manager.store.state, self, event, again, pushFails, r.value);
        }
        return;
      }
      if event.MessageEvent? {
        if pushFails {
          return Err(PushFailed);
        }
        r := Ok(ProcessorResult(Some(MessageResult(event.message)), None, 0, None));
        MessageAnswers(m, s0, self, event, again);
        return;
      }
      AcceptedEvent(m, s0, s1, self, event, manager.version, manager.state, again);
      ghost var version := manager.version;
      r := Conclude(event, processed.value, pushFails, now);
      OwnAlso(s0, s1, manager.store.state, self, own, manager.FailedEvent(now));
      if r.Ok? {
        if pushFails {
          FailureAnswers(m, s0, manager.store.state, self, event, again, pushFails, r.value);
        } else {
          AcceptedAnswers(m, s0, s1, manager.store.state, self, event, version, again, r.value);
        }
      }
    }
  }

  // ---- Starting an execution, or a cancelation ----

  /** The agent gets the full stored task; the manager tracks what the materializer made of it. */
  datatype ExecutionContext = ExecutionContext(
    storedTask: Option<Task>, taskId: string, contextId: string, task: Option<Handle>)

  datatype LoadError =
    | LoadFailed(cause: StoreError) | UpdateFailed(cause: StoreError)
    | OtherTaskId | OtherContextId | TaskEnded | NotCancelable

  function NewExecutionContext(tid: string, message: Message, newContextId: string): ExecutionContext {
    ExecutionContext(None, tid, if message.contextId == "" then newContextId else message.contextId, None)
  }

  /** Stores the message behind the version that was read. */
  method UpdateHistory(store: TaskStore, self: Actor, task: Task, version: nat, message: Message)
    returns (r: Result<Handle, StoreError>)
    requires store.Valid() && 1 <= version <= |store.state.log| && task == store.state.log[version - 1]
    requires !HasMessage(task.history, message.id)
    modifies store
    ensures store.Valid()
    ensures r.Err? ==> Moved(old(store.state), store.state, self)
    ensures r.Err? ==>
              !r.error.NotFound? && !r.error.AlreadyExists? && (r.error.Unavailable? ==> store.faults(store.turn))
    ensures r.Err? && r.error.Conflict? ==> version < |store.state.log|
    ensures r.Err? && r.error.NotApplicable? ==> store.m.Materialize(task, MessageEvent(message)).None?
    ensures r.Ok? ==> Committed(old(store.state), store.state, self, MessageEvent(message), r.value.version)
    ensures r.Ok? ==> r.value.version == version + 1 == |store.state.log|
    ensures r.Ok? ==> Apply(task, MessageEvent(message)) == Ok(store.state.log[version])
    ensures r.Ok? ==> store.m.Full? ==> r.value.tracked == store.state.log[version]
    ensures r.Ok? ==> self in store.state.handles && store.state.handles[self] == r.value
  {
    hide Inv, After, By, Patch.Apply, HasMessage, Committed, TaskStore.Valid;
    store.Track(self, version);
    ghost var tracked := store.state;
    var newTask := store.m.Materialize(task, MessageEvent(message));
    if newTask.None? {
      return Err(NotApplicable);
    }
    var updated := store.Update(self, MessageEvent(message), newTask.value, version);
    if updated.Err? {
      return Err(updated.error);
    }
    SameLogCommitted(old(store.state), tracked, store.state, self, MessageEvent(message), updated.value);
    return Ok(Handle(newTask.value, updated.value));
  }

  lemma SameLogCommitted(s0: State, s1: State, s2: State, self: Actor, e: Event, version: nat)
    requires s0.log == s1.log && s0.commits == s1.commits && Committed(s1, s2, self, e, version)
    ensures Committed(s0, s2, self, e, version)
  {
  }

  /** The actor has stored nothing, or the message as the given version. */
  ghost predicate MessageStored(before: State, after: State, self: Actor, message: Message, version: nat) {
    || Moved(before, after, self)
    || (&& Committed(before, after, self, MessageEvent(message), version) && version >= 2
        && Apply(after.log[version - 2], MessageEvent(message)) == Ok(after.log[version - 1]))
  }

  /** Why an execution cannot start. */
  ghost predicate LoadRefused(store: TaskStore, tid: string, message: Message, error: LoadError)
    reads store
  {
    var log := store.state.log;
    match error
    case LoadFailed(cause) =>
      if cause.NotFound? then log == [] && message.taskId != "" else cause.Unavailable? && store.faults(store.turn)
    case OtherTaskId => message.taskId != "" && message.taskId != tid
    case OtherContextId => log != [] && message.contextId != "" && message.contextId != log[|log| - 1].contextId
    case TaskEnded => log != [] && log[|log| - 1].Terminal()
    case UpdateFailed(cause) =>
      !cause.NotFound? && !cause.AlreadyExists? && (cause.Unavailable? ==> store.faults(store.turn))
    case NotCancelable => false
  }

  method LoadExecutionContext(store: TaskStore, self: Actor, tid: string, message: Message,
                              taskRetrySupported: bool, newContextId: string)
    returns (r: Result<ExecutionContext, LoadError>)
    requires store.Valid()
    modifies store
    ensures store.Valid()
    ensures r.Err? ==> Moved(old(store.state), store.state, self) && LoadRefused(store, tid, message, r.error)
    ensures r.Ok? && r.value.task.Some? ==>
              && r.value.storedTask.Some? && (message.taskId != "" ==> message.taskId == tid)
              && r.value.taskId == r.value.storedTask.value.id
              && r.value.contextId == r.value.storedTask.value.contextId
              && (message.contextId != "" ==> message.contextId == r.value.contextId)
    ensures r.Ok? && r.value.task.None? ==>
              && Moved(old(store.state), store.state, self)
              && r.value.storedTask.None? && r.value.taskId == tid
              && (message.contextId != "" ==> r.value.contextId == message.contextId)
              && (message.contextId == "" ==> r.value.contextId == newContextId)
              && message.taskId == "" && (taskRetrySupported ==> store.state.log == [])
    ensures r.Ok? && r.value.task.Some? ==>
              && 1 <= r.value.task.value.version <= |store.state.log|
              && r.value.storedTask == Some(store.state.log[r.value.task.value.version - 1])
              && HasMessage(r.value.storedTask.value.history, message.id) && !r.value.storedTask.value.Terminal()
              && self in store.state.handles && store.state.handles[self] == r.value.task.value
              && MessageStored(old(store.state), store.state, self, message, r.value.task.value.version)
  {
    hide Inv, After, By, Patch.Apply, HasMessage, Committed, TaskStore.Valid;
    if message.taskId == "" && !taskRetrySupported {
      return Ok(NewExecutionContext(tid, message, newContextId));
    }
    var loaded := store.Get(self);
    ghost var read := store.state;
    if message.taskId == "" && loaded == Err(NotFound) {
      return Ok(NewExecutionContext(tid, message, newContextId));
    }
    if loaded.Err? {
      return Err(LoadFailed(loaded.error));
    }
    var storedTask, lastVersion := loaded.value.tracked, loaded.value.version;
    if message.taskId != "" && message.taskId != tid {
      return Err(OtherTaskId);
    }
    if message.contextId != "" && message.contextId != storedTask.contextId {
      return Err(OtherContextId);
    }
    if storedTask.Terminal() {
      return Err(TaskEnded);
    }
    var trackedTask := storedTask;
    if !HasMessage(storedTask.history, message.id) {
      var updated := UpdateHistory(store, self, storedTask, lastVersion, message);
      if updated.Err? {
        return Err(UpdateFailed(updated.error));
      }
      trackedTask, lastVersion := updated.value.tracked, updated.value.version;
      MessageApplied(storedTask, message);
      CommittedVersion(read, store.state, self, MessageEvent(message), lastVersion);
      MovedThenCommitted(old(store.state), read, store.state, self, MessageEvent(message), lastVersion);
      storedTask := if store.m.Full? then trackedTask else Patch.Apply(storedTask, MessageEvent(message)).value;
    } else {
      store.Track(self, lastVersion);
    }
    return Ok(ExecutionContext(Some(storedTask), storedTask.id, storedTask.contextId,
                               Some(Handle(trackedTask, lastVersion))));
  }

  lemma MessageApplied(t: Task, message: Message)
    requires Patch.Apply(t, MessageEvent(message)).Ok?
    ensures var next := Patch.Apply(t, MessageEvent(message)).value;
            HasMessage(next.history, message.id) && !next.Terminal() && next.id == t.id && next.contextId == t.contextId
  {
    var next := Patch.Apply(t, MessageEvent(message)).value;
    assert next.history[|next.history| - 1] == message;
  }

  /** What a message with a push configuration asks for: nothing, or a configuration that the server
      does not support, cannot save or saves. */
  datatype PushConfig = NoPush | PushUnsupported | PushNotSaved | PushSaved

  datatype CreateError = NotLoaded(cause: LoadError) | PushNotSupported | SavingPushFailed

  /** The push configuration is looked at after the message was stored, so a refused one leaves it there. */
  method CreateExecutor(store: TaskStore, self: Actor, tid: string, message: Message,
                        taskRetrySupported: bool, newContextId: string, push: PushConfig)
    returns (r: Result<Processor, CreateError>, ghost context: Option<ExecutionContext>)
    requires store.Valid()
    modifies store
    ensures store.Valid()
    ensures context.None? ==> Moved(old(store.state), store.state, self) && r.Err? && r.error.NotLoaded?
    ensures context.Some? ==>
              match context.value.task
              case None => Moved(old(store.state), store.state, self)
              case Some(handle) =>
                && 1 <= handle.version <= |store.state.log|
                && context.value.storedTask == Some(store.state.log[handle.version - 1])
                && HasMessage(context.value.storedTask.value.history, message.id)
                && MessageStored(old(store.state), store.state, self, message, handle.version)
    ensures r.Err? ==>
              match r.error
              case NotLoaded(cause) => context.None? && LoadRefused(store, tid, message, cause)
              case PushNotSupported => context.Some? && push.PushUnsupported?
              case SavingPushFailed => context.Some? && push.PushNotSaved?
    ensures r.Ok? ==> context.Some? && (push.NoPush? || push.PushSaved?)
    ensures r.Ok? ==> fresh(r.value) && fresh(r.value.manager)
    ensures r.Ok? ==> r.value.manager.Valid() && r.value.manager.store == store && r.value.manager.self == self
    ensures r.Ok? ==> r.value.manager.initTask == r.value.manager.tracked
    ensures r.Ok? ==>
              match context.value.task
              case None => r.value.manager.tracked.None?
              case Some(handle) =>
                r.value.manager.tracked == Some(handle.tracked) && r.value.manager.version == handle.version
    ensures r.Ok? ==>
              r.value.manager.taskId == context.value.taskId && r.value.manager.contextId == context.value.contextId
  {
    hide Inv, After, By, Committed, HasMessage, LoadRefused, MessageStored, TaskStore.Valid;
    context := None;
    var loaded := LoadExecutionContext(store, self, tid, message, taskRetrySupported, newContextId);
    if loaded.Err? {
      return Err(NotLoaded(loaded.error)), None;
    }
    context := Some(loaded.value);
    if push.PushUnsupported? {
      return Err(PushNotSupported), context;
    }
    if push.PushNotSaved? {
      return Err(SavingPushFailed), context;
    }
    var manager := new Manager(store, self, loaded.value.taskId, loaded.value.contextId, loaded.value.task);
    var processor := new Processor(manager);
    r := Ok(processor);
  }

  method CreateCanceler(store: TaskStore, self: Actor) returns (r: Result<Processor, LoadError>)
    requires store.Valid()
    modifies store
    ensures store.Valid() && Moved(old(store.state), store.state, self)
    ensures r.Ok? ==>
              fresh(r.value) && fresh(r.value.manager) && r.value.manager.Valid() && r.value.manager.store == store
    ensures r.Ok? ==>
              && 0 < r.value.manager.version == |store.state.log|
              && r.value.manager.initTask == r.value.manager.tracked
              && r.value.manager.tracked == Some(store.state.log[r.value.manager.version - 1])
              && (r.value.manager.tracked.value.Terminal() ==> r.value.manager.tracked.value.status.state.Canceled?)
    ensures r.Err? ==>
              if r.error.NotCancelable? then
                && store.state.log != [] && store.state.log[|store.state.log| - 1].Terminal()
                && !store.state.log[|store.state.log| - 1].status.state.Canceled?
              else
                && r.error == LoadFailed(if store.faults(store.turn) then Unavailable else NotFound)
                && (store.faults(store.turn) || store.state.log == [])
  {
    hide Inv, After, By, TaskStore.Valid;
    var stored := store.Get(self);
    if stored.Err? {
      return Err(LoadFailed(stored.error));
    }
    var task, version := stored.value.tracked, stored.value.version;
    if task.Terminal() && !task.status.state.Canceled? {
      return Err(NotCancelable);
    }
    store.Track(self, version);
    var manager := new Manager(store, self, task.id, task.contextId, Some(stored.value));
    var processor := new Processor(manager);
    return Ok(processor);
  }
}
