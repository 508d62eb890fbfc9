/** Any number of actors working on one stored task through optimistic concurrency, as a transition
    system over store operations (internal/taskupdate/manager.go, a2asrv/taskstore/inmemory.go). */
module OptimisticStore {
  import opened Json
  import opened Tasks
  import opened Patch

  type Actor = nat

  /** A full materializer is `ApplyShallowUpdate`. With a partial one, whose output is arbitrary, the
      store derives the task it keeps from the event. */
  datatype Materializer = Full | Partial(output: (Task, Event) -> Option<Task>) {
    function Materialize(t: Task, e: Event): Option<Task> {
      match this
      case Full => Applied(t, e)
      case Partial(output) => output(t, e)
    }

    function Kept(last: Task, e: Event, output: Task): Option<Task> {
      match this
      case Full => Some(output)
      case Partial(_) => Applied(last, e)
    }
  }

  function Applied(t: Task, e: Event): Option<Task> {
    match Apply(t, e)
    case Ok(next) => Some(next)
    case Err(_) => None
  }

  /** What an actor tracks: the last materializer output, and the version it belongs to. */
  datatype Handle = Handle(tracked: Task, version: nat)

  datatype Commit = Commit(author: Actor, event: Event)

  /** Version `v` of the task is `log[v - 1]`, written by `commits[v - 1]`; `Get` returns the last one.
      Version 0 stands for a version that is not tracked. */
  datatype State = State(log: seq<Task>, commits: seq<Commit>, handles: map<Actor, Handle>)

  const START := State([], [], map[])

  datatype StoreError = NotFound | AlreadyExists | Conflict | NotApplicable | NotKept | Unavailable

  /** Operations of an actor. `Track` takes over a version that was read at some earlier time; `Append`
      adds a user message to the history, `Update` applies an event of the agent. */
  datatype Step =
    | Create(actor: Actor, task: Task)
    | Track(actor: Actor, version: nat)
    | Append(actor: Actor, message: Message)
    | Update(actor: Actor, event: Event)

  predicate HasMessage(history: seq<Message>, id: string) {
    exists i :: 0 <= i < |history| && history[i].id == id
  }

  /** `Store.Update` with the output of the materializer. */
  function Store(m: Materializer, s: State, a: Actor, e: Event, output: Task, prevVersion: nat)
    : Result<State, StoreError>
  {
    var latest := |s.log|;
    if latest == 0 then Err(NotFound)
    else if prevVersion != 0 && prevVersion != latest then Err(Conflict)
    else
      match m.Kept(s.log[latest - 1], e, output)
      case None => Err(NotKept)
      case Some(task) =>
        Ok(State(s.log + [task], s.commits + [Commit(a, e)], s.handles[a := Handle(output, latest + 1)]))
  }

  /** Materializes the event on the tracked task and stores the outcome. */
  function TryCommit(m: Materializer, s: State, a: Actor, e: Event): Result<State, StoreError>
    requires a in s.handles
  {
    match m.Materialize(s.handles[a].tracked, e)
    case None => Err(NotApplicable)
    case Some(output) => Store(m, s, a, e, output, s.handles[a].version)
  }

  function CommitOrStay(m: Materializer, s: State, a: Actor, e: Event): State {
    if a !in s.handles then s
    else match TryCommit(m, s, a, e) case Ok(next) => next case Err(_) => s
  }

  function Next(m: Materializer, s: State, step: Step): State {
    match step
    case Create(a, task) =>
      if s.log != [] then s
      else State(s.log + [task], s.commits + [Commit(a, TaskEvent(task))], s.handles[a := Handle(task, 1)])
    case Track(a, version) =>
      if 1 <= version <= |s.log| then s.(handles := s.handles[a := Handle(s.log[version - 1], version)]) else s
    case Append(a, message) =>
      if a in s.handles && 1 <= s.handles[a].version <= |s.log|
         && !HasMessage(s.log[s.handles[a].version - 1].history, message.id)
      then CommitOrStay(m, s, a, MessageEvent(message))
      else s
    case Update(a, event) =>
      if event.MessageEvent? then s else CommitOrStay(m, s, a, event)
  }

  /** The steps in order, from any of the actors. */
  function After(m: Materializer, s: State, steps: seq<Step>): State {
    if steps == [] then s else Next(m, After(m, s, steps[..|steps| - 1]), steps[|steps| - 1])
  }

  lemma AfterSnoc(m: Materializer, s: State, steps: seq<Step>, step: Step)
    ensures After(m, s, steps + [step]) == Next(m, After(m, s, steps), step)
  {
    assert (steps + [step])[..|steps|] == steps;
  }

  // ---- The invariant ----

  /** Every version is the previous one with the committed event applied. */
  ghost predicate Linear(s: State) {
    && |s.commits| == |s.log|
    && (s.log != [] ==> s.commits[0].event == TaskEvent(s.log[0]))
    && forall v: nat :: 0 < v < |s.log| ==> Apply(s.log[v - 1], s.commits[v].event) == Ok(s.log[v])
  }

  /** No handle is without a version, so the store's check is never skipped; a full one is exact. */
  ghost predicate HandlesKnown(m: Materializer, s: State) {
    forall a :: a in s.handles ==>
                  && 1 <= s.handles[a].version <= |s.log|
                  && (m.Full? ==> s.handles[a].tracked == s.log[s.handles[a].version - 1])
  }

  /** A message is committed only behind a history without it. */
  ghost predicate MessagesNew(s: State) {
    && |s.commits| == |s.log|
    && forall v: nat :: 0 < v < |s.log| && s.commits[v].event.MessageEvent? ==>
                          !HasMessage(s.log[v - 1].history, s.commits[v].event.message.id)
  }

  ghost predicate Inv(m: Materializer, s: State) {
    Linear(s) && HandlesKnown(m, s) && MessagesNew(s)
  }

  lemma CommitApplies(m: Materializer, s: State, a: Actor, e: Event)
    requires Inv(m, s) && a in s.handles && TryCommit(m, s, a, e).Ok?
    ensures s.handles[a].version == |s.log| > 0
    ensures TryCommit(m, s, a, e).value.log == s.log + [TryCommit(m, s, a, e).value.log[|s.log|]]
    ensures Apply(s.log[|s.log| - 1], e) == Ok(TryCommit(m, s, a, e).value.log[|s.log|])
    ensures TryCommit(m, s, a, e).value.commits == s.commits + [Commit(a, e)]
    ensures TryCommit(m, s, a, e).value.handles.Keys == s.handles.Keys
    ensures TryCommit(m, s, a, e).value.handles[a].version == |s.log| + 1
    ensures m.Full? ==> TryCommit(m, s, a, e).value.handles[a].tracked == TryCommit(m, s, a, e).value.log[|s.log|]
    ensures forall b :: b in s.handles && b != a ==> TryCommit(m, s, a, e).value.handles[b] == s.handles[b]
  {
  }

  lemma CommitKeepsInv(m: Materializer, s: State, a: Actor, e: Event)
    requires Inv(m, s) && a in s.handles && TryCommit(m, s, a, e).Ok?
    requires e.MessageEvent? ==> !HasMessage(s.log[|s.log| - 1].history, e.message.id)
    ensures Inv(m, TryCommit(m, s, a, e).value)
  {
    CommitApplies(m, s, a, e);
    hide *;
    ExtendedKeepsInv(m, s, TryCommit(m, s, a, e).value, a, e);
  }

  lemma ExtendedKeepsInv(m: Materializer, s: State, next: State, a: Actor, e: Event)
    requires Inv(m, s) && s.log != []
    requires |next.log| == |s.log| + 1 && next.log == s.log + [next.log[|s.log|]]
    requires Apply(s.log[|s.log| - 1], e) == Ok(next.log[|s.log|])
    requires next.commits == s.commits + [Commit(a, e)]
    requires a in next.handles && next.handles[a].version == |next.log|
    requires m.Full? ==> next.handles[a].tracked == next.log[|s.log|]
    requires next.handles.Keys == s.handles.Keys
    requires forall b :: b in s.handles && b != a ==> next.handles[b] == s.handles[b]
    requires e.MessageEvent? ==> !HasMessage(s.log[|s.log| - 1].history, e.message.id)
    ensures Inv(m, next)
  {
    hide Apply, HasMessage;
  }

  lemma CreateAndTrackKeepInv(m: Materializer, s: State, step: Step)
    requires Inv(m, s) && (step.Create? || step.Track?)
    ensures Inv(m, Next(m, s, step))
  {
    hide Apply, HasMessage;
  }

  lemma InvKept(m: Materializer, s: State, step: Step)
    requires Inv(m, s)
    ensures Inv(m, Next(m, s, step))
  {
    hide TryCommit, HasMessage, Apply, Inv;
    match step
    case Create(_, _) => CreateAndTrackKeepInv(m, s, step);
    case Track(_, _) => CreateAndTrackKeepInv(m, s, step);
    case Append(a, message) =>
      if a in s.handles && TryCommit(m, s, a, MessageEvent(message)).Ok? {
        CommitApplies(m, s, a, MessageEvent(message));
        if !HasMessage(s.log[|s.log| - 1].history, message.id) {
          CommitKeepsInv(m, s, a, MessageEvent(message));
        }
      }
    case Update(a, event) =>
      if !event.MessageEvent? && a in s.handles && TryCommit(m, s, a, event).Ok? {
        CommitApplies(m, s, a, event);
        CommitKeepsInv(m, s, a, event);
      }
  }

  /** In every interleaving. */
  lemma {:induction false} Reachable(m: Materializer, steps: seq<Step>)
    ensures Inv(m, After(m, START, steps))
  {
    if steps != [] {
      Reachable(m, steps[..|steps| - 1]);
      InvKept(m, After(m, START, steps[..|steps| - 1]), steps[|steps| - 1]);
    }
  }

  // ---- Stored versions ----

  function Events(commits: seq<Commit>): seq<Event> {
    seq(|commits|, i requires 0 <= i < |commits| => commits[i].event)
  }

  /** The stored versions are one run of `ApplyShallowUpdate` from the task that was created. */
  lemma {:induction false} OneLinearRun(m: Materializer, s: State, v: nat)
    requires Inv(m, s) && v < |s.log|
    ensures s.commits[0].event == TaskEvent(s.log[0])
    ensures Run(s.log[0], Events(s.commits)[1..v + 1]) == Ok(s.log[v])
  {
    var events := Events(s.commits);
    if v == 0 {
      assert events[1..1] == [];
    } else {
      OneLinearRun(m, s, v - 1);
      assert events[1..v + 1] == events[1..v] + [events[v]];
      RunConcat(s.log[0], events[1..v], [events[v]]);
      assert [events[v]][1..] == [];
    }
  }

  lemma TerminalIsLast(m: Materializer, s: State, v: nat)
    requires Inv(m, s) && v < |s.log| && s.log[v].Terminal()
    ensures v == |s.log| - 1
  {
    if v + 1 < |s.log| {
      ApplyKeeps(s.log[v + 1 - 1], s.commits[v + 1].event);
    }
  }

  lemma NextGrows(m: Materializer, s: State, step: Step)
    ensures s.log <= Next(m, s, step).log && s.commits <= Next(m, s, step).commits
    ensures forall a :: a in s.handles && a != step.actor ==>
                          a in Next(m, s, step).handles && Next(m, s, step).handles[a] == s.handles[a]
    ensures step.actor in s.handles ==> step.actor in Next(m, s, step).handles
  {
  }

  /** A stored version stays as it is, and a stored terminal state is never followed by another one. */
  lemma {:induction false} StoredForGood(m: Materializer, s: State, steps: seq<Step>)
    requires Inv(m, s)
    ensures s.log <= After(m, s, steps).log && Inv(m, After(m, s, steps))
    ensures s.log != [] && s.log[|s.log| - 1].Terminal() ==> After(m, s, steps).log == s.log
  {
    if steps != [] {
      var before, step := After(m, s, steps[..|steps| - 1]), steps[|steps| - 1];
      StoredForGood(m, s, steps[..|steps| - 1]);
      NextGrows(m, before, step);
      InvKept(m, before, step);
    }
    if s.log != [] && s.log[|s.log| - 1].Terminal() {
      TerminalIsLast(m, After(m, s, steps), |s.log| - 1);
    }
  }

  // ---- Losing a race ----

  predicate Reloads(step: Step, a: Actor) {
    step.Track? && step.actor == a
  }

  ghost predicate NoReload(steps: seq<Step>, a: Actor) {
    forall i :: 0 <= i < |steps| ==> !Reloads(steps[i], a)
  }

  /** The events that an actor has committed. */
  function By(commits: seq<Commit>, a: Actor): seq<Event> {
    if commits == [] then []
    else
      var last := commits[|commits| - 1];
      By(commits[..|commits| - 1], a) + (if last.author == a then [last.event] else [])
  }

  lemma BySnoc(commits: seq<Commit>, c: Commit, a: Actor)
    ensures By(commits + [c], a) == By(commits, a) + if c.author == a then [c.event] else []
  {
    assert (commits + [c])[..|commits|] == commits;
  }

  lemma NextBy(m: Materializer, s: State, step: Step, a: Actor)
    requires step.actor != a
    ensures By(Next(m, s, step).commits, a) == By(s.commits, a)
  {
    hide HasMessage, By;
    match step
    case Create(b, task) => BySnoc(s.commits, Commit(b, TaskEvent(task)), a);
    case Track(_, _) =>
    case Append(b, message) => BySnoc(s.commits, Commit(b, MessageEvent(message)), a);
    case Update(b, event) => BySnoc(s.commits, Commit(b, event), a);
  }

  /** The actor's version is no longer the latest one. */
  predicate Stale(s: State, a: Actor) {
    a in s.handles && s.handles[a].version < |s.log|
  }

  lemma StaleOnce(m: Materializer, s: State, step: Step, a: Actor)
    requires Inv(m, s) && Stale(s, a) && !Reloads(step, a)
    ensures Stale(Next(m, s, step), a) && By(Next(m, s, step).commits, a) == By(s.commits, a)
    ensures step.actor == a ==> Next(m, s, step) == s
  {
    if step.actor != a {
      NextGrows(m, s, step);
      NextBy(m, s, step, a);
    }
  }

  /** An actor that has lost a race commits nothing, whatever it and the others do, until it reloads. */
  lemma {:induction false} LoserCommitsNothing(m: Materializer, s: State, steps: seq<Step>, a: Actor)
    requires Inv(m, s) && Stale(s, a) && NoReload(steps, a)
    ensures Stale(After(m, s, steps), a) && By(After(m, s, steps).commits, a) == By(s.commits, a)
  {
    if steps != [] {
      var front := steps[..|steps| - 1];
      LoserCommitsNothing(m, s, front, a);
      StoredForGood(m, s, front);
      StaleOnce(m, After(m, s, front), steps[|steps| - 1], a);
    }
  }

  /** Of two actors on the same version, at most one commits. */
  lemma OneWinner(m: Materializer, s: State, a: Actor, e: Event, b: Actor, f: Event)
    requires Inv(m, s) && a in s.handles && b in s.handles && a != b
    requires s.handles[a].version == s.handles[b].version && TryCommit(m, s, a, e).Ok?
    ensures TryCommit(m, TryCommit(m, s, a, e).value, b, f).Err?
    ensures m.Materialize(s.handles[b].tracked, f).Some? ==>
              TryCommit(m, TryCommit(m, s, a, e).value, b, f) == Err(Conflict)
  {
    CommitApplies(m, s, a, e);
  }

  // ---- At most once in the history ----

  function Occurrences(history: seq<Message>, id: string): nat {
    if history == [] then 0
    else Occurrences(history[..|history| - 1], id) + if history[|history| - 1].id == id then 1 else 0
  }

  lemma OccurrencesSnoc(history: seq<Message>, m: Message, id: string)
    ensures Occurrences(history + [m], id) == Occurrences(history, id) + if m.id == id then 1 else 0
  {
    assert (history + [m])[..|history|] == history;
  }

  lemma {:induction false} OccursIff(history: seq<Message>, id: string)
    ensures Occurrences(history, id) > 0 <==> HasMessage(history, id)
  {
    if history != [] {
      var n := |history| - 1;
      OccursIff(history[..n], id);
      if i :| 0 <= i < |history| && history[i].id == id {
        assert i < n ==> history[..n][i].id == id;
      }
      if i :| 0 <= i < n && history[..n][i].id == id {
        assert history[i].id == id;
      }
    }
  }

  /** Appending a message that is not in the history adds it once exactly when its ID is not the one
      of the current status message, which moves into the history before it. */
  lemma AppendedOnceIff(t: Task, m: Message)
    requires Apply(t, MessageEvent(m)).Ok? && !HasMessage(t.history, m.id)
    ensures Occurrences(Apply(t, MessageEvent(m)).value.history, m.id) == 1 <==>
            !(t.status.message.Some? && t.status.message.value.id == m.id)
  {
    OccursIff(t.history, m.id);
    OccurrencesSnoc(Archived(t.history, t.status), m, m.id);
    if t.status.message.Some? {
      OccurrencesSnoc(t.history, t.status.message.value, m.id);
    }
  }

  ghost predicate StatusHasOtherId(status: Status, id: string) {
    status.message.Some? ==> status.message.value.id != id
  }

  /** The ID belongs to no status message, and no agent puts the message twice into a whole task. */
  ghost predicate OnlyUserMessage(commits: seq<Commit>, id: string) {
    forall v :: 0 <= v < |commits| ==> BringsAtMostOnce(commits[v].event, id)
  }

  ghost predicate BringsAtMostOnce(e: Event, id: string) {
    match e
    case TaskEvent(task) => StatusHasOtherId(task.status, id) && Occurrences(task.history, id) <= 1
    case StatusEvent(_, _, status, _) => StatusHasOtherId(status, id)
    case _ => true
  }

  lemma ArchivedOccurrences(t: Task, id: string)
    requires StatusHasOtherId(t.status, id)
    ensures Occurrences(Archived(t.history, t.status), id) == Occurrences(t.history, id)
  {
    if t.status.message.Some? {
      OccurrencesSnoc(t.history, t.status.message.value, id);
    }
  }

  lemma OnceMore(t: Task, e: Event, id: string)
    requires Apply(t, e).Ok? && StatusHasOtherId(t.status, id) && BringsAtMostOnce(e, id)
    requires e.MessageEvent? ==> !HasMessage(t.history, e.message.id)
    ensures StatusHasOtherId(Apply(t, e).value.status, id)
    ensures Occurrences(t.history, id) <= 1 ==> Occurrences(Apply(t, e).value.history, id) <= 1
  {
    hide Occurrences, HasMessage, Archived, Put, Extended, IndexOf, Validate;
    OccursIff(t.history, id);
    ArchivedOccurrences(t, id);
    if e.MessageEvent? {
      OccurrencesSnoc(Archived(t.history, t.status), e.message, id);
    }
  }

  lemma {:induction false} OnceInVersion(m: Materializer, s: State, id: string, v: nat)
    requires Inv(m, s) && OnlyUserMessage(s.commits, id) && v < |s.log|
    ensures Occurrences(s.log[v].history, id) <= 1 && StatusHasOtherId(s.log[v].status, id)
  {
    hide Occurrences, Apply;
    assert BringsAtMostOnce(s.commits[v].event, id);
    if v > 0 {
      OnceInVersion(m, s, id, v - 1);
      OnceMore(s.log[v - 1], s.commits[v].event, id);
    }
  }

  /** However many executions are started for one message, by however many actors and in whatever
      order, no stored version has it twice. */
  lemma {:induction false} AtMostOnce(m: Materializer, steps: seq<Step>, id: string)
    requires OnlyUserMessage(After(m, START, steps).commits, id)
    ensures forall v: nat :: v < |After(m, START, steps).log| ==>
                               Occurrences(After(m, START, steps).log[v].history, id) <= 1
  {
    var s := After(m, START, steps);
    Reachable(m, steps);
    forall v: nat | v < |s.log| ensures Occurrences(s.log[v].history, id) <= 1 {
      OnceInVersion(m, s, id, v);
    }
  }

  /** The event cannot make a second message with this ID: a whole task has it at most once, and a user
      message that has it finds another status message. */
  ghost predicate KeepsSingle(before: Option<Task>, e: Event, id: string) {
    match e
    case TaskEvent(task) => Occurrences(task.history, id) <= 1
    case MessageEvent(m) => m.id == id && before.Some? ==> StatusHasOtherId(before.value.status, id)
    case _ => true
  }

  ghost predicate AllKeepSingle(s: State, id: string)
    requires |s.commits| == |s.log|
  {
    forall v: nat :: v < |s.log| ==> KeepsSingle(if v == 0 then None else Some(s.log[v - 1]), s.commits[v].event, id)
  }

  lemma ArchivedKeepsSingle(t: Task, id: string)
    requires id != "" && Occurrences(t.history, id) <= 1
    ensures Occurrences(Archived(t.history, t.status), id) <= 1
  {
    OccursIff(t.history, id);
    if t.status.message.Some? {
      OccurrencesSnoc(t.history, t.status.message.value, id);
    }
  }

  lemma SingleIff(t: Task, e: Event, id: string)
    requires id != "" && Apply(t, e).Ok? && Occurrences(t.history, id) <= 1
    requires e.MessageEvent? ==> !HasMessage(t.history, e.message.id)
    ensures Occurrences(Apply(t, e).value.history, id) <= 1 <==> KeepsSingle(Some(t), e, id)
  {
    if e.MessageEvent? {
      ArchivedKeepsSingle(t, id);
      OccurrencesSnoc(Archived(t.history, t.status), e.message, id);
      if e.message.id == id {
        AppendedOnceIff(t, e.message);
        OccursIff(t.history, id);
        ArchivedOnlyAdds(t, id);
      }
    } else if e.StatusEvent? {
      ArchivedKeepsSingle(t, id);
    }
  }

  lemma ArchivedOnlyAdds(t: Task, id: string)
    ensures Occurrences(Archived(t.history, t.status), id) >= Occurrences(t.history, id)
  {
    if t.status.message.Some? {
      OccurrencesSnoc(t.history, t.status.message.value, id);
    }
  }

  lemma {:induction false} SingleUpTo(m: Materializer, s: State, id: string, v: nat)
    requires id != "" && Inv(m, s) && AllKeepSingle(s, id) && v < |s.log|
    ensures Occurrences(s.log[v].history, id) <= 1
  {
    hide Occurrences, Apply;
    if v > 0 {
      SingleUpTo(m, s, id, v - 1);
      SingleIff(s.log[v - 1], s.commits[v].event, id);
    }
    assert KeepsSingle(if v == 0 then None else Some(s.log[v - 1]), s.commits[v].event, id);
  }

  /** No stored version has a message with this ID twice if and only if no whole task brought it twice
      and no such message was appended while it was also the status message's ID. */
  lemma {:induction false} AtMostOnceIff(m: Materializer, steps: seq<Step>, id: string)
    requires id != ""
    ensures Inv(m, After(m, START, steps))
    ensures AllKeepSingle(After(m, START, steps), id) <==>
            forall v: nat :: v < |After(m, START, steps).log| ==>
                               Occurrences(After(m, START, steps).log[v].history, id) <= 1
  {
    var s := After(m, START, steps);
    Reachable(m, steps);
    hide After, Occurrences, Apply;
    if AllKeepSingle(s, id) {
      forall v: nat | v < |s.log| ensures Occurrences(s.log[v].history, id) <= 1 {
        SingleUpTo(m, s, id, v);
      }
    }
    if forall v: nat :: v < |s.log| ==> Occurrences(s.log[v].history, id) <= 1 {
      forall v: nat | v < |s.log|
        ensures KeepsSingle(if v == 0 then None else Some(s.log[v - 1]), s.commits[v].event, id)
      {
        if v > 0 {
          SingleIff(s.log[v - 1], s.commits[v].event, id);
        }
      }
    }
  }
}
