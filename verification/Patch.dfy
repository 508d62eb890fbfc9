/** Applying one event to a task (a2aevent/event.go), as a function on values,
    and what holds over every run of accepted events. */
module Patch {
  import opened Json
  import opened Tasks

  datatype UpdateError =
    | NotUserMessage(role: Role)
    | TerminalTask(state: TaskState)
    | TaskIdMismatch
    | ContextIdMismatch
    | EmptyArtifact
    | NothingToAppendTo

  type Outcome = Result<Task, UpdateError>

  function Validate(t: Task, e: Event): Option<UpdateError> {
    if e.MessageEvent? && !e.message.role.UserRole? then Some(NotUserMessage(e.message.role))
    else if t.Terminal() then Some(TerminalTask(t.status.state))
    else if t.id != e.TaskId() && !(e.MessageEvent? && e.message.taskId == "") then Some(TaskIdMismatch)
    else if t.contextId != e.ContextId() && !(e.MessageEvent? && e.message.contextId == "") then Some(ContextIdMismatch)
    else None
  }

  /** An anonymous message is never taken to be in the history already. */
  predicate Recorded(m: Message, history: seq<Message>) {
    m.id != "" && exists i :: 0 <= i < |history| && history[i].id == m.id
  }

  /** The history once the current status message has been moved into it. */
  function Archived(history: seq<Message>, status: Status): seq<Message> {
    if status.message.Some? && !Recorded(status.message.value, history)
    then history + [status.message.value]
    else history
  }

  function Extended(a: Artifact, chunk: Artifact): Artifact {
    a.(parts := a.parts + chunk.parts, metadata := a.metadata + chunk.metadata)
  }

  /** Replaces the artifact with the same ID, or adds a new one at the end. */
  function Put(artifacts: seq<Artifact>, a: Artifact): seq<Artifact> {
    var i := IndexOf(artifacts, a.id);
    if i < 0 then artifacts + [a] else artifacts[i := a]
  }

  function ApplyArtifact(t: Task, a: Artifact, append: bool): Outcome {
    if a.parts == [] then Err(EmptyArtifact)
    else
      var i := IndexOf(t.artifacts, a.id);
      if i < 0 && append then Err(NothingToAppendTo)
      else if !append then Ok(t.(artifacts := Put(t.artifacts, a)))
      else Ok(t.(artifacts := t.artifacts[i := Extended(t.artifacts[i], a)]))
  }

  function Apply(t: Task, e: Event): Outcome {
    match Validate(t, e)
    case Some(error) => Err(error)
    case None =>
      match e
      case TaskEvent(task) => Ok(task)
      case MessageEvent(m) => Ok(t.(history := Archived(t.history, t.status) + [m]))
      case ArtifactEvent(_, _, a, append, _, _) => ApplyArtifact(t, a, append)
      case StatusEvent(_, _, status, metadata) =>
        Ok(t.(history := Archived(t.history, t.status), metadata := t.metadata + metadata, status := status))
  }

  /** Applies the events in order, stopping at the first error. */
  function Run(t: Task, events: seq<Event>): Outcome
    decreases |events|
  {
    if events == [] then Ok(t)
    else
      match Apply(t, events[0])
      case Err(error) => Err(error)
      case Ok(next) => Run(next, events[1..])
  }

  lemma {:induction false} RunConcat(t: Task, front: seq<Event>, back: seq<Event>)
    ensures Run(t, front + back) ==
            (match Run(t, front) case Ok(mid) => Run(mid, back) case Err(error) => Err(error))
    decreases |front|
  {
    if front == [] {
      assert front + back == back;
    } else {
      assert (front + back)[0] == front[0] && (front + back)[1..] == front[1..] + back;
      match Apply(t, front[0])
      case Err(_) =>
      case Ok(next) => RunConcat(next, front[1..], back);
    }
  }

  // ---- Which events are accepted, and what they leave ----

  /** The states that end a task. */
  const ENDED := {Completed, Canceled, TaskState.Failed, Rejected}

  /** Only a user may add to the history, and an ID that a message leaves out fits any task. */
  lemma MessageAcceptedIff(t: Task, m: Message)
    ensures Apply(t, MessageEvent(m)).Ok? <==>
            && m.role == UserRole && t.status.state !in ENDED
            && (m.taskId == "" || m.taskId == t.id) && (m.contextId == "" || m.contextId == t.contextId)
  {
  }

  lemma WholeTaskAcceptedIff(t: Task, next: Task)
    ensures Apply(t, TaskEvent(next)).Ok? <==>
            t.status.state !in ENDED && next.id == t.id && next.contextId == t.contextId
    ensures Apply(t, TaskEvent(next)).Ok? ==> Apply(t, TaskEvent(next)).value == next
  {
  }

  lemma StatusAcceptedIff(t: Task, e: Event)
    requires e.StatusEvent?
    ensures Apply(t, e).Ok? <==> t.status.state !in ENDED && e.taskId == t.id && e.contextId == t.contextId
  {
  }

  /** An artifact event needs parts, and a chunk needs an artifact to append to. */
  lemma ArtifactAcceptedIff(t: Task, e: Event)
    requires e.ArtifactEvent?
    ensures Apply(t, e).Ok? <==>
            && t.status.state !in ENDED && e.taskId == t.id && e.contextId == t.contextId
            && e.artifact.parts != [] && (e.append ==> e.artifact.id in ArtifactIds(t.artifacts))
  {
    assert forall i :: 0 <= i < |t.artifacts| ==> ArtifactIds(t.artifacts)[i] == t.artifacts[i].id;
  }

  /** The error names what is wrong. */
  lemma RefusedBecause(t: Task, e: Event)
    requires Apply(t, e).Err?
    ensures match Apply(t, e).error
            case NotUserMessage(role) => e.MessageEvent? && role == e.message.role != UserRole
            case TerminalTask(state) => state == t.status.state && state in ENDED
            case TaskIdMismatch => t.id != e.TaskId() && !(e.MessageEvent? && e.message.taskId == "")
            case ContextIdMismatch => t.contextId != e.ContextId() && !(e.MessageEvent? && e.message.contextId == "")
            case EmptyArtifact => e.ArtifactEvent? && e.artifact.parts == []
            case NothingToAppendTo => e.ArtifactEvent? && e.append && e.artifact.id !in ArtifactIds(t.artifacts)
  {
    assert forall i :: 0 <= i < |t.artifacts| ==> ArtifactIds(t.artifacts)[i] == t.artifacts[i].id;
  }

  /** The status message moves to the end of the history unless a message with its ID is there;
      without an ID it always moves. */
  lemma ArchivedIff(history: seq<Message>, status: Status)
    ensures Archived(history, status) ==
            match status.message
            case Some(m) => if m.id == "" || m.id !in IdSet(history) then history + [m] else history
            case None => history
  {
  }

  /** A user message comes last, behind the status message it answers, and changes nothing else. */
  lemma MessageComesLast(t: Task, m: Message)
    requires Apply(t, MessageEvent(m)).Ok?
    ensures var next := Apply(t, MessageEvent(m)).value;
            && next.(history := t.history) == t
            && next.history[|next.history| - 1] == m
            && (next.history[..|next.history| - 1] == t.history
                || (t.status.message.Some? && next.history == t.history + [t.status.message.value, m]))
  {
  }

  /** An accepted event is final exactly when it is a message or leaves the task, by its own status,
      ended or in need of input. */
  lemma FinalIff(t: Task, e: Event)
    requires Apply(t, e).Ok?
    ensures var state := Apply(t, e).value.status.state;
            e.Final() <==> e.MessageEvent? || (!e.ArtifactEvent? && state in ENDED + {InputRequired})
  {
  }

  // ---- Run invariants ----

  ghost predicate NoWholeTask(events: seq<Event>) {
    forall i :: 0 <= i < |events| ==> !events[i].TaskEvent?
  }

  /** What a single accepted event keeps. */
  lemma ApplyKeeps(t: Task, e: Event)
    requires Apply(t, e).Ok?
    ensures !t.Terminal()
    ensures Apply(t, e).value.id == t.id && Apply(t, e).value.contextId == t.contextId
    ensures !e.TaskEvent? ==> t.history <= Apply(t, e).value.history
    ensures !e.TaskEvent? ==> ArtifactIds(t.artifacts) <= ArtifactIds(Apply(t, e).value.artifacts)
    ensures !e.TaskEvent? && Distinct(ArtifactIds(t.artifacts)) ==> Distinct(ArtifactIds(Apply(t, e).value.artifacts))
  {
  }

  lemma {:induction false} RunKeepsIdentity(t: Task, events: seq<Event>)
    requires Run(t, events).Ok?
    ensures Run(t, events).value.id == t.id
    ensures Run(t, events).value.contextId == t.contextId
    decreases |events|
  {
    if events != [] {
      ApplyKeeps(t, events[0]);
      RunKeepsIdentity(Apply(t, events[0]).value, events[1..]);
    }
  }

  /** Only the last event of an accepted run may make the task terminal. */
  lemma {:induction false} NothingAfterTerminal(t: Task, events: seq<Event>, n: nat)
    requires n < |events| && Run(t, events).Ok?
    ensures Run(t, events[..n]).Ok? && !Run(t, events[..n]).value.Terminal()
  {
    assert events == events[..n] + events[n..];
    RunConcat(t, events[..n], events[n..]);
    ApplyKeeps(Run(t, events[..n]).value, events[n]);
  }

  lemma {:induction false} RunOnlyGrows(t: Task, events: seq<Event>)
    requires NoWholeTask(events) && Run(t, events).Ok?
    ensures t.history <= Run(t, events).value.history
    ensures ArtifactIds(t.artifacts) <= ArtifactIds(Run(t, events).value.artifacts)
    ensures Distinct(ArtifactIds(t.artifacts)) ==> Distinct(ArtifactIds(Run(t, events).value.artifacts))
    decreases |events|
  {
    if events != [] {
      ApplyKeeps(t, events[0]);
      RunOnlyGrows(Apply(t, events[0]).value, events[1..]);
    }
  }

  // ---- Status messages are conserved ----

  ghost function IdSet(messages: seq<Message>): set<string> {
    set i | 0 <= i < |messages| :: messages[i].id
  }

  ghost function CurrentId(t: Task): set<string> {
    if t.status.message.Some? then {t.status.message.value.id} else {}
  }

  /** The IDs of the status messages that the task starts with or is given by the events. */
  ghost function StatusIds(t: Task, events: seq<Event>): set<string>
    decreases |events|
  {
    if events == [] then CurrentId(t)
    else
      StatusIds(t, events[..|events| - 1])
      + (var e := events[|events| - 1];
         if e.StatusEvent? && e.status.message.Some? then {e.status.message.value.id} else {})
  }

  /** No whole-task event, no anonymous message, and every user message is new when it arrives. */
  ghost predicate FreshMessages(t: Task, events: seq<Event>) {
    && "" !in CurrentId(t)
    && forall n :: 0 <= n < |events| ==> Run(t, events[..n]).Ok? && FreshMessage(Run(t, events[..n]).value, events[n])
  }

  ghost predicate FreshMessage(t: Task, e: Event) {
    match e
    case TaskEvent(_) => false
    case MessageEvent(m) => m.id != "" && m.id !in IdSet(t.history) && m.id !in CurrentId(t)
    case ArtifactEvent(_, _, _, _, _, _) => true
    case StatusEvent(_, _, status, _) => status.message.Some? ==> status.message.value.id != ""
  }

  lemma ConservesOnce(t: Task, e: Event)
    requires Apply(t, e).Ok? && FreshMessage(t, e) && "" !in CurrentId(t)
    ensures "" !in CurrentId(Apply(t, e).value)
    ensures IdSet(t.history) + CurrentId(t) <= IdSet(Apply(t, e).value.history) + CurrentId(Apply(t, e).value)
    ensures DistinctIds(t.history) ==> DistinctIds(Apply(t, e).value.history)
  {
    var next := Apply(t, e).value;
    forall id | id in IdSet(t.history) ensures id in IdSet(next.history) {
      var i :| 0 <= i < |t.history| && t.history[i].id == id;
      assert next.history[i] == t.history[i];
    }
    if e.StatusEvent? && t.status.message.Some? {
      var m := t.status.message.value;
      if Recorded(m, t.history) {
        var i :| 0 <= i < |t.history| && t.history[i].id == m.id;
      } else {
        assert next.history[|t.history|] == m;
      }
    }
  }

  lemma {:induction false} StatusMessagesConserved(t: Task, events: seq<Event>)
    requires FreshMessages(t, events) && Run(t, events).Ok?
    ensures StatusIds(t, events) <= IdSet(Run(t, events).value.history) + CurrentId(Run(t, events).value)
    ensures DistinctIds(t.history) ==> DistinctIds(Run(t, events).value.history)
    ensures "" !in CurrentId(Run(t, events).value)
    decreases |events|
  {
    if events != [] {
      var n := |events| - 1;
      var front := events[..n];
      assert events == front + [events[n]];
      RunConcat(t, front, [events[n]]);
      assert FreshMessages(t, front) by {
        forall k | 0 <= k < n ensures front[..k] == events[..k] {}
      }
      StatusMessagesConserved(t, front);
      var mid := Run(t, front).value;
      assert Run(mid, [events[n]]) == Apply(mid, events[n]) by {
        assert [events[n]][1..] == [];
      }
      ConservesOnce(mid, events[n]);
    }
  }

  // ---- Streamed artifacts ----

  /** Whether the event appends a chunk to the artifact. */
  predicate ChunkFor(e: Event, id: string) {
    e.ArtifactEvent? && e.append && e.artifact.id == id
  }

  function ChunkParts(events: seq<Event>, id: string): seq<Part> {
    if events == [] then []
    else (if ChunkFor(events[0], id) then events[0].artifact.parts else []) + ChunkParts(events[1..], id)
  }

  /** The metadata of all chunks merged in order, later keys winning. */
  function ChunkMetadata(events: seq<Event>, id: string): Metadata {
    if events == [] then map[]
    else (if ChunkFor(events[0], id) then events[0].artifact.metadata else map[]) + ChunkMetadata(events[1..], id)
  }

  /** Nothing but chunks touches the artifact: no whole task and no replacement. */
  ghost predicate OnlyChunksFor(events: seq<Event>, id: string) {
    && NoWholeTask(events)
    && forall i :: 0 <= i < |events| && events[i].ArtifactEvent? && events[i].artifact.id == id ==> events[i].append
  }

  lemma IndexSurvives(before: seq<Artifact>, after: seq<Artifact>, id: string)
    requires ArtifactIds(before) <= ArtifactIds(after) && IndexOf(before, id) >= 0
    ensures IndexOf(after, id) == IndexOf(before, id)
  {
    var i := IndexOf(before, id);
    assert forall j :: 0 <= j <= i ==> after[j].id == ArtifactIds(after)[j] == before[j].id;
  }

  lemma ChunkOnce(t: Task, e: Event, id: string, i: nat)
    requires IndexOf(t.artifacts, id) == i
    requires OnlyChunksFor([e], id) && Apply(t, e).Ok?
    ensures IndexOf(Apply(t, e).value.artifacts, id) == i
    ensures Apply(t, e).value.artifacts[i] ==
            if ChunkFor(e, id) then Extended(t.artifacts[i], e.artifact) else t.artifacts[i]
  {
    assert [e][0] == e;
    ApplyKeeps(t, e);
    IndexSurvives(t.artifacts, Apply(t, e).value.artifacts, id);
  }

  function WithChunks(a: Artifact, events: seq<Event>, id: string): Artifact
    decreases |events|
  {
    if events == [] then a
    else WithChunks(if ChunkFor(events[0], id) then Extended(a, events[0].artifact) else a, events[1..], id)
  }

  lemma {:induction false} WithChunksParts(a: Artifact, events: seq<Event>, id: string)
    ensures WithChunks(a, events, id).parts == a.parts + ChunkParts(events, id)
    ensures WithChunks(a, events, id).(parts := a.parts, metadata := a.metadata) == a
    decreases |events|
  {
    if events != [] {
      var next := if ChunkFor(events[0], id) then Extended(a, events[0].artifact) else a;
      WithChunksParts(next, events[1..], id);
    }
  }

  lemma {:induction false} WithChunksMetadata(a: Artifact, events: seq<Event>, id: string)
    ensures WithChunks(a, events, id).metadata == a.metadata + ChunkMetadata(events, id)
    decreases |events|
  {
    if events != [] {
      var next := if ChunkFor(events[0], id) then Extended(a, events[0].artifact) else a;
      WithChunksMetadata(next, events[1..], id);
      var chunk := if ChunkFor(events[0], id) then events[0].artifact.metadata else map[];
      MergeAssociative(a.metadata, chunk, ChunkMetadata(events[1..], id));
    }
  }

  lemma MergeAssociative(a: Metadata, b: Metadata, c: Metadata)
    ensures (a + b) + c == a + (b + c)
    ensures a + map[] == a
  {
  }

  lemma {:induction false} ChunksAccumulate(t: Task, events: seq<Event>, id: string, i: nat)
    requires IndexOf(t.artifacts, id) == i
    requires OnlyChunksFor(events, id) && Run(t, events).Ok?
    ensures IndexOf(Run(t, events).value.artifacts, id) == i
    ensures Run(t, events).value.artifacts[i] == WithChunks(t.artifacts[i], events, id)
    decreases |events|
  {
    if events != [] {
      ChunkOnce(t, events[0], id, i);
      ChunksAccumulate(Apply(t, events[0]).value, events[1..], id, i);
    }
  }

  /** A streamed artifact ends up as its first chunk followed by every appended one. */
  lemma StreamedArtifact(t: Task, first: Event, events: seq<Event>)
    requires first.ArtifactEvent? && !first.append
    requires Run(t, [first] + events).Ok? && OnlyChunksFor(events, first.artifact.id)
    ensures var a := first.artifact;
            var result := Run(t, [first] + events).value.artifacts;
            var i := IndexOf(result, a.id);
            && i >= 0
            && result[i] ==
               a.(parts := a.parts + ChunkParts(events, a.id), metadata := a.metadata + ChunkMetadata(events, a.id))
  {
    assert ([first] + events)[1..] == events;
    var next := Apply(t, first).value;
    var i := IndexOf(next.artifacts, first.artifact.id);
    var at := IndexOf(t.artifacts, first.artifact.id);
    assert next.artifacts[if at < 0 then |t.artifacts| else at] == first.artifact;
    ChunksAccumulate(next, events, first.artifact.id, i);
    WithChunksParts(first.artifact, events, first.artifact.id);
    WithChunksMetadata(first.artifact, events, first.artifact.id);
  }
}
