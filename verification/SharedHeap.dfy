/** The same updates on shared, mutable structures (a2aevent/event.go): tasks share
    artifacts, backing arrays and maps, and only freshly cloned ones are written. */
module SharedHeap {
  import opened Json
  import opened Tasks
  import opened Patch

  /** A slice starts at the beginning of a backing array that other slices may share. */
  datatype Slice<T> = Slice(backing: array<T>, len: nat)

  class MetadataMap {
    var entries: Metadata

    constructor (entries: Metadata)
      ensures this.entries == entries
    {
      this.entries := entries;
    }
  }

  ghost predicate Fits<T>(s: Slice<T>) {
    s.len <= s.backing.Length
  }

  ghost function Elements<T>(s: Slice<T>): seq<T>
    requires Fits(s)
    reads s.backing
  {
    s.backing[..s.len]
  }

  ghost function EntriesOf(m: MetadataMap?): Metadata
    reads m
  {
    if m == null then map[] else m.entries
  }

  class ArtifactObject {
    var id: string
    var name: string
    var description: string
    var extensions: seq<string>
    var metadata: MetadataMap?
    var parts: Slice<Part>

    constructor Copy(src: ArtifactObject)
      ensures id == src.id && name == src.name && description == src.description
      ensures extensions == src.extensions && metadata == src.metadata && parts == src.parts
    {
      id, name, description := src.id, src.name, src.description;
      extensions, metadata, parts := src.extensions, src.metadata, src.parts;
    }

    ghost predicate Valid()
      reads this
    {
      Fits(parts)
    }

    ghost function View(): Artifact
      requires Valid()
      reads this, metadata, parts.backing
    {
      Artifact(id, name, description, extensions, EntriesOf(metadata), Elements(parts))
    }
  }

  class TaskObject {
    var id: string
    var contextId: string
    var artifacts: Slice<ArtifactObject?>
    var history: Slice<Message>
    var metadata: MetadataMap?
    var status: Status

    constructor Copy(src: TaskObject)
      ensures id == src.id && contextId == src.contextId && artifacts == src.artifacts
      ensures history == src.history && metadata == src.metadata && status == src.status
    {
      id, contextId, artifacts := src.id, src.contextId, src.artifacts;
      history, metadata, status := src.history, src.metadata, src.status;
    }

    ghost predicate Valid()
      reads this, artifacts.backing, artifacts.backing[..]
    {
      && Fits(artifacts) && Fits(history)
      && forall i :: 0 <= i < artifacts.len ==> artifacts.backing[i] != null && artifacts.backing[i].Valid()
    }

    /** Every object that the view depends on. */
    ghost function Footprint(): set<object?>
      reads this, artifacts.backing, artifacts.backing[..]
    {
      {this, metadata, history.backing, artifacts.backing}
      + (set a | a in artifacts.backing[..])
      + (set a | a in artifacts.backing[..] && a != null :: a.metadata)
      + (set a | a in artifacts.backing[..] && a != null :: a.parts.backing)
    }

    ghost function View(): Task
      requires Valid()
      reads this, metadata, history.backing, artifacts.backing, artifacts.backing[..]
      reads set a | a in artifacts.backing[..] && a != null :: a.metadata
      reads set a | a in artifacts.backing[..] && a != null :: a.parts.backing
    {
      Task(id, contextId, ArtifactViews(artifacts), Elements(history), EntriesOf(metadata), status)
    }
  }

  ghost function ArtifactViews(s: Slice<ArtifactObject?>): (views: seq<Artifact>)
    requires Fits(s)
    requires forall i :: 0 <= i < s.len ==> s.backing[i] != null && s.backing[i].Valid()
    reads s.backing, s.backing[..]
    reads set a | a in s.backing[..] && a != null :: a.metadata
    reads set a | a in s.backing[..] && a != null :: a.parts.backing
    ensures |views| == s.len
    ensures forall i :: 0 <= i < s.len ==> views[i] == s.backing[i].View()
  {
    seq(s.len, i
      requires 0 <= i < s.len && s.backing[i] != null && s.backing[i].Valid()
      reads s.backing, s.backing[..]
      reads set a | a in s.backing[..] && a != null :: a.metadata
      reads set a | a in s.backing[..] && a != null :: a.parts.backing
      => s.backing[i].View())
  }

  // ---- Library operations on slices and maps ----

  /** `slices.Clone`: a fresh backing array, possibly with room to spare. */
  method CloneSlice<T(0)>(s: Slice<T>) returns (r: Slice<T>)
    requires Fits(s)
    ensures Fits(r) && fresh(r.backing) && Elements(r) == Elements(s)
  {
    var spare: nat :| true;
    var backing := new T[s.len + spare];
    forall i | 0 <= i < s.len {
      backing[i] := s.backing[i];
    }
    r := Slice(backing, s.len);
  }

  /** `append`: writes into the spare room of the shared backing array when there is enough. */
  method AppendAll<T(0)>(s: Slice<T>, more: seq<T>) returns (r: Slice<T>)
    requires Fits(s)
    modifies s.backing
    ensures Fits(r) && (r.backing == s.backing || fresh(r.backing))
    ensures Elements(r) == old(Elements(s)) + more
    ensures s.backing[..s.len] == old(s.backing[..s.len])
  {
    if s.len + |more| <= s.backing.Length {
      forall i | 0 <= i < |more| {
        s.backing[s.len + i] := more[i];
      }
      r := Slice(s.backing, s.len + |more|);
    } else {
      var spare: nat :| true;
      var backing := new T[s.len + |more| + spare];
      forall i | 0 <= i < s.len + |more| {
        backing[i] := if i < s.len then s.backing[i] else more[i - s.len];
      }
      r := Slice(backing, s.len + |more|);
    }
  }

  /** `slices.IndexFunc` by artifact ID, from position `n` on. */
  function FindArtifact(s: Slice<ArtifactObject?>, id: string, n: nat := 0): (i: int)
    requires n <= s.len <= s.backing.Length
    requires forall j :: 0 <= j < s.len ==> s.backing[j] != null
    reads s.backing, s.backing[..]
    ensures i == -1 || n <= i < s.len
    ensures i >= 0 ==> s.backing[i].id == id
    ensures forall j :: n <= j < (if i < 0 then s.len else i) ==> s.backing[j].id != id
    decreases s.len - n
  {
    if n == s.len then -1
    else if s.backing[n].id == id then n
    else FindArtifact(s, id, n + 1)
  }

  lemma FindsInView(t: TaskObject, id: string)
    requires t.Valid()
    ensures var i := FindArtifact(t.artifacts, id);
            && i == IndexOf(t.View().artifacts, id)
            && |t.View().artifacts| == t.artifacts.len
            && (i >= 0 ==> t.artifacts.backing[i].Valid() && t.artifacts.backing[i].View() == t.View().artifacts[i])
  {
    assert forall j :: 0 <= j < t.artifacts.len ==> t.View().artifacts[j].id == t.artifacts.backing[j].id;
  }

  /** `maps.Clone` followed by `maps.Copy`, or a new map when there was none. */
  method MergedMap(m: MetadataMap?, more: MetadataMap) returns (r: MetadataMap)
    ensures fresh(r) && r.entries == EntriesOf(m) + more.entries
  {
    if m == null {
      r := new MetadataMap(map[]);
    } else {
      r := new MetadataMap(m.entries);
    }
    r.entries := r.entries + more.entries;
  }

  // ---- The updates: no existing object is in any modifies clause ----

  /** The list with `a` at `i`, or at its end. */
  ghost function PutAt<T>(s: seq<T>, i: int, a: T): seq<T>
    requires -1 <= i < |s|
  {
    if i < 0 then s + [a] else s[i := a]
  }

  /** A copy of the task with its own artifact list, which shares every other artifact. */
  method WithArtifact(src: TaskObject, i: int, artifact: ArtifactObject) returns (task: TaskObject)
    requires src.Valid() && -1 <= i < src.artifacts.len
    ensures fresh(task) && Fits(task.artifacts)
    ensures Elements(task.artifacts) == PutAt(Elements(src.artifacts), i, artifact)
    ensures task.id == src.id && task.contextId == src.contextId && task.status == src.status
    ensures task.history == src.history && task.metadata == src.metadata
  {
    task := new TaskObject.Copy(src);
    task.artifacts := CloneSlice(src.artifacts);
    if i < 0 {
      task.artifacts := AppendAll(task.artifacts, [artifact]);
    } else {
      task.artifacts.backing[i] := artifact;
    }
  }

  lemma ElementsValid(t: TaskObject)
    requires Fits(t.artifacts) && Fits(t.history)
    ensures t.Valid() <==>
            forall j :: 0 <= j < t.artifacts.len ==>
                          Elements(t.artifacts)[j] != null && Elements(t.artifacts)[j].Valid()
    ensures t.Valid() ==> forall j :: 0 <= j < t.artifacts.len ==>
              t.View().artifacts[j] == Elements(t.artifacts)[j].View()
  {
    assert forall j :: 0 <= j < t.artifacts.len ==> Elements(t.artifacts)[j] == t.artifacts.backing[j];
  }

  lemma WithArtifactView(src: TaskObject, task: TaskObject, i: int, artifact: ArtifactObject)
    requires src.Valid() && artifact.Valid() && -1 <= i < src.artifacts.len && Fits(task.artifacts)
    requires Elements(task.artifacts) == PutAt(Elements(src.artifacts), i, artifact)
    requires task.id == src.id && task.contextId == src.contextId && task.status == src.status
    requires task.history == src.history && task.metadata == src.metadata
    ensures task.Valid()
    ensures task.View() == src.View().(artifacts := PutAt(src.View().artifacts, i, artifact.View()))
  {
    ElementsValid(src);
    ElementsValid(task);
  }

  /** A copy of the artifact with its own parts and metadata, extended by the chunk. */
  method ExtendedCopy(src: ArtifactObject, chunk: ArtifactObject) returns (toUpdate: ArtifactObject)
    requires src.Valid() && chunk.Valid()
    ensures fresh(toUpdate) && toUpdate.Valid()
    ensures toUpdate.View() == Extended(src.View(), chunk.View())
  {
    toUpdate := new ArtifactObject.Copy(src);
    toUpdate.parts := CloneSlice(toUpdate.parts);
    toUpdate.parts := AppendAll(toUpdate.parts, chunk.parts.backing[..chunk.parts.len]);
    if chunk.metadata != null {
      toUpdate.metadata := MergedMap(toUpdate.metadata, chunk.metadata);
    }
  }

  /** Puts `artifact` itself into the copied list, so the task then shares it with the event. */
  method PutArtifact(src: TaskObject, i: int, artifact: ArtifactObject) returns (task: TaskObject)
    requires src.Valid() && artifact.Valid() && -1 <= i < src.artifacts.len
    ensures fresh(task) && task.Valid()
    ensures src.View() == old(src.View()) && artifact.View() == old(artifact.View())
    ensures task.View() == src.View().(artifacts := PutAt(src.View().artifacts, i, artifact.View()))
  {
    task := WithArtifact(src, i, artifact);
    WithArtifactView(src, task, i, artifact);
  }

  method ExtendArtifact(src: TaskObject, i: nat, chunk: ArtifactObject) returns (task: TaskObject)
    requires src.Valid() && chunk.Valid() && i < src.artifacts.len
    ensures fresh(task) && task.Valid()
    ensures src.View() == old(src.View()) && chunk.View() == old(chunk.View())
    ensures task.View() ==
            src.View().(artifacts := PutAt(src.View().artifacts, i, Extended(src.View().artifacts[i], chunk.View())))
  {
    var toUpdate := ExtendedCopy(src.artifacts.backing[i], chunk);
    task := WithArtifact(src, i, toUpdate);
    WithArtifactView(src, task, i, toUpdate);
  }

  lemma AppliesArtifact(src: TaskObject, artifact: ArtifactObject, append: bool)
    requires src.Valid() && artifact.Valid()
    ensures var t, a, i := src.View(), artifact.View(), FindArtifact(src.artifacts, artifact.id);
            && -1 <= i < |t.artifacts| == src.artifacts.len
            && ApplyArtifact(t, a, append) ==
               if artifact.parts.len == 0 then Err(EmptyArtifact)
               else if i < 0 && append then Err(NothingToAppendTo)
               else Ok(t.(artifacts := PutAt(t.artifacts, i, if append then Extended(t.artifacts[i], a) else a)))
  {
    FindsInView(src, artifact.id);
  }

  method ApplyShallowArtifactUpdate(src: TaskObject, artifact: ArtifactObject, append: bool)
    returns (r: Result<TaskObject, UpdateError>)
    requires src.Valid() && artifact.Valid()
    ensures r.Ok? ==> fresh(r.value) && r.value.Valid()
    ensures r.Ok? ==> old(ApplyArtifact(src.View(), artifact.View(), append)) == Ok(r.value.View())
    ensures r.Err? ==> old(ApplyArtifact(src.View(), artifact.View(), append)) == Err(r.error)
  {
    AppliesArtifact(src, artifact, append);
    if artifact.parts.len == 0 {
      return Err(EmptyArtifact);
    }
    var i := FindArtifact(src.artifacts, artifact.id);
    if i < 0 && append {
      return Err(NothingToAppendTo);
    }
    var task;
    if append {
      task := ExtendArtifact(src, i, artifact);
    } else {
      task := PutArtifact(src, i, artifact);
    }
    return Ok(task);
  }

  method StatusMessageInHistory(t: TaskObject) returns (recorded: bool)
    requires t.Valid() && t.status.message.Some?
    ensures recorded <==> Recorded(t.status.message.value, Elements(t.history))
  {
    if t.status.message.value.id == "" {
      return false;
    }
    for n := 0 to t.history.len
      invariant forall j :: 0 <= j < n ==> Elements(t.history)[j].id != t.status.message.value.id
    {
      if t.history.backing[n].id == t.status.message.value.id {
        assert Elements(t.history)[n].id == t.status.message.value.id;
        return true;
      }
    }
    return false;
  }

  method ApplyShallowStatusUpdate(src: TaskObject, status: Status, metadata: MetadataMap?) returns (task: TaskObject)
    requires src.Valid()
    ensures fresh(task) && task.Valid() && task.artifacts == src.artifacts
    ensures Elements(task.history) == Archived(Elements(src.history), src.status)
    ensures EntriesOf(task.metadata) == EntriesOf(src.metadata) + EntriesOf(metadata)
    ensures task.id == src.id && task.contextId == src.contextId && task.status == status
  {
    task := new TaskObject.Copy(src);
    if task.status.message.Some? {
      var recorded := StatusMessageInHistory(task);
      if !recorded {
        task.history := CloneSlice(task.history);
        task.history := AppendAll(task.history, [task.status.message.value]);
      }
    }
    if metadata != null {
      task.metadata := MergedMap(src.metadata, metadata);
    }
    task.status := status;
  }

  method ApplyShallowHistoryUpdate(src: TaskObject, message: Message) returns (task: TaskObject)
    requires src.Valid()
    ensures fresh(task) && task.Valid() && task.artifacts == src.artifacts
    ensures Elements(task.history) == Archived(Elements(src.history), src.status) + [message]
    ensures task.id == src.id && task.contextId == src.contextId && task.status == src.status
    ensures task.metadata == src.metadata
  {
    task := new TaskObject.Copy(src);
    var history := CloneSlice(src.history);
    if src.status.message.Some? {
      var recorded := StatusMessageInHistory(src);
      if !recorded {
        history := AppendAll(history, [src.status.message.value]);
      }
    }
    task.history := AppendAll(history, [message]);
  }

  lemma SameArtifactsView(src: TaskObject, task: TaskObject)
    requires src.Valid() && task.Valid() && task.artifacts == src.artifacts
    requires task.id == src.id && task.contextId == src.contextId
    ensures task.View() == src.View().(
              history := Elements(task.history), metadata := EntriesOf(task.metadata), status := task.status)
    ensures src.View().history == Elements(src.history) && src.View().status == src.status
    ensures src.View().metadata == EntriesOf(src.metadata)
  {
  }

  // ---- One update, and a whole run ----

  datatype EventObject =
    | TaskUpdate(task: TaskObject)
    | MessageUpdate(message: Message)
    | ArtifactUpdate(taskId: string, contextId: string, artifact: ArtifactObject, append: bool, lastChunk: bool,
                     metadata: MetadataMap?)
    | StatusUpdate(taskId: string, contextId: string, status: Status, metadata: MetadataMap?)
  {
    ghost predicate Valid()
      reads if TaskUpdate? then {task} else if ArtifactUpdate? then {artifact} else {}
      reads if TaskUpdate? then {task.artifacts.backing} else {}
      reads if TaskUpdate? then (set a | a in task.artifacts.backing[..]) else {}
    {
      match this
      case TaskUpdate(t) => t.Valid()
      case ArtifactUpdate(_, _, a, _, _, _) => a.Valid()
      case _ => true
    }

    ghost function Footprint(): set<object?>
      reads if TaskUpdate? then {task} else if ArtifactUpdate? then {artifact} else {}
      reads if TaskUpdate? then {task.artifacts.backing} else {}
      reads if TaskUpdate? then (set a | a in task.artifacts.backing[..]) else {}
    {
      match this
      case TaskUpdate(t) => t.Footprint()
      case ArtifactUpdate(_, _, a, _, _, m) => {a, a.metadata, a.parts.backing, m}
      case StatusUpdate(_, _, _, m) => {m}
      case MessageUpdate(_) => {}
    }

    /** The event value that the objects currently stand for. */
    ghost function View(): Event
      requires Valid()
      reads Footprint()
      reads if TaskUpdate? then {task} else if ArtifactUpdate? then {artifact} else {}
      reads if TaskUpdate? then {task.artifacts.backing} else {}
      reads if TaskUpdate? then (set a | a in task.artifacts.backing[..]) else {}
    {
      match this
      case TaskUpdate(t) => TaskEvent(t.View())
      case MessageUpdate(m) => MessageEvent(m)
      case ArtifactUpdate(id, ctx, a, append, last, metadata) =>
        ArtifactEvent(id, ctx, a.View(), append, last, EntriesOf(metadata))
      case StatusUpdate(id, ctx, status, metadata) => StatusEvent(id, ctx, status, EntriesOf(metadata))
    }
  }

  function ValidateUpdate(t: TaskObject, e: EventObject): Option<UpdateError>
    reads t, if e.TaskUpdate? then {e.task} else {}
  {
    var taskId, contextId :=
      match e
      case TaskUpdate(v) => v.id
      case MessageUpdate(m) => m.taskId
      case ArtifactUpdate(id, _, _, _, _, _) => id
      case StatusUpdate(id, _, _, _) => id,
      match e
      case TaskUpdate(v) => v.contextId
      case MessageUpdate(m) => m.contextId
      case ArtifactUpdate(_, ctx, _, _, _, _) => ctx
      case StatusUpdate(_, ctx, _, _) => ctx;
    if e.MessageUpdate? && !e.message.role.UserRole? then Some(NotUserMessage(e.message.role))
    else if t.status.state.Terminal() then Some(TerminalTask(t.status.state))
    else if t.id != taskId && !(e.MessageUpdate? && e.message.taskId == "") then Some(TaskIdMismatch)
    else if t.contextId != contextId && !(e.MessageUpdate? && e.message.contextId == "") then Some(ContextIdMismatch)
    else None
  }

  lemma ValidatesView(t: TaskObject, e: EventObject)
    requires t.Valid() && e.Valid()
    ensures ValidateUpdate(t, e) == Validate(t.View(), e.View())
  {
  }

  lemma ShallowCopyView(v: TaskObject, task: TaskObject)
    requires v.Valid() && Fits(task.artifacts) && Elements(task.artifacts) == Elements(v.artifacts)
    requires task.id == v.id && task.contextId == v.contextId && task.status == v.status
    requires task.history == v.history && EntriesOf(task.metadata) == EntriesOf(v.metadata)
    ensures task.Valid() && task.View() == v.View()
  {
    ElementsValid(v);
    ElementsValid(task);
  }

  /** A whole task is copied with its own artifact list and metadata map; its history stays shared. */
  method ShallowCopy(v: TaskObject) returns (task: TaskObject)
    requires v.Valid()
    ensures v.View() == old(v.View())
    ensures fresh(task) && task.Valid() && task.View() == v.View()
  {
    task := new TaskObject.Copy(v);
    task.artifacts := CloneSlice(v.artifacts);
    if v.metadata != null {
      task.metadata := new MetadataMap(v.metadata.entries);
    }
    ShallowCopyView(v, task);
  }

  method ApplyShallowUpdate(task: TaskObject, e: EventObject) returns (r: Result<TaskObject, UpdateError>)
    requires task.Valid() && e.Valid()
    ensures r.Ok? ==> fresh(r.value) && r.value.Valid()
    ensures r.Ok? ==> old(Apply(task.View(), e.View())) == Ok(r.value.View())
    ensures r.Err? ==> old(Apply(task.View(), e.View())) == Err(r.error)
  {
    ValidatesView(task, e);
    var error := ValidateUpdate(task, e);
    if error.Some? {
      return Err(error.value);
    }
    match e {
      case TaskUpdate(v) =>
        var next := ShallowCopy(v);
        r := Ok(next);
      case MessageUpdate(m) =>
        var next := ApplyShallowHistoryUpdate(task, m);
        assert old(task.View()) == task.View();
        SameArtifactsView(task, next);
        r := Ok(next);
      case ArtifactUpdate(_, _, a, append, _, _) =>
        r := ApplyShallowArtifactUpdate(task, a, append);
      case StatusUpdate(_, _, status, metadata) =>
        var next := ApplyShallowStatusUpdate(task, status, metadata);
        assert old(task.View()) == task.View();
        SameArtifactsView(task, next);
        r := Ok(next);
    }
  }

  /** The task lies within `world` and stands for the value. */
  ghost predicate StandsFor(t: TaskObject, value: Task, world: set<object?>)
    reads world
  {
    && t in world && t.artifacts.backing in world
    && (forall a :: a in t.artifacts.backing[..] ==> a in world)
    && t.Footprint() <= world
    && t.Valid() && t.View() == value
  }

  ghost predicate Carries(e: EventObject, value: Event, world: set<object?>)
    reads world
  {
    && (e.TaskUpdate? ==> e.task in world && e.task.artifacts.backing in world)
    && (e.TaskUpdate? ==> forall a :: a in e.task.artifacts.backing[..] ==> a in world)
    && (e.ArtifactUpdate? ==> e.artifact in world)
    && e.Footprint() <= world
    && e.Valid() && e.View() == value
  }

  method ApplyStep(task: TaskObject, e: EventObject, ghost t: Task, ghost value: Event, ghost world: set<object?>)
    returns (r: Result<TaskObject, UpdateError>, ghost larger: set<object?>)
    requires StandsFor(task, t, world) && Carries(e, value, world)
    ensures world <= larger
    ensures r.Ok? ==> Apply(t, value).Ok? && StandsFor(r.value, Apply(t, value).value, larger)
    ensures r.Err? ==> Apply(t, value) == Err(r.error)
  {
    r := ApplyShallowUpdate(task, e);
    larger := world;
    if r.Ok? {
      larger := world + r.value.Footprint();
    }
  }

  /** Replays the events, keeping a pointer to every snapshot on the way. In the end the events,
      the first task and every snapshot still stand for the values they had: nothing was written to. */
  method Replay(start: TaskObject, events: seq<EventObject>, ghost first: Task, ghost values: seq<Event>,
                ghost world: set<object?>)
    returns (snapshots: seq<TaskObject>, error: Option<UpdateError>, ghost larger: set<object?>)
    requires |values| == |events| && StandsFor(start, first, world)
    requires forall k :: 0 <= k < |events| ==> Carries(events[k], values[k], world)
    ensures 0 < |snapshots| <= |events| + 1 && snapshots[0] == start
    ensures forall k :: 0 <= k < |events| ==> Carries(events[k], values[k], world)
    ensures forall k :: 0 <= k < |snapshots| ==>
              Run(first, values[..k]).Ok? && StandsFor(snapshots[k], Run(first, values[..k]).value, larger)
    ensures error.None? ==> |snapshots| == |events| + 1
    ensures error.Some? ==> |snapshots| <= |events| && Run(first, values) == Err(error.value)
  {
    hide Run, Carries, StandsFor;
    snapshots, error, larger := [start], None, world;
    RunNothing(first, values);
    for n := 0 to |events|
      invariant |snapshots| == n + 1 && snapshots[0] == start && world <= larger
      invariant forall k :: 0 <= k < |events| ==> Carries(events[k], values[k], world)
      invariant forall k :: 0 <= k <= n ==>
                  Run(first, values[..k]).Ok? && StandsFor(snapshots[k], Run(first, values[..k]).value, larger)
    {
      RunSnoc(first, values, n);
      CarriesInLarger(events[n], values[n], world, larger);
      ghost var before := larger;
      var r;
      r, larger := ApplyStep(snapshots[n], events[n], Run(first, values[..n]).value, values[n], larger);
      forall k | 0 <= k <= n ensures StandsFor(snapshots[k], Run(first, values[..k]).value, larger) {
        StandsInLarger(snapshots[k], Run(first, values[..k]).value, before, larger);
      }
      if r.Err? {
        return snapshots, Some(r.error), larger;
      }
      snapshots := snapshots + [r.value];
    }
  }

  lemma StandsInLarger(t: TaskObject, value: Task, world: set<object?>, larger: set<object?>)
    requires world <= larger && StandsFor(t, value, world)
    ensures StandsFor(t, value, larger)
  {
  }

  lemma CarriesInLarger(e: EventObject, value: Event, world: set<object?>, larger: set<object?>)
    requires world <= larger && Carries(e, value, world)
    ensures Carries(e, value, larger)
  {
  }

  lemma RunNothing(t: Task, events: seq<Event>)
    ensures Run(t, events[..0]) == Ok(t)
  {
  }

  lemma RunSnoc(t: Task, events: seq<Event>, n: nat)
    requires n < |events| && Run(t, events[..n]).Ok?
    ensures Run(t, events[..n + 1]) == Apply(Run(t, events[..n]).value, events[n])
    ensures Run(t, events[..n + 1]).Err? ==> Run(t, events) == Run(t, events[..n + 1])
  {
    assert events[..n + 1] == events[..n] + [events[n]];
    RunConcat(t, events[..n], [events[n]]);
    assert [events[n]][1..] == [];
    assert events == events[..n + 1] + events[n + 1..];
    RunConcat(t, events[..n + 1], events[n + 1..]);
  }
}
