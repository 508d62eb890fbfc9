/** Tasks, messages, artifacts and the events that change them (a2a/core.go).
    Nil and empty slices or maps are not told apart. */
module Tasks {
  import opened Json

  type Metadata = map<string, Value>

  /** The named states, and any other string a peer may send. */
  datatype TaskState =
    | Unspecified | AuthRequired | Canceled | Completed | Failed
    | InputRequired | Rejected | Submitted | Working
    | Unknown(name: string)
  {
    predicate Terminal() {
      Completed? || Canceled? || Failed? || Rejected?
    }
  }

  datatype Role = NoRole | AgentRole | UserRole | OtherRole(name: string)

  datatype Content =
    | TextContent(text: string) | RawContent(bytes: seq<bv8>) | DataContent(data: Value) | UrlContent(url: string)

  datatype Part = Part(content: Content, filename: string, mediaType: string, metadata: Metadata)

  datatype Message = Message(
    id: string, contextId: string, taskId: string, role: Role, parts: seq<Part>,
    extensions: seq<string>, metadata: Metadata, referenceTasks: seq<string>)

  datatype Artifact = Artifact(
    id: string, name: string, description: string, extensions: seq<string>,
    metadata: Metadata, parts: seq<Part>)

  /** A timestamp is an instant: `time.Time.Equal` ignores the location. */
  datatype Status = Status(state: TaskState, message: Option<Message>, timestamp: Option<int>)

  datatype Task = Task(
    id: string, contextId: string, artifacts: seq<Artifact>, history: seq<Message>,
    metadata: Metadata, status: Status)
  {
    predicate Terminal() {
      status.state.Terminal()
    }
  }

  datatype Event =
    | TaskEvent(task: Task)
    | MessageEvent(message: Message)
    | ArtifactEvent(taskId: string, contextId: string, artifact: Artifact, append: bool, lastChunk: bool,
                    metadata: Metadata)
    | StatusEvent(taskId: string, contextId: string, status: Status, metadata: Metadata)
  {
    function TaskId(): string {
      match this
      case TaskEvent(t) => t.id
      case MessageEvent(m) => m.taskId
      case ArtifactEvent(id, _, _, _, _, _) => id
      case StatusEvent(id, _, _, _) => id
    }

    function ContextId(): string {
      match this
      case TaskEvent(t) => t.contextId
      case MessageEvent(m) => m.contextId
      case ArtifactEvent(_, ctx, _, _, _, _) => ctx
      case StatusEvent(_, ctx, _, _) => ctx
    }

    /** Events that end the agent execution (`IsFinal`). */
    predicate Final() {
      match this
      case MessageEvent(_) => true
      case ArtifactEvent(_, _, _, _, _, _) => false
      case StatusEvent(_, _, s, _) => s.state.Terminal() || s.state.InputRequired?
      case TaskEvent(t) => t.Terminal() || t.status.state.InputRequired?
    }
  }

  function ArtifactIds(artifacts: seq<Artifact>): (ids: seq<string>)
    ensures |ids| == |artifacts|
    ensures forall i :: 0 <= i < |ids| ==> ids[i] == artifacts[i].id
  {
    seq(|artifacts|, i requires 0 <= i < |artifacts| => artifacts[i].id)
  }

  ghost predicate DistinctIds(messages: seq<Message>) {
    forall i, j :: 0 <= i < j < |messages| ==> messages[i].id != messages[j].id
  }

  ghost predicate Distinct<T>(s: seq<T>) {
    forall i, j :: 0 <= i < j < |s| ==> s[i] != s[j]
  }

  /** `slices.IndexFunc` on artifact IDs: the first match, or -1. */
  function IndexOf(artifacts: seq<Artifact>, id: string): (i: int)
    ensures -1 <= i < |artifacts|
    ensures i >= 0 ==> artifacts[i].id == id
    ensures forall j :: 0 <= j < (if i < 0 then |artifacts| else i) ==> artifacts[j].id != id
  {
    if artifacts == [] then -1
    else if artifacts[0].id == id then 0
    else
      var rest := IndexOf(artifacts[1..], id);
      assert forall j :: 1 <= j < |artifacts| ==> artifacts[j] == artifacts[1..][j - 1];
      if rest < 0 then -1 else rest + 1
  }
}
