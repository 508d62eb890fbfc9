/** Recovering the events between two snapshots of a task (a2aevent/diff.go),
    and the round trip with applying them. */
module Recovery {
  import opened Json
  import opened Tasks
  import opened Patch

  // ---- What the diff computes ----

  /** The entries of `curr` that `prev` lacks or holds with another value. */
  function MetadataDiff(prev: Metadata, curr: Metadata): Metadata {
    map k | k in curr && !(k in prev && prev[k] == curr[k]) :: curr[k]
  }

  predicate SameHeader(prev: Artifact, curr: Artifact) {
    prev.name == curr.name && prev.description == curr.description && prev.extensions == curr.extensions
  }

  predicate KeysRemoved(prev: Metadata, curr: Metadata) {
    exists k :: k in prev && k !in curr
  }

  predicate StatusChanged(prev: Status, curr: Status) {
    || prev.state != curr.state
    || prev.message.Some? != curr.message.Some?
    || (prev.message.Some? && prev.message.value.id != curr.message.value.id)
    || prev.timestamp != curr.timestamp
  }

  function Replacement(curr: Task, a: Artifact): Event {
    ArtifactEvent(curr.id, curr.contextId, a, false, false, map[])
  }

  function Chunk(curr: Task, id: string, parts: seq<Part>, metadata: Metadata): Event {
    ArtifactEvent(curr.id, curr.contextId, Artifact(id, "", "", [], metadata, parts), true, false, map[])
  }

  /** At most one event for each artifact of the current snapshot. */
  function ArtifactDiff(prev: Task, curr: Task, a: Artifact): seq<Event> {
    var i := IndexOf(prev.artifacts, a.id);
    if i < 0 then [Replacement(curr, a)]
    else
      var was := prev.artifacts[i];
      var canAppend := SameHeader(was, a) && !KeysRemoved(was.metadata, a.metadata);
      if canAppend && was.parts < a.parts then
        [Chunk(curr, a.id, a.parts[|was.parts|..], MetadataDiff(was.metadata, a.metadata))]
      else if was.parts == a.parts && MetadataDiff(was.metadata, a.metadata) == map[] && canAppend then []
      else [Replacement(curr, a)]
  }

  function ArtifactDiffs(prev: Task, curr: Task, artifacts: seq<Artifact>): seq<Event> {
    if artifacts == [] then []
    else ArtifactDiffs(prev, curr, artifacts[..|artifacts| - 1]) + ArtifactDiff(prev, curr, artifacts[|artifacts| - 1])
  }

  function StatusDiff(prev: Task, curr: Task): seq<Event> {
    if StatusChanged(prev.status, curr.status) || MetadataDiff(prev.metadata, curr.metadata) != map[]
    then [StatusEvent(curr.id, curr.contextId, curr.status, MetadataDiff(prev.metadata, curr.metadata))]
    else []
  }

  function Recovered(prev: Task, curr: Task): seq<Event> {
    ArtifactDiffs(prev, curr, curr.artifacts) + StatusDiff(prev, curr)
  }

  // ---- The same, as the loops of the source ----

  method DiffMetadata(prev: Metadata, curr: Metadata) returns (diff: Metadata)
    ensures diff == MetadataDiff(prev, curr)
    ensures prev + diff == prev + curr
  {
    diff := map[];
    var left := curr.Keys;
    while left != {}
      invariant left <= curr.Keys
      invariant diff == map k | k in curr && k !in left && !(k in prev && prev[k] == curr[k]) :: curr[k]
    {
      var k :| k in left;
      if k !in prev || prev[k] != curr[k] {
        diff := diff[k := curr[k]];
      }
      left := left - {k};
    }
  }

  method HasRemovedKeys(prev: Metadata, curr: Metadata) returns (removed: bool)
    ensures removed <==> !(prev.Keys <= curr.Keys)
  {
    var left := prev.Keys;
    while left != {}
      invariant left <= prev.Keys
      invariant prev.Keys - left <= curr.Keys
    {
      var k :| k in left;
      if k !in curr {
        return true;
      }
      left := left - {k};
    }
    return false;
  }

  datatype PartsDiff = PartsDiff(parts: seq<Part>, append: bool)

  /** Either nothing to say, or a suffix to append to `prev`, or all of `curr`. */
  method DiffParts(prev: seq<Part>, curr: seq<Part>) returns (diff: Option<PartsDiff>)
    ensures diff.None? <==> prev == curr
    ensures diff.Some? && diff.value.append ==> prev < curr && curr == prev + diff.value.parts
    ensures diff.Some? && !diff.value.append ==> !(prev <= curr) && curr == diff.value.parts
  {
    if |curr| < |prev| {
      return Some(PartsDiff(curr, false));
    }
    for i := 0 to |prev|
      invariant prev[..i] == curr[..i]
    {
      if prev[i] != curr[i] {
        return Some(PartsDiff(curr, false));
      }
    }
    if |curr| == |prev| {
      return None;
    }
    return Some(PartsDiff(curr[|prev|..], true));
  }

  method Recover(prev: Task, curr: Task) returns (events: seq<Event>)
    ensures events == Recovered(prev, curr)
  {
    events := [];
    for n := 0 to |curr.artifacts|
      invariant events == ArtifactDiffs(prev, curr, curr.artifacts[..n])
    {
      var a := curr.artifacts[n];
      assert curr.artifacts[..n + 1] == curr.artifacts[..n] + [a];
      var i := IndexOf(prev.artifacts, a.id);
      if i < 0 {
        events := events + [Replacement(curr, a)];
        continue;
      }
      var was := prev.artifacts[i];
      var metaDiff := DiffMetadata(was.metadata, a.metadata);
      var partDiff := DiffParts(was.parts, a.parts);
      var removed := HasRemovedKeys(was.metadata, a.metadata);
      assert removed == KeysRemoved(was.metadata, a.metadata);
      var canAppend := SameHeader(was, a) && !removed;
      if partDiff.Some? && partDiff.value.append && canAppend {
        assert partDiff.value.parts == a.parts[|was.parts|..];
        events := events + [Chunk(curr, a.id, partDiff.value.parts, metaDiff)];
        continue;
      }
      if partDiff.Some? || metaDiff != map[] || !canAppend {
        events := events + [Replacement(curr, a)];
      }
    }
    assert curr.artifacts[..|curr.artifacts|] == curr.artifacts;
    var metaDiff := DiffMetadata(prev.metadata, curr.metadata);
    if StatusChanged(prev.status, curr.status) || metaDiff != map[] {
      events := events + [StatusEvent(curr.id, curr.contextId, curr.status, metaDiff)];
    }
  }

  // ---- The patched task ----

  /** The version of `a` in `currs`, or `a` itself when it was dropped. */
  function Latest(a: Artifact, currs: seq<Artifact>): Artifact {
    var i := IndexOf(currs, a.id);
    if i < 0 then a else currs[i]
  }

  function Updated(prevs: seq<Artifact>, currs: seq<Artifact>): (r: seq<Artifact>)
    ensures |r| == |prevs|
  {
    seq(|prevs|, i requires 0 <= i < |prevs| => Latest(prevs[i], currs))
  }

  /** The artifacts of `currs` that `prevs` does not have, in order. */
  function Added(prevs: seq<Artifact>, currs: seq<Artifact>): seq<Artifact> {
    if currs == [] then []
    else
      var last := currs[|currs| - 1];
      Added(prevs, currs[..|currs| - 1]) + if IndexOf(prevs, last.id) < 0 then [last] else []
  }

  function Patched(prev: Task, curr: Task): Task {
    var emits := StatusDiff(prev, curr) != [];
    prev.(
      artifacts := Updated(prev.artifacts, curr.artifacts) + Added(prev.artifacts, curr.artifacts),
      metadata := prev.metadata + curr.metadata,
      history := if emits then Archived(prev.history, prev.status) else prev.history,
      status := if emits then curr.status else prev.status)
  }

  ghost predicate SameTask(prev: Task, curr: Task) {
    prev.id == curr.id && prev.contextId == curr.contextId
  }

  ghost predicate UniqueArtifacts(t: Task) {
    Distinct(ArtifactIds(t.artifacts))
  }

  /** The first artifact with this ID is `a` itself. */
  predicate Holds(artifacts: seq<Artifact>, a: Artifact) {
    var i := IndexOf(artifacts, a.id);
    i >= 0 && artifacts[i] == a
  }

  /** An artifact without parts cannot be sent, so the previous snapshot must have it already. */
  ghost predicate Sendable(prev: Task, curr: Task) {
    SendableUpTo(prev, curr, |curr.artifacts|)
  }

  ghost predicate SendableUpTo(prev: Task, curr: Task, k: nat)
    requires k <= |curr.artifacts|
  {
    forall i :: 0 <= i < k && curr.artifacts[i].parts == [] ==> Holds(prev.artifacts, curr.artifacts[i])
  }

  /** The previous map already has every current entry. */
  ghost predicate Covers(prev: Metadata, curr: Metadata) {
    forall k :: k in curr ==> k in prev && prev[k] == curr[k]
  }

  /** Nothing of the current snapshot is missing from the previous one. */
  ghost predicate UpToDate(prev: Task, curr: Task) {
    && (forall i :: 0 <= i < |curr.artifacts| ==> Holds(prev.artifacts, curr.artifacts[i]))
    && !StatusReported(prev, curr)
  }

  /** The diff ends with a status event. */
  ghost predicate StatusReported(prev: Task, curr: Task) {
    StatusChanged(prev.status, curr.status) || !Covers(prev.metadata, curr.metadata)
  }

  // ---- Round trip ----

  lemma DiffDeterminesArtifact(prev: Task, curr: Task, a: Artifact, i: nat)
    requires IndexOf(prev.artifacts, a.id) == i
    ensures ArtifactDiff(prev, curr, a) == [] ==> prev.artifacts[i] == a
    ensures ArtifactDiff(prev, curr, a) != [] ==>
              var e := ArtifactDiff(prev, curr, a)[0];
              (if e.append then Extended(prev.artifacts[i], e.artifact) else e.artifact) == a
  {
    var was := prev.artifacts[i];
    if !KeysRemoved(was.metadata, a.metadata) {
      assert was.metadata + MetadataDiff(was.metadata, a.metadata) == a.metadata by {
        assert forall k :: k in was.metadata ==> k in a.metadata;
      }
      if MetadataDiff(was.metadata, a.metadata) == map[] {
        assert was.metadata + map[] == was.metadata;
      }
    }
    if was.parts < a.parts {
      assert was.parts + a.parts[|was.parts|..] == a.parts;
    }
  }

  /** The task once the diffs of the first `k` current artifacts have been applied. */
  function Midway(prev: Task, curr: Task, k: nat): Task
    requires k <= |curr.artifacts|
  {
    prev.(artifacts := Updated(prev.artifacts, curr.artifacts[..k]) + Added(prev.artifacts, curr.artifacts[..k]))
  }

  lemma AddedIds(prevs: seq<Artifact>, currs: seq<Artifact>)
    ensures forall a :: a in Added(prevs, currs) <==> a in currs && IndexOf(prevs, a.id) < 0
  {
    if currs != [] {
      var n := |currs| - 1;
      AddedIds(prevs, currs[..n]);
      assert currs == currs[..n] + [currs[n]];
    }
  }

  lemma LatestStep(p: Artifact, currs: seq<Artifact>, k: nat)
    requires k < |currs| && Distinct(ArtifactIds(currs))
    ensures Latest(p, currs[..k + 1]) == if p.id == currs[k].id then currs[k] else Latest(p, currs[..k])
    ensures p.id == currs[k].id ==> Latest(p, currs[..k]) == p
  {
    var i, j := IndexOf(currs[..k], p.id), IndexOf(currs[..k + 1], p.id);
    assert forall n :: 0 <= n < k ==> currs[..k][n].id == currs[..k + 1][n].id == ArtifactIds(currs)[n];
    assert currs[..k + 1][k].id == ArtifactIds(currs)[k];
  }

  /** Where the artifact that comes next sits in the task so far. */
  lemma MidwayIndex(prev: Task, curr: Task, k: nat)
    requires k < |curr.artifacts| && UniqueArtifacts(curr)
    ensures IndexOf(Midway(prev, curr, k).artifacts, curr.artifacts[k].id) ==
            IndexOf(prev.artifacts, curr.artifacts[k].id)
  {
    var id := curr.artifacts[k].id;
    var updated, added := Updated(prev.artifacts, curr.artifacts[..k]), Added(prev.artifacts, curr.artifacts[..k]);
    assert forall i :: 0 <= i < |updated| ==> updated[i].id == prev.artifacts[i].id;
    AddedIds(prev.artifacts, curr.artifacts[..k]);
    forall a | a in added ensures a.id != id {
      var j :| 0 <= j < k && curr.artifacts[j] == a;
      assert ArtifactIds(curr.artifacts)[j] != ArtifactIds(curr.artifacts)[k];
    }
    var p := updated + added;
    forall i | 0 <= i < |p|
      ensures i < |prev.artifacts| ==> p[i].id == prev.artifacts[i].id
      ensures i >= |prev.artifacts| ==> p[i].id != id
    {
      if i >= |updated| {
        assert p[i] == added[i - |updated|] && p[i] in added;
      }
    }
  }

  lemma MidwayStep(prev: Task, curr: Task, k: nat)
    requires k < |curr.artifacts| && UniqueArtifacts(prev) && UniqueArtifacts(curr)
    ensures Midway(prev, curr, k + 1).artifacts == Put(Midway(prev, curr, k).artifacts, curr.artifacts[k])
    ensures var i := IndexOf(prev.artifacts, curr.artifacts[k].id);
            i >= 0 ==> |Midway(prev, curr, k).artifacts| > i && Midway(prev, curr, k).artifacts[i] == prev.artifacts[i]
  {
    var a := curr.artifacts[k];
    var i := IndexOf(prev.artifacts, a.id);
    MidwayIndex(prev, curr, k);
    assert curr.artifacts[..k + 1][..k] == curr.artifacts[..k];
    forall j | 0 <= j < |prev.artifacts|
      ensures Latest(prev.artifacts[j], curr.artifacts[..k + 1]) ==
              if j == i then a else Latest(prev.artifacts[j], curr.artifacts[..k])
      ensures j == i ==> Latest(prev.artifacts[j], curr.artifacts[..k]) == prev.artifacts[j]
    {
      LatestStep(prev.artifacts[j], curr.artifacts, k);
      if i >= 0 && j != i {
        assert ArtifactIds(prev.artifacts)[j] != ArtifactIds(prev.artifacts)[i];
      }
    }
  }

  lemma DiffShape(prev: Task, curr: Task, a: Artifact)
    ensures |ArtifactDiff(prev, curr, a)| <= 1
    ensures ArtifactDiff(prev, curr, a) != [] ==>
              var e := ArtifactDiff(prev, curr, a)[0];
              && e.ArtifactEvent? && e.taskId == curr.id && e.contextId == curr.contextId
              && e.artifact.id == a.id
              && (e.artifact.parts == [] <==> a.parts == [])
              && (IndexOf(prev.artifacts, a.id) < 0 ==> !e.append && e.artifact == a)
    ensures ArtifactDiff(prev, curr, a) == [] ==> IndexOf(prev.artifacts, a.id) >= 0
  {
  }

  lemma HeldNeedsNothing(prev: Task, curr: Task, a: Artifact)
    requires Holds(prev.artifacts, a)
    ensures ArtifactDiff(prev, curr, a) == []
  {
    assert MetadataDiff(a.metadata, a.metadata) == map[];
  }

  lemma NothingSentIff(prev: Task, curr: Task, a: Artifact)
    ensures ArtifactDiff(prev, curr, a) == [] <==> Holds(prev.artifacts, a)
  {
    DiffShape(prev, curr, a);
    if ArtifactDiff(prev, curr, a) == [] {
      DiffDeterminesArtifact(prev, curr, a, IndexOf(prev.artifacts, a.id));
    }
    if Holds(prev.artifacts, a) {
      HeldNeedsNothing(prev, curr, a);
    }
  }

  /** One artifact further, unless its event has no parts to send. */
  lemma ApplyArtifactDiff(prev: Task, curr: Task, k: nat)
    requires k < |curr.artifacts| && UniqueArtifacts(prev) && UniqueArtifacts(curr)
    requires SameTask(prev, curr) && !prev.Terminal()
    ensures var a := curr.artifacts[k];
            var diff := ArtifactDiff(prev, curr, a);
            Run(Midway(prev, curr, k), diff) ==
            if !Holds(prev.artifacts, a) && a.parts == [] then Err(EmptyArtifact) else Ok(Midway(prev, curr, k + 1))
  {
    hide ArtifactDiff, Updated, Added, IndexOf, Holds;
    NothingSentIff(prev, curr, curr.artifacts[k]);
    var a, before := curr.artifacts[k], Midway(prev, curr, k);
    var i, diff := IndexOf(prev.artifacts, a.id), ArtifactDiff(prev, curr, a);
    MidwayIndex(prev, curr, k);
    MidwayStep(prev, curr, k);
    DiffShape(prev, curr, a);
    if i >= 0 {
      DiffDeterminesArtifact(prev, curr, a, i);
    }
    if diff == [] {
      assert before.artifacts[i := a] == before.artifacts;
    } else {
      assert Run(before, diff) == Apply(before, diff[0]) by {
        assert diff[1..] == [];
      }
    }
  }

  lemma {:induction false} ApplyArtifactDiffs(prev: Task, curr: Task, k: nat)
    requires k <= |curr.artifacts| && UniqueArtifacts(prev) && UniqueArtifacts(curr)
    requires SameTask(prev, curr) && !prev.Terminal()
    ensures Run(prev, ArtifactDiffs(prev, curr, curr.artifacts[..k])) ==
            if SendableUpTo(prev, curr, k) then Ok(Midway(prev, curr, k)) else Err(EmptyArtifact)
  {
    if k == 0 {
      assert forall id :: IndexOf([], id) < 0;
      assert Updated(prev.artifacts, []) + [] == prev.artifacts;
    } else {
      var front, a := curr.artifacts[..k - 1], curr.artifacts[k - 1];
      var diffs, diff := ArtifactDiffs(prev, curr, front), ArtifactDiff(prev, curr, a);
      assert ArtifactDiffs(prev, curr, curr.artifacts[..k]) == diffs + diff by {
        assert curr.artifacts[..k][..k - 1] == front;
      }
      ApplyArtifactDiffs(prev, curr, k - 1);
      ApplyArtifactDiff(prev, curr, k - 1);
      RunConcat(prev, diffs, diff);
    }
  }

  lemma MergedMetadata(prev: Metadata, curr: Metadata)
    ensures prev + MetadataDiff(prev, curr) == prev + curr
    ensures MetadataDiff(prev, curr) == map[] ==> prev + curr == prev
  {
    if MetadataDiff(prev, curr) == map[] {
      forall k | k in curr ensures k in prev && prev[k] == curr[k] {
        assert k !in MetadataDiff(prev, curr);
      }
    }
  }

  lemma ApplyStatusDiff(prev: Task, curr: Task)
    requires SameTask(prev, curr) && !prev.Terminal()
    ensures Run(Midway(prev, curr, |curr.artifacts|), StatusDiff(prev, curr)) == Ok(Patched(prev, curr))
  {
    var mid, tail := Midway(prev, curr, |curr.artifacts|), StatusDiff(prev, curr);
    assert curr.artifacts[..|curr.artifacts|] == curr.artifacts;
    MergedMetadata(prev.metadata, curr.metadata);
    if tail != [] {
      assert tail == [tail[0]] && tail[1..] == [];
      assert Run(mid, tail) == Apply(mid, tail[0]);
    }
  }

  /** Applying the recovered events gives the patched task. */
  lemma PatchReproducesRecovered(prev: Task, curr: Task)
    requires UniqueArtifacts(prev) && UniqueArtifacts(curr)
    requires SameTask(prev, curr) && !prev.Terminal()
    ensures Run(prev, Recovered(prev, curr)) ==
            if Sendable(prev, curr) then Ok(Patched(prev, curr)) else Err(EmptyArtifact)
  {
    assert curr.artifacts[..|curr.artifacts|] == curr.artifacts;
    ApplyArtifactDiffs(prev, curr, |curr.artifacts|);
    RunConcat(prev, ArtifactDiffs(prev, curr, curr.artifacts), StatusDiff(prev, curr));
    ApplyStatusDiff(prev, curr);
  }

  /** Every recovered event carries the identity of the current snapshot and is not a message. */
  lemma RecoveredIdentity(prev: Task, curr: Task, artifacts: seq<Artifact>)
    ensures forall e :: e in ArtifactDiffs(prev, curr, artifacts) + StatusDiff(prev, curr) ==>
              e.TaskId() == curr.id && e.ContextId() == curr.contextId && !e.MessageEvent?
  {
  }

  lemma {:induction false} NothingToSendIff(prev: Task, curr: Task, artifacts: seq<Artifact>)
    ensures ArtifactDiffs(prev, curr, artifacts) == [] <==>
            forall i :: 0 <= i < |artifacts| ==> Holds(prev.artifacts, artifacts[i])
  {
    if artifacts != [] {
      hide ArtifactDiff, Holds;
      var n := |artifacts| - 1;
      NothingToSendIff(prev, curr, artifacts[..n]);
      NothingSentIff(prev, curr, artifacts[n]);
      assert forall i :: 0 <= i < n ==> artifacts[..n][i] == artifacts[i];
    }
  }

  lemma NoStatusDiffIff(prev: Task, curr: Task)
    ensures StatusDiff(prev, curr) == [] <==> !StatusReported(prev, curr)
  {
    if MetadataDiff(prev.metadata, curr.metadata) == map[] {
      forall k | k in curr.metadata ensures k in prev.metadata && prev.metadata[k] == curr.metadata[k] {
        assert k !in MetadataDiff(prev.metadata, curr.metadata);
      }
    }
  }

  /** Exactly when there is nothing to recover. */
  lemma NothingToRecoverIff(prev: Task, curr: Task)
    ensures Recovered(prev, curr) == [] <==> UpToDate(prev, curr)
  {
    NothingToSendIff(prev, curr, curr.artifacts);
    NoStatusDiffIff(prev, curr);
  }

  /** Exactly when replaying the recovered events is accepted. */
  lemma {:induction false} ReplayAcceptedIff(prev: Task, curr: Task)
    requires UniqueArtifacts(prev) && UniqueArtifacts(curr)
    ensures Run(prev, Recovered(prev, curr)).Ok? <==>
            UpToDate(prev, curr) || (SameTask(prev, curr) && !prev.Terminal() && Sendable(prev, curr))
  {
    NothingToRecoverIff(prev, curr);
    if SameTask(prev, curr) && !prev.Terminal() {
      PatchReproducesRecovered(prev, curr);
    } else if Recovered(prev, curr) != [] {
      RecoveredIdentity(prev, curr, curr.artifacts);
      var e := Recovered(prev, curr)[0];
      assert e in Recovered(prev, curr);
      assert Apply(prev, e).Err?;
    }
  }

  // ---- What is sent is as little as possible ----

  /** No smaller diff does: whatever merges to the same map has every entry of it. */
  lemma LeastMetadata(prev: Metadata, curr: Metadata, other: Metadata)
    requires prev + other == prev + curr
    ensures forall k :: k in MetadataDiff(prev, curr) ==> k in other && other[k] == MetadataDiff(prev, curr)[k]
  {
    forall k | k in MetadataDiff(prev, curr) ensures k in other && other[k] == curr[k] {
      assert (prev + curr)[k] == curr[k] == (prev + other)[k];
    }
  }

  /** An artifact that only grew is sent as a chunk, and nothing else is. */
  lemma AppendsIff(prev: Task, curr: Task, a: Artifact, i: nat)
    requires IndexOf(prev.artifacts, a.id) == i && ArtifactDiff(prev, curr, a) != []
    ensures ArtifactDiff(prev, curr, a)[0].append <==>
            exists chunk: Artifact :: chunk.parts != [] && Extended(prev.artifacts[i], chunk) == a
  {
    var was := prev.artifacts[i];
    if ArtifactDiff(prev, curr, a)[0].append {
      DiffDeterminesArtifact(prev, curr, a, i);
      assert ArtifactDiff(prev, curr, a)[0].artifact.parts != [];
    }
    if chunk: Artifact :| chunk.parts != [] && Extended(was, chunk) == a {
      assert was.parts + chunk.parts == a.parts && was.metadata + chunk.metadata == a.metadata;
      assert forall k :: k in was.metadata ==> k in was.metadata + chunk.metadata;
    }
  }

  /** A chunk holds exactly the new parts, and only the entries that any chunk to the same effect has. */
  lemma LeastChunk(prev: Task, curr: Task, a: Artifact, i: nat, chunk: Artifact)
    requires IndexOf(prev.artifacts, a.id) == i && ArtifactDiff(prev, curr, a) != []
    requires ArtifactDiff(prev, curr, a)[0].append && Extended(prev.artifacts[i], chunk) == a
    ensures var sent := ArtifactDiff(prev, curr, a)[0].artifact;
            && sent.id == a.id && sent.parts == chunk.parts
            && forall k :: k in sent.metadata ==> k in chunk.metadata && chunk.metadata[k] == sent.metadata[k]
  {
    var was := prev.artifacts[i];
    assert was.parts + chunk.parts == a.parts && was.metadata + chunk.metadata == a.metadata;
    assert a.parts[|was.parts|..] == chunk.parts;
    assert was.metadata + a.metadata == a.metadata;
    LeastMetadata(was.metadata, a.metadata, chunk.metadata);
  }

  /** The status event, if there is one, comes last; all events carry the current identity and, but for
      the merged metadata of the status event, nothing beside their artifact or status. */
  lemma RecoveredShape(prev: Task, curr: Task, n: nat)
    requires n < |Recovered(prev, curr)|
    ensures var e := Recovered(prev, curr)[n];
            && e.TaskId() == curr.id && e.ContextId() == curr.contextId
            && (e.ArtifactEvent? || (e.StatusEvent? && n == |Recovered(prev, curr)| - 1))
            && (e.ArtifactEvent? ==> !e.lastChunk && e.metadata == map[])
            && (e.StatusEvent? ==>
                  e.status == curr.status && prev.metadata + e.metadata == prev.metadata + curr.metadata)
  {
    ArtifactEventsOnly(prev, curr, curr.artifacts);
    MergedMetadata(prev.metadata, curr.metadata);
    var artifacts, status := ArtifactDiffs(prev, curr, curr.artifacts), StatusDiff(prev, curr);
    assert Recovered(prev, curr)[n] == if n < |artifacts| then artifacts[n] else status[n - |artifacts|];
    assert n < |artifacts| ==> Recovered(prev, curr)[n] in artifacts;
  }

  lemma ArtifactEventsOnly(prev: Task, curr: Task, artifacts: seq<Artifact>)
    ensures forall e :: e in ArtifactDiffs(prev, curr, artifacts) ==>
              && e.ArtifactEvent? && e.taskId == curr.id && e.contextId == curr.contextId
              && !e.lastChunk && e.metadata == map[]
  {
  }

  // ---- What the patched task has of the current one ----

  lemma SharedPrefixIds(prevs: seq<Artifact>, currs: seq<Artifact>, k: nat)
    requires Distinct(ArtifactIds(currs)) && ArtifactIds(prevs) <= ArtifactIds(currs) && k < |currs|
    ensures IndexOf(prevs, currs[k].id) >= 0 <==> k < |prevs|
  {
    var i := IndexOf(prevs, currs[k].id);
    assert i >= 0 ==> ArtifactIds(currs)[i] == ArtifactIds(prevs)[i] == ArtifactIds(currs)[k];
    assert k < |prevs| ==> prevs[k].id == ArtifactIds(prevs)[k] == ArtifactIds(currs)[k];
  }

  lemma {:induction false} AddedAfterPrefix(prevs: seq<Artifact>, currs: seq<Artifact>, n: nat)
    requires Distinct(ArtifactIds(currs)) && ArtifactIds(prevs) <= ArtifactIds(currs) && n <= |currs|
    ensures Added(prevs, currs[..n]) == if n <= |prevs| then [] else currs[|prevs|..n]
  {
    if n > 0 {
      assert currs[..n][..n - 1] == currs[..n - 1];
      AddedAfterPrefix(prevs, currs, n - 1);
      SharedPrefixIds(prevs, currs, n - 1);
    }
  }

  lemma UpdatedPrefix(prevs: seq<Artifact>, currs: seq<Artifact>)
    requires Distinct(ArtifactIds(currs)) && ArtifactIds(prevs) <= ArtifactIds(currs)
    ensures Updated(prevs, currs) == currs[..|prevs|]
  {
    forall i | 0 <= i < |prevs| ensures Latest(prevs[i], currs) == currs[i] {
      assert prevs[i].id == ArtifactIds(prevs)[i] == ArtifactIds(currs)[i];
      assert forall j :: 0 <= j < i ==> ArtifactIds(currs)[j] != ArtifactIds(currs)[i];
      assert currs[i].id == prevs[i].id;
    }
  }

  /** The artifacts come back exactly when nothing was dropped or reordered. */
  lemma PatchedArtifactsIff(prev: Task, curr: Task)
    requires UniqueArtifacts(prev) && UniqueArtifacts(curr)
    ensures Patched(prev, curr).artifacts == curr.artifacts <==>
              ArtifactIds(prev.artifacts) <= ArtifactIds(curr.artifacts)
  {
    var prevs, currs := prev.artifacts, curr.artifacts;
    if ArtifactIds(prevs) <= ArtifactIds(currs) {
      ExtensionsComeBack(prevs, currs);
    }
    if Patched(prev, curr).artifacts == currs {
      OldOnesFirst(prevs, currs);
    }
  }

  lemma ExtensionsComeBack(prevs: seq<Artifact>, currs: seq<Artifact>)
    requires Distinct(ArtifactIds(currs)) && ArtifactIds(prevs) <= ArtifactIds(currs)
    ensures Updated(prevs, currs) + Added(prevs, currs) == currs
  {
    hide Updated, Added, IndexOf;
    assert |prevs| == |ArtifactIds(prevs)| <= |ArtifactIds(currs)| == |currs|;
    assert currs[..|currs|] == currs;
    AddedAfterPrefix(prevs, currs, |currs|);
    UpdatedPrefix(prevs, currs);
    assert currs[..|prevs|] + currs[|prevs|..] == currs;
  }

  lemma OldOnesFirst(prevs: seq<Artifact>, currs: seq<Artifact>)
    requires Updated(prevs, currs) + Added(prevs, currs) == currs
    ensures ArtifactIds(prevs) <= ArtifactIds(currs)
  {
    hide Added;
    forall i | 0 <= i < |prevs| ensures currs[i].id == prevs[i].id {
      assert currs[i] == Updated(prevs, currs)[i];
    }
  }

  lemma PatchedMetadataIff(prev: Task, curr: Task)
    ensures Patched(prev, curr).metadata == curr.metadata <==> prev.metadata.Keys <= curr.metadata.Keys
  {
    assert (prev.metadata + curr.metadata).Keys == prev.metadata.Keys + curr.metadata.Keys;
  }

  /** The state, the status message ID and the timestamp always come back. */
  lemma PatchedStatus(prev: Task, curr: Task)
    ensures !StatusChanged(Patched(prev, curr).status, curr.status)
  {
  }

  /** Diff, then patch. */
  lemma {:induction false} RoundTrip(prev: Task, curr: Task)
    requires SameTask(prev, curr) && !prev.Terminal()
    requires UniqueArtifacts(prev) && UniqueArtifacts(curr)
    requires forall i :: 0 <= i < |curr.artifacts| ==> curr.artifacts[i].parts != []
    ensures Run(prev, Recovered(prev, curr)) == Ok(Patched(prev, curr))
    ensures Patched(prev, curr).artifacts == curr.artifacts <==>
              ArtifactIds(prev.artifacts) <= ArtifactIds(curr.artifacts)
    ensures Patched(prev, curr).metadata == curr.metadata <==> prev.metadata.Keys <= curr.metadata.Keys
    ensures Patched(prev, curr).status.state == curr.status.state
    ensures Patched(prev, curr).status.timestamp == curr.status.timestamp
    ensures CurrentId(Patched(prev, curr)) == CurrentId(curr)
  {
    PatchReproducesRecovered(prev, curr);
    PatchedArtifactsIff(prev, curr);
    PatchedMetadataIff(prev, curr);
    PatchedStatus(prev, curr);
  }

  /** No artifact was dropped or reordered, no metadata key was removed, and history and status are what
      a status event makes of the old ones, or the old ones themselves when there is none. */
  ghost predicate ComesBack(prev: Task, curr: Task) {
    && SameTask(prev, curr)
    && ArtifactIds(prev.artifacts) <= ArtifactIds(curr.artifacts)
    && prev.metadata.Keys <= curr.metadata.Keys
    && (if StatusReported(prev, curr) then curr.history == Archived(prev.history, prev.status)
        else curr.history == prev.history && curr.status == prev.status)
  }

  lemma PatchedIsCurrentIff(prev: Task, curr: Task)
    requires UniqueArtifacts(prev) && UniqueArtifacts(curr)
    ensures Patched(prev, curr) == curr <==> ComesBack(prev, curr)
  {
    hide Updated, Added, StatusDiff, StatusReported, Archived;
    PatchedArtifactsIff(prev, curr);
    PatchedMetadataIff(prev, curr);
    NoStatusDiffIff(prev, curr);
  }

  /** Exactly when replaying leads to the current snapshot itself. */
  lemma ReplayReachesCurrentIff(prev: Task, curr: Task)
    requires UniqueArtifacts(prev) && UniqueArtifacts(curr)
    ensures Run(prev, Recovered(prev, curr)) == Ok(curr) <==>
            prev == curr || (!prev.Terminal() && Sendable(prev, curr) && ComesBack(prev, curr))
  {
    hide Recovered, Patched, Sendable, UpToDate, UniqueArtifacts;
    PatchedIsCurrentIff(prev, curr);
    ReplayAcceptedIff(prev, curr);
    NothingToRecoverIff(prev, curr);
    if prev == curr {
      SelfDiffIsEmpty(prev);
    }
    if SameTask(prev, curr) && !prev.Terminal() {
      PatchReproducesRecovered(prev, curr);
    }
  }

  /** For example, an edited status message that kept its ID is not recovered. */
  lemma EditedMessageIsMissed(t: Task, m: Message, edited: Message)
    requires UniqueArtifacts(t) && m.id == edited.id && m != edited
    ensures var prev := t.(status := t.status.(message := Some(m)));
            var curr := t.(status := t.status.(message := Some(edited)));
            prev != curr && Recovered(prev, curr) == []
  {
    var prev := t.(status := t.status.(message := Some(m)));
    SelfDiffIsEmpty(prev);
    var curr := t.(status := t.status.(message := Some(edited)));
    assert prev.status.message != curr.status.message;
    NothingToRecoverIff(prev, prev);
    NothingToRecoverIff(prev, curr);
    assert UpToDate(prev, prev) ==> UpToDate(prev, curr);
  }

  // ---- Convergence ----

  lemma HoldsAfterPut(s: seq<Artifact>, last: Artifact, a: Artifact)
    requires a == last || (a.id != last.id && Holds(s, a))
    ensures Holds(Put(s, last), a)
  {
    var i, p := IndexOf(s, last.id), Put(s, last);
    var n := if a != last then IndexOf(s, a.id) else if i < 0 then |s| else i;
    assert p[n] == a;
    assert forall j :: 0 <= j < n ==> p[j].id != a.id;
  }

  /** Later artifacts leave the ones already patched in alone. */
  lemma {:induction false} MidwayHolds(prev: Task, curr: Task, k: nat, n: nat)
    requires UniqueArtifacts(prev) && UniqueArtifacts(curr) && k < n <= |curr.artifacts|
    ensures Holds(Midway(prev, curr, n).artifacts, curr.artifacts[k])
  {
    hide Midway, Holds, Put, Updated, Added;
    MidwayStep(prev, curr, n - 1);
    if k < n - 1 {
      MidwayHolds(prev, curr, k, n - 1);
      assert ArtifactIds(curr.artifacts)[k] != ArtifactIds(curr.artifacts)[n - 1];
    }
    HoldsAfterPut(Midway(prev, curr, n - 1).artifacts, curr.artifacts[n - 1], curr.artifacts[k]);
  }

  lemma PatchedLeavesNoStatusDiff(prev: Task, curr: Task)
    ensures StatusDiff(Patched(prev, curr), curr) == []
  {
    PatchedStatus(prev, curr);
    assert MetadataDiff(prev.metadata + curr.metadata, curr.metadata) == map[];
  }

  /** Recovering again from the patched task finds nothing left to send. */
  lemma Convergence(prev: Task, curr: Task)
    requires UniqueArtifacts(prev) && UniqueArtifacts(curr)
    ensures Recovered(Patched(prev, curr), curr) == []
  {
    var n := |curr.artifacts|;
    assert Midway(prev, curr, n).artifacts == Patched(prev, curr).artifacts by {
      assert curr.artifacts[..n] == curr.artifacts;
    }
    forall k | 0 <= k < n ensures Holds(Patched(prev, curr).artifacts, curr.artifacts[k]) {
      MidwayHolds(prev, curr, k, n);
    }
    NothingToSendIff(Patched(prev, curr), curr, curr.artifacts);
    PatchedLeavesNoStatusDiff(prev, curr);
  }

  lemma SelfDiffIsEmpty(t: Task)
    requires UniqueArtifacts(t)
    ensures Recovered(t, t) == []
  {
    forall k | 0 <= k < |t.artifacts| ensures Holds(t.artifacts, t.artifacts[k]) {
      assert forall j :: 0 <= j < k ==> ArtifactIds(t.artifacts)[j] != ArtifactIds(t.artifacts)[k];
    }
    assert MetadataDiff(t.metadata, t.metadata) == map[];
    NothingToSendIff(t, t, t.artifacts);
  }
}
