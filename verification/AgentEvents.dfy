/** Agent-state events, and the cache entries they are stored in. */
module AgentEvents {
  import opened Wrappers
  import opened Sequences

  datatype ToolKind = Search | Read | Edit | Build | Test | Diff | Git | Fetch | Generic

  /** The fields of a tool invocation that a snapshot computes with; `details` stands for those it copies. */
  datatype ToolCall = ToolCall(
    invocationId: string,
    sequence: nat,
    toolName: string,
    kind: ToolKind,
    searchQuery: Option<string>,
    artifactId: Option<string>,
    details: string)

  datatype EventData =
    | FocusSet
    | FocusCleared(clearAll: bool)
    | FileRead
    | FileEdited
    | CheckpointSaved(checkpointId: string, checkpointNote: Option<string>)
    | DecisionAdded(
        decisionId: string, decisionText: string, supersedes: Option<string>, decisionArtifact: Option<string>)
    | DecisionSuperseded(supersededId: string)
    | StepCompleted(completedStep: string)
    | QuestionOpened(questionId: string, questionText: string)
    | QuestionResolved(resolvedId: string)
    | ToolInvocationStarted
    | ToolInvocationCompleted(call: ToolCall)
    | ToolInvocationFailed(failedCall: ToolCall)
    | FocusInferred
    | EvidenceCaptured(artifactId: string)
    | IntentionRecorded(text: string, note: Option<string>, stepId: Option<string>, aboutQuestion: Option<string>)
    | RecoveredFrom(predecessor: string)

  datatype Event = Event(
    taskId: string,
    eventId: string,
    at: nat,
    paths: seq<string>,
    symbols: seq<string>,
    data: EventData)

  /** A cached packet: the envelope's tool and kind, and its payload if that parses as an event. */
  datatype Packet = Packet(tool: string, kind: string, payload: Option<Event>)

  datatype Entry = Entry(packets: seq<Packet>)

  function PacketEvents(p: Packet): seq<Event> {
    if p.payload.Some? && p.tool == "agenty" && p.kind == "agent_state" then [p.payload.value] else []
  }

  function EntryEvents(entry: Entry): seq<Event> {
    FlatMap(PacketEvents, entry.packets)
  }

  function AllEvents(entries: seq<Entry>): seq<Event> {
    FlatMap(EntryEvents, entries)
  }

  /** The events of a store are the payloads of its agent-state packets. */
  lemma EventsExactly(entries: seq<Entry>, e: Event)
    ensures e in AllEvents(entries) <==> exists entry, p ::
      entry in entries && p in entry.packets && p == Packet("agenty", "agent_state", Some(e))
  {
    FlatMapMembers(EntryEvents, entries);
    if e in AllEvents(entries) {
      var entry :| entry in entries && e in EntryEvents(entry);
      FlatMapMembers(PacketEvents, entry.packets);
      var p :| p in entry.packets && e in PacketEvents(p);
      assert p == Packet("agenty", "agent_state", Some(e));
    }
    if entry, p :| entry in entries && p in entry.packets && p == Packet("agenty", "agent_state", Some(e)) {
      FlatMapMembers(PacketEvents, entry.packets);
      assert e in PacketEvents(p);
      assert e in EntryEvents(entry);
    }
  }

  /** One store is a rearrangement of the other: entries reordered, packets reordered within entries. */
  ghost predicate Rearranged(a: seq<Entry>, b: seq<Entry>) {
    exists c: seq<Entry> ::
      && multiset(a) == multiset(c)
      && |c| == |b|
      && forall i :: 0 <= i < |c| ==> multiset(c[i].packets) == multiset(b[i].packets)
  }

  lemma RearrangedKeepsEvents(a: seq<Entry>, b: seq<Entry>)
    requires Rearranged(a, b)
    ensures multiset(AllEvents(a)) == multiset(AllEvents(b))
  {
    var c: seq<Entry> :|
      && multiset(a) == multiset(c)
      && |c| == |b|
      && forall i :: 0 <= i < |c| ==> multiset(c[i].packets) == multiset(b[i].packets);
    FlatMapPermuted(EntryEvents, a, c);
    forall i | 0 <= i < |c| ensures multiset(EntryEvents(c[i])) == multiset(EntryEvents(b[i])) {
      FlatMapPermuted(PacketEvents, c[i].packets, b[i].packets);
    }
    FlatMapPointwisePermuted(EntryEvents, c, b);
  }
}
