/** The agent snapshot: a task's history, sorted and replayed into accumulators. */
module AgentSnapshot {
  import opened Wrappers
  import opened Text
  import opened Order
  import opened Sequences
  import opened Sorting
  import opened AgentEvents
  import opened RecoveryLineage

  const RECENT_INVOCATIONS := 12
  const RECENT_FAILURES := 8

  datatype Decision = Decision(text: string, paths: seq<string>, symbols: seq<string>, artifacts: seq<string>)

  datatype Intention = Intention(
    text: string, note: Option<string>, stepId: Option<string>, aboutQuestion: Option<string>,
    paths: seq<string>, symbols: seq<string>, at: nat)

  datatype LastSuccess = LastSuccess(toolName: string, invocationId: string)

  /** A completed (with its paths and symbols) or failed (without) tool invocation, and who owns it. */
  datatype Invocation = Invocation(owner: string, call: ToolCall, paths: seq<string>, symbols: seq<string>, at: nat)

  datatype Checkpoint = Checkpoint(id: string, at: nat, note: Option<string>, paths: set<string>, symbols: set<string>)

  datatype FocusState = FocusState(paths: set<string>, symbols: set<string>)

  datatype FileState = FileState(
    read: set<string>, edited: set<string>, changedPaths: set<string>, changedSymbols: set<string>)

  datatype ToolState = ToolState(
    invocations: seq<Invocation>,
    failures: seq<Invocation>,
    readByTool: map<(string, ToolKind), set<string>>,
    editedByTool: map<(string, ToolKind), set<string>>,
    searchQueries: set<(string, string)>,
    lastSuccessByKind: map<ToolKind, LastSuccess>)

  /** Everything the replay loop accumulates; the checkpoint's five fields are set together. */
  datatype Ledger = Ledger(
    focus: FocusState,
    files: FileState,
    tools: ToolState,
    checkpoint: Option<Checkpoint>,
    decisions: map<string, Decision>,
    completedSteps: set<string>,
    openQuestions: map<string, string>,
    evidence: set<string>,
    latestIntention: Option<Intention>,
    lastEventAt: Option<nat>)

  const EMPTY: Ledger :=
    Ledger(FocusState({}, {}), FileState({}, {}, {}, {}), ToolState([], [], map[], map[], {}, map[]),
           None, map[], {}, map[], {}, None, None)

  /** Ordered collections are emitted in key order, so the collections themselves stand for the lists. */
  datatype Snapshot = Snapshot(taskId: string, ledger: Ledger, owners: map<string, seq<string>>, eventCount: nat)

  function Elements(s: seq<string>): set<string> {
    set x | x in s
  }

  function PathsAt<K>(m: map<K, set<string>>, key: K): set<string> {
    if key in m then m[key] else {}
  }

  // ---- the order of events ----

  function Generation(lineage: seq<string>, owner: string): nat {
    if lineage == [] || lineage[0] == owner then 0 else 1 + Generation(lineage[1..], owner)
  }

  /** An explicit supersession comes after the other events of its second. */
  function Rank(e: Event): nat {
    if e.data.DecisionSuperseded? then 1 else 0
  }

  predicate EventLe(lineage: seq<string>, a: Event, b: Event) {
    var ga, gb := Generation(lineage, a.taskId), Generation(lineage, b.taskId);
    ga < gb || (ga == gb && (a.at < b.at || (a.at == b.at &&
      (Rank(a) < Rank(b) || (Rank(a) == Rank(b) && StrLe(a.eventId, b.eventId))))))
  }

  function EventOrder(lineage: seq<string>): (Event, Event) -> bool {
    (a, b) => EventLe(lineage, a, b)
  }

  predicate InvocationLe(lineage: seq<string>, a: Invocation, b: Invocation) {
    var ga, gb := Generation(lineage, a.owner), Generation(lineage, b.owner);
    ga < gb || (ga == gb && (a.call.sequence < b.call.sequence || (a.call.sequence == b.call.sequence &&
      (a.at < b.at || (a.at == b.at && StrLe(a.call.invocationId, b.call.invocationId))))))
  }

  function InvocationOrder(lineage: seq<string>): (Invocation, Invocation) -> bool {
    (a, b) => InvocationLe(lineage, a, b)
  }

  lemma EventOrderIsTotal(lineage: seq<string>)
    ensures TotalPreorder(EventOrder(lineage))
  {
    var leq := EventOrder(lineage);
    StrLeIsTotalPreorder();
    forall x, y ensures leq(x, y) || leq(y, x) {
      assert StrLe(x.eventId, y.eventId) || StrLe(y.eventId, x.eventId);
    }
    forall x, y, z | leq(x, y) && leq(y, z) ensures leq(x, z) {
      assert StrLe(x.eventId, y.eventId) && StrLe(y.eventId, z.eventId) ==> StrLe(x.eventId, z.eventId);
    }
  }

  lemma InvocationOrderIsTotal(lineage: seq<string>)
    ensures TotalPreorder(InvocationOrder(lineage))
  {
    var leq := InvocationOrder(lineage);
    StrLeIsTotalPreorder();
    forall x, y ensures leq(x, y) || leq(y, x) {
      var a, b := x.call.invocationId, y.call.invocationId;
      assert StrLe(a, b) || StrLe(b, a);
    }
    forall x, y, z | leq(x, y) && leq(y, z) ensures leq(x, z) {
      var a, b, c := x.call.invocationId, y.call.invocationId, z.call.invocationId;
      assert StrLe(a, b) && StrLe(b, c) ==> StrLe(a, c);
    }
  }

  /** Events of the lineage's tasks, except the links that define the lineage. */
  function Belongs(lineage: seq<string>): Event -> bool {
    (e: Event) => e.taskId in lineage && !e.data.RecoveredFrom?
  }

  function History(events: seq<Event>, lineage: seq<string>): seq<Event> {
    Sort(EventOrder(lineage), Filter(Belongs(lineage), events))
  }

  predicate SameId(e: Event, f: Event) {
    && !e.data.RecoveredFrom? && !f.data.RecoveredFrom?
    && e.taskId == f.taskId && e.at == f.at && Rank(e) == Rank(f) && e.eventId == f.eventId
  }

  /** Among the events of the lineage's tasks, those that agree on task, time, rank and id are the same event. */
  ghost predicate HistoryIdsIdentify(events: seq<Event>, lineage: seq<string>) {
    forall e, f :: e in events && f in events && Belongs(lineage)(e) && Belongs(lineage)(f) && SameId(e, f) ==> e == f
  }

  lemma {:induction false} GenerationsIdentify(lineage: seq<string>, s: string, t: string)
    requires s in lineage && t in lineage
    ensures Generation(lineage, s) < |lineage| && lineage[Generation(lineage, s)] == s
    ensures Generation(lineage, s) == Generation(lineage, t) ==> s == t
  {
    if lineage[0] != s && lineage[0] != t {
      GenerationsIdentify(lineage[1..], s, t);
    } else if lineage[0] != s {
      GenerationsIdentify(lineage[1..], s, s);
    }
  }

  lemma TiesAreEqual(events: seq<Event>, lineage: seq<string>, x: Event, y: Event)
    requires HistoryIdsIdentify(events, lineage) && x in events && y in events
    requires Belongs(lineage)(x) && Belongs(lineage)(y)
    ensures EventLe(lineage, x, y) && EventLe(lineage, y, x) ==> x == y
  {
    GenerationsIdentify(lineage, x.taskId, y.taskId);
    StrLeTies(x.eventId, y.eventId);
  }

  // ---- one event, accumulator by accumulator ----

  function FocusAfter(f: FocusState, e: Event): FocusState {
    match e.data
    case FocusSet | FocusInferred | IntentionRecorded(_, _, _, _) | ToolInvocationCompleted(_) =>
      FocusState(f.paths + Elements(e.paths), f.symbols + Elements(e.symbols))
    case FocusCleared(clearAll) =>
      if clearAll then FocusState({}, {}) else FocusState(f.paths - Elements(e.paths), f.symbols - Elements(e.symbols))
    case _ => f
  }

  predicate IsRead(e: Event) {
    e.data.FileRead? || (e.data.ToolInvocationCompleted? && e.data.call.kind == ToolKind.Read)
  }

  predicate IsEdit(e: Event) {
    e.data.FileEdited? || (e.data.ToolInvocationCompleted? && e.data.call.kind == ToolKind.Edit)
  }

  function FilesAfter(f: FileState, e: Event): FileState {
    if IsRead(e) then f.(read := f.read + Elements(e.paths))
    else if IsEdit(e) then
      f.(edited := f.edited + Elements(e.paths),
         changedPaths := f.changedPaths + Elements(e.paths),
         changedSymbols := f.changedSymbols + Elements(e.symbols))
    else if e.data.CheckpointSaved? then f.(changedPaths := {}, changedSymbols := {})
    else f
  }

  function NonBlank(value: Option<string>): set<string> {
    if value.Some? && !IsBlank(value.value) then {value.value} else {}
  }

  function QueryOf(call: ToolCall): set<(string, string)> {
    if call.searchQuery.Some? && !IsBlank(call.searchQuery.value) then {(call.toolName, call.searchQuery.value)} else {}
  }

  function InvocationOf(e: Event): Invocation
    requires e.data.ToolInvocationCompleted? || e.data.ToolInvocationFailed?
  {
    match e.data
    case ToolInvocationCompleted(call) => Invocation(e.taskId, call, e.paths, e.symbols, e.at)
    case ToolInvocationFailed(call) => Invocation(e.taskId, call, [], [], e.at)
  }

  function ToolsAfter(t: ToolState, e: Event): ToolState {
    match e.data
    case ToolInvocationCompleted(call) =>
      var key := (call.toolName, call.kind);
      ToolState(
        t.invocations + [InvocationOf(e)],
        t.failures,
        if call.kind == ToolKind.Read then t.readByTool[key := PathsAt(t.readByTool, key) + Elements(e.paths)]
        else t.readByTool,
        if call.kind == ToolKind.Edit then t.editedByTool[key := PathsAt(t.editedByTool, key) + Elements(e.paths)]
        else t.editedByTool,
        t.searchQueries + QueryOf(call),
        t.lastSuccessByKind[call.kind := LastSuccess(call.toolName, call.invocationId)])
    case ToolInvocationFailed(_) => t.(failures := t.failures + [InvocationOf(e)])
    case _ => t
  }

  function DecisionsAfter(decisions: map<string, Decision>, e: Event): map<string, Decision> {
    match e.data
    case DecisionAdded(id, text, supersedes, artifact) =>
      var kept := if supersedes.Some? then decisions - {supersedes.value} else decisions;
      kept[id := Decision(text, e.paths, e.symbols, if artifact.Some? then [artifact.value] else [])]
    case DecisionSuperseded(id) => decisions - {id}
    case _ => decisions
  }

  function QuestionsAfter(questions: map<string, string>, e: Event): map<string, string> {
    match e.data
    case QuestionOpened(id, text) => questions[id := text]
    case QuestionResolved(id) => questions - {id}
    case _ => questions
  }

  function EvidenceAfter(evidence: set<string>, e: Event): set<string> {
    match e.data
    case ToolInvocationCompleted(call) => evidence + NonBlank(call.artifactId)
    case EvidenceCaptured(artifact) => evidence + {artifact}
    case _ => evidence
  }

  function Record(l: Ledger, e: Event): Ledger {
    Ledger(
      FocusAfter(l.focus, e),
      FilesAfter(l.files, e),
      ToolsAfter(l.tools, e),
      if e.data.CheckpointSaved?
        then Some(Checkpoint(e.data.checkpointId, e.at, e.data.checkpointNote, Elements(e.paths), Elements(e.symbols)))
        else l.checkpoint,
      DecisionsAfter(l.decisions, e),
      if e.data.StepCompleted? then l.completedSteps + {e.data.completedStep} else l.completedSteps,
      QuestionsAfter(l.openQuestions, e),
      EvidenceAfter(l.evidence, e),
      if e.data.IntentionRecorded?
        then Some(Intention(e.data.text, e.data.note, e.data.stepId, e.data.aboutQuestion, e.paths, e.symbols, e.at))
        else l.latestIntention,
      Some(e.at))
  }

  function Replay(l: Ledger, events: seq<Event>): Ledger {
    if events == [] then l else Record(Replay(l, events[..|events| - 1]), events[|events| - 1])
  }

  function ArtifactOf(e: Event): Option<string> {
    match e.data
    case DecisionAdded(_, _, _, artifact) => artifact
    case ToolInvocationCompleted(call) => call.artifactId
    case EvidenceCaptured(artifact) => Some(artifact)
    case _ => None
  }

  /** An artifact's owners, in the order of the history. */
  function AddOwner(owners: map<string, seq<string>>, e: Event): map<string, seq<string>> {
    match ArtifactOf(e)
    case None => owners
    case Some(artifact) =>
      var known := if artifact in owners then owners[artifact] else [];
      owners[artifact := if e.taskId in known then known else known + [e.taskId]]
  }

  function Owners(owners: map<string, seq<string>>, events: seq<Event>): map<string, seq<string>> {
    if events == [] then owners else AddOwner(Owners(owners, events[..|events| - 1]), events[|events| - 1])
  }

  function Publish(task: string, lineage: seq<string>, l: Ledger, owners: map<string, seq<string>>,
      count: nat): Snapshot {
    var invocations := LastN(RECENT_INVOCATIONS, Sort(InvocationOrder(lineage), l.tools.invocations));
    var failures := LastN(RECENT_FAILURES, Sort(InvocationOrder(lineage), l.tools.failures));
    Snapshot(task, l.(tools := l.tools.(invocations := invocations, failures := failures)), owners, count)
  }

  function SnapshotOf(events: seq<Event>, task: string, lineage: seq<string>): Snapshot {
    var history := History(events, lineage);
    Publish(task, lineage, Replay(EMPTY, history), Owners(map[], history), |history|)
  }

  /** The snapshot the store yields for a task. */
  ghost function TaskSnapshot(events: seq<Event>, task: string): Snapshot {
    SnapshotOf(events, task, Lineage(events, task))
  }

  method ApplyCompletion(before: ToolState, event: Event, call: ToolCall) returns (tools: ToolState)
    requires event.data == ToolInvocationCompleted(call)
    ensures tools == ToolsAfter(before, event)
  {
    hide IsBlank;
    tools := before;
    var key := (call.toolName, call.kind);
    if call.kind == ToolKind.Read {
      tools := tools.(readByTool := tools.readByTool[key := PathsAt(tools.readByTool, key) + Elements(event.paths)]);
    } else if call.kind == ToolKind.Edit {
      var edited := PathsAt(tools.editedByTool, key) + Elements(event.paths);
      tools := tools.(editedByTool := tools.editedByTool[key := edited]);
    }
    if call.searchQuery.Some? && !IsBlank(call.searchQuery.value) {
      tools := tools.(searchQueries := tools.searchQueries + {(call.toolName, call.searchQuery.value)});
    }
    var invocation := Invocation(event.taskId, call, event.paths, event.symbols, event.at);
    tools := tools.(invocations := tools.invocations + [invocation]);
    var success := LastSuccess(call.toolName, call.invocationId);
    tools := tools.(lastSuccessByKind := tools.lastSuccessByKind[call.kind := success]);
  }

  /** The body of the replay loop: one branch per kind of event, each updating what it touches. */
  method ApplyEvent(before: Ledger, event: Event) returns (ledger: Ledger)
    ensures ledger == Record(before, event)
  {
    hide IsBlank;
    var paths, symbols := Elements(event.paths), Elements(event.symbols);
    var focus, files, tools := before.focus, before.files, before.tools;
    var checkpoint, decisions, steps := before.checkpoint, before.decisions, before.completedSteps;
    var questions, evidence, intention := before.openQuestions, before.evidence, before.latestIntention;
    match event.data {
      case FocusSet =>
        focus := FocusState(focus.paths + paths, focus.symbols + symbols);
      case FocusCleared(clearAll) =>
        if clearAll {
          focus := FocusState({}, {});
        } else {
          focus := FocusState(focus.paths - paths, focus.symbols - symbols);
        }
      case FileRead =>
        files := files.(read := files.read + paths);
      case FileEdited =>
        files := files.(edited := files.edited + paths);
        files := files.(changedPaths := files.changedPaths + paths, changedSymbols := files.changedSymbols + symbols);
      case CheckpointSaved(id, note) =>
        checkpoint := Some(Checkpoint(id, event.at, note, paths, symbols));
        files := files.(changedPaths := {}, changedSymbols := {});
      case DecisionAdded(id, text, supersedes, artifact) =>
        if supersedes.Some? {
          decisions := decisions - {supersedes.value};
        }
        var artifacts := if artifact.Some? then [artifact.value] else [];
        decisions := decisions[id := Decision(text, event.paths, event.symbols, artifacts)];
      case DecisionSuperseded(id) =>
        decisions := decisions - {id};
      case StepCompleted(step) =>
        steps := steps + {step};
      case QuestionOpened(id, text) =>
        questions := questions[id := text];
      case QuestionResolved(id) =>
        questions := questions - {id};
      case ToolInvocationStarted =>
      case ToolInvocationCompleted(call) =>
        focus := FocusState(focus.paths + paths, focus.symbols + symbols);
        if call.kind == ToolKind.Read {
          files := files.(read := files.read + paths);
        } else if call.kind == ToolKind.Edit {
          files := files.(edited := files.edited + paths);
          files := files.(changedPaths := files.changedPaths + paths, changedSymbols := files.changedSymbols + symbols);
        }
        tools := ApplyCompletion(tools, event, call);
        if call.artifactId.Some? && !IsBlank(call.artifactId.value) {
          evidence := evidence + {call.artifactId.value};
        }
      case ToolInvocationFailed(call) =>
        tools := tools.(failures := tools.failures + [Invocation(event.taskId, call, [], [], event.at)]);
      case FocusInferred =>
        focus := FocusState(focus.paths + paths, focus.symbols + symbols);
      case EvidenceCaptured(artifact) =>
        evidence := evidence + {artifact};
      case RecoveredFrom(_) =>
      case IntentionRecorded(text, note, step, question) =>
        focus := FocusState(focus.paths + paths, focus.symbols + symbols);
        intention := Some(Intention(text, note, step, question, event.paths, event.symbols, event.at));
    }
    ledger := Ledger(focus, files, tools, checkpoint, decisions, steps, questions, evidence, intention, Some(event.at));
  }

  method CollectOwners(events: seq<Event>) returns (owners: map<string, seq<string>>)
    ensures owners == Owners(map[], events)
  {
    owners := map[];
    for i := 0 to |events|
      invariant owners == Owners(map[], events[..i])
    {
      assert events[..i + 1][..i] == events[..i];
      var artifact := ArtifactOf(events[i]);
      if artifact.Some? {
        var known := if artifact.value in owners then owners[artifact.value] else [];
        if events[i].taskId !in known {
          known := known + [events[i].taskId];
        }
        owners := owners[artifact.value := known];
      }
    }
    assert events[..|events|] == events;
  }

  method ReplayEvents(events: seq<Event>) returns (ledger: Ledger)
    ensures ledger == Replay(EMPTY, events)
  {
    ledger := EMPTY;
    for i := 0 to |events|
      invariant ledger == Replay(EMPTY, events[..i])
    {
      assert events[..i + 1][..i] == events[..i];
      ledger := ApplyEvent(ledger, events[i]);
    }
    assert events[..|events|] == events;
  }

  method DeriveSnapshotWithLineage(entries: seq<Entry>, taskId: string,
      lineage: seq<string>) returns (snapshot: Snapshot)
    ensures snapshot == SnapshotOf(AllEvents(entries), taskId, lineage)
  {
    var events := Sort(EventOrder(lineage), Filter(Belongs(lineage), AllEvents(entries)));
    var owners := CollectOwners(events);
    var ledger := ReplayEvents(events);
    var tools := ledger.tools;
    var invocations := Sort(InvocationOrder(lineage), tools.invocations);
    if |invocations| > RECENT_INVOCATIONS {
      invocations := invocations[|invocations| - RECENT_INVOCATIONS..];
    }
    var failures := Sort(InvocationOrder(lineage), tools.failures);
    if |failures| > RECENT_FAILURES {
      failures := failures[|failures| - RECENT_FAILURES..];
    }
    tools := tools.(invocations := invocations, failures := failures);
    snapshot := Snapshot(taskId, ledger.(tools := tools), owners, |events|);
  }

  method DeriveSnapshot(entries: seq<Entry>, taskId: string) returns (snapshot: Snapshot)
    ensures snapshot == TaskSnapshot(AllEvents(entries), taskId)
  {
    var lineage := ComputeLineage(AllEvents(entries), taskId);
    snapshot := DeriveSnapshotWithLineage(entries, taskId, lineage);
  }
}
