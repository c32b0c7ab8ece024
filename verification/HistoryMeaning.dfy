/** What each accumulator of the replay says about the history that was replayed. */
module HistoryMeaning {
  import opened Wrappers
  import opened Text
  import opened Sequences
  import opened Sorting
  import opened AgentEvents
  import opened AgentSnapshot

  // ---- two ways of reading a history ----

  /** Some event puts it there and no later event takes it away. */
  ghost predicate Survives(puts: Event -> bool, takes: Event -> bool, es: seq<Event>) {
    exists i :: 0 <= i < |es| && puts(es[i]) && forall j :: i < j < |es| ==> !takes(es[j])
  }

  lemma SurvivesStep(puts: Event -> bool, takes: Event -> bool, es: seq<Event>, e: Event)
    ensures Survives(puts, takes, es + [e]) <==> puts(e) || (Survives(puts, takes, es) && !takes(e))
  {
    var all := es + [e];
    assert all[|es|] == e;
    if Survives(puts, takes, es) && !takes(e) {
      var i :| 0 <= i < |es| && puts(es[i]) && forall j :: i < j < |es| ==> !takes(es[j]);
      assert all[i] == es[i];
    }
    if Survives(puts, takes, all) && !puts(e) {
      var i :| 0 <= i < |all| && puts(all[i]) && forall j :: i < j < |all| ==> !takes(all[j]);
      assert all[i] == es[i];
      forall j | i < j < |es| ensures !takes(es[j]) {
        assert all[j] == es[j];
      }
    }
  }

  ghost predicate Occurs(p: Event -> bool, es: seq<Event>) {
    exists i :: 0 <= i < |es| && p(es[i])
  }

  lemma OccursStep(p: Event -> bool, es: seq<Event>, e: Event)
    ensures Occurs(p, es + [e]) <==> Occurs(p, es) || p(e)
  {
    var all := es + [e];
    assert all[|es|] == e;
    assert forall i :: 0 <= i < |es| ==> all[i] == es[i];
  }

  /** The last event of a kind. */
  function Latest(p: Event -> bool, es: seq<Event>): (r: Option<Event>)
    ensures r == None <==> forall e :: e in es ==> !p(e)
    ensures r.Some? ==> exists k :: 0 <= k < |es| && es[k] == r.value && p(es[k]) && forall j :: k < j < |es| ==>
      !p(es[j])
  {
    if es == [] then None
    else
      var e := es[|es| - 1];
      assert es == es[..|es| - 1] + [e];
      if p(e) then Some(e) else Latest(p, es[..|es| - 1])
  }

  lemma LatestStep(p: Event -> bool, es: seq<Event>, e: Event)
    ensures Latest(p, es + [e]) == if p(e) then Some(e) else Latest(p, es)
  {
    assert (es + [e])[..|es|] == es;
  }

  lemma ReplayStep(l: Ledger, es: seq<Event>, e: Event)
    ensures Replay(l, es + [e]) == Record(Replay(l, es), e)
  {
    assert (es + [e])[..|es|] == es;
  }

  lemma Split(es: seq<Event>) returns (before: seq<Event>, e: Event)
    requires es != []
    ensures before == es[..|es| - 1] && e == es[|es| - 1] && es == before + [e]
  {
    before, e := es[..|es| - 1], es[|es| - 1];
  }

  /** The accumulators evolve independently. */
  lemma RecordFields(l: Ledger, e: Event)
    ensures Record(l, e).focus == FocusAfter(l.focus, e)
    ensures Record(l, e).files == FilesAfter(l.files, e)
    ensures Record(l, e).tools == ToolsAfter(l.tools, e)
    ensures Record(l, e).decisions == DecisionsAfter(l.decisions, e)
    ensures Record(l, e).openQuestions == QuestionsAfter(l.openQuestions, e)
    ensures Record(l, e).evidence == EvidenceAfter(l.evidence, e)
    ensures Record(l, e).completedSteps ==
      if e.data.StepCompleted? then l.completedSteps + {e.data.completedStep} else l.completedSteps
  {
  }

  // ---- focus ----

  predicate Focuses(e: Event) {
    e.data.FocusSet? || e.data.FocusInferred? || e.data.IntentionRecorded? || e.data.ToolInvocationCompleted?
  }

  function FocusesOnPath(p: string): Event -> bool {
    (e: Event) => Focuses(e) && p in e.paths
  }

  function ClearsPath(p: string): Event -> bool {
    (e: Event) => e.data.FocusCleared? && (e.data.clearAll || p in e.paths)
  }

  function FocusesOnSymbol(p: string): Event -> bool {
    (e: Event) => Focuses(e) && p in e.symbols
  }

  function ClearsSymbol(p: string): Event -> bool {
    (e: Event) => e.data.FocusCleared? && (e.data.clearAll || p in e.symbols)
  }

  /** In focus: some event focused on it and no later clear covers it. */
  lemma {:induction false} FocusMeaning(es: seq<Event>, p: string)
    ensures p in Replay(EMPTY, es).focus.paths <==> Survives(FocusesOnPath(p), ClearsPath(p), es)
    ensures p in Replay(EMPTY, es).focus.symbols <==> Survives(FocusesOnSymbol(p), ClearsSymbol(p), es)
  {
    if es != [] {
      var before, e := Split(es);
      FocusMeaning(before, p);
      RecordFields(Replay(EMPTY, before), e);
      hide Record;
      SurvivesStep(FocusesOnPath(p), ClearsPath(p), before, e);
      SurvivesStep(FocusesOnSymbol(p), ClearsSymbol(p), before, e);
    }
  }

  // ---- files and checkpoints ----

  predicate IsCheckpoint(e: Event) {
    e.data.CheckpointSaved?
  }

  function ReadsPath(p: string): Event -> bool {
    (e: Event) =>
      (e.data.FileRead? || (e.data.ToolInvocationCompleted? && e.data.call.kind == ToolKind.Read)) && p in e.paths
  }

  function EditsPath(p: string): Event -> bool {
    (e: Event) =>
      (e.data.FileEdited? || (e.data.ToolInvocationCompleted? && e.data.call.kind == ToolKind.Edit)) && p in e.paths
  }

  function EditsSymbol(p: string): Event -> bool {
    (e: Event) =>
      (e.data.FileEdited? || (e.data.ToolInvocationCompleted? && e.data.call.kind == ToolKind.Edit)) && p in e.symbols
  }

  /** Read and edited files are those of some event; changed ones those edited after the last checkpoint. */
  lemma {:induction false} FilesMeaning(es: seq<Event>, p: string)
    ensures p in Replay(EMPTY, es).files.read <==> Occurs(ReadsPath(p), es)
    ensures p in Replay(EMPTY, es).files.edited <==> Occurs(EditsPath(p), es)
    ensures p in Replay(EMPTY, es).files.changedPaths <==> Survives(EditsPath(p), IsCheckpoint, es)
    ensures p in Replay(EMPTY, es).files.changedSymbols <==> Survives(EditsSymbol(p), IsCheckpoint, es)
  {
    if es != [] {
      var before, e := Split(es);
      FilesMeaning(before, p);
      RecordFields(Replay(EMPTY, before), e);
      hide Record;
      OccursStep(ReadsPath(p), before, e);
      OccursStep(EditsPath(p), before, e);
      SurvivesStep(EditsPath(p), IsCheckpoint, before, e);
      SurvivesStep(EditsSymbol(p), IsCheckpoint, before, e);
    }
  }

  lemma ChangedWithinEdited(es: seq<Event>)
    ensures Replay(EMPTY, es).files.changedPaths <= Replay(EMPTY, es).files.edited
  {
    forall p | p in Replay(EMPTY, es).files.changedPaths ensures p in Replay(EMPTY, es).files.edited {
      FilesMeaning(es, p);
    }
  }

  predicate IsIntention(e: Event) {
    e.data.IntentionRecorded?
  }

  function CheckpointOf(e: Option<Event>): Option<Checkpoint>
    requires e.Some? ==> IsCheckpoint(e.value)
  {
    if e.None? then None
    else Some(Checkpoint(e.value.data.checkpointId, e.value.at, e.value.data.checkpointNote,
                         Elements(e.value.paths), Elements(e.value.symbols)))
  }

  function IntentionOf(e: Option<Event>): Option<Intention>
    requires e.Some? ==> IsIntention(e.value)
  {
    if e.None? then None
    else Some(Intention(e.value.data.text, e.value.data.note, e.value.data.stepId, e.value.data.aboutQuestion,
                        e.value.paths, e.value.symbols, e.value.at))
  }

  /** The checkpoint fields are those of the last checkpoint, the intention that of the last intention. */
  lemma {:induction false} LatestMeaning(es: seq<Event>)
    ensures Replay(EMPTY, es).checkpoint == CheckpointOf(Latest(IsCheckpoint, es))
    ensures Replay(EMPTY, es).latestIntention == IntentionOf(Latest(IsIntention, es))
    ensures Replay(EMPTY, es).lastEventAt == if es == [] then None else Some(es[|es| - 1].at)
  {
    if es != [] {
      LatestMeaning(es[..|es| - 1]);
    }
  }

  // ---- decisions, steps, questions ----

  function Adds(d: string): Event -> bool {
    (e: Event) => e.data.DecisionAdded? && e.data.decisionId == d
  }

  /** Explicitly, or by another decision that says it supersedes this one. */
  function Retires(d: string): Event -> bool {
    (e: Event) =>
      || (e.data.DecisionSuperseded? && e.data.supersededId == d)
      || (e.data.DecisionAdded? && e.data.decisionId != d && e.data.supersedes == Some(d))
  }

  function Opens(q: string): Event -> bool {
    (e: Event) => e.data.QuestionOpened? && e.data.questionId == q
  }

  function Resolves(q: string): Event -> bool {
    (e: Event) => e.data.QuestionResolved? && e.data.resolvedId == q
  }

  function Completes(step: string): Event -> bool {
    (e: Event) => e.data.StepCompleted? && e.data.completedStep == step
  }

  function DecisionOf(e: Event): Decision
    requires e.data.DecisionAdded?
  {
    Decision(e.data.decisionText, e.paths, e.symbols,
             if e.data.decisionArtifact.Some? then [e.data.decisionArtifact.value] else [])
  }

  /** Active: added, not retired since; and it reads as when it was last added. */
  lemma {:induction false} DecisionMeaning(es: seq<Event>, d: string)
    ensures d in Replay(EMPTY, es).decisions <==> Survives(Adds(d), Retires(d), es)
    ensures d in Replay(EMPTY, es).decisions ==>
      Latest(Adds(d), es).Some? && Replay(EMPTY, es).decisions[d] == DecisionOf(Latest(Adds(d), es).value)
  {
    if es != [] {
      var before, e := Split(es);
      DecisionMeaning(before, d);
      RecordFields(Replay(EMPTY, before), e);
      hide Record;
      SurvivesStep(Adds(d), Retires(d), before, e);
    }
  }

  /** Open: opened, not resolved since, with the text of its last opening. */
  lemma {:induction false} QuestionMeaning(es: seq<Event>, q: string)
    ensures q in Replay(EMPTY, es).openQuestions <==> Survives(Opens(q), Resolves(q), es)
    ensures q in Replay(EMPTY, es).openQuestions ==>
      Latest(Opens(q), es).Some? && Replay(EMPTY, es).openQuestions[q] == Latest(Opens(q), es).value.data.questionText
    ensures q in Replay(EMPTY, es).completedSteps <==> Occurs(Completes(q), es)
  {
    if es != [] {
      var before, e := Split(es);
      QuestionMeaning(before, q);
      RecordFields(Replay(EMPTY, before), e);
      hide Record;
      SurvivesStep(Opens(q), Resolves(q), before, e);
      OccursStep(Completes(q), before, e);
    }
  }

  // ---- tools ----

  function CompletedInvocation(e: Event): seq<Invocation> {
    if e.data.ToolInvocationCompleted? then [Invocation(e.taskId, e.data.call, e.paths, e.symbols, e.at)] else []
  }

  function FailedInvocation(e: Event): seq<Invocation> {
    if e.data.ToolInvocationFailed? then [Invocation(e.taskId, e.data.failedCall, [], [], e.at)] else []
  }

  lemma ToolListsStep(t: ToolState, e: Event)
    ensures ToolsAfter(t, e).invocations == t.invocations + CompletedInvocation(e)
    ensures ToolsAfter(t, e).failures == t.failures + FailedInvocation(e)
  {
  }

  /** The invocation lists hold every completion and failure, in the order of the history. */
  lemma {:induction false} InvocationsMeaning(l: Ledger, es: seq<Event>)
    ensures Replay(l, es).tools.invocations == l.tools.invocations + FlatMap(CompletedInvocation, es)
    ensures Replay(l, es).tools.failures == l.tools.failures + FlatMap(FailedInvocation, es)
  {
    if es != [] {
      var before, e := Split(es);
      InvocationsMeaning(l, before);
      RecordFields(Replay(l, before), e);
      ToolListsStep(Replay(l, before).tools, e);
      hide Record, ToolsAfter;
      FlatMapLast(CompletedInvocation, before, e);
      FlatMapLast(FailedInvocation, before, e);
    }
  }

  function CompletesAs(kind: ToolKind): Event -> bool {
    (e: Event) => e.data.ToolInvocationCompleted? && e.data.call.kind == kind
  }

  function UsesOn(tool: string, kind: ToolKind, p: string): Event -> bool {
    (e: Event) =>
      e.data.ToolInvocationCompleted? && e.data.call.kind == kind && e.data.call.toolName == tool && p in e.paths
  }

  function Queries(tool: string, query: string): Event -> bool {
    (e: Event) =>
      e.data.ToolInvocationCompleted? && e.data.call.toolName == tool && e.data.call.searchQuery == Some(query)
      && !IsBlank(query)
  }

  function Evidences(a: string): Event -> bool {
    (e: Event) => (e.data.EvidenceCaptured? && e.data.artifactId == a)
      || (e.data.ToolInvocationCompleted? && e.data.call.artifactId == Some(a) && !IsBlank(a))
  }

  function SuccessOf(e: Event): LastSuccess
    requires e.data.ToolInvocationCompleted?
  {
    LastSuccess(e.data.call.toolName, e.data.call.invocationId)
  }

  /** The paths a tool read or edited are those its completed invocations named. */
  lemma {:induction false} ToolPathsMeaning(es: seq<Event>, tool: string, p: string)
    ensures p in PathsAt(Replay(EMPTY, es).tools.readByTool, (tool, ToolKind.Read)) <==>
      Occurs(UsesOn(tool, ToolKind.Read, p), es)
    ensures p in PathsAt(Replay(EMPTY, es).tools.editedByTool, (tool, ToolKind.Edit)) <==>
      Occurs(UsesOn(tool, ToolKind.Edit, p), es)
  {
    if es != [] {
      var before, e := Split(es);
      ToolPathsMeaning(before, tool, p);
      RecordFields(Replay(EMPTY, before), e);
      hide Record, QueryOf;
      OccursStep(UsesOn(tool, ToolKind.Read, p), before, e);
      OccursStep(UsesOn(tool, ToolKind.Edit, p), before, e);
    }
  }

  lemma {:induction false} QueriesMeaning(es: seq<Event>, tool: string, q: string)
    ensures (tool, q) in Replay(EMPTY, es).tools.searchQueries <==> Occurs(Queries(tool, q), es)
  {
    if es != [] {
      hide IsBlank;
      var before, e := Split(es);
      QueriesMeaning(before, tool, q);
      RecordFields(Replay(EMPTY, before), e);
      hide Record, PathsAt;
      OccursStep(Queries(tool, q), before, e);
    }
  }

  lemma {:induction false} LastSuccessMeaning(es: seq<Event>, kind: ToolKind)
    ensures kind in Replay(EMPTY, es).tools.lastSuccessByKind <==> Latest(CompletesAs(kind), es).Some?
    ensures kind in Replay(EMPTY, es).tools.lastSuccessByKind ==>
      Replay(EMPTY, es).tools.lastSuccessByKind[kind] == SuccessOf(Latest(CompletesAs(kind), es).value)
  {
    hide Record, PathsAt, QueryOf;
    if es != [] {
      var before, e := Split(es);
      LastSuccessMeaning(before, kind);
      RecordFields(Replay(EMPTY, before), e);
      LatestStep(CompletesAs(kind), before, e);
    }
  }

  /** Evidence is what was captured, or attached under a non-blank id to a completed invocation. */
  lemma {:induction false} EvidenceMeaning(es: seq<Event>, a: string)
    ensures a in Replay(EMPTY, es).evidence <==> Occurs(Evidences(a), es)
  {
    if es != [] {
      hide IsBlank;
      var before, e := Split(es);
      EvidenceMeaning(before, a);
      RecordFields(Replay(EMPTY, before), e);
      hide Record;
      OccursStep(Evidences(a), before, e);
    }
  }

  // ---- which decisions are active, by the keys of their events ----

  lemma HistoryMembers(events: seq<Event>, lineage: seq<string>)
    ensures forall e :: e in History(events, lineage) <==> e in events && Belongs(lineage)(e)
    ensures Sorted(EventOrder(lineage), History(events, lineage))
  {
    FilterMembers(Belongs(lineage), events);
    SortPermutes(EventOrder(lineage), Filter(Belongs(lineage), events));
    EventOrderIsTotal(lineage);
    SortSorts(EventOrder(lineage), Filter(Belongs(lineage), events));
  }

  /** Some event of the history adds the decision, by key no earlier than `r`. */
  ghost predicate AddedSince(events: seq<Event>, lineage: seq<string>, d: string, r: Event) {
    exists a :: a in events && Belongs(lineage)(a) && Adds(d)(a) && EventLe(lineage, r, a)
  }

  /** In a sorted history a decision outlives its retirements exactly when each is answered by a later addition. */
  lemma SurvivesByKeys(lineage: seq<string>, h: seq<Event>, d: string)
    requires Sorted(EventOrder(lineage), h)
    requires forall x, y :: x in h && y in h && EventLe(lineage, x, y) && EventLe(lineage, y, x) ==> x == y
    ensures Survives(Adds(d), Retires(d), h) <==>
      && (exists a :: a in h && Adds(d)(a))
      && forall r :: r in h && Retires(d)(r) ==> exists a :: a in h && Adds(d)(a) && EventLe(lineage, r, a)
  {
    hide EventLe;
    var leq := EventOrder(lineage);
    if Survives(Adds(d), Retires(d), h) {
      var i :| 0 <= i < |h| && Adds(d)(h[i]) && forall j :: i < j < |h| ==> !Retires(d)(h[j]);
      assert h[i] in h;
      forall r | r in h && Retires(d)(r) ensures EventLe(lineage, r, h[i]) {
        var j :| 0 <= j < |h| && h[j] == r;
        assert h[j] != h[i] && j < i;
        assert leq(h[j], h[i]);
      }
    }
    if a :| a in h && Adds(d)(a) {
      if forall r :: r in h && Retires(d)(r) ==> exists a :: a in h && Adds(d)(a) && EventLe(lineage, r, a) {
        LastRetirementAnswered(lineage, h, d);
      }
    }
  }

  lemma LastRetirementAnswered(lineage: seq<string>, h: seq<Event>, d: string)
    requires Sorted(EventOrder(lineage), h)
    requires forall x, y :: x in h && y in h && EventLe(lineage, x, y) && EventLe(lineage, y, x) ==> x == y
    requires exists a :: a in h && Adds(d)(a)
    requires forall r :: r in h && Retires(d)(r) ==> exists a :: a in h && Adds(d)(a) && EventLe(lineage, r, a)
    ensures Survives(Adds(d), Retires(d), h)
  {
    hide EventLe;
    var leq := EventOrder(lineage);
    var k := LastOf(Retires(d), h);
    if k == |h| {
      var a :| a in h && Adds(d)(a);
      var i :| 0 <= i < |h| && h[i] == a;
    } else {
      var a :| a in h && Adds(d)(a) && EventLe(lineage, h[k], a);
      var i :| 0 <= i < |h| && h[i] == a;
      assert h[i] != h[k];
      SortedPair(leq, h, i, k);
    }
  }

  /** The last position at which `p` holds, or the length when it holds nowhere. */
  lemma {:induction false} LastOf(p: Event -> bool, h: seq<Event>) returns (k: nat)
    ensures k <= |h| && (k < |h| ==> p(h[k]))
    ensures forall j :: 0 <= j < |h| && (k == |h| || k < j) ==> !p(h[j])
  {
    if h == [] {
      k := 0;
    } else if p(h[|h| - 1]) {
      k := |h| - 1;
    } else {
      k := LastOf(p, h[..|h| - 1]);
      if k == |h| - 1 {
        k := |h|;
      }
    }
  }

  /**
   * Which decisions are active, told from the events as they are stored: those that some event adds and whose
   * every retirement, explicit or implied by a superseding decision, is followed by another addition.
   */
  lemma DecisionActiveExactly(events: seq<Event>, lineage: seq<string>, d: string)
    requires HistoryIdsIdentify(events, lineage)
    ensures d in Replay(EMPTY, History(events, lineage)).decisions <==>
      && (exists a :: a in events && Belongs(lineage)(a) && Adds(d)(a))
      && forall r :: r in events && Belongs(lineage)(r) && Retires(d)(r) ==> AddedSince(events, lineage, d, r)
  {
    hide Replay, History, EventLe, Adds, Retires, Belongs;
    var h := History(events, lineage);
    HistoryMembers(events, lineage);
    DecisionMeaning(h, d);
    forall x, y | x in h && y in h && EventLe(lineage, x, y) && EventLe(lineage, y, x) ensures x == y {
      TiesAreEqual(events, lineage, x, y);
    }
    SurvivesByKeys(lineage, h, d);
    forall r | r in h && Retires(d)(r)
      ensures AddedSince(events, lineage, d, r) <==> exists a :: a in h && Adds(d)(a) && EventLe(lineage, r, a)
    {
    }
  }

  /** A decision added once and retired once is active exactly when the retirement has the lower key. */
  lemma OneSupersessionExactly(events: seq<Event>, lineage: seq<string>, d: string, a: Event, r: Event)
    requires HistoryIdsIdentify(events, lineage)
    requires forall e :: e in events && Belongs(lineage)(e) && Adds(d)(e) <==> e == a
    requires forall e :: e in events && Belongs(lineage)(e) && Retires(d)(e) <==> e == r
    ensures d in Replay(EMPTY, History(events, lineage)).decisions <==> EventLe(lineage, r, a)
  {
    hide Replay, History, EventLe, Adds, Retires, Belongs;
    DecisionActiveExactly(events, lineage, d);
    assert a in events && Belongs(lineage)(a) && Adds(d)(a);
    assert r in events && Belongs(lineage)(r) && Retires(d)(r);
    assert AddedSince(events, lineage, d, r) <==> EventLe(lineage, r, a);
  }

  // ---- explicit supersession within a second ----

  ghost predicate Later(lineage: seq<string>, a: Event, b: Event) {
    var ga, gb := Generation(lineage, a.taskId), Generation(lineage, b.taskId);
    gb < ga || (ga == gb && b.at < a.at)
  }

  lemma SortedPair<T>(leq: (T, T) -> bool, s: seq<T>, i: nat, j: nat)
    requires Sorted(leq, s) && i < |s| && j < |s|
    ensures i < j ==> leq(s[i], s[j])
  {
  }

  /**
   * A decision explicitly superseded stays inactive, even against additions of the same task and
   * second, unless it is added again in a later second or generation.
   */
  lemma SupersessionSticks(events: seq<Event>, lineage: seq<string>, d: string, s: Event)
    requires s in History(events, lineage) && s.data == DecisionSuperseded(d)
    requires forall a :: a in History(events, lineage) && Adds(d)(a) ==> !Later(lineage, a, s)
    ensures d !in Replay(EMPTY, History(events, lineage)).decisions
  {
    hide Replay, Filter, Sort;
    var h := History(events, lineage);
    EventOrderIsTotal(lineage);
    SortSorts(EventOrder(lineage), Filter(Belongs(lineage), events));
    DecisionMeaning(h, d);
    var k :| 0 <= k < |h| && h[k] == s;
    forall i | 0 <= i < |h| && Adds(d)(h[i]) ensures i < k {
      SortedPair(EventOrder(lineage), h, k, i);
    }
    assert Retires(d)(h[k]);
  }

  /** Implicit supersession has no such guarantee: within a second, event ids decide. */
  lemma ImplicitSupersessionCanBeUndone()
    ensures
      var first := Event("t", "b", 1, [], [], DecisionAdded("d1", "old", None, None));
      var second := Event("t", "a", 1, [], [], DecisionAdded("d2", "new", Some("d1"), None));
      "d1" in SnapshotOf([first, second], "t", ["t"]).ledger.decisions
  {
    var first := Event("t", "b", 1, [], [], DecisionAdded("d1", "old", None, None));
    var second := Event("t", "a", 1, [], [], DecisionAdded("d2", "new", Some("d1"), None));
    var p := Belongs(["t"]);
    assert p(first) && p(second);
    assert Filter(p, [first, second]) == [first] + Filter(p, [second]);
    assert Filter(p, [second]) == [second] + Filter(p, []);
    assert Filter(p, [first, second]) == [first, second];
    var leq := EventOrder(["t"]);
    assert !leq(first, second);
    assert Sort(leq, [second]) == [second];
    assert Sort(leq, [first, second]) == Insert(leq, first, [second]);
    assert Insert(leq, first, [second]) == [second] + Insert(leq, first, []);
    assert History([first, second], ["t"]) == [second, first];
    ReplayStep(EMPTY, [second], first);
  }
}
