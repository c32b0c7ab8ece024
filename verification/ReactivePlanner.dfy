/** The reactive planner: what it proposes for a pending plan, and how the kernel applies it. */
module ReactivePlanner {
  import opened Wrappers
  import opened Sequences
  import opened RepoPaths

  const MAP_TARGET := "mapy.repo"

  datatype Mode = Basic | TaskAware

  datatype ReactiveConfig = ReactiveConfig(
    rerunOnFocusChange: bool, pathGlobs: seq<string>, skipIfInputsUnchanged: bool)

  datatype MapRequest = MapRequest(focusPaths: seq<string>, focusSymbols: seq<string>, rest: string)

  /** A step's reducer input: JSON that parses as a map request, or any other. */
  datatype Input = ForMap(request: MapRequest) | Opaque(json: string)

  datatype Step = Step(
    id: string, target: string, dependsOn: seq<string>, input: Input, reactive: Option<ReactiveConfig>, rest: string)

  datatype Mutation =
    | Cancel(stepId: string, reason: string)
    | Replace(step: Step, why: string)
    | Append(appended: Step, cause: string)

  /** The parts of an agent snapshot the planner reads. */
  datatype View = View(
    focusPaths: seq<string>, focusSymbols: seq<string>,
    checkpointFocusPaths: seq<string>, checkpointFocusSymbols: seq<string>,
    completedSteps: seq<string>, changedPaths: seq<string>, changedSymbols: seq<string>)

  /** Everything but the pending plan. `matches` is glob matching, true for a glob that does not parse. */
  datatype Context = Context(
    original: seq<Step>, view: View, completedSuccess: set<string>, mode: Mode,
    appendFocusedMap: bool, anchor: Option<string>, matches: (string, string) -> bool)

  // ---- which steps the task state affects ----

  predicate HasChanges(v: View) {
    v.changedPaths != [] || v.changedSymbols != []
  }

  predicate HasFocus(v: View) {
    v.focusPaths != [] || v.focusSymbols != []
  }

  predicate FocusChanged(v: View) {
    v.focusPaths != v.checkpointFocusPaths || v.focusSymbols != v.checkpointFocusSymbols
  }

  predicate IsReport(path: string) {
    HasSuffix(path, ".info") || HasSuffix(path, ".lcov") || HasSuffix(path, ".xml")
    || Contains(path, "coverage") || Contains(path, "report")
  }

  predicate IsDiagnosticLog(path: string) {
    HasSuffix(path, ".log") || HasSuffix(path, ".txt") || Contains(path, "report") || Contains(path, "diagnostic")
  }

  predicate AffectedByTarget(target: string, v: View) {
    if target == MAP_TARGET then
      FocusChanged(v) || (exists p :: p in v.changedPaths && !IsReport(p)) || v.changedSymbols != []
    else if target in ["diffy.analyze", "testy.impact"] then
      exists p :: p in v.changedPaths && !IsReport(p) && !HasSuffix(p, ".log")
    else if target in ["contextq.correlate", "contextq.assemble", "contextq.manage"] then
      HasChanges(v) || FocusChanged(v)
    else if target in ["stacky.slice", "buildy.reduce"] then
      exists p :: p in v.changedPaths && IsDiagnosticLog(p)
    else if Contains(target, "cover") || Contains(target, "guard") then
      v.changedPaths != []
    else
      true
  }

  predicate Affected(ctx: Context, target: string, reactive: Option<ReactiveConfig>) {
    var v := ctx.view;
    if reactive.None? then AffectedByTarget(target, v)
    else
      var r := reactive.value;
      var matched := exists p, g :: p in v.changedPaths && g in r.pathGlobs && ctx.matches(g, p);
      if r.rerunOnFocusChange && FocusChanged(v) then true
      else if r.pathGlobs != [] && r.skipIfInputsUnchanged then matched
      else if r.pathGlobs != [] && matched then true
      else AffectedByTarget(target, v)
  }

  // ---- merging the focus into a map step ----

  function MergeNames(existing: seq<string>, names: seq<string>): (r: seq<string>)
    ensures existing <= r
    ensures forall n :: n in names ==> n in r
    ensures (forall n :: n in names ==> n in existing) ==> r == existing
    decreases names
  {
    if names == [] then existing
    else
      var next := if names[0] in existing then existing else existing + [names[0]];
      assert names[0] in next && names == [names[0]] + names[1..];
      MergeNames(next, names[1..])
  }

  function MergeFocus(step: Step, v: View): Option<Step> {
    if step.target != MAP_TARGET || !HasFocus(v) then None
    else
      match step.input
      case Opaque(_) => None
      case ForMap(r) =>
        var paths, symbols := MergeNames(r.focusPaths, v.focusPaths), MergeNames(r.focusSymbols, v.focusSymbols);
        var merged := r.(focusPaths := paths, focusSymbols := symbols);
        if merged == r then None else Some(step.(input := ForMap(merged)))
  }

  method MergeInto(existing: seq<string>, names: seq<string>) returns (merged: seq<string>, changed: bool)
    ensures merged == MergeNames(existing, names)
    ensures changed <==> merged != existing
  {
    merged, changed := existing, false;
    for i := 0 to |names|
      invariant MergeNames(existing, names) == MergeNames(merged, names[i..])
      invariant existing <= merged && (changed <==> |merged| > |existing|)
    {
      assert names[i..][0] == names[i] && names[i..][1..] == names[i + 1..];
      if names[i] !in merged {
        merged := merged + [names[i]];
        changed := true;
      }
    }
  }

  method MergeFocusIntoMapStep(step: Step, v: View) returns (replaced: Option<Step>)
    ensures replaced == MergeFocus(step, v)
  {
    if step.target != MAP_TARGET || (v.focusPaths == [] && v.focusSymbols == []) {
      return None;
    }
    match step.input {
      case Opaque(_) =>
        replaced := None;
      case ForMap(request) =>
        var paths, pathsChanged := MergeInto(request.focusPaths, v.focusPaths);
        var symbols, symbolsChanged := MergeInto(request.focusSymbols, v.focusSymbols);
        if !pathsChanged && !symbolsChanged {
          return None;
        }
        replaced := Some(step.(input := ForMap(request.(focusPaths := paths, focusSymbols := symbols))));
    }
  }

  // ---- the plan's mutations ----

  predicate Completed(ctx: Context, id: string) {
    id in ctx.view.completedSteps
  }

  /** Skipped in task-aware mode because nothing it reads has changed. */
  predicate Unaffected(ctx: Context, target: string, reactive: Option<ReactiveConfig>) {
    ctx.mode == TaskAware && HasChanges(ctx.view) && !Affected(ctx, target, reactive)
  }

  predicate Cancelled(ctx: Context, step: Step) {
    Completed(ctx, step.id) || Unaffected(ctx, step.target, step.reactive)
  }

  function StepMutation(ctx: Context, step: Step): seq<Mutation> {
    if Completed(ctx, step.id) then [Cancel(step.id, "completed_step")]
    else if Unaffected(ctx, step.target, step.reactive) then [Cancel(step.id, "inputs_unchanged")]
    else
      match MergeFocus(step, ctx.view)
      case Some(replaced) => [Replace(replaced, "focus_narrowed")]
      case None => []
  }

  function StepMutations(ctx: Context): Step -> seq<Mutation> {
    step => StepMutation(ctx, step)
  }

  predicate HasLiveMap(ctx: Context, remaining: seq<Step>) {
    exists s :: s in remaining && s.target == MAP_TARGET && !Cancelled(ctx, s)
  }

  function Template(original: seq<Step>): Option<Step> {
    if original == [] then None
    else if original[0].target == MAP_TARGET then Some(original[0])
    else Template(original[1..])
  }

  function AppendedId(template: Step): string {
    template.id + "__reactive_focus"
  }

  predicate Satisfied(ctx: Context, dep: string) {
    dep in ctx.completedSuccess || Completed(ctx, dep)
  }

  function Pending(ctx: Context): string -> bool {
    dep => !Satisfied(ctx, dep)
  }

  /** The template under its new id, waiting for what is still pending and for the anchor. */
  function FollowUp(ctx: Context, template: Step): Step {
    var deps := Filter(Pending(ctx), template.dependsOn);
    template.(id := AppendedId(template),
              dependsOn := if ctx.anchor.Some? && ctx.anchor.value !in deps then deps + [ctx.anchor.value] else deps)
  }

  /** The follow-up map step the context asks for, whatever the plan. */
  function WantedStep(ctx: Context): Option<Step> {
    if !ctx.appendFocusedMap || !HasFocus(ctx.view) then None
    else
      match Template(ctx.original)
      case None => None
      case Some(template) =>
        if Satisfied(ctx, AppendedId(template)) then None else MergeFocus(FollowUp(ctx, template), ctx.view)
  }

  predicate HasId(steps: seq<Step>, id: string) {
    exists s :: s in steps && s.id == id
  }

  function AppendMutation(ctx: Context, remaining: seq<Step>): seq<Mutation> {
    match WantedStep(ctx)
    case None => []
    case Some(step) =>
      if HasLiveMap(ctx, remaining) || HasId(remaining, step.id) then [] else [Append(step, "focus_followup")]
  }

  function Mutations(ctx: Context, remaining: seq<Step>): seq<Mutation> {
    FlatMap(StepMutations(ctx), remaining) + AppendMutation(ctx, remaining)
  }

  ghost predicate DistinctIds(steps: seq<Step>) {
    forall i, j :: 0 <= i < j < |steps| ==> steps[i].id != steps[j].id
  }

  ghost predicate CancelsIn(mutations: seq<Mutation>, id: string) {
    exists m :: m in mutations && m.Cancel? && m.stepId == id
  }

  lemma CancelsAreCancelled(ctx: Context, steps: seq<Step>, step: Step)
    requires DistinctIds(steps) && step in steps
    ensures CancelsIn(FlatMap(StepMutations(ctx), steps), step.id) <==> Cancelled(ctx, step)
  {
    var mutations := FlatMap(StepMutations(ctx), steps);
    FlatMapMembers(StepMutations(ctx), steps);
    hide Unaffected, MergeFocus, FlatMap;
    if Cancelled(ctx, step) {
      assert StepMutation(ctx, step)[0] in StepMutations(ctx)(step);
      assert StepMutation(ctx, step)[0] in mutations;
    }
    if CancelsIn(mutations, step.id) {
      var m :| m in mutations && m.Cancel? && m.stepId == step.id;
      var s :| s in steps && m in StepMutations(ctx)(s);
      assert s.id == step.id && Cancelled(ctx, s);
      var i :| 0 <= i < |steps| && steps[i] == s;
      var j :| 0 <= j < |steps| && steps[j] == step;
    }
  }

  method BuildMutations(ctx: Context, remaining: seq<Step>) returns (mutations: seq<Mutation>)
    requires DistinctIds(remaining)
    ensures mutations == Mutations(ctx, remaining)
  {
    hide Affected, MergeFocus;
    mutations := [];
    for i := 0 to |remaining|
      invariant mutations == FlatMap(StepMutations(ctx), remaining[..i])
    {
      var step := remaining[i];
      assert remaining[..i + 1] == remaining[..i] + [step];
      FlatMapLast(StepMutations(ctx), remaining[..i], step);
      if step.id in ctx.view.completedSteps {
        mutations := mutations + [Cancel(step.id, "completed_step")];
        continue;
      }
      if ctx.mode == TaskAware && (ctx.view.changedPaths != [] || ctx.view.changedSymbols != [])
         && !Affected(ctx, step.target, step.reactive) {
        mutations := mutations + [Cancel(step.id, "inputs_unchanged")];
        continue;
      }
      var replaced := MergeFocusIntoMapStep(step, ctx.view);
      if replaced.Some? {
        mutations := mutations + [Replace(replaced.value, "focus_narrowed")];
      }
    }
    assert remaining[..|remaining|] == remaining;
    forall s | s in remaining ensures CancelsIn(mutations, s.id) <==> Cancelled(ctx, s) {
      CancelsAreCancelled(ctx, remaining, s);
    }
    var hasUncancelledMap :=
      exists s :: s in remaining && s.target == MAP_TARGET
        && !(exists m :: m in mutations && m.Cancel? && m.stepId == s.id);
    assert hasUncancelledMap == HasLiveMap(ctx, remaining) by {
      hide Cancelled;
      assert forall s :: s in remaining ==>
      (Cancelled(ctx, s) <==> (exists m :: m in mutations && m.Cancel? && m.stepId == s.id));
    }
    var followUp := BuildFollowUp(ctx, remaining, hasUncancelledMap);
    mutations := mutations + followUp;
  }

  method BuildFollowUp(ctx: Context, remaining: seq<Step>, hasUncancelledMap: bool) returns (mutations: seq<Mutation>)
    requires hasUncancelledMap == HasLiveMap(ctx, remaining)
    ensures mutations == AppendMutation(ctx, remaining)
  {
    hide HasLiveMap, MergeFocus;
    mutations := [];
    if ctx.appendFocusedMap && (ctx.view.focusPaths != [] || ctx.view.focusSymbols != []) && !hasUncancelledMap {
      var template := Template(ctx.original);
      if template.Some? {
        var appendedId := template.value.id + "__reactive_focus";
        if !(exists s :: s in remaining && s.id == appendedId) && appendedId !in ctx.completedSuccess
           && appendedId !in ctx.view.completedSteps {
          var deps := Filter(Pending(ctx), template.value.dependsOn);
          if ctx.anchor.Some? && ctx.anchor.value !in deps {
            deps := deps + [ctx.anchor.value];
          }
          var appended := template.value.(id := appendedId, dependsOn := deps);
          var replaced := MergeFocusIntoMapStep(appended, ctx.view);
          if replaced.Some? {
            assert replaced.value.id == appendedId by { MergeKeeps(appended, ctx.view); }
            mutations := [Append(replaced.value, "focus_followup")];
          }
        }
      }
    }
    if WantedStep(ctx).Some? {
      MergeKeeps(FollowUp(ctx, Template(ctx.original).value), ctx.view);
    }
  }

  /** Merging changes only the input, and never needs doing twice. */
  lemma MergeKeeps(step: Step, v: View)
    ensures MergeFocus(step, v).Some? ==>
      && MergeFocus(step, v).value == step.(input := MergeFocus(step, v).value.input)
      && MergeFocus(MergeFocus(step, v).value, v) == None
      && step.target == MAP_TARGET
  {
  }
}
