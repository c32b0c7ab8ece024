/** What the planner proposes and what a round leaves, told from the request alone. */
module PlannerMeaning {
  import opened Wrappers
  import opened Sequences
  import opened RepoPaths
  import opened RepoPathLaws
  import opened ReactivePlanner
  import opened PlanApplication
  import opened PlanSettles
  import opened PlanAcceptance

  // ---- merging the focus ----

  /** `merged` is `existing` followed by the names missing from it, once each, in the order in which they come. */
  ghost predicate Extends(existing: seq<string>, names: seq<string>, merged: seq<string>) {
    && existing <= merged
    && (forall n :: n in merged <==> n in existing || n in names)
    && (forall i :: |existing| <= i < |merged| ==> merged[i] !in existing)
    && (forall i, j :: |existing| <= i < j < |merged| ==> merged[i] != merged[j])
    && forall i, j :: |existing| <= i < j < |merged| ==> ComesBefore(names, merged[i], merged[j])
  }

  /** `n` occurs among the names before any `m` does. */
  ghost predicate ComesBefore(names: seq<string>, n: string, m: string) {
    exists p :: 0 <= p < |names| && names[p] == n && m !in names[..p]
  }

  lemma ComesBeforeCons(names: seq<string>, n: string, m: string)
    requires names != [] && ComesBefore(names[1..], n, m) && names[0] != m
    ensures ComesBefore(names, n, m)
  {
    var p :| 0 <= p < |names| - 1 && names[1..][p] == n && m !in names[1..][..p];
    assert names[..p + 1] == [names[0]] + names[1..][..p];
    assert names[p + 1] == n;
  }

  lemma FirstComesBefore(names: seq<string>, m: string)
    requires names != []
    ensures ComesBefore(names, names[0], m)
  {
    assert names[..0] == [];
  }

  lemma SkipsKnown(existing: seq<string>, names: seq<string>, merged: seq<string>)
    requires names != [] && names[0] in existing && Extends(existing, names[1..], merged)
    ensures Extends(existing, names, merged)
  {
    hide ComesBefore;
    assert names == [names[0]] + names[1..];
    forall i, j | |existing| <= i < j < |merged| ensures ComesBefore(names, merged[i], merged[j]) {
      ComesBeforeCons(names, merged[i], merged[j]);
    }
  }

  lemma AddsNew(existing: seq<string>, names: seq<string>, merged: seq<string>)
    requires names != [] && names[0] !in existing && Extends(existing + [names[0]], names[1..], merged)
    ensures Extends(existing, names, merged)
  {
    hide ComesBefore;
    var next := existing + [names[0]];
    assert names == [names[0]] + names[1..];
    assert merged[|existing|] == next[|existing|] && existing <= next;
    forall i, j | |existing| <= i < j < |merged| ensures ComesBefore(names, merged[i], merged[j]) {
      if i == |existing| {
        FirstComesBefore(names, merged[j]);
      } else {
        ComesBeforeCons(names, merged[i], merged[j]);
      }
    }
  }

  lemma {:induction false} MergeNamesExactly(existing: seq<string>, names: seq<string>)
    ensures Extends(existing, names, MergeNames(existing, names))
    decreases names
  {
    if names != [] {
      hide Extends;
      var next := if names[0] in existing then existing else existing + [names[0]];
      MergeNamesExactly(next, names[1..]);
      if names[0] in existing {
        SkipsKnown(existing, names, MergeNames(existing, names));
      } else {
        AddsNew(existing, names, MergeNames(existing, names));
      }
    }
  }

  /** All of the focus is in the request already. */
  ghost predicate HasAll(r: MapRequest, v: View) {
    && (forall p :: p in v.focusPaths ==> p in r.focusPaths)
    && (forall x :: x in v.focusSymbols ==> x in r.focusSymbols)
  }

  /** `merged` is the map step with the missing part of the focus added to its request. */
  ghost predicate Narrows(v: View, step: Step, merged: Step) {
    && step.target == "mapy.repo" && step.input.ForMap? && !HasAll(step.input.request, v)
    && merged.input.ForMap? && merged == step.(input := merged.input)
    && merged.input.request.rest == step.input.request.rest
    && Extends(step.input.request.focusPaths, v.focusPaths, merged.input.request.focusPaths)
    && Extends(step.input.request.focusSymbols, v.focusSymbols, merged.input.request.focusSymbols)
  }

  /** Only a map step that lacks part of the focus is merged, and it gains just that part. */
  lemma MergeExactly(step: Step, v: View)
    ensures MergeFocus(step, v) == None <==>
      step.target != "mapy.repo" || !step.input.ForMap? || HasAll(step.input.request, v)
    ensures MergeFocus(step, v).Some? ==> Narrows(v, step, MergeFocus(step, v).value)
  {
    hide Extends;
    if step.input.ForMap? {
      var r := step.input.request;
      MergeNamesExactly(r.focusPaths, v.focusPaths);
      MergeNamesExactly(r.focusSymbols, v.focusSymbols);
      ExtendsNothing(r.focusPaths, v.focusPaths, MergeNames(r.focusPaths, v.focusPaths));
      ExtendsNothing(r.focusSymbols, v.focusSymbols, MergeNames(r.focusSymbols, v.focusSymbols));
    }
  }

  lemma ExtendsNothing(existing: seq<string>, names: seq<string>, merged: seq<string>)
    requires Extends(existing, names, merged)
    ensures merged == existing <==> forall n :: n in names ==> n in existing
  {
    if merged != existing {
      assert merged[|existing|] in merged && merged[|existing|] !in existing;
    }
  }

  lemma ComesBeforeTail(names: seq<string>, n: string, m: string)
    requires ComesBefore(names, n, m)
    ensures names != [] && names[0] != n ==> names[0] != m && ComesBefore(names[1..], n, m)
  {
    var p :| 0 <= p < |names| && names[p] == n && m !in names[..p];
    if names[0] != n {
      assert names[..p] == [names[0]] + names[1..][..p - 1];
      assert names[1..][p - 1] == n;
    }
  }

  /** A list can be extended in one way only. */
  lemma {:induction false} ExtendsOneWay(existing: seq<string>, names: seq<string>, merged: seq<string>)
    requires Extends(existing, names, merged)
    ensures merged == MergeNames(existing, names)
    decreases names
  {
    if names == [] {
      ExtendsNothing(existing, names, merged);
    } else {
      var first, rest := names[0], names[1..];
      assert names == [first] + rest;
      if first !in existing {
        FirstIsNext(existing, names, merged);
      }
      var next := if first in existing then existing else existing + [first];
      assert next <= merged;
      forall i, j | |next| <= i < j < |merged| ensures ComesBefore(rest, merged[i], merged[j]) {
        ComesBeforeTail(names, merged[i], merged[j]);
      }
      ExtendsOneWay(next, rest, merged);
    }
  }

  lemma FirstIsNext(existing: seq<string>, names: seq<string>, merged: seq<string>)
    requires Extends(existing, names, merged) && names != [] && names[0] !in existing
    ensures |existing| < |merged| && merged[|existing|] == names[0]
  {
    assert names[0] in merged;
    var i :| 0 <= i < |merged| && merged[i] == names[0];
    assert i >= |existing|;
    if i > |existing| {
      ComesBeforeTail(names, merged[|existing|], merged[i]);
    }
  }

  lemma NarrowsExactly(v: View, step: Step, merged: Step)
    ensures MergeFocus(step, v) == Some(merged) <==> Narrows(v, step, merged)
  {
    hide Extends;
    MergeExactly(step, v);
    if Narrows(v, step, merged) {
      var r, m := step.input.request, merged.input.request;
      ExtendsOneWay(r.focusPaths, v.focusPaths, m.focusPaths);
      ExtendsOneWay(r.focusSymbols, v.focusSymbols, m.focusSymbols);
    }
  }

  // ---- which steps the changes touch ----

  ghost predicate FocusMoved(v: View) {
    !(v.focusPaths == v.checkpointFocusPaths && v.focusSymbols == v.checkpointFocusSymbols)
  }

  /** A coverage or test report, by its name. */
  ghost predicate NamesReport(path: string) {
    || Ends(path, ".info") || Ends(path, ".lcov") || Ends(path, ".xml")
    || Within(path, "coverage") || Within(path, "report")
  }

  ghost predicate NamesDiagnostics(path: string) {
    Ends(path, ".log") || Ends(path, ".txt") || Within(path, "report") || Within(path, "diagnostic")
  }

  ghost predicate IsKnownTarget(target: string) {
    || target == "mapy.repo" || target == "diffy.analyze" || target == "testy.impact"
    || target == "contextq.correlate" || target == "contextq.assemble" || target == "contextq.manage"
    || target == "stacky.slice" || target == "buildy.reduce"
  }

  /** What a step of this target reads has changed. */
  ghost predicate TargetTouched(v: View, target: string) {
    || (target == "mapy.repo" &&
          (FocusMoved(v) || v.changedSymbols != [] || exists p :: p in v.changedPaths && !NamesReport(p)))
    || ((target == "diffy.analyze" || target == "testy.impact") &&
          exists p :: p in v.changedPaths && !NamesReport(p) && !Ends(p, ".log"))
    || ((target == "contextq.correlate" || target == "contextq.assemble" || target == "contextq.manage") &&
          (v.changedPaths != [] || v.changedSymbols != [] || FocusMoved(v)))
    || ((target == "stacky.slice" || target == "buildy.reduce") &&
          exists p :: p in v.changedPaths && NamesDiagnostics(p))
    || (!IsKnownTarget(target) &&
          ((Within(target, "cover") || Within(target, "guard")) ==> v.changedPaths != []))
  }

  /** A step's own configuration can make it run, and can leave the decision to its globs alone. */
  ghost predicate Touched(ctx: Context, target: string, reactive: Option<ReactiveConfig>) {
    match reactive
    case None => TargetTouched(ctx.view, target)
    case Some(r) =>
      || (r.rerunOnFocusChange && FocusMoved(ctx.view))
      || (exists p, g :: p in ctx.view.changedPaths && g in r.pathGlobs && ctx.matches(g, p))
      || (!(r.pathGlobs != [] && r.skipIfInputsUnchanged) && TargetTouched(ctx.view, target))
  }

  lemma NamesExactly(path: string)
    ensures IsReport(path) <==> NamesReport(path)
    ensures IsDiagnosticLog(path) <==> NamesDiagnostics(path)
    ensures HasSuffix(path, ".log") <==> Ends(path, ".log")
    ensures Contains(path, "cover") <==> Within(path, "cover")
    ensures Contains(path, "guard") <==> Within(path, "guard")
  {
    hide Contains, Within, HasSuffix, Ends;
    EndsExactly(path, ".info");
    EndsExactly(path, ".lcov");
    EndsExactly(path, ".xml");
    EndsExactly(path, ".log");
    EndsExactly(path, ".txt");
    ContainsExactly(path, "coverage");
    ContainsExactly(path, "report");
    ContainsExactly(path, "diagnostic");
    ContainsExactly(path, "cover");
    ContainsExactly(path, "guard");
  }

  lemma TargetExactly(v: View, target: string)
    ensures AffectedByTarget(target, v) <==> TargetTouched(v, target)
  {
    hide Contains, Within, HasSuffix, Ends, IsReport, NamesReport, IsDiagnosticLog, NamesDiagnostics;
    NamesExactly(target);
    forall p | p in v.changedPaths
      ensures IsReport(p) <==> NamesReport(p)
      ensures IsDiagnosticLog(p) <==> NamesDiagnostics(p)
      ensures HasSuffix(p, ".log") <==> Ends(p, ".log")
    {
      NamesExactly(p);
    }
  }

  lemma AffectedExactly(ctx: Context, target: string, reactive: Option<ReactiveConfig>)
    ensures Affected(ctx, target, reactive) <==> Touched(ctx, target, reactive)
  {
    hide AffectedByTarget, TargetTouched;
    TargetExactly(ctx.view, target);
  }

  // ---- what is proposed ----

  /** In task-aware mode, something has changed since the checkpoint but nothing the step reads. */
  ghost predicate Skipped(ctx: Context, step: Step) {
    && ctx.mode == TaskAware && (ctx.view.changedPaths != [] || ctx.view.changedSymbols != [])
    && !Touched(ctx, step.target, step.reactive)
  }

  ghost predicate Drops(ctx: Context, step: Step) {
    step.id in ctx.view.completedSteps || Skipped(ctx, step)
  }

  lemma DropsExactly(ctx: Context, step: Step)
    ensures Cancelled(ctx, step) <==> Drops(ctx, step)
    ensures Unaffected(ctx, step.target, step.reactive) <==> Skipped(ctx, step)
  {
    hide Affected, Touched;
    AffectedExactly(ctx, step.target, step.reactive);
  }

  /** The first map step of the original request. */
  ghost predicate IsTemplate(original: seq<Step>, template: Step) {
    exists k :: 0 <= k < |original| && original[k] == template && template.target == "mapy.repo"
      && forall i :: 0 <= i < k ==> original[i].target != "mapy.repo"
  }

  lemma {:induction false} TemplateExactly(original: seq<Step>, template: Step)
    ensures Template(original) == Some(template) <==> IsTemplate(original, template)
  {
    if original != [] {
      if original[0].target == MAP_TARGET {
        assert IsTemplate(original, original[0]);
      } else {
        TemplateExactly(original[1..], template);
        if IsTemplate(original, template) {
          var k :| 0 <= k < |original| && original[k] == template && template.target == "mapy.repo"
            && forall i :: 0 <= i < k ==> original[i].target != "mapy.repo";
          assert original[1..][k - 1] == template;
          assert forall i :: 0 <= i < k - 1 ==> original[1..][i] == original[i + 1];
        }
        if IsTemplate(original[1..], template) {
          var k :| 0 <= k < |original| - 1 && original[1..][k] == template && template.target == "mapy.repo"
            && forall i :: 0 <= i < k ==> original[1..][i].target != "mapy.repo";
          assert original[k + 1] == template;
          assert forall i :: 0 < i <= k ==> original[i] == original[1..][i - 1];
        }
      }
    }
  }

  /** A dependency that no step on record has met. */
  ghost function Unmet(ctx: Context): string -> bool {
    d => d !in ctx.completedSuccess && d !in ctx.view.completedSteps
  }

  /** The template under a new id, waiting for its unmet dependencies and then the anchor. */
  ghost predicate IsFollowUp(ctx: Context, template: Step, s: Step) {
    && s == template.(id := template.id + "__reactive_focus", dependsOn := s.dependsOn)
    && var unmet := Filter(Unmet(ctx), template.dependsOn);
       s.dependsOn == match ctx.anchor
         case None => unmet
         case Some(anchor) => if anchor in unmet then unmet else unmet + [anchor]
  }

  lemma FollowUpExactly(ctx: Context, template: Step, s: Step)
    ensures s == FollowUp(ctx, template) <==> IsFollowUp(ctx, template, s)
  {
    FilterCongruent(Pending(ctx), Unmet(ctx), template.dependsOn);
  }

  /** What is appended if no live map step and no step of its id is there. */
  ghost predicate IsWanted(ctx: Context, s: Step) {
    && ctx.appendFocusedMap && (ctx.view.focusPaths != [] || ctx.view.focusSymbols != [])
    && s.id !in ctx.completedSuccess && s.id !in ctx.view.completedSteps
    && exists template, followUp ::
      IsTemplate(ctx.original, template) && IsFollowUp(ctx, template, followUp) && Narrows(ctx.view, followUp, s)
  }

  lemma WantedExactly(ctx: Context, s: Step)
    ensures WantedStep(ctx) == Some(s) <==> IsWanted(ctx, s)
  {
    hide MergeFocus, FollowUp, IsFollowUp, Narrows, Template, IsTemplate;
    var template := Template(ctx.original);
    if template.Some? {
      var t := template.value;
      TemplateExactly(ctx.original, t);
      FollowUpExactly(ctx, t, FollowUp(ctx, t));
      NarrowsExactly(ctx.view, FollowUp(ctx, t), s);
      FollowUpId(ctx, t);
      MergeKeeps(FollowUp(ctx, t), ctx.view);
    }
    if IsWanted(ctx, s) {
      var t, followUp :| IsTemplate(ctx.original, t) && IsFollowUp(ctx, t, followUp) && Narrows(ctx.view, followUp, s);
      TemplateExactly(ctx.original, t);
      FollowUpExactly(ctx, t, followUp);
    }
  }

  lemma FollowUpId(ctx: Context, template: Step)
    ensures FollowUp(ctx, template).id == AppendedId(template)
  {
  }

  /** What one pending step calls for. */
  ghost predicate StepCallsFor(ctx: Context, s: Step, m: Mutation) {
    || (m == Cancel(s.id, "completed_step") && s.id in ctx.view.completedSteps)
    || (m == Cancel(s.id, "inputs_unchanged") && s.id !in ctx.view.completedSteps && Skipped(ctx, s))
    || (m.Replace? && m.why == "focus_narrowed" && !Drops(ctx, s) && Narrows(ctx.view, s, m.step))
  }

  /** What the plan as a whole calls for: the follow-up, if no map step stays and its id is not taken. */
  ghost predicate PlanCallsFor(ctx: Context, remaining: seq<Step>, m: Mutation) {
    && m.Append? && m.cause == "focus_followup" && IsWanted(ctx, m.appended)
    && forall s :: s in remaining ==> s.id != m.appended.id && (s.target == "mapy.repo" ==> Drops(ctx, s))
  }

  lemma StepProposes(ctx: Context, s: Step, m: Mutation)
    ensures m in StepMutation(ctx, s) <==> StepCallsFor(ctx, s, m)
  {
    hide Unaffected, Skipped, MergeFocus, Narrows;
    DropsExactly(ctx, s);
    if m.Replace? {
      NarrowsExactly(ctx.view, s, m.step);
    }
  }

  lemma PlanProposes(ctx: Context, remaining: seq<Step>, m: Mutation)
    ensures m in AppendMutation(ctx, remaining) <==> PlanCallsFor(ctx, remaining, m)
  {
    hide Drops, IsWanted, WantedStep, Cancelled;
    forall s | s in remaining ensures Cancelled(ctx, s) <==> Drops(ctx, s) {
      DropsExactly(ctx, s);
    }
    if m.Append? {
      WantedExactly(ctx, m.appended);
    }
  }

  /** The planner proposes exactly what the request calls for. */
  lemma MutationsExactly(ctx: Context, remaining: seq<Step>, m: Mutation)
    ensures m in Mutations(ctx, remaining) <==>
      (exists s :: s in remaining && StepCallsFor(ctx, s, m)) || PlanCallsFor(ctx, remaining, m)
  {
    hide StepMutation, AppendMutation, StepCallsFor, PlanCallsFor, FlatMap;
    FlatMapMembers(StepMutations(ctx), remaining);
    PlanProposes(ctx, remaining, m);
    forall s | s in remaining ensures m in StepMutations(ctx)(s) <==> StepCallsFor(ctx, s, m) {
      StepProposes(ctx, s, m);
    }
  }

  // ---- what a round leaves ----

  /** Step `k` still waits: not for a step cancelled after it, nor, unless its focus is merged, for one before it. */
  ghost function StillWaits(ctx: Context, plan: seq<Step>, k: nat): string -> bool
    requires k < |plan|
  {
    d =>
      && (forall i :: k < i < |plan| && Drops(ctx, plan[i]) ==> plan[i].id != d)
      && (Narrowed(ctx, plan[k]) || forall i :: 0 <= i < k && Drops(ctx, plan[i]) ==> plan[i].id != d)
  }

  ghost predicate Narrowed(ctx: Context, step: Step) {
    step.target == "mapy.repo" && step.input.ForMap? && !HasAll(step.input.request, ctx.view)
  }

  /** What becomes of step `k`, if it is not dropped. */
  ghost predicate Becomes(ctx: Context, plan: seq<Step>, k: nat, s: Step)
    requires k < |plan|
  {
    && !Drops(ctx, plan[k]) && s.dependsOn == Filter(StillWaits(ctx, plan, k), plan[k].dependsOn)
    && if Narrowed(ctx, plan[k]) then Narrows(ctx.view, plan[k], s.(dependsOn := plan[k].dependsOn))
       else s == plan[k].(dependsOn := s.dependsOn)
  }

  lemma DroppedIds(ctx: Context, steps: seq<Step>, d: string)
    ensures d in CancelledIds(ctx, steps) <==> exists i :: 0 <= i < |steps| && Drops(ctx, steps[i]) && steps[i].id == d
  {
    hide Cancelled, Drops;
    CancelledIdAt(ctx, steps, d);
    forall i | 0 <= i < |steps| ensures Cancelled(ctx, steps[i]) <==> Drops(ctx, steps[i]) {
      DropsExactly(ctx, steps[i]);
    }
  }

  lemma DroppedAround(ctx: Context, plan: seq<Step>, k: nat, d: string)
    requires k < |plan|
    ensures d in CancelledIds(ctx, plan[k + 1..]) <==>
      exists i :: k < i < |plan| && Drops(ctx, plan[i]) && plan[i].id == d
    ensures d in CancelledIds(ctx, plan[..k]) <==> exists i :: 0 <= i < k && Drops(ctx, plan[i]) && plan[i].id == d
  {
    hide CancelledIds, Drops;
    DroppedIds(ctx, plan[k + 1..], d);
    DroppedIds(ctx, plan[..k], d);
    var later := plan[k + 1..];
    if i :| k < i < |plan| && Drops(ctx, plan[i]) && plan[i].id == d {
      assert later[i - k - 1] == plan[i];
    }
    if i :| 0 <= i < |later| && Drops(ctx, later[i]) && later[i].id == d {
      assert plan[k + 1 + i] == later[i];
    }
    if i :| 0 <= i < k && Drops(ctx, plan[i]) && plan[i].id == d {
      assert plan[..k][i] == plan[i];
    }
  }

  /** Both ways of losing dependencies come to keeping those the step still waits for. */
  lemma KeptDependencies(ctx: Context, plan: seq<Step>, k: nat)
    requires k < |plan|
    ensures OutcomeAt(ctx, {}, plan, k).dependsOn == Filter(StillWaits(ctx, plan, k), plan[k].dependsOn)
  {
    hide Drops, CancelledIds, HasAll, Extends;
    var step, before, later := plan[k], {} + CancelledIds(ctx, plan[..k]), CancelledIds(ctx, plan[k + 1..]);
    MergeExactly(step, ctx.view);
    MergeKeeps(step, ctx.view);
    var waits := StillWaits(ctx, plan, k);
    forall d ensures waits(d) == (NotIn(later)(d) && (Narrowed(ctx, step) || NotIn(before)(d))) {
      DroppedAround(ctx, plan, k, d);
    }
    if Narrowed(ctx, step) {
      FilterCongruent(NotIn(later), waits, step.dependsOn);
    } else {
      FilterTwice(NotIn(before), NotIn(later), waits, step.dependsOn);
    }
  }

  lemma BecomesExactly(ctx: Context, plan: seq<Step>, k: nat, s: Step)
    requires k < |plan|
    ensures Becomes(ctx, plan, k, s) <==> !Cancelled(ctx, plan[k]) && s == OutcomeAt(ctx, {}, plan, k)
  {
    hide Drops, Cancelled, CancelledIds, HasAll, Extends, StillWaits, Filter;
    var step := plan[k];
    DropsExactly(ctx, step);
    KeptDependencies(ctx, plan, k);
    MergeExactly(step, ctx.view);
    MergeKeeps(step, ctx.view);
    NarrowsExactly(ctx.view, step, s.(dependsOn := step.dependsOn));
    hide MergeFocus, Narrows;
  }

  /** After a round the plan consists of what its steps become and of what the plan as a whole called for. */
  lemma RoundExactly(ctx: Context, plan: seq<Step>, s: Step)
    requires DistinctIds(plan)
    ensures s in Round(ctx, plan) <==>
      || (exists k :: 0 <= k < |plan| && Becomes(ctx, plan, k, s))
      || PlanCallsFor(ctx, plan, Append(s, "focus_followup"))
  {
    hide Becomes, PlanCallsFor, Outcome, OutcomeAt, Cancelled, WantedStep;
    RoundIs(ctx, plan);
    PlanProposes(ctx, plan, Append(s, "focus_followup"));
    assert s in Appended(ctx, plan) <==> Append(s, "focus_followup") in AppendMutation(ctx, plan);
    if s in Outcome(ctx, {}, plan) {
      var k := OutcomeFrom(ctx, {}, plan, s);
      BecomesExactly(ctx, plan, k, s);
    }
    if k :| 0 <= k < |plan| && Becomes(ctx, plan, k, s) {
      BecomesExactly(ctx, plan, k, s);
      OutcomeHas(ctx, {}, plan, k);
    }
  }
}
