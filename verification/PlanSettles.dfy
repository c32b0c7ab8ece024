/** Whether replanning settles. */
module PlanSettles {
  import opened Wrappers
  import opened Sequences
  import opened ReactivePlanner
  import opened PlanApplication

  // ---- planning again ----

  /** The follow-up the context wants, or the pending step already bearing its id, would be cancelled as unaffected. */
  ghost predicate Relapses(ctx: Context, plan: seq<Step>) {
    && WantedStep(ctx).Some? && !HasLiveMap(ctx, plan)
    && var wanted := WantedStep(ctx).value;
       if HasId(plan, wanted.id)
         then exists s :: s in plan && s.id == wanted.id && Unaffected(ctx, s.target, s.reactive)
         else Unaffected(ctx, wanted.target, wanted.reactive)
  }

  lemma WantedIsMerged(ctx: Context)
    ensures WantedStep(ctx).Some? ==>
      var wanted := WantedStep(ctx).value;
      wanted.target == MAP_TARGET && !Completed(ctx, wanted.id) && MergeFocus(wanted, ctx.view) == None
  {
    if WantedStep(ctx).Some? {
      MergeKeeps(FollowUp(ctx, Template(ctx.original).value), ctx.view);
    }
  }

  lemma SurvivorsAreQuiet(ctx: Context, plan: seq<Step>)
    ensures forall s :: s in Outcome(ctx, {}, plan) ==> StepMutation(ctx, s) == [] && !Cancelled(ctx, s)
  {
    forall s | s in Outcome(ctx, {}, plan) ensures StepMutation(ctx, s) == [] && !Cancelled(ctx, s) {
      OutcomeOrigin(ctx, {}, plan, s);
      hide Unaffected, MergeFocus, Outcome;
    }
  }

  lemma LiveMapSurvives(ctx: Context, plan: seq<Step>)
    ensures HasLiveMap(ctx, Outcome(ctx, {}, plan)) <==> HasLiveMap(ctx, plan)
  {
    hide Unaffected, MergeFocus;
    var after := Outcome(ctx, {}, plan);
    if HasLiveMap(ctx, plan) {
      var origin :| origin in plan && origin.target == MAP_TARGET && !Cancelled(ctx, origin);
      SurvivorsStay(ctx, {}, plan, origin);
      var s :| s in after && Survives(ctx, origin, s);
    }
    if HasLiveMap(ctx, after) {
      var s :| s in after && s.target == MAP_TARGET && !Cancelled(ctx, s);
      OutcomeOrigin(ctx, {}, plan, s);
    }
  }

  lemma IdSurvives(ctx: Context, plan: seq<Step>, id: string)
    ensures HasId(Outcome(ctx, {}, plan), id) <==> exists s :: s in plan && s.id == id && !Cancelled(ctx, s)
  {
    hide Unaffected, MergeFocus;
    var after := Outcome(ctx, {}, plan);
    if HasId(after, id) {
      var s :| s in after && s.id == id;
      OutcomeOrigin(ctx, {}, plan, s);
    }
    if origin :| origin in plan && origin.id == id && !Cancelled(ctx, origin) {
      SurvivorsStay(ctx, {}, plan, origin);
      var s :| s in after && Survives(ctx, origin, s);
    }
  }

  lemma {:induction false} QuietPlan(ctx: Context, plan: seq<Step>)
    requires forall s :: s in plan ==> StepMutation(ctx, s) == []
    ensures FlatMap(StepMutations(ctx), plan) == []
  {
    if plan != [] {
      QuietPlan(ctx, plan[1..]);
    }
  }

  /** What planning again proposes. */
  lemma SecondPlan(ctx: Context, plan: seq<Step>)
    requires DistinctIds(plan)
    ensures var again, after := Mutations(ctx, Round(ctx, plan)), Outcome(ctx, {}, plan);
      again == if Appended(ctx, plan) == [] then AppendMutation(ctx, after)
               else StepMutation(ctx, Appended(ctx, plan)[0])
  {
    var after := Outcome(ctx, {}, plan);
    RoundIs(ctx, plan);
    SurvivorsAreQuiet(ctx, plan);
    QuietPlan(ctx, after);
    hide Outcome, MergeFocus, Unaffected, StepMutation, HasLiveMap, WantedStep;
    if Appended(ctx, plan) == [] {
      ConcatEmpty(after);
      ConcatEmpty(AppendMutation(ctx, after));
    } else {
      var w := Appended(ctx, plan)[0];
      FlatMapLast(StepMutations(ctx), after, w);
      assert (after + [w])[|after|] == w && HasId(after + [w], w.id);
      assert AppendMutation(ctx, after + [w]) == [];
      ConcatEmpty(StepMutation(ctx, w));
    }
  }

  /**
   * Replanning settles in one round exactly when it does not relapse: in basic mode or without
   * changes since the checkpoint always, in task-aware mode unless the wanted follow-up is itself
   * a step the changes do not affect.
   */
  lemma SettlesExactly(ctx: Context, plan: seq<Step>)
    requires DistinctIds(plan)
    ensures Mutations(ctx, Round(ctx, plan)) == [] <==> !Relapses(ctx, plan)
    ensures ctx.mode != TaskAware || !HasChanges(ctx.view) ==> !Relapses(ctx, plan)
  {
    SecondPlan(ctx, plan);
    WantedIsMerged(ctx);
    LiveMapSurvives(ctx, plan);
    if WantedStep(ctx).Some? {
      var wanted := WantedStep(ctx).value;
      IdSurvives(ctx, plan, wanted.id);
      hide Outcome, MergeFocus, Affected, HasLiveMap, WantedStep;
      if HasId(plan, wanted.id) {
        var s :| s in plan && s.id == wanted.id;
        forall t | t in plan && t.id == wanted.id ensures t == s {
          var i :| 0 <= i < |plan| && plan[i] == t;
          var j :| 0 <= j < |plan| && plan[j] == s;
        }
        assert Cancelled(ctx, s) <==> Unaffected(ctx, s.target, s.reactive);
      }
    }
  }

  // ---- the plans that never settle ----

  function Rounds(ctx: Context, plan: seq<Step>, n: nat): seq<Step> {
    if n == 0 then plan else Round(ctx, Rounds(ctx, plan, n - 1))
  }

  /** Nothing to do but append the wanted step, which the changes do not affect. */
  ghost predicate Waiting(ctx: Context, plan: seq<Step>, wanted: Step) {
    && WantedStep(ctx) == Some(wanted) && Unaffected(ctx, wanted.target, wanted.reactive)
    && !HasLiveMap(ctx, plan) && !HasId(plan, wanted.id)
    && forall s :: s in plan ==> StepMutation(ctx, s) == []
  }

  lemma WaitingAppends(ctx: Context, plan: seq<Step>, wanted: Step)
    requires Waiting(ctx, plan, wanted)
    ensures Mutations(ctx, plan) == [Append(wanted, "focus_followup")] && Round(ctx, plan) == plan + [wanted]
  {
    QuietPlan(ctx, plan);
    var ms := Mutations(ctx, plan);
    ConcatEmpty(AppendMutation(ctx, plan));
    assert ms == [Append(wanted, "focus_followup")] && ms[1..] == [];
    assert ApplyAll(plan, ms) == ApplyAll(Apply(plan, ms[0]), []);
  }

  lemma AppendedIsCancelled(ctx: Context, plan: seq<Step>, wanted: Step)
    requires Waiting(ctx, plan, wanted)
    ensures Mutations(ctx, plan + [wanted]) == [Cancel(wanted.id, "inputs_unchanged")]
    ensures Round(ctx, plan + [wanted]) == StripAll({wanted.id}, plan)
    ensures Waiting(ctx, StripAll({wanted.id}, plan), wanted)
  {
    AppendedPlans(ctx, plan, wanted);
    StrippedWaits(ctx, plan, wanted);
    LastIsRemoved(plan, wanted, "inputs_unchanged");
  }

  lemma AppendedPlans(ctx: Context, plan: seq<Step>, wanted: Step)
    requires Waiting(ctx, plan, wanted)
    ensures Mutations(ctx, plan + [wanted]) == [Cancel(wanted.id, "inputs_unchanged")]
  {
    hide Unaffected, WantedStep, HasLiveMap, MergeFocus;
    WantedIsMerged(ctx);
    assert StepMutation(ctx, wanted) == [Cancel(wanted.id, "inputs_unchanged")];
    hide StepMutation;
    QuietPlan(ctx, plan);
    FlatMapLast(StepMutations(ctx), plan, wanted);
    assert (plan + [wanted])[|plan|] == wanted && HasId(plan + [wanted], wanted.id);
    ConcatEmpty([Cancel(wanted.id, "inputs_unchanged")]);
  }

  lemma LastIsRemoved(plan: seq<Step>, last: Step, reason: string)
    requires !HasId(plan, last.id)
    ensures ApplyAll(plan + [last], [Cancel(last.id, reason)]) == StripAll({last.id}, plan)
  {
    hide StripAll;
    var all, m := plan + [last], Cancel(last.id, reason);
    assert all[|plan|] == last && HasId(all, last.id);
    assert ApplyAll(all, [m]) == ApplyAll(Apply(all, m), []);
    assert Lacks(plan, last.id) && Lacks([], last.id);
    FilterOut(plan, last, []);
    ConcatEmpty(plan);
    ConcatEmpty(all);
  }

  lemma StrippedWaits(ctx: Context, plan: seq<Step>, wanted: Step)
    requires Waiting(ctx, plan, wanted)
    ensures Waiting(ctx, StripAll({wanted.id}, plan), wanted)
  {
    var stripped := StripAll({wanted.id}, plan);
    hide Unaffected, WantedStep;
    forall s | s in stripped
      ensures s.id != wanted.id && StepMutation(ctx, s) == [] && !(s.target == MAP_TARGET && !Cancelled(ctx, s))
    {
      var i :| 0 <= i < |stripped| && stripped[i] == s;
      assert plan[i] in plan && s == Strip({wanted.id}, plan[i]);
    }
  }

  /**
   * When the follow-up appended is one the changes do not affect, replanning never settles: every
   * round proposes a mutation, and from the second on the plans repeat with period two.
   */
  lemma {:induction false} NeverSettles(ctx: Context, plan: seq<Step>, n: nat)
    requires DistinctIds(plan) && Appended(ctx, plan) != []
    requires Unaffected(ctx, Appended(ctx, plan)[0].target, Appended(ctx, plan)[0].reactive)
    ensures Mutations(ctx, Rounds(ctx, plan, n)) != []
    ensures Rounds(ctx, plan, n + 4) == Rounds(ctx, plan, n + 2)
    ensures Rounds(ctx, plan, n + 3) != Rounds(ctx, plan, n + 2)
  {
    var wanted := Appended(ctx, plan)[0];
    var base := Outcome(ctx, {}, plan);
    RoundIs(ctx, plan);
    BaseWaits(ctx, plan);
    var still := StripAll({wanted.id}, base);
    AppendedIsCancelled(ctx, base, wanted);
    WaitingAppends(ctx, still, wanted);
    AppendedIsCancelled(ctx, still, wanted);
    StripAllTwice({wanted.id}, {wanted.id}, base);
    assert {wanted.id} + {wanted.id} == {wanted.id};
    PlanAppends(ctx, plan);
    RoundsStart(ctx, plan);
    hide *;
    Alternates(ctx, plan, still, still + [wanted], n);
    Alternates(ctx, plan, still, still + [wanted], n + 1);
    Alternates(ctx, plan, still, still + [wanted], n + 2);
    if n >= 2 {
      Alternates(ctx, plan, still, still + [wanted], n - 2);
    }
  }

  lemma PlanAppends(ctx: Context, plan: seq<Step>)
    requires Appended(ctx, plan) != []
    ensures Mutations(ctx, plan) != [] && Appended(ctx, plan) == [Appended(ctx, plan)[0]]
  {
    assert AppendMutation(ctx, plan) != [];
  }

  lemma BaseWaits(ctx: Context, plan: seq<Step>)
    requires DistinctIds(plan) && Appended(ctx, plan) != []
    requires Unaffected(ctx, Appended(ctx, plan)[0].target, Appended(ctx, plan)[0].reactive)
    ensures Waiting(ctx, Outcome(ctx, {}, plan), Appended(ctx, plan)[0])
  {
    LiveMapSurvives(ctx, plan);
    SurvivorsAreQuiet(ctx, plan);
    IdSurvives(ctx, plan, Appended(ctx, plan)[0].id);
    hide Outcome, Unaffected, MergeFocus, StepMutation;
  }

  lemma RoundsStep(ctx: Context, plan: seq<Step>, n: nat)
    ensures Rounds(ctx, plan, n + 1) == Round(ctx, Rounds(ctx, plan, n))
  {
  }

  lemma RoundsStart(ctx: Context, plan: seq<Step>)
    ensures Rounds(ctx, plan, 0) == plan && Rounds(ctx, plan, 1) == Round(ctx, plan)
  {
    RoundsStep(ctx, plan, 0);
    assert Rounds(ctx, plan, 0) == plan;
    hide Round;
  }

  /** A round that leads from `a` to `b` and back repeats forever. */
  lemma {:induction false} Alternates(ctx: Context, plan: seq<Step>, a: seq<Step>, b: seq<Step>, n: nat)
    requires Round(ctx, Round(ctx, plan)) == a && Round(ctx, a) == b && Round(ctx, b) == a
    ensures Rounds(ctx, plan, n + 2) == if n % 2 == 0 then a else b
  {
    hide *;
    RoundsStep(ctx, plan, n + 1);
    if n == 0 {
      RoundsStart(ctx, plan);
    } else {
      Alternates(ctx, plan, a, b, n - 1);
    }
  }

  // ---- the plans that settle in the end ----

  lemma {:induction false} OutcomeDistinct(ctx: Context, gone: set<string>, steps: seq<Step>)
    requires DistinctIds(steps)
    ensures DistinctIds(Outcome(ctx, gone, steps))
    decreases |steps|
  {
    if steps != [] {
      var first, rest := steps[0], steps[1..];
      var later := Outcome(ctx, GoneAfter(ctx, gone, first), rest);
      assert steps == [first] + rest;
      OutcomeDistinct(ctx, GoneAfter(ctx, gone, first), rest);
      OutcomeCons(ctx, gone, first, rest);
      MergeKeeps(first, ctx.view);
      hide Outcome, Cancelled, MergeFocus, GoneAfter;
      forall s | s in later ensures s.id != first.id {
        OutcomeOrigin(ctx, GoneAfter(ctx, gone, first), rest, s);
        var origin :| origin in rest && Survives(ctx, origin, s);
        var i :| 0 <= i < |rest| && rest[i] == origin;
        assert steps[i + 1] == origin;
      }
    }
  }

  /** The follow-up is wanted and unaffected, and what bears its id in the plan, if anything, is unaffected as well. */
  ghost predicate Persists(ctx: Context, plan: seq<Step>) {
    && WantedStep(ctx).Some? && !HasLiveMap(ctx, plan)
    && var wanted := WantedStep(ctx).value;
       Unaffected(ctx, wanted.target, wanted.reactive)
       && (HasId(plan, wanted.id) ==>
         exists s :: s in plan && s.id == wanted.id && Unaffected(ctx, s.target, s.reactive))
  }

  lemma {:induction false} RoundsShift(ctx: Context, plan: seq<Step>, n: nat)
    ensures Rounds(ctx, plan, n + 1) == Rounds(ctx, Round(ctx, plan), n)
  {
    hide *;
    RoundsStart(ctx, plan);
    RoundsStart(ctx, Round(ctx, plan));
    if n > 0 {
      RoundsStep(ctx, plan, n);
      RoundsStep(ctx, Round(ctx, plan), n - 1);
      RoundsShift(ctx, plan, n - 1);
    }
  }

  /** A quiet plan is left as it is. */
  lemma QuietRound(ctx: Context, plan: seq<Step>)
    requires Mutations(ctx, plan) == []
    ensures Round(ctx, plan) == plan
  {
  }

  /** The step under the follow-up's id is cancelled in the first round, and nothing is appended yet. */
  lemma HolderIsCancelled(ctx: Context, plan: seq<Step>)
    requires DistinctIds(plan) && Relapses(ctx, plan) && HasId(plan, WantedStep(ctx).value.id)
    ensures var after := Round(ctx, plan);
      DistinctIds(after) && !HasLiveMap(ctx, after) && !HasId(after, WantedStep(ctx).value.id)
    ensures Mutations(ctx, plan) != []
  {
    hide WantedStep, Unaffected, MergeFocus, Outcome, StepMutations, FlatMap;
    var wanted := WantedStep(ctx).value;
    var s :| s in plan && s.id == wanted.id && Unaffected(ctx, s.target, s.reactive);
    forall t | t in plan && t.id == wanted.id ensures t == s {
      var i :| 0 <= i < |plan| && plan[i] == t;
      var j :| 0 <= j < |plan| && plan[j] == s;
    }
    RoundIs(ctx, plan);
    ConcatEmpty(Outcome(ctx, {}, plan));
    OutcomeDistinct(ctx, {}, plan);
    LiveMapSurvives(ctx, plan);
    IdSurvives(ctx, plan, wanted.id);
    CancelsAreCancelled(ctx, plan, s);
  }

  lemma PersistsOrSettles(ctx: Context, plan: seq<Step>)
    requires DistinctIds(plan)
    ensures Persists(ctx, plan) ==> Relapses(ctx, plan)
    ensures WantedStep(ctx).Some? && !HasId(plan, WantedStep(ctx).value.id) ==>
      && (Persists(ctx, plan) <==> Relapses(ctx, plan))
      && (Relapses(ctx, plan) ==> Appended(ctx, plan) == [WantedStep(ctx).value])
  {
    hide WantedStep, Unaffected, HasLiveMap;
  }

  /**
   * Replanning comes to rest exactly when the plan does not persist, and then within two rounds: a pending step
   * under the follow-up's id that is cancelled as unaffected makes room for a follow-up that is not.
   */
  lemma SettlesEventuallyExactly(ctx: Context, plan: seq<Step>)
    requires DistinctIds(plan)
    ensures (exists n :: Mutations(ctx, Rounds(ctx, plan, n)) == []) <==> !Persists(ctx, plan)
    ensures !Persists(ctx, plan) ==> Mutations(ctx, Rounds(ctx, plan, 2)) == []
  {
    hide *;
    if Persists(ctx, plan) {
      forall n: nat ensures Mutations(ctx, Rounds(ctx, plan, n)) != [] {
        PersistingNeverSettles(ctx, plan, n);
      }
    } else {
      SettlesInTwo(ctx, plan);
    }
  }

  lemma PersistingNeverSettles(ctx: Context, plan: seq<Step>, n: nat)
    requires DistinctIds(plan) && Persists(ctx, plan)
    ensures Mutations(ctx, Rounds(ctx, plan, n)) != []
  {
    hide Mutations, Round, Rounds, Unaffected, WantedStep, HasLiveMap, Appended;
    PersistsOrSettles(ctx, plan);
    if HasId(plan, WantedStep(ctx).value.id) {
      var after := Round(ctx, plan);
      HolderIsCancelled(ctx, plan);
      PersistsOrSettles(ctx, after);
      if n == 0 {
        RoundsStart(ctx, plan);
      } else {
        RoundsShift(ctx, plan, n - 1);
        NeverSettles(ctx, after, n - 1);
      }
    } else {
      NeverSettles(ctx, plan, n);
    }
  }

  lemma SettlesInTwo(ctx: Context, plan: seq<Step>)
    requires DistinctIds(plan) && !Persists(ctx, plan)
    ensures Mutations(ctx, Rounds(ctx, plan, 2)) == []
  {
    hide Mutations, Round, Rounds, Unaffected, WantedStep, HasLiveMap, Appended;
    var after := Round(ctx, plan);
    RoundsStart(ctx, after);
    RoundsShift(ctx, plan, 1);
    SettlesExactly(ctx, plan);
    PersistsOrSettles(ctx, plan);
    if Relapses(ctx, plan) {
      HolderIsCancelled(ctx, plan);
      SettlesExactly(ctx, after);
    } else {
      QuietRound(ctx, after);
    }
  }

  // ---- an example ----

  const EXAMPLE_MAP := Step("map", MAP_TARGET, [], ForMap(MapRequest([], [], "")), None, "")

  /** Focus unchanged since the checkpoint, and only a coverage report changed. */
  function ReportChanged(mode: Mode): Context {
    Context([EXAMPLE_MAP], View(["src/a.rs"], [], ["src/a.rs"], [], [], ["cov.xml"], []),
      {}, mode, true, None, (g, p) => false)
  }

  lemma ReportChangedWants(mode: Mode)
    ensures var ctx := ReportChanged(mode);
      WantedStep(ctx).Some? && WantedStep(ctx).value.target == MAP_TARGET && WantedStep(ctx).value.reactive == None
  {
    var ctx := ReportChanged(mode);
    var follow := FollowUp(ctx, EXAMPLE_MAP);
    assert Template(ctx.original) == Some(EXAMPLE_MAP);
    assert "src/a.rs" in MergeNames([], ctx.view.focusPaths) by { assert "src/a.rs" in ctx.view.focusPaths; }
    assert MergeFocus(follow, ctx.view).Some?;
    MergeKeeps(follow, ctx.view);
  }

  lemma ReportChangedSparesMaps()
    ensures Unaffected(ReportChanged(TaskAware), MAP_TARGET, None)
  {
    assert IsReport("cov.xml");
  }

  /** A plan that never settles in task-aware mode, and settles in one round in basic mode. */
  lemma ReportChangeNeverSettles(n: nat)
    ensures Relapses(ReportChanged(TaskAware), []) && !Relapses(ReportChanged(Basic), [])
    ensures Mutations(ReportChanged(Basic), Round(ReportChanged(Basic), [])) == []
    ensures Mutations(ReportChanged(TaskAware), Rounds(ReportChanged(TaskAware), [], n)) != []
  {
    hide WantedStep, Unaffected, Mutations, Rounds, Round, MergeFocus;
    ReportChangedWants(TaskAware);
    ReportChangedSparesMaps();
    SettlesExactly(ReportChanged(Basic), []);
    NeverSettles(ReportChanged(TaskAware), [], n);
  }
}
