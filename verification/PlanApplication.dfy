/** Applying the planner's mutations, and what exactly the mutated plan is. */
module PlanApplication {
  import opened Wrappers
  import opened Sequences
  import opened ReactivePlanner

  // ---- applying mutations ----

  function NotIn(ids: set<string>): string -> bool {
    d => d !in ids
  }

  /** A step that no longer waits for the given ids. */
  function Strip(ids: set<string>, s: Step): Step {
    s.(dependsOn := Filter(NotIn(ids), s.dependsOn))
  }

  function StripAll(ids: set<string>, steps: seq<Step>): (r: seq<Step>)
    ensures |r| == |steps|
    ensures forall i :: 0 <= i < |r| ==> r[i] == Strip(ids, steps[i])
  {
    if steps == [] then [] else [Strip(ids, steps[0])] + StripAll(ids, steps[1..])
  }

  function OtherThan(id: string): Step -> bool {
    (s: Step) => s.id != id
  }

  function Substitute(steps: seq<Step>, step: Step): (r: seq<Step>)
    ensures |r| == |steps|
    ensures forall i :: 0 <= i < |r| ==> r[i] == if steps[i].id == step.id then step else steps[i]
  {
    if steps == [] then []
    else [if steps[0].id == step.id then step else steps[0]] + Substitute(steps[1..], step)
  }

  function Apply(steps: seq<Step>, m: Mutation): seq<Step> {
    match m
    case Cancel(id, _) => if HasId(steps, id) then StripAll({id}, Filter(OtherThan(id), steps)) else steps
    case Replace(step, _) => Substitute(steps, step)
    case Append(step, _) => if HasId(steps, step.id) then steps else steps + [step]
  }

  function ApplyAll(steps: seq<Step>, mutations: seq<Mutation>): seq<Step>
    decreases mutations
  {
    if mutations == [] then steps else ApplyAll(Apply(steps, mutations[0]), mutations[1..])
  }

  /** One replanning round: plan, then apply. */
  function Round(ctx: Context, plan: seq<Step>): seq<Step> {
    ApplyAll(plan, Mutations(ctx, plan))
  }

  lemma {:induction false} ApplyConcat(steps: seq<Step>, a: seq<Mutation>, b: seq<Mutation>)
    ensures ApplyAll(steps, a + b) == ApplyAll(ApplyAll(steps, a), b)
    decreases a
  {
    if a == [] {
      assert a + b == b;
    } else {
      assert (a + b)[1..] == a[1..] + b;
      ApplyConcat(Apply(steps, a[0]), a[1..], b);
    }
  }

  // ---- the mutated plan, step by step ----

  function CancelledIds(ctx: Context, steps: seq<Step>): set<string> {
    set s | s in steps && Cancelled(ctx, s) :: s.id
  }

  function Kept(ctx: Context, gone: set<string>, s: Step): Step {
    match MergeFocus(s, ctx.view)
    case Some(merged) => merged
    case None => Strip(gone, s)
  }

  /**
   * What becomes of the steps when those before them lost the ids `gone`: a cancelled step leaves;
   * a step whose focus is merged is put back as it was planned, before any stripping, and loses only
   * what is cancelled after it; any other step loses everything cancelled.
   */
  function Outcome(ctx: Context, gone: set<string>, steps: seq<Step>): seq<Step>
    decreases steps
  {
    if steps == [] then []
    else
      var s, rest := steps[0], steps[1..];
      if Cancelled(ctx, s) then Outcome(ctx, gone + {s.id}, rest)
      else
        [Strip(CancelledIds(ctx, rest), Kept(ctx, gone, s))] + Outcome(ctx, gone, rest)
  }

  lemma {:induction false} StripTwice(a: set<string>, b: set<string>, deps: seq<string>)
    ensures Filter(NotIn(b), Filter(NotIn(a), deps)) == Filter(NotIn(a + b), deps)
  {
    FilterTwice(NotIn(a), NotIn(b), NotIn(a + b), deps);
  }

  lemma StripNothing(s: Step)
    ensures Strip({}, s) == s
  {
    FilterAll(NotIn({}), s.dependsOn);
  }

  lemma StripAllTwice(a: set<string>, b: set<string>, steps: seq<Step>)
    ensures StripAll(b, StripAll(a, steps)) == StripAll(a + b, steps)
  {
    forall i | 0 <= i < |steps| ensures Strip(b, Strip(a, steps[i])) == Strip(a + b, steps[i]) {
      StripTwice(a, b, steps[i].dependsOn);
    }
  }

  lemma StripAllNothing(steps: seq<Step>)
    ensures StripAll({}, steps) == steps
  {
    forall i | 0 <= i < |steps| ensures Strip({}, steps[i]) == steps[i] {
      StripNothing(steps[i]);
    }
  }

  ghost predicate Lacks(steps: seq<Step>, id: string) {
    forall i :: 0 <= i < |steps| ==> steps[i].id != id
  }

  ghost predicate Apart(done: seq<Step>, steps: seq<Step>) {
    forall j :: 0 <= j < |steps| ==> Lacks(done, steps[j].id)
  }

  lemma FilterLacking(steps: seq<Step>, id: string)
    requires Lacks(steps, id)
    ensures Filter(OtherThan(id), steps) == steps
  {
    forall x | x in steps ensures OtherThan(id)(x) {
    }
    FilterAll(OtherThan(id), steps);
  }

  lemma StripAllAppend(ids: set<string>, a: seq<Step>, b: seq<Step>)
    ensures StripAll(ids, a + b) == StripAll(ids, a) + StripAll(ids, b)
  {
    hide Strip;
  }

  lemma FilterOut(done: seq<Step>, s: Step, rest: seq<Step>)
    requires Lacks(done, s.id) && Lacks(rest, s.id)
    ensures Filter(OtherThan(s.id), done + [s] + rest) == done + rest
  {
    FilterLacking(done, s.id);
    FilterLacking(rest, s.id);
    FilterAppend(OtherThan(s.id), done + [s], rest);
    FilterLast(OtherThan(s.id), done, s);
    assert !OtherThan(s.id)(s);
    hide Filter, Lacks;
  }

  lemma CancelAt(done: seq<Step>, s: Step, rest: seq<Step>, reason: string)
    requires Lacks(done, s.id) && Lacks(rest, s.id)
    ensures Apply(done + [s] + rest, Cancel(s.id, reason)) == StripAll({s.id}, done) + StripAll({s.id}, rest)
  {
    var all := done + [s] + rest;
    assert all[|done|] == s && HasId(all, s.id);
    FilterOut(done, s, rest);
    StripAllAppend({s.id}, done, rest);
    hide Lacks, Filter, Strip, StripAll, HasId;
  }

  lemma ReplaceAt(done: seq<Step>, s: Step, rest: seq<Step>, merged: Step, reason: string)
    requires Lacks(done, s.id) && Lacks(rest, s.id) && merged.id == s.id
    ensures Apply(done + [s] + rest, Replace(merged, reason)) == done + [merged] + rest
  {
  }

  /** The steps dealt with, and the ids lost, once `s` is dealt with too. */
  function DoneAfter(ctx: Context, done: seq<Step>, gone: set<string>, s: Step): seq<Step> {
    if Cancelled(ctx, s) then StripAll({s.id}, done) else done + [Kept(ctx, gone, s)]
  }

  function GoneAfter(ctx: Context, gone: set<string>, s: Step): set<string> {
    if Cancelled(ctx, s) then gone + {s.id} else gone
  }

  /** One step's mutation, where that step stands. */
  lemma StepMutationApplied(ctx: Context, done: seq<Step>, gone: set<string>, s: Step, rest: seq<Step>)
    requires Lacks(done, s.id) && Lacks(rest, s.id)
    ensures ApplyAll(done + [Strip(gone, s)] + StripAll(gone, rest), StepMutation(ctx, s))
         == DoneAfter(ctx, done, gone, s) + StripAll(GoneAfter(ctx, gone, s), rest)
  {
    hide Unaffected, MergeFocus, Apply;
    var cur, ms := done + [Strip(gone, s)] + StripAll(gone, rest), StepMutation(ctx, s);
    if ms != [] {
      assert ms[1..] == [] && ApplyAll(cur, ms) == ApplyAll(Apply(cur, ms[0]), []) == Apply(cur, ms[0]);
    }
    if Cancelled(ctx, s) {
      CancelAt(done, Strip(gone, s), StripAll(gone, rest), ms[0].reason);
      StripAllTwice(gone, {s.id}, rest);
    } else if MergeFocus(s, ctx.view).Some? {
      MergeKeeps(s, ctx.view);
      ReplaceAt(done, Strip(gone, s), StripAll(gone, rest), MergeFocus(s, ctx.view).value, "focus_narrowed");
    }
  }

  lemma DoneAfterStaysApart(ctx: Context, done: seq<Step>, gone: set<string>, steps: seq<Step>)
    requires steps != [] && Apart(done, steps) && DistinctIds(steps)
    ensures Apart(DoneAfter(ctx, done, gone, steps[0]), steps[1..])
    ensures Lacks(done, steps[0].id) && Lacks(steps[1..], steps[0].id)
  {
    MergeKeeps(steps[0], ctx.view);
    hide Unaffected, MergeFocus, Cancelled;
    assert Kept(ctx, gone, steps[0]).id == steps[0].id;
  }

  lemma OutcomeCons(ctx: Context, gone: set<string>, s: Step, rest: seq<Step>)
    ensures Outcome(ctx, gone, [s] + rest)
         == (if Cancelled(ctx, s) then [] else [Strip(CancelledIds(ctx, rest), Kept(ctx, gone, s))])
            + Outcome(ctx, GoneAfter(ctx, gone, s), rest)
  {
    assert ([s] + rest)[1..] == rest;
    hide Cancelled, Strip, CancelledIds, Kept;
  }

  lemma OutcomeStep(ctx: Context, done: seq<Step>, gone: set<string>, s: Step, rest: seq<Step>)
    ensures StripAll(CancelledIds(ctx, rest), DoneAfter(ctx, done, gone, s))
            + Outcome(ctx, GoneAfter(ctx, gone, s), rest)
         == StripAll(CancelledIds(ctx, [s] + rest), done) + Outcome(ctx, gone, [s] + rest)
  {
    var later, kept := CancelledIds(ctx, rest), Kept(ctx, gone, s);
    var next := Outcome(ctx, GoneAfter(ctx, gone, s), rest);
    CancelledIdsStep(ctx, [s] + rest);
    assert ([s] + rest)[1..] == rest;
    OutcomeCons(ctx, gone, s, rest);
    if Cancelled(ctx, s) {
      assert DoneAfter(ctx, done, gone, s) == StripAll({s.id}, done);
      assert CancelledIds(ctx, [s] + rest) == {s.id} + later;
      hide *;
      StripAllTwice({s.id}, later, done);
      ConcatEmpty(next);
    } else {
      assert DoneAfter(ctx, done, gone, s) == done + [kept];
      assert StripAll(later, [kept]) == [Strip(later, kept)];
      assert CancelledIds(ctx, [s] + rest) == later;
      hide *;
      StripAllAppend(later, done, [kept]);
      ConcatAssociates(StripAll(later, done), [Strip(later, kept)], next);
    }
  }

  lemma MutationsUnroll(ctx: Context, done: seq<Step>, gone: set<string>, steps: seq<Step>)
    requires steps != [] && DistinctIds(steps)
    ensures done + StripAll(gone, steps) == done + [Strip(gone, steps[0])] + StripAll(gone, steps[1..])
    ensures FlatMap(StepMutations(ctx), steps) == StepMutation(ctx, steps[0]) + FlatMap(StepMutations(ctx), steps[1..])
    ensures DistinctIds(steps[1..])
  {
    assert StripAll(gone, steps) == [Strip(gone, steps[0])] + StripAll(gone, steps[1..]);
    ConcatAssociates(done, [Strip(gone, steps[0])], StripAll(gone, steps[1..]));
    hide StepMutation, Strip, StripAll;
  }

  /** Applying the steps' mutations yields exactly the outcome of each. */
  lemma {:induction false} StepMutationsApplied(ctx: Context, done: seq<Step>, gone: set<string>, steps: seq<Step>)
    requires Apart(done, steps) && DistinctIds(steps)
    ensures ApplyAll(done + StripAll(gone, steps), FlatMap(StepMutations(ctx), steps))
         == StripAll(CancelledIds(ctx, steps), done) + Outcome(ctx, gone, steps)
    decreases |steps|
  {
    if steps == [] {
      StripAllNothing(done);
      assert CancelledIds(ctx, steps) == {};
      assert done + StripAll(gone, steps) == done;
    } else {
      var s, rest := steps[0], steps[1..];
      assert [s] + rest == steps;
      MutationsUnroll(ctx, done, gone, steps);
      DoneAfterStaysApart(ctx, done, gone, steps);
      hide *;
      ApplyConcat(done + [Strip(gone, s)] + StripAll(gone, rest), StepMutation(ctx, s),
        FlatMap(StepMutations(ctx), rest));
      StepMutationApplied(ctx, done, gone, s, rest);
      StepMutationsApplied(ctx, DoneAfter(ctx, done, gone, s), GoneAfter(ctx, gone, s), rest);
      OutcomeStep(ctx, done, gone, s, rest);
    }
  }

  lemma CancelledIdsStep(ctx: Context, steps: seq<Step>)
    requires steps != []
    ensures CancelledIds(ctx, steps)
         == CancelledIds(ctx, steps[1..]) + if Cancelled(ctx, steps[0]) then {steps[0].id} else {}
  {
    assert steps == [steps[0]] + steps[1..];
  }

  lemma FollowUpApplied(ctx: Context, plan: seq<Step>)
    ensures ApplyAll(Outcome(ctx, {}, plan), AppendMutation(ctx, plan)) == Outcome(ctx, {}, plan) + Appended(ctx, plan)
  {
    var after, extra := Outcome(ctx, {}, plan), AppendMutation(ctx, plan);
    hide Outcome, MergeFocus, WantedStep, HasLiveMap, Cancelled;
    if extra != [] {
      forall s | s in after ensures s.id != extra[0].appended.id {
        OutcomeOrigin(ctx, {}, plan, s);
      }
      assert extra[1..] == [];
      assert ApplyAll(after, extra) == ApplyAll(Apply(after, extra[0]), []);
    }
  }

  /** A round is the outcome of the steps, and the follow-up appended if there is one. */
  lemma RoundIs(ctx: Context, plan: seq<Step>)
    requires DistinctIds(plan)
    ensures Round(ctx, plan) == Outcome(ctx, {}, plan) + Appended(ctx, plan)
  {
    StripAllNothing(plan);
    assert Apart([], plan);
    assert StripAll(CancelledIds(ctx, plan), []) == [];
    assert Round(ctx, plan) == ApplyAll(plan, FlatMap(StepMutations(ctx), plan) + AppendMutation(ctx, plan));
    hide *;
    ConcatEmpty(plan);
    ConcatEmpty(Outcome(ctx, {}, plan));
    StepMutationsApplied(ctx, [], {}, plan);
    ApplyConcat(plan, FlatMap(StepMutations(ctx), plan), AppendMutation(ctx, plan));
    FollowUpApplied(ctx, plan);
  }

  function Appended(ctx: Context, plan: seq<Step>): seq<Step> {
    match WantedStep(ctx)
    case None => []
    case Some(step) => if HasLiveMap(ctx, plan) || HasId(plan, step.id) then [] else [step]
  }

  /** Where a surviving step comes from, and what it still has of it. */
  ghost predicate Survives(ctx: Context, origin: Step, s: Step) {
    && !Cancelled(ctx, origin)
    && s.id == origin.id && s.target == origin.target && s.reactive == origin.reactive
    && MergeFocus(s, ctx.view) == None
  }

  lemma {:induction false} OutcomeOrigin(ctx: Context, gone: set<string>, steps: seq<Step>, s: Step)
    requires s in Outcome(ctx, gone, steps)
    ensures exists origin :: origin in steps && Survives(ctx, origin, s)
    decreases |steps|
  {
    hide Unaffected;
    var first, rest := steps[0], steps[1..];
    if Cancelled(ctx, first) {
      OutcomeOrigin(ctx, gone + {first.id}, rest, s);
      var origin :| origin in rest && Survives(ctx, origin, s);
      assert origin in steps && Survives(ctx, origin, s);
    } else {
      if s in Outcome(ctx, gone, rest) {
        OutcomeOrigin(ctx, gone, rest, s);
        var origin :| origin in rest && Survives(ctx, origin, s);
        assert origin in steps;
      } else {
        MergeKeeps(first, ctx.view);
        assert Survives(ctx, first, s);
      }
    }
  }

  lemma {:induction false} SurvivorsStay(ctx: Context, gone: set<string>, steps: seq<Step>, origin: Step)
    requires origin in steps && !Cancelled(ctx, origin)
    ensures exists s :: s in Outcome(ctx, gone, steps) && Survives(ctx, origin, s)
    decreases |steps|
  {
    hide Unaffected;
    var first, rest := steps[0], steps[1..];
    if Cancelled(ctx, first) {
      SurvivorsStay(ctx, gone + {first.id}, rest, origin);
      var s :| s in Outcome(ctx, gone + {first.id}, rest) && Survives(ctx, origin, s);
      assert s in Outcome(ctx, gone, steps) && Survives(ctx, origin, s);
    } else if first == origin {
      MergeKeeps(first, ctx.view);
      var s := Outcome(ctx, gone, steps)[0];
      assert s in Outcome(ctx, gone, steps) && Survives(ctx, origin, s);
    } else {
      SurvivorsStay(ctx, gone, rest, origin);
      var s :| s in Outcome(ctx, gone, rest) && Survives(ctx, origin, s);
      assert s in Outcome(ctx, gone, steps);
    }
  }

  // ---- how the kernel applies them: a map by id beside the order of ids ----

  ghost predicate Represents(order: seq<string>, byId: map<string, Step>, plan: seq<Step>) {
    && DistinctIds(plan) && |order| == |plan|
    && (forall i :: 0 <= i < |plan| ==> order[i] == plan[i].id && order[i] in byId && byId[order[i]] == plan[i])
    && forall id :: id in byId ==> HasId(plan, id)
  }

  function Without(id: string): string -> bool {
    (x: string) => x != id
  }

  lemma {:induction false} OrderWithout(order: seq<string>, plan: seq<Step>, id: string)
    requires |order| == |plan| && forall i :: 0 <= i < |plan| ==> order[i] == plan[i].id
    ensures var order', plan' := Filter(Without(id), order), Filter(OtherThan(id), plan);
      |order'| == |plan'| && forall i :: 0 <= i < |plan'| ==> order'[i] == plan'[i].id
  {
    if plan != [] {
      OrderWithout(order[1..], plan[1..], id);
    }
  }

  lemma {:induction false} DistinctFiltered(plan: seq<Step>, id: string)
    requires DistinctIds(plan)
    ensures DistinctIds(Filter(OtherThan(id), plan))
  {
    if plan != [] {
      var rest := Filter(OtherThan(id), plan[1..]);
      DistinctFiltered(plan[1..], id);
      FilterMembers(OtherThan(id), plan[1..]);
      hide Filter;
      assert Lacks(rest, plan[0].id) by {
        forall i | 0 <= i < |rest| ensures rest[i].id != plan[0].id {
          assert rest[i] in plan[1..];
          var j :| 0 <= j < |plan| - 1 && plan[1..][j] == rest[i];
          assert plan[j + 1] == rest[i];
        }
      }
      assert DistinctIds([plan[0]] + rest);
    }
  }

  lemma MapFollows(byId: map<string, Step>, plan: seq<Step>)
    requires DistinctIds(plan)
    requires forall i :: 0 <= i < |plan| ==> plan[i].id in byId && byId[plan[i].id] == plan[i]
    ensures forall s :: s in plan ==> s.id in byId && byId[s.id] == s
  {
  }

  method CancelStep(order: seq<string>, byId: map<string, Step>, ghost plan: seq<Step>, id: string,
      ghost reason: string)
    returns (order': seq<string>, byId': map<string, Step>)
    requires Represents(order, byId, plan) && id in byId
    ensures Represents(order', byId', Apply(plan, Cancel(id, reason)))
  {
    var left := byId - {id};
    byId' := map k | k in left :: left[k].(dependsOn := Filter(Without(id), left[k].dependsOn));
    order' := Filter(Without(id), order);
    forall k | k in byId' ensures byId'[k] == Strip({id}, byId[k]) {
      FilterCongruent(Without(id), NotIn({id}), byId[k].dependsOn);
    }
    hide Filter, Strip;
    CancelRepresented(order, byId, plan, id, order', byId');
    KnownIds(order, byId, plan, id);
  }

  lemma CancelRepresented(
      order: seq<string>, byId: map<string, Step>, plan: seq<Step>, id: string,
      order': seq<string>, byId': map<string, Step>)
    requires Represents(order, byId, plan)
    requires order' == Filter(Without(id), order)
    requires byId'.Keys == byId.Keys - {id} && forall k :: k in byId' ==> byId'[k] == Strip({id}, byId[k])
    ensures Represents(order', byId', StripAll({id}, Filter(OtherThan(id), plan)))
  {
    hide Filter, StripAll, HasId;
    var kept := Filter(OtherThan(id), plan);
    OrderWithout(order, plan, id);
    DistinctFiltered(plan, id);
    SameIdsDistinct(kept, StripAll({id}, kept));
    forall i | 0 <= i < |kept| ensures order'[i] in byId' && byId'[order'[i]] == Strip({id}, kept[i]) {
      KeptInMap(byId, plan, id, kept[i]);
    }
    forall k | k in byId' ensures HasId(StripAll({id}, kept), k) {
      MapIdIsKept(plan, id, k);
    }
  }

  lemma KeptInMap(byId: map<string, Step>, plan: seq<Step>, id: string, s: Step)
    requires forall i :: 0 <= i < |plan| ==> plan[i].id in byId && byId[plan[i].id] == plan[i]
    requires s in Filter(OtherThan(id), plan)
    ensures s.id != id && s.id in byId && byId[s.id] == s
  {
    FilterMembers(OtherThan(id), plan);
    assert OtherThan(id)(s);
  }

  lemma MapIdIsKept(plan: seq<Step>, id: string, k: string)
    requires HasId(plan, k) && k != id
    ensures HasId(StripAll({id}, Filter(OtherThan(id), plan)), k)
  {
    hide Filter;
    var kept := Filter(OtherThan(id), plan);
    FilterMembers(OtherThan(id), plan);
    var s :| s in plan && s.id == k;
    assert OtherThan(id)(s) && s in kept;
    var i :| 0 <= i < |kept| && kept[i] == s;
    assert StripAll({id}, kept)[i].id == k;
    assert StripAll({id}, kept)[i] in StripAll({id}, kept);
  }

  lemma SameIdsDistinct(a: seq<Step>, b: seq<Step>)
    requires DistinctIds(a) && |a| == |b| && forall i :: 0 <= i < |a| ==> a[i].id == b[i].id
    ensures DistinctIds(b)
  {
  }

  method ReplaceStep(order: seq<string>, byId: map<string, Step>, ghost plan: seq<Step>, step: Step,
      ghost reason: string)
    returns (byId': map<string, Step>)
    requires Represents(order, byId, plan)
    ensures Represents(order, byId', Apply(plan, Replace(step, reason)))
  {
    byId' := if step.id in byId then byId[step.id := step] else byId;
    ghost var after := Substitute(plan, step);
    hide Substitute;
    SameIdsDistinct(plan, after);
    SameIdsKnown(plan, after);
    KnownIds(order, byId, plan, step.id);
    forall i | 0 <= i < |after| ensures order[i] in byId' && byId'[order[i]] == after[i] {
      assert plan[i].id == order[i];
    }
  }

  lemma SameIdsKnown(a: seq<Step>, b: seq<Step>)
    requires |a| == |b| && forall i :: 0 <= i < |a| ==> a[i].id == b[i].id
    ensures forall id :: HasId(a, id) ==> HasId(b, id)
  {
    forall id | HasId(a, id) ensures HasId(b, id) {
      var s :| s in a && s.id == id;
      var i :| 0 <= i < |a| && a[i] == s;
      assert b[i].id == id;
    }
  }

  method AppendStep(order: seq<string>, byId: map<string, Step>, ghost plan: seq<Step>, step: Step,
      ghost reason: string)
    returns (order': seq<string>, byId': map<string, Step>)
    requires Represents(order, byId, plan)
    ensures Represents(order', byId', Apply(plan, Append(step, reason)))
  {
    order', byId' := order, byId;
    assert HasId(plan, step.id) <==> step.id in byId by {
      MapFollows(byId, plan);
    }
    if step.id !in byId {
      order' := order + [step.id];
      byId' := byId[step.id := step];
      ghost var after := plan + [step];
      assert after[|plan|] == step;
      forall id | id in byId' ensures HasId(after, id) {
        if id != step.id {
          var s :| s in plan && s.id == id;
          assert s in after;
        }
      }
      forall i | 0 <= i < |plan| ensures plan[i].id != step.id {
        assert plan[i] in plan;
      }
    }
  }

  method ApplyKernelMutations(steps: seq<Step>, mutations: seq<Mutation>) returns (result: seq<Step>)
    requires DistinctIds(steps)
    ensures result == ApplyAll(steps, mutations)
  {
    var order, byId := IndexSteps(steps);
    ghost var plan := steps;
    for i := 0 to |mutations|
      invariant Represents(order, byId, plan)
      invariant ApplyAll(plan, mutations[i..]) == ApplyAll(steps, mutations)
    {
      hide Apply, Represents;
      assert mutations[i..][0] == mutations[i] && mutations[i..][1..] == mutations[i + 1..];
      match mutations[i] {
        case Cancel(id, reason) =>
          assert HasId(plan, id) <==> id in byId by { KnownIds(order, byId, plan, id); }
          if id in byId {
            order, byId := CancelStep(order, byId, plan, id, reason);
          } else {
            CancelOfUnknown(plan, id, reason);
          }
        case Replace(step, reason) =>
          byId := ReplaceStep(order, byId, plan, step, reason);
        case Append(step, reason) =>
          order, byId := AppendStep(order, byId, plan, step, reason);
      }
      plan := Apply(plan, mutations[i]);
    }
    assert mutations[|mutations|..] == [];
    result := ListSteps(order, byId, plan);
  }

  lemma KnownIds(order: seq<string>, byId: map<string, Step>, plan: seq<Step>, id: string)
    requires Represents(order, byId, plan)
    ensures HasId(plan, id) <==> id in byId
  {
    MapFollows(byId, plan);
  }

  lemma CancelOfUnknown(plan: seq<Step>, id: string, reason: string)
    requires !HasId(plan, id)
    ensures Apply(plan, Cancel(id, reason)) == plan
  {
  }

  method IndexSteps(steps: seq<Step>) returns (order: seq<string>, byId: map<string, Step>)
    requires DistinctIds(steps)
    ensures Represents(order, byId, steps)
  {
    order, byId := [], map[];
    for i := 0 to |steps|
      invariant |order| == i && forall j :: 0 <= j < i ==>
        order[j] == steps[j].id && order[j] in byId && byId[order[j]] == steps[j]
      invariant forall id :: id in byId ==> exists j :: 0 <= j < i && steps[j].id == id
    {
      order := order + [steps[i].id];
      byId := byId[steps[i].id := steps[i]];
    }
    forall id | id in byId ensures HasId(steps, id) {
      var j :| 0 <= j < |steps| && steps[j].id == id;
      assert steps[j] in steps;
    }
  }

  /** `order.into_iter().filter_map(|id| by_id.remove(&id))` */
  method ListSteps(order: seq<string>, byId: map<string, Step>, ghost plan: seq<Step>) returns (result: seq<Step>)
    requires Represents(order, byId, plan)
    ensures result == plan
  {
    result := [];
    var left := byId;
    for i := 0 to |order|
      invariant result == plan[..i]
      invariant forall j :: i <= j < |order| ==> order[j] in left && left[order[j]] == plan[j]
    {
      var id := order[i];
      if id in left {
        result := result + [left[id]];
        left := left - {id};
      }
    }
  }
}
