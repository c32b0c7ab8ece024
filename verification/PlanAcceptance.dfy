/** Whether the scheduler accepts the plan that a round of replanning leaves. */
module PlanAcceptance {
  import opened Wrappers
  import opened Sequences
  import opened RepoPaths
  import opened Text
  import opened ReactivePlanner
  import opened PlanApplication
  import opened PlanSettles

  // ---- what the scheduler accepts ----

  /** Every dependency is a step of the plan. */
  ghost predicate Closed(steps: seq<Step>) {
    forall s, d :: s in steps && d in s.dependsOn ==> HasId(steps, d)
  }

  /** Every step ranks above those it waits for. */
  ghost predicate Ranked(steps: seq<Step>, rank: map<string, nat>) {
    && (forall s :: s in steps ==> s.id in rank)
    && forall s, d :: s in steps && d in s.dependsOn && d in rank ==> rank[d] < rank[s.id]
  }

  /** No step waits, directly or through others, for itself. */
  ghost predicate Acyclic(steps: seq<Step>) {
    exists rank :: Ranked(steps, rank)
  }

  /** What the scheduler asks of a request: no blank, repeated or unknown id, and no cycle. */
  ghost predicate Accepts(steps: seq<Step>) {
    && (forall s :: s in steps ==> !IsBlank(s.id))
    && DistinctIds(steps) && Closed(steps) && Acyclic(steps)
  }

  /** A step whose focus is merged waits for a step cancelled before it. */
  ghost predicate Revives(ctx: Context, plan: seq<Step>) {
    exists i, k :: 0 <= i < k < |plan| && Cancelled(ctx, plan[i]) && !Cancelled(ctx, plan[k])
      && MergeFocus(plan[k], ctx.view).Some? && plan[i].id in plan[k].dependsOn
  }

  function OutcomeAt(ctx: Context, gone: set<string>, steps: seq<Step>, k: nat): Step
    requires k < |steps|
  {
    Strip(CancelledIds(ctx, steps[k + 1..]), Kept(ctx, gone + CancelledIds(ctx, steps[..k]), steps[k]))
  }

  /** The outcome, by position. */
  lemma {:induction false} OutcomeHas(ctx: Context, gone: set<string>, steps: seq<Step>, k: nat)
    requires k < |steps| && !Cancelled(ctx, steps[k])
    ensures OutcomeAt(ctx, gone, steps, k) in Outcome(ctx, gone, steps)
    decreases |steps|
  {
    hide Outcome, OutcomeAt, CancelledIds, Cancelled, Strip, Kept, GoneAfter;
    var first, rest := steps[0], steps[1..];
    assert steps == [first] + rest;
    OutcomeCons(ctx, gone, first, rest);
    PositionsShift(ctx, gone, steps);
    FirstPosition(ctx, gone, steps);
    if k > 0 {
      OutcomeHas(ctx, GoneAfter(ctx, gone, first), rest, k - 1);
    }
  }

  lemma OutcomeOfFirst(ctx: Context, gone: set<string>, steps: seq<Step>, s: Step)
    requires steps != []
    ensures s in Outcome(ctx, gone, steps) <==>
      || s in Outcome(ctx, GoneAfter(ctx, gone, steps[0]), steps[1..])
      || (!Cancelled(ctx, steps[0]) && s == OutcomeAt(ctx, gone, steps, 0))
  {
    hide Outcome, OutcomeAt, CancelledIds, Cancelled, Strip, Kept, GoneAfter;
    assert steps == [steps[0]] + steps[1..];
    OutcomeCons(ctx, gone, steps[0], steps[1..]);
    FirstPosition(ctx, gone, steps);
  }

  lemma OutcomeOfNothing(ctx: Context, gone: set<string>)
    ensures Outcome(ctx, gone, []) == []
  {
  }

  lemma {:induction false} OutcomeFrom(ctx: Context, gone: set<string>, steps: seq<Step>, s: Step) returns (k: nat)
    requires s in Outcome(ctx, gone, steps)
    ensures k < |steps| && !Cancelled(ctx, steps[k]) && s == OutcomeAt(ctx, gone, steps, k)
    decreases |steps|
  {
    hide *;
    OutcomeOfNothing(ctx, gone);
    var rest, gone' := steps[1..], GoneAfter(ctx, gone, steps[0]);
    OutcomeOfFirst(ctx, gone, steps, s);
    PositionsShift(ctx, gone, steps);
    if s in Outcome(ctx, gone', rest) {
      var j := OutcomeFrom(ctx, gone', rest, s);
      k := j + 1;
      assert steps[k] == rest[j];
    } else {
      k := 0;
    }
  }

  lemma FirstPosition(ctx: Context, gone: set<string>, steps: seq<Step>)
    requires steps != []
    ensures OutcomeAt(ctx, gone, steps, 0) == Strip(CancelledIds(ctx, steps[1..]), Kept(ctx, gone, steps[0]))
  {
    assert steps[..0] == [] && CancelledIds(ctx, []) == {} && gone + {} == gone;
  }

  lemma PositionsShift(ctx: Context, gone: set<string>, steps: seq<Step>)
    requires steps != []
    ensures forall k :: 1 <= k < |steps| ==>
      OutcomeAt(ctx, gone, steps, k) == OutcomeAt(ctx, GoneAfter(ctx, gone, steps[0]), steps[1..], k - 1)
  {
    var rest := steps[1..];
    forall k | 1 <= k < |steps|
      ensures OutcomeAt(ctx, gone, steps, k) == OutcomeAt(ctx, GoneAfter(ctx, gone, steps[0]), rest, k - 1)
    {
      assert rest[k - 1] == steps[k] && rest[k..] == steps[k + 1..];
      assert steps[..k] == [steps[0]] + rest[..k - 1];
      CancelledIdsStep(ctx, steps[..k]);
      assert steps[..k][1..] == rest[..k - 1];
      var later := CancelledIds(ctx, rest[..k - 1]);
      assert gone + CancelledIds(ctx, steps[..k]) == GoneAfter(ctx, gone, steps[0]) + later;
      hide CancelledIds, Cancelled, Strip, Kept, GoneAfter;
    }
  }

  lemma StripKeeps(ids: set<string>, s: Step, d: string)
    ensures d in Strip(ids, s).dependsOn <==> d in s.dependsOn && d !in ids
  {
    FilterMembers(NotIn(ids), s.dependsOn);
  }

  /** What a survivor still waits for. */
  lemma SurvivorWaitsFor(ctx: Context, plan: seq<Step>, k: nat, d: string)
    requires k < |plan|
    ensures d in OutcomeAt(ctx, {}, plan, k).dependsOn <==>
      && d in plan[k].dependsOn
      && d !in CancelledIds(ctx, plan[k + 1..])
      && (MergeFocus(plan[k], ctx.view).Some? || d !in CancelledIds(ctx, plan[..k]))
  {
    var before := {} + CancelledIds(ctx, plan[..k]);
    assert before == CancelledIds(ctx, plan[..k]);
    StripKeeps(CancelledIds(ctx, plan[k + 1..]), Kept(ctx, before, plan[k]), d);
    StripKeeps(before, plan[k], d);
    MergeKeeps(plan[k], ctx.view);
    hide Strip, CancelledIds, Cancelled, MergeFocus;
  }

  lemma CancelledIdAt(ctx: Context, steps: seq<Step>, d: string)
    ensures d in CancelledIds(ctx, steps) <==>
      exists i :: 0 <= i < |steps| && Cancelled(ctx, steps[i]) && steps[i].id == d
  {
    hide Cancelled;
    if d in CancelledIds(ctx, steps) {
      var s :| s in steps && Cancelled(ctx, s) && s.id == d;
    }
  }

  /** A surviving step is left waiting for nobody exactly when it revives a dependency. */
  lemma SurvivorDangles(ctx: Context, plan: seq<Step>, k: nat, d: string)
    requires DistinctIds(plan) && Closed(plan) && k < |plan| && !Cancelled(ctx, plan[k])
    ensures d in OutcomeAt(ctx, {}, plan, k).dependsOn && !HasId(Outcome(ctx, {}, plan), d) <==>
      && d in plan[k].dependsOn && MergeFocus(plan[k], ctx.view).Some?
      && exists i :: 0 <= i < k && Cancelled(ctx, plan[i]) && plan[i].id == d
  {
    SurvivorWaitsFor(ctx, plan, k, d);
    IdSurvives(ctx, plan, d);
    CancelledIdAt(ctx, plan[..k], d);
    CancelledIdAt(ctx, plan[k + 1..], d);
    hide OutcomeAt, Outcome, CancelledIds, Cancelled, MergeFocus;
    if d in plan[k].dependsOn {
      assert plan[k] in plan && HasId(plan, d);
      var s :| s in plan && s.id == d;
      var i :| 0 <= i < |plan| && plan[i] == s;
      forall j | 0 <= j < |plan| && plan[j].id == d ensures j == i {
      }
      if i < k {
        assert plan[..k][i] == s;
      } else if i > k {
        assert plan[k + 1..][i - k - 1] == s;
      }
    }
  }

  /** Among the planned steps, a dependency is left dangling exactly when a merged step revives one. */
  lemma OutcomeClosedExactly(ctx: Context, plan: seq<Step>)
    requires DistinctIds(plan) && Closed(plan)
    ensures (forall s, d :: s in Outcome(ctx, {}, plan) && d in s.dependsOn ==> HasId(Outcome(ctx, {}, plan), d))
      <==> !Revives(ctx, plan)
  {
    var after := Outcome(ctx, {}, plan);
    hide OutcomeAt, Outcome, CancelledIds, Cancelled, MergeFocus;
    if i, k :| 0 <= i < k < |plan| && Cancelled(ctx, plan[i]) && !Cancelled(ctx, plan[k])
               && MergeFocus(plan[k], ctx.view).Some? && plan[i].id in plan[k].dependsOn {
      SurvivorDangles(ctx, plan, k, plan[i].id);
      OutcomeHas(ctx, {}, plan, k);
    }
    if !Revives(ctx, plan) {
      forall s, d | s in after && d in s.dependsOn ensures HasId(after, d) {
        var k := OutcomeFrom(ctx, {}, plan, s);
        SurvivorDangles(ctx, plan, k, d);
      }
    }
  }

  /** The follow-up waits for `d`: the template does and nothing has satisfied it, or it is the anchor. */
  predicate FollowUpWaits(ctx: Context, d: string) {
    || ctx.anchor == Some(d)
    || (Template(ctx.original).Some? && d in Template(ctx.original).value.dependsOn && !Satisfied(ctx, d))
  }

  /** A step of the plan bears this id and is not about to be cancelled. */
  ghost predicate StaysPending(ctx: Context, plan: seq<Step>, id: string) {
    exists s :: s in plan && s.id == id && !Cancelled(ctx, s)
  }

  lemma AppendedWaits(ctx: Context, plan: seq<Step>, d: string)
    requires Appended(ctx, plan) != []
    ensures d in Appended(ctx, plan)[0].dependsOn <==> FollowUpWaits(ctx, d)
  {
    hide MergeFocus;
    var template := Template(ctx.original).value;
    MergeKeeps(FollowUp(ctx, template), ctx.view);
    FilterMembers(Pending(ctx), template.dependsOn);
    assert Pending(ctx)(d) == !Satisfied(ctx, d);
  }

  /**
   * From a plan without unknown dependencies, a round leaves none exactly when no merged step revives a
   * cancelled dependency and the follow-up, if there is one, waits only for steps that stay or for itself.
   */
  lemma RoundClosedExactly(ctx: Context, plan: seq<Step>)
    requires DistinctIds(plan) && Closed(plan)
    ensures Closed(Round(ctx, plan)) <==>
      && !Revives(ctx, plan)
      && forall w, d :: w in Appended(ctx, plan) && FollowUpWaits(ctx, d) ==> d == w.id || StaysPending(ctx, plan, d)
  {
    hide *;
    RoundIs(ctx, plan);
    OutcomeClosedExactly(ctx, plan);
    OutcomeWaitsWithin(ctx, plan);
    AppendedIdIsNew(ctx, plan);
    forall w, d | w in Appended(ctx, plan)
      ensures d in w.dependsOn <==> FollowUpWaits(ctx, d)
      ensures HasId(Round(ctx, plan), d) <==> d == w.id || StaysPending(ctx, plan, d)
    {
      AppendedInRound(ctx, plan, w, d);
    }
    ClosedParts(plan, Outcome(ctx, {}, plan), Appended(ctx, plan));
  }

  lemma AppendedInRound(ctx: Context, plan: seq<Step>, w: Step, d: string)
    requires DistinctIds(plan) && w in Appended(ctx, plan)
    ensures d in w.dependsOn <==> FollowUpWaits(ctx, d)
    ensures HasId(Round(ctx, plan), d) <==> d == w.id || StaysPending(ctx, plan, d)
  {
    hide Round, Outcome, Appended, Cancelled, FollowUpWaits;
    AppendedWaits(ctx, plan, d);
    PlanAppends(ctx, plan);
    RoundIs(ctx, plan);
    IdSurvives(ctx, plan, d);
    EitherHasId(Outcome(ctx, {}, plan), [w], d);
    assert w in [w];
  }

  lemma EitherHasId(a: seq<Step>, b: seq<Step>, id: string)
    ensures HasId(a + b, id) <==> HasId(a, id) || HasId(b, id)
  {
    assert forall s :: s in a + b <==> s in a || s in b;
  }

  lemma AppendedIdIsNew(ctx: Context, plan: seq<Step>)
    ensures forall w :: w in Appended(ctx, plan) ==> !HasId(plan, w.id)
  {
  }

  /** Steps that wait only for ids of the plan cannot be waiting for what is new. */
  lemma ClosedParts(plan: seq<Step>, after: seq<Step>, extra: seq<Step>)
    requires forall s, d :: s in after && d in s.dependsOn ==> HasId(plan, d)
    requires forall w :: w in extra ==> !HasId(plan, w.id)
    ensures Closed(after + extra) <==>
      && (forall s, d :: s in after && d in s.dependsOn ==> HasId(after, d))
      && (forall w, d :: w in extra && d in w.dependsOn ==> HasId(after + extra, d))
  {
    var all := after + extra;
    assert forall s :: s in all <==> s in after || s in extra;
    forall s, d | s in after && d in s.dependsOn ensures HasId(after, d) <==> HasId(all, d) {
    }
  }

  lemma OutcomeWaitsWithin(ctx: Context, plan: seq<Step>)
    requires Closed(plan)
    ensures forall s, d :: s in Outcome(ctx, {}, plan) && d in s.dependsOn ==> HasId(plan, d)
  {
    hide OutcomeAt, Outcome, CancelledIds, Cancelled, MergeFocus;
    forall s, d | s in Outcome(ctx, {}, plan) && d in s.dependsOn ensures HasId(plan, d) {
      var k := OutcomeFrom(ctx, {}, plan, s);
      SurvivorWaitsFor(ctx, plan, k, d);
      assert plan[k] in plan;
    }
  }

  // ---- the whole request ----

  lemma OutcomeNamed(ctx: Context, plan: seq<Step>)
    requires forall s :: s in plan ==> !IsBlank(s.id)
    ensures forall s :: s in Outcome(ctx, {}, plan) ==> !IsBlank(s.id)
  {
    hide IsBlank;
    forall s | s in Outcome(ctx, {}, plan) ensures !IsBlank(s.id) {
      OutcomeOrigin(ctx, {}, plan, s);
    }
  }

  /** Surviving steps wait for nothing they did not wait for before. */
  lemma OutcomeRanked(ctx: Context, plan: seq<Step>, rank: map<string, nat>)
    requires Ranked(plan, rank)
    ensures Ranked(Outcome(ctx, {}, plan), rank)
  {
    hide OutcomeAt, Outcome, CancelledIds, Cancelled, MergeFocus;
    forall s | s in Outcome(ctx, {}, plan)
      ensures s.id in rank && forall d :: d in s.dependsOn && d in rank ==> rank[d] < rank[s.id]
    {
      var k := OutcomeFrom(ctx, {}, plan, s);
      OutcomeAtId(ctx, plan, k);
      assert plan[k] in plan;
      forall d | d in s.dependsOn ensures d in plan[k].dependsOn {
        SurvivorWaitsFor(ctx, plan, k, d);
      }
    }
  }

  lemma OutcomeAtId(ctx: Context, plan: seq<Step>, k: nat)
    requires k < |plan|
    ensures OutcomeAt(ctx, {}, plan, k).id == plan[k].id
  {
    hide CancelledIds, Cancelled, MergeFocus;
    MergeKeeps(plan[k], ctx.view);
  }

  lemma {:induction false} Bounded(rank: map<string, nat>, ids: seq<string>) returns (bound: nat)
    ensures forall d :: d in ids && d in rank ==> rank[d] < bound
  {
    if ids == [] {
      bound := 0;
    } else {
      bound := Bounded(rank, ids[1..]);
      if ids[0] in rank && rank[ids[0]] >= bound {
        bound := rank[ids[0]] + 1;
      }
    }
  }

  /** A new step that nobody waits for closes no cycle, unless it waits for itself. */
  lemma AppendKeepsAcyclic(steps: seq<Step>, w: Step, rank: map<string, nat>)
    requires Ranked(steps, rank) && !HasId(steps, w.id) && w.id !in w.dependsOn
    requires forall s, d :: s in steps && d in s.dependsOn ==> d != w.id
    ensures Acyclic(steps + [w])
  {
    var bound := Bounded(rank, w.dependsOn);
    var rank' := rank[w.id := bound];
    forall s | s in steps + [w]
      ensures s.id in rank' && forall d :: d in s.dependsOn && d in rank' ==> rank'[d] < rank'[s.id]
    {
      if s in steps {
        assert s.id != w.id;
      }
    }
    assert Ranked(steps + [w], rank');
  }

  lemma SelfWaitIsCycle(steps: seq<Step>, w: Step)
    requires w in steps && w.id in w.dependsOn
    ensures !Acyclic(steps)
  {
  }

  lemma AppendedIdIsNamed(ctx: Context, plan: seq<Step>)
    ensures forall w :: w in Appended(ctx, plan) ==> !IsBlank(w.id)
  {
    hide MergeFocus;
    if Appended(ctx, plan) != [] {
      var template := Template(ctx.original).value;
      MergeKeeps(FollowUp(ctx, template), ctx.view);
      NotBlank(AppendedId(template), |template.id|);
    }
  }

  lemma DistinctLast(steps: seq<Step>, w: Step)
    requires DistinctIds(steps) && !HasId(steps, w.id)
    ensures DistinctIds(steps + [w])
  {
    forall i | 0 <= i < |steps| ensures steps[i].id != w.id {
      assert steps[i] in steps;
    }
  }

  /** The planned steps alone stay well named, distinct and acyclic, whatever happens to them. */
  lemma OutcomeKeepsRest(ctx: Context, plan: seq<Step>)
    requires Accepts(plan)
    ensures var after := Outcome(ctx, {}, plan);
      (forall s :: s in after ==> !IsBlank(s.id)) && DistinctIds(after) && Acyclic(after)
  {
    hide IsBlank, Closed, Outcome;
    OutcomeNamed(ctx, plan);
    OutcomeDistinct(ctx, {}, plan);
    var rank :| Ranked(plan, rank);
    OutcomeRanked(ctx, plan, rank);
  }

  lemma RoundKeepsRest(ctx: Context, plan: seq<Step>)
    requires Accepts(plan)
    requires forall w :: w in Appended(ctx, plan) ==> !FollowUpWaits(ctx, w.id)
    ensures forall s :: s in Round(ctx, plan) ==> !IsBlank(s.id)
    ensures DistinctIds(Round(ctx, plan)) && Acyclic(Round(ctx, plan))
  {
    var after := Outcome(ctx, {}, plan);
    RoundIs(ctx, plan);
    OutcomeKeepsRest(ctx, plan);
    AppendedIdIsNew(ctx, plan);
    AppendedIdIsNamed(ctx, plan);
    OutcomeWaitsWithin(ctx, plan);
    hide Outcome, Round, Appended, IsBlank, FollowUpWaits, Ranked;
    if Appended(ctx, plan) == [] {
      ConcatEmpty(after);
    } else {
      var w := Appended(ctx, plan)[0];
      PlanAppends(ctx, plan);
      AppendedWaits(ctx, plan, w.id);
      IdSurvives(ctx, plan, w.id);
      hide Cancelled;
      DistinctLast(after, w);
      var rank :| Ranked(after, rank);
      AppendKeepsAcyclic(after, w, rank);
    }
  }

  /**
   * From a plan the scheduler accepts, a round leaves one it accepts exactly when no merged step revives a
   * cancelled dependency and the follow-up, if there is one, waits only for steps that stay pending.
   */
  lemma RoundAcceptedExactly(ctx: Context, plan: seq<Step>)
    requires Accepts(plan)
    ensures Accepts(Round(ctx, plan)) <==>
      && !Revives(ctx, plan)
      && (Appended(ctx, plan) != [] ==> forall d :: FollowUpWaits(ctx, d) ==> StaysPending(ctx, plan, d))
  {
    RoundClosedExactly(ctx, plan);
    AppendedIdIsNew(ctx, plan);
    hide Round, Revives, IsBlank, Appended, FollowUpWaits;
    if Appended(ctx, plan) != [] {
      var w := Appended(ctx, plan)[0];
      assert w in Appended(ctx, plan);
      PlanAppends(ctx, plan);
      NewIsNotPending(ctx, plan, w.id);
      if FollowUpWaits(ctx, w.id) {
        SelfWaitCloses(ctx, plan, w);
      } else {
        RoundKeepsRest(ctx, plan);
      }
    } else {
      RoundKeepsRest(ctx, plan);
    }
  }

  lemma NewIsNotPending(ctx: Context, plan: seq<Step>, id: string)
    requires !HasId(plan, id)
    ensures !StaysPending(ctx, plan, id)
  {
  }

  /**
   * A follow-up anchored at a step that has left the plan, as every step the kernel passes for an
   * anchor has, is never accepted.
   */
  lemma AnchoredFollowUpIsRejected(ctx: Context, plan: seq<Step>)
    requires DistinctIds(plan) && Closed(plan) && Appended(ctx, plan) != []
    requires ctx.anchor.Some? && !HasId(plan, ctx.anchor.value)
    ensures !Accepts(Round(ctx, plan))
    ensures ctx.anchor.value != Appended(ctx, plan)[0].id ==> !Closed(Round(ctx, plan))
  {
    var w, anchor := Appended(ctx, plan)[0], ctx.anchor.value;
    assert w in Appended(ctx, plan) && FollowUpWaits(ctx, anchor);
    NewIsNotPending(ctx, plan, anchor);
    hide Round, Appended, StaysPending;
    RoundClosedExactly(ctx, plan);
    if anchor == w.id {
      SelfWaitCloses(ctx, plan, w);
    }
  }

  lemma SelfWaitCloses(ctx: Context, plan: seq<Step>, w: Step)
    requires DistinctIds(plan) && Appended(ctx, plan) != [] && w == Appended(ctx, plan)[0] && FollowUpWaits(ctx, w.id)
    ensures !Acyclic(Round(ctx, plan))
  {
    hide Round, Outcome, Appended, FollowUpWaits;
    AppendedWaits(ctx, plan, w.id);
    PlanAppends(ctx, plan);
    RoundIs(ctx, plan);
    assert (Outcome(ctx, {}, plan) + [w])[|Outcome(ctx, {}, plan)|] == w;
    SelfWaitIsCycle(Round(ctx, plan), w);
  }

  // ---- plans that are rejected ----

  lemma NothingPendingIsAccepted()
    ensures Accepts([])
  {
    assert Ranked([], map[]);
  }

  /** The map step has just succeeded with nothing left pending; the focus is new to it, and it is the anchor. */
  function MapSucceeded(): Context {
    ReportChanged(Basic).(anchor := Some("map"), completedSuccess := {"map"})
  }

  lemma MapSucceededAppends()
    ensures Appended(MapSucceeded(), []) != []
  {
    var ctx := MapSucceeded();
    FollowUpMerges(ctx, EXAMPLE_MAP);
    hide MergeFocus;
    assert Template(ctx.original) == Some(EXAMPLE_MAP);
    assert AppendedId(EXAMPLE_MAP)[3] == '_' && AppendedId(EXAMPLE_MAP) != "map";
  }

  /** The follow-up waits for the step that has just completed, and nothing else is left in the plan. */
  lemma AnchoredFollowUpExample()
    ensures var ctx := MapSucceeded(); var anchor := ctx.anchor.value;
      anchor in ctx.completedSuccess && HasId(ctx.original, anchor)
      && Accepts([]) && Appended(ctx, []) != [] && !Accepts(Round(ctx, []))
  {
    hide Round, Appended;
    var ctx := MapSucceeded();
    assert ctx.original[0].id == "map";
    NothingPendingIsAccepted();
    MapSucceededAppends();
    AnchoredFollowUpIsRejected(ctx, []);
  }

  const COVERAGE := Step("cov", "x.cover", [], Opaque(""), None, "")

  /** Only a symbol changed, in task-aware mode, and the map step the follow-up is made from has been completed. */
  function SymbolChanged(): Context {
    Context([COVERAGE, EXAMPLE_MAP.(dependsOn := ["cov"])],
      View(["src/a.rs"], [], ["src/a.rs"], [], ["map"], [], ["sym"]), {}, TaskAware, true, None, (g, p) => false)
  }

  lemma PairIsAccepted(first: Step, second: Step)
    requires !IsBlank(first.id) && !IsBlank(second.id) && first.id != second.id
    requires first.dependsOn == [] && second.dependsOn == [first.id]
    ensures Accepts([first, second])
  {
    hide IsBlank;
    var plan := [first, second];
    assert plan[0] == first && HasId(plan, first.id);
    assert Ranked(plan, map[first.id := 0, second.id := 1]);
  }

  lemma CoverTarget()
    ensures Contains("x.cover", "cover")
  {
    assert "x.cover"[1..] == ".cover" && ".cover"[1..] == "cover";
    assert Contains("cover", "cover") && Contains(".cover", "cover");
  }

  lemma FollowUpMerges(ctx: Context, template: Step)
    requires ctx.view.focusPaths == ["src/a.rs"]
    requires template.target == MAP_TARGET && template.input == ForMap(MapRequest([], [], ""))
    ensures MergeFocus(template, ctx.view).Some? && MergeFocus(FollowUp(ctx, template), ctx.view).Some?
  {
    assert "src/a.rs" in MergeNames([], ctx.view.focusPaths) by { assert "src/a.rs" in ctx.view.focusPaths; }
  }

  lemma SymbolChangedCancels()
    ensures var ctx := SymbolChanged(); Cancelled(ctx, ctx.original[0]) && Cancelled(ctx, ctx.original[1])
  {
    CoverTarget();
    hide Contains;
  }

  lemma SymbolChangedAppends()
    ensures var ctx := SymbolChanged(); Appended(ctx, ctx.original) != [] && FollowUpWaits(ctx, "cov")
  {
    var ctx := SymbolChanged();
    var map_ := ctx.original[1];
    SymbolChangedCancels();
    FollowUpMerges(ctx, map_);
    hide Cancelled, MergeFocus;
    assert Template(ctx.original[1..]) == Some(map_);
    assert Template(ctx.original) == Some(map_);
    assert !HasLiveMap(ctx, ctx.original);
    assert AppendedId(map_)[3] == '_' && AppendedId(map_) != "map" && AppendedId(map_) != "cov";
    MergeKeeps(FollowUp(ctx, map_), ctx.view);
  }

  /** Without anchor or revival: the follow-up waits for a step that the same round cancels as unaffected. */
  lemma CancelledDependencyAwaited()
    ensures var ctx := SymbolChanged();
      Accepts(ctx.original) && !Revives(ctx, ctx.original) && ctx.anchor.None? && !Accepts(Round(ctx, ctx.original))
  {
    hide Round, Cancelled, Appended, FollowUpWaits;
    var ctx := SymbolChanged();
    var plan := ctx.original;
    NotBlank("cov", 0);
    NotBlank("map", 0);
    PairIsAccepted(plan[0], plan[1]);
    SymbolChangedCancels();
    SymbolChangedAppends();
    hide IsBlank, Accepts;
    assert !StaysPending(ctx, plan, "cov");
    RoundAcceptedExactly(ctx, plan);
  }

  /** A completed step before a map step that waits for it: the merged map step waits for a step that is gone. */
  lemma CompletedDependencyRevived()
    ensures var done := Step("a", "buildy.reduce", [], Opaque(""), None, "");
      var map_ := EXAMPLE_MAP.(dependsOn := ["a"]);
      var view := ReportChanged(Basic).view.(completedSteps := ["a"]);
      var ctx := ReportChanged(Basic).(original := [done, map_], view := view);
      Accepts([done, map_]) && !Closed(Round(ctx, [done, map_])) && !Accepts(Round(ctx, [done, map_]))
  {
    var done := Step("a", "buildy.reduce", [], Opaque(""), None, "");
    var map_ := EXAMPLE_MAP.(dependsOn := ["a"]);
    var view := ReportChanged(Basic).view.(completedSteps := ["a"]);
    var plan := [done, map_];
    var ctx := ReportChanged(Basic).(original := plan, view := view);
    NotBlank("a", 0);
    NotBlank("map", 0);
    PairIsAccepted(done, map_);
    FollowUpMerges(ctx, map_);
    hide IsBlank, Closed, MergeFocus, Round;
    assert Cancelled(ctx, plan[0]) && !Cancelled(ctx, plan[1]) && plan[0].id in plan[1].dependsOn;
    RoundClosedExactly(ctx, plan);
  }
}
