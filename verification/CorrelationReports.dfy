/** Which rules a run reports findings by, told from the packets. */
module CorrelationReports {
  import opened Order
  import opened Sequences
  import opened Sorting
  import opened Wrappers
  import opened CorrelationRules
  import opened CorrelationLaws
  import opened CorrelationRun
  import opened CorrelationMeaning

  // ---- which rules a run reports ----

  ghost predicate NoBar(rule: string) {
    forall i :: 0 <= i < |rule| ==> rule[i] != '|'
  }

  /** Findings with one key are by one rule. */
  lemma KeyTellsRule(f: Finding, g: Finding)
    requires NoBar(f.rule) && NoBar(g.rule) && Key(f) == Key(g)
    ensures f.rule == g.rule
  {
    hide Join, Sort, Texts;
    var rest, other := "|" + f.relation + "|" + Join(Sort(StrLe, Texts(f.evidence)), "|"),
      "|" + g.relation + "|" + Join(Sort(StrLe, Texts(g.evidence)), "|");
    assert Key(f) == f.rule + rest && Key(g) == g.rule + other;
    BeforeBar(f.rule, rest, g.rule, other);
  }

  lemma BeforeBar(a: string, rest: string, b: string, other: string)
    requires NoBar(a) && NoBar(b) && a + rest == b + other
    requires rest != "" && rest[0] == '|' && other != "" && other[0] == '|'
    ensures a == b
  {
    var s := a + rest;
    assert s[|a|] == '|' && s[|b|] == '|';
    assert forall i :: 0 <= i < |a| ==> s[i] == a[i];
    assert forall i :: 0 <= i < |b| ==> s[i] == b[i];
    assert s[..|a|] == a && s[..|b|] == b;
  }

  /** The rules have eight names. */
  predicate IsRule(rule: string) {
    rule in ["diff_vs_stack", "diff_vs_impact", "diff_vs_build", "shared_file", "shared_symbol", "shared_test",
             "map_edge_connects", "task_focus_overlap"]
  }

  lemma RulesHaveNoBar(rule: string)
    requires IsRule(rule)
    ensures NoBar(rule)
  {
  }

  /** A finding by this rule is among those that survive. */
  ghost predicate Reports(packets: seq<Packet>, focus: Option<Focus>, rule: string) {
    exists f :: Survives(packets, focus, f) && f.rule == rule
  }

  lemma ReportsExactly(packets: seq<Packet>, focus: Option<Focus>, rule: string)
    requires forall f :: f in AllFindings(packets, focus) ==> IsRule(f.rule)
    ensures Reports(packets, focus, rule) <==> exists f :: f in AllFindings(packets, focus) && f.rule == rule
  {
    hide Key, First, AllFindings, IsRule;
    var all := AllFindings(packets, focus);
    if f :| Survives(packets, focus, f) && f.rule == rule {
      FirstIsMember(all, Key(f));
    }
    if f :| f in all && f.rule == rule {
      FirstOfKey(all, Key(f));
      FirstIsMember(all, Key(f));
      var g := First(all, Key(f)).value;
      RulesHaveNoBar(f.rule);
      RulesHaveNoBar(g.rule);
      KeyTellsRule(f, g);
      assert Survives(packets, focus, g);
    }
  }

  // ---- where a finding comes from ----

  ghost predicate FromStack(packets: seq<Packet>, f: Finding) {
    exists diff, stack :: diff in packets && stack in packets && diff.typed.Diff? && stack.typed.Stack?
      && ChangedFiles(diff) != {} && f in DiffVsStack(diff, stack, Filter((p: Packet) => p.typed.Map?, packets))
  }

  ghost predicate FromImpact(packets: seq<Packet>, f: Finding) {
    exists diff, impact :: diff in packets && impact in packets && diff.typed.Diff? && impact.typed.Impact?
      && ChangedFiles(diff) != {} && f in DiffVsImpact(diff, impact)
  }

  ghost predicate FromBuild(packets: seq<Packet>, f: Finding) {
    exists diff, build :: diff in packets && build in packets && diff.typed.Diff? && build.typed.Build?
      && ChangedFiles(diff) != {} && f in DiffVsBuild(diff, build)
  }

  ghost predicate FromPair(ns: seq<Normalized>, f: Finding) {
    exists i, j :: 0 <= i < j < |ns| && f in PairFindings(ns, ns[i], ns[j])
  }

  ghost predicate FromFocus(ns: seq<Normalized>, focus: Option<Focus>, f: Finding) {
    focus.Some? && exists p :: p in ns && f in TaskFocusOverlap(ns, focus.value, p)
  }

  ghost predicate FromDiff(diff: Packet, stacks: seq<Packet>, impacts: seq<Packet>, builds: seq<Packet>,
      maps: seq<Packet>, f: Finding)
    requires diff.typed.Diff?
    requires forall p :: p in stacks ==> p.typed.Stack?
    requires forall p :: p in impacts ==> p.typed.Impact?
    requires forall p :: p in builds ==> p.typed.Build?
  {
    && ChangedFiles(diff) != {}
    && (|| (exists p :: p in stacks && f in DiffVsStack(diff, p, maps))
        || (exists p :: p in impacts && f in DiffVsImpact(diff, p))
        || (exists p :: p in builds && f in DiffVsBuild(diff, p)))
  }

  lemma OneDiffMembers(diff: Packet, stacks: seq<Packet>, impacts: seq<Packet>, builds: seq<Packet>,
      maps: seq<Packet>, f: Finding)
    requires diff.typed.Diff?
    requires forall p :: p in stacks ==> p.typed.Stack?
    requires forall p :: p in impacts ==> p.typed.Impact?
    requires forall p :: p in builds ==> p.typed.Build?
    ensures f in DiffFindings(diff, stacks, impacts, builds, maps) <==>
      FromDiff(diff, stacks, impacts, builds, maps, f)
  {
    hide FlatMap, ChangedFiles, DiffVsStack, DiffVsImpact, DiffVsBuild;
    FlatMapMembers(StackRule(diff, maps), stacks);
    FlatMapMembers(ImpactRule(diff), impacts);
    FlatMapMembers(BuildRule(diff), builds);
  }

  lemma AllDiffMembers(packets: seq<Packet>, f: Finding)
    ensures f in AllDiffFindings(packets) <==>
      FromStack(packets, f) || FromImpact(packets, f) || FromBuild(packets, f)
  {
    hide FlatMap, ChangedFiles, DiffVsStack, DiffVsImpact, DiffVsBuild, DiffFindings, Filter;
    var stacks := Filter((p: Packet) => p.typed.Stack?, packets);
    var impacts := Filter((p: Packet) => p.typed.Impact?, packets);
    var builds := Filter((p: Packet) => p.typed.Build?, packets);
    var maps := Filter((p: Packet) => p.typed.Map?, packets);
    var diffs := Filter((p: Packet) => p.typed.Diff?, packets);
    FilterMembers((p: Packet) => p.typed.Stack?, packets);
    FilterMembers((p: Packet) => p.typed.Impact?, packets);
    FilterMembers((p: Packet) => p.typed.Build?, packets);
    FilterMembers((p: Packet) => p.typed.Diff?, packets);
    FlatMapMembers(DiffRule(stacks, impacts, builds, maps), diffs);
    forall diff | diff in diffs
      ensures f in DiffRule(stacks, impacts, builds, maps)(diff) <==>
        FromDiff(diff, stacks, impacts, builds, maps, f)
    {
      OneDiffMembers(diff, stacks, impacts, builds, maps, f);
    }
  }

  ghost predicate FromTail(ns: seq<Normalized>, tail: seq<Normalized>, f: Finding) {
    exists i, j :: 0 <= i < j < |tail| && f in PairFindings(ns, tail[i], tail[j])
  }

  lemma TailCons(ns: seq<Normalized>, tail: seq<Normalized>, f: Finding)
    requires tail != []
    ensures FromTail(ns, tail, f) <==>
      FromTail(ns, tail[1..], f) || exists p :: p in tail[1..] && f in PairFindings(ns, tail[0], p)
  {
    hide PairFindings;
    var rest := tail[1..];
    if i, j :| 0 <= i < j < |rest| && f in PairFindings(ns, rest[i], rest[j]) {
      assert tail[i + 1] == rest[i] && tail[j + 1] == rest[j];
    }
    if p :| p in rest && f in PairFindings(ns, tail[0], p) {
      var j :| 0 <= j < |rest| && rest[j] == p;
      assert tail[j + 1] == p;
    }
    if i, j :| 0 <= i < j < |tail| && f in PairFindings(ns, tail[i], tail[j]) {
      assert rest[j - 1] == tail[j];
      assert i > 0 ==> rest[i - 1] == tail[i];
    }
  }

  lemma {:induction false} PairsFromMembers(ns: seq<Normalized>, tail: seq<Normalized>, f: Finding)
    ensures f in PairsFrom(ns, tail) <==> FromTail(ns, tail, f)
  {
    hide FlatMap, PairFindings, FromTail;
    if tail == [] {
      NothingFromTail(ns, f);
    } else {
      PairsFromMembers(ns, tail[1..], f);
      TailCons(ns, tail, f);
      FlatMapMembers(WithEach(ns, tail[0]), tail[1..]);
    }
  }

  lemma NothingFromTail(ns: seq<Normalized>, f: Finding)
    ensures !FromTail(ns, [], f)
  {
  }

  lemma AllMembers(packets: seq<Packet>, focus: Option<Focus>, f: Finding)
    ensures var ns := FlatMap(NormalizedOf, packets);
      f in AllFindings(packets, focus) <==>
        || FromStack(packets, f) || FromImpact(packets, f) || FromBuild(packets, f)
        || FromPair(ns, f) || FromFocus(ns, focus, f)
  {
    hide FromStack, FromImpact, FromBuild, AllDiffFindings, PairsFrom, PairFindings, TaskFocusOverlap, FlatMap;
    var ns := FlatMap(NormalizedOf, packets);
    AllDiffMembers(packets, f);
    PairsFromMembers(ns, ns, f);
    if focus.Some? {
      FlatMapMembers(FocusRule(ns, focus.value), ns);
    }
  }

  /** Findings of one source are by the rules of that source. */
  lemma SourcesTellRules(packets: seq<Packet>, ns: seq<Normalized>, focus: Option<Focus>, f: Finding)
    ensures FromStack(packets, f) ==> f.rule == "diff_vs_stack"
    ensures FromImpact(packets, f) ==> f.rule == "diff_vs_impact"
    ensures FromBuild(packets, f) ==> f.rule == "diff_vs_build"
    ensures FromFocus(ns, focus, f) ==> f.rule == "task_focus_overlap"
  {
    hide ChangedFiles, Filter, Refs, Listed, Commas, Decimal, AnyMapConnects, NormalizedRefs, WithCount;
  }

  lemma PairsTellRules(ns: seq<Normalized>, left: Normalized, right: Normalized, f: Finding)
    requires f in PairFindings(ns, left, right)
    ensures f.rule in ["shared_file", "shared_symbol", "shared_test", "map_edge_connects"]
    ensures f.rule == "shared_file" ==> f in SharedFile(ns, left, right)
    ensures f.rule == "shared_symbol" ==> f in SharedSymbol(left, right)
    ensures f.rule == "shared_test" ==> f in SharedTest(left, right)
  {
    hide FlatMap, WithCount, NormalizedRefs, Listed, Commas, EdgeConnects, IsRepoMap, PacketTypeFor;
    FlatMapMembers(MapRule(left, right), ns);
    PairRulesDiffer();
  }

  lemma PairRulesDiffer()
    ensures "shared_file" != "shared_symbol" && "shared_file" != "shared_test" && "shared_symbol" != "shared_test"
    ensures forall rule :: rule in ["shared_file", "shared_symbol", "shared_test"] ==> rule != "map_edge_connects"
  {
    assert "shared_file"[7] == 'f' && "shared_symbol"[7] == 's' && "shared_test"[7] == 't';
    assert "map_edge_connects"[0] == 'm';
  }

  lemma AllRulesKnown(packets: seq<Packet>, focus: Option<Focus>)
    ensures forall f :: f in AllFindings(packets, focus) ==> IsRule(f.rule)
  {
    hide AllFindings, PairFindings, FromStack, FromImpact, FromBuild, FromFocus, FlatMap;
    var ns := FlatMap(NormalizedOf, packets);
    forall f | f in AllFindings(packets, focus) ensures IsRule(f.rule) {
      AllMembers(packets, focus, f);
      SourcesTellRules(packets, ns, focus, f);
      if FromPair(ns, f) {
        var i, j :| 0 <= i < j < |ns| && f in PairFindings(ns, ns[i], ns[j]);
        PairsTellRules(ns, ns[i], ns[j], f);
      }
    }
  }

  /** What tells the rules about a diff, the rules about a pair and the rule about the checkpoint apart. */
  lemma RulesDiffer()
    ensures "diff_vs_stack" != "diff_vs_impact" && "diff_vs_stack" != "diff_vs_build"
    ensures "diff_vs_impact" != "diff_vs_build"
    ensures forall rule :: rule in ["diff_vs_stack", "diff_vs_impact", "diff_vs_build"] ==> rule[0] == 'd'
    ensures forall rule :: rule in ["shared_file", "shared_symbol", "shared_test", "map_edge_connects"] ==>
      rule[0] == 's' || rule[0] == 'm'
    ensures "task_focus_overlap"[0] == 't'
  {
    assert "diff_vs_stack"[8] == 's' && "diff_vs_impact"[8] == 'i' && "diff_vs_build"[8] == 'b';
  }

  lemma FindingsByRule(packets: seq<Packet>, focus: Option<Focus>, f: Finding)
    requires f in AllFindings(packets, focus)
    ensures var ns := FlatMap(NormalizedOf, packets);
      && (f.rule == "diff_vs_stack" ==> FromStack(packets, f))
      && (f.rule == "diff_vs_impact" ==> FromImpact(packets, f))
      && (f.rule == "diff_vs_build" ==> FromBuild(packets, f))
      && (f.rule in ["shared_file", "shared_symbol", "shared_test"] ==> FromPair(ns, f))
      && (f.rule == "task_focus_overlap" ==> FromFocus(ns, focus, f))
  {
    hide AllFindings, PairFindings, FromStack, FromImpact, FromBuild, FromFocus, FlatMap;
    var ns := FlatMap(NormalizedOf, packets);
    AllMembers(packets, focus, f);
    SourcesTellRules(packets, ns, focus, f);
    RulesDiffer();
    if FromPair(ns, f) {
      var i, j :| 0 <= i < j < |ns| && f in PairFindings(ns, ns[i], ns[j]);
      PairsTellRules(ns, ns[i], ns[j], f);
    }
  }

  ghost predicate ChangesSomething(p: Packet) {
    p.typed.Diff? && exists f :: Changes(p, f)
  }

  lemma ChangesSomethingExactly(p: Packet)
    requires p.typed.Diff?
    ensures ChangedFiles(p) != {} <==> ChangesSomething(p)
  {
    ChangedExactly(p);
    if ChangedFiles(p) != {} {
      var f :| f in ChangedFiles(p);
    }
  }

  lemma ReportedIfAny(packets: seq<Packet>, focus: Option<Focus>, rule: string, from: Finding -> bool)
    requires forall f :: f in AllFindings(packets, focus) && f.rule == rule <==> from(f)
    ensures Reports(packets, focus, rule) <==> exists f :: from(f)
  {
    hide AllFindings, Reports, IsRule;
    AllRulesKnown(packets, focus);
    ReportsExactly(packets, focus, rule);
    if f :| from(f) {
      assert f in AllFindings(packets, focus) && f.rule == rule;
    }
  }

  lemma OfRule(packets: seq<Packet>, focus: Option<Focus>, f: Finding)
    ensures f in AllFindings(packets, focus) && f.rule == "diff_vs_stack" <==> FromStack(packets, f)
    ensures f in AllFindings(packets, focus) && f.rule == "diff_vs_impact" <==> FromImpact(packets, f)
    ensures f in AllFindings(packets, focus) && f.rule == "diff_vs_build" <==> FromBuild(packets, f)
    ensures var ns := FlatMap(NormalizedOf, packets);
      f in AllFindings(packets, focus) && f.rule == "task_focus_overlap" <==> FromFocus(ns, focus, f)
  {
    hide AllFindings, FromStack, FromImpact, FromBuild, FromPair, FromFocus, FlatMap;
    AllMembers(packets, focus, f);
    SourcesTellRules(packets, FlatMap(NormalizedOf, packets), focus, f);
    if f in AllFindings(packets, focus) {
      FindingsByRule(packets, focus, f);
    }
  }

  /** A rule is reported exactly if some finding comes from its source. */
  lemma ReportedFrom(packets: seq<Packet>, focus: Option<Focus>)
    ensures Reports(packets, focus, "diff_vs_stack") <==> exists f :: FromStack(packets, f)
    ensures Reports(packets, focus, "diff_vs_impact") <==> exists f :: FromImpact(packets, f)
    ensures Reports(packets, focus, "diff_vs_build") <==> exists f :: FromBuild(packets, f)
  {
    hide AllFindings, FromStack, FromImpact, FromBuild, FromFocus, FlatMap, Reports;
    forall f
      ensures f in AllFindings(packets, focus) && f.rule == "diff_vs_stack" <==> FromStack(packets, f)
      ensures f in AllFindings(packets, focus) && f.rule == "diff_vs_impact" <==> FromImpact(packets, f)
      ensures f in AllFindings(packets, focus) && f.rule == "diff_vs_build" <==> FromBuild(packets, f)
    {
      OfRule(packets, focus, f);
    }
    ReportedIfAny(packets, focus, "diff_vs_stack", f => FromStack(packets, f));
    ReportedIfAny(packets, focus, "diff_vs_impact", f => FromImpact(packets, f));
    ReportedIfAny(packets, focus, "diff_vs_build", f => FromBuild(packets, f));
  }

  lemma OverlapsReportedFrom(packets: seq<Packet>, focus: Option<Focus>)
    ensures var ns := FlatMap(NormalizedOf, packets);
      Reports(packets, focus, "task_focus_overlap") <==> exists f :: FromFocus(ns, focus, f)
  {
    hide AllFindings, FromStack, FromImpact, FromBuild, FromFocus, FlatMap, Reports, IsRule;
    AllRulesKnown(packets, focus);
    ReportsExactly(packets, focus, "task_focus_overlap");
    var ns := FlatMap(NormalizedOf, packets);
    if f :| f in AllFindings(packets, focus) && f.rule == "task_focus_overlap" {
      OfRule(packets, focus, f);
    }
    if f :| FromFocus(ns, focus, f) {
      OfRule(packets, focus, f);
      assert f in AllFindings(packets, focus) && f.rule == "task_focus_overlap";
    }
  }

  /** The diff changes a file and the build has diagnostics in a file it leaves alone. */
  ghost predicate MeetsBuild(diff: Packet, build: Packet) {
    ChangesSomething(diff) && build.typed.Build? && exists f :: f in build.typed.files && !Changes(diff, f)
  }

  lemma MeetsBuildExactly(diff: Packet, build: Packet)
    requires diff.typed.Diff? && build.typed.Build?
    ensures MeetsBuild(diff, build) <==> ChangedFiles(diff) != {} && DiffVsBuild(diff, build) != []
  {
    hide DiffVsBuild, ChangedFiles, Changes, ChangesSomething;
    ChangesSomethingExactly(diff);
    BuildRuleExactly(diff, build);
  }

  /** A build is reported exactly if some diff that changes a file meets a build with diagnostics in another file. */
  lemma BuildReportedExactly(packets: seq<Packet>, focus: Option<Focus>)
    ensures Reports(packets, focus, "diff_vs_build") <==>
      exists diff, build :: diff in packets && build in packets && MeetsBuild(diff, build)
  {
    hide DiffVsBuild, ChangedFiles, Changes, MeetsBuild, Reports, FlatMap;
    ReportedFrom(packets, focus);
    forall diff, build | diff in packets && build in packets && diff.typed.Diff? && build.typed.Build?
      ensures MeetsBuild(diff, build) <==> ChangedFiles(diff) != {} && DiffVsBuild(diff, build) != []
    {
      MeetsBuildExactly(diff, build);
    }
    if diff, build :| diff in packets && build in packets && MeetsBuild(diff, build) {
      MeetsTyped(diff, build);
      assert FromBuild(packets, DiffVsBuild(diff, build)[0]);
    }
  }

  lemma MeetsTyped(diff: Packet, other: Packet)
    ensures MeetsBuild(diff, other) ==> diff.typed.Diff? && other.typed.Build?
  {
  }

  /** A test impact is reported exactly if it selected tests and some diff changes a file. */
  lemma ImpactReportedExactly(packets: seq<Packet>, focus: Option<Focus>)
    ensures Reports(packets, focus, "diff_vs_impact") <==>
      && (exists diff :: diff in packets && ChangesSomething(diff))
      && exists impact :: impact in packets && impact.typed.Impact? && impact.typed.selectedTests != []
  {
    hide DiffVsImpact, ChangedFiles, Reports, FlatMap, ChangesSomething;
    ReportedFrom(packets, focus);
    ChangingDiffs(packets);
    forall diff, impact | diff in packets && impact in packets && diff.typed.Diff? && impact.typed.Impact?
      ensures DiffVsImpact(diff, impact) != [] <==> impact.typed.selectedTests != []
    {
      ImpactRuleExactly(diff, impact);
    }
    if diff, impact :| diff in packets && impact in packets && ChangesSomething(diff) && impact.typed.Impact?
                       && impact.typed.selectedTests != [] {
      assert FromImpact(packets, DiffVsImpact(diff, impact)[0]);
    }
  }

  lemma ChangingDiffs(packets: seq<Packet>)
    ensures forall p :: p in packets && ChangesSomething(p) ==> p.typed.Diff?
    ensures forall p :: p in packets && p.typed.Diff? ==> (ChangedFiles(p) != {} <==> ChangesSomething(p))
  {
    forall p | p in packets && p.typed.Diff? ensures ChangedFiles(p) != {} <==> ChangesSomething(p) {
      ChangesSomethingExactly(p);
    }
    hide ChangedFiles, Changes;
  }

  /** A stack is reported exactly if it has files and some diff changes a file. */
  lemma StackReportedExactly(packets: seq<Packet>, focus: Option<Focus>)
    ensures Reports(packets, focus, "diff_vs_stack") <==>
      && (exists diff :: diff in packets && ChangesSomething(diff))
      && exists stack :: stack in packets && stack.typed.Stack? && stack.typed.files != {}
  {
    hide DiffVsStack, ChangedFiles, Reports, FlatMap, ChangesSomething, Filter;
    ReportedFrom(packets, focus);
    ChangingDiffs(packets);
    var maps := Filter((p: Packet) => p.typed.Map?, packets);
    FilterMembers((p: Packet) => p.typed.Map?, packets);
    forall diff, stack | diff in packets && stack in packets && diff.typed.Diff? && stack.typed.Stack?
      ensures DiffVsStack(diff, stack, maps) != [] <==> stack.typed.files != {}
    {
      StackRuleExactly(diff, stack, maps);
    }
    if diff, stack :| diff in packets && stack in packets && ChangesSomething(diff) && stack.typed.Stack?
                      && stack.typed.files != {} {
      assert FromStack(packets, DiffVsStack(diff, stack, maps)[0]);
    }
  }

  ghost predicate FromFiles(ns: seq<Normalized>, f: Finding) {
    exists i, j :: 0 <= i < j < |ns| && f in SharedFile(ns, ns[i], ns[j])
  }

  ghost predicate FromSymbols(ns: seq<Normalized>, f: Finding) {
    exists i, j :: 0 <= i < j < |ns| && f in SharedSymbol(ns[i], ns[j])
  }

  ghost predicate FromTests(ns: seq<Normalized>, f: Finding) {
    exists i, j :: 0 <= i < j < |ns| && f in SharedTest(ns[i], ns[j])
  }

  lemma OfPairRule(packets: seq<Packet>, focus: Option<Focus>, f: Finding)
    ensures var ns := FlatMap(NormalizedOf, packets);
      && (f in AllFindings(packets, focus) && f.rule == "shared_file" <==> FromFiles(ns, f))
      && (f in AllFindings(packets, focus) && f.rule == "shared_symbol" <==> FromSymbols(ns, f))
      && (f in AllFindings(packets, focus) && f.rule == "shared_test" <==> FromTests(ns, f))
  {
    hide AllFindings, FromStack, FromImpact, FromBuild, FromFocus, FlatMap, SharedFile, SharedSymbol, SharedTest;
    var ns := FlatMap(NormalizedOf, packets);
    AllMembers(packets, focus, f);
    forall i, j | 0 <= i < j < |ns|
      ensures f in PairFindings(ns, ns[i], ns[j]) && f.rule == "shared_file" <==> f in SharedFile(ns, ns[i], ns[j])
      ensures f in PairFindings(ns, ns[i], ns[j]) && f.rule == "shared_symbol" <==> f in SharedSymbol(ns[i], ns[j])
      ensures f in PairFindings(ns, ns[i], ns[j]) && f.rule == "shared_test" <==> f in SharedTest(ns[i], ns[j])
    {
      SharedByRule(ns, ns[i], ns[j], f);
    }
    hide PairFindings;
    if f in AllFindings(packets, focus) {
      FindingsByRule(packets, focus, f);
    }
  }

  lemma SharedByRule(ns: seq<Normalized>, left: Normalized, right: Normalized, f: Finding)
    ensures f in PairFindings(ns, left, right) && f.rule == "shared_file" <==> f in SharedFile(ns, left, right)
    ensures f in PairFindings(ns, left, right) && f.rule == "shared_symbol" <==> f in SharedSymbol(left, right)
    ensures f in PairFindings(ns, left, right) && f.rule == "shared_test" <==> f in SharedTest(left, right)
  {
    hide FlatMap, WithCount, NormalizedRefs, Listed, Commas, PacketTypeFor;
    if f in PairFindings(ns, left, right) {
      PairsTellRules(ns, left, right, f);
    }
  }

  ghost predicate SharesSymbol(left: Normalized, right: Normalized) {
    exists x :: x in left.symbols && x in right.symbols
  }

  ghost predicate SharesTest(left: Normalized, right: Normalized) {
    exists x :: x in left.tests && x in right.tests
  }

  /** Two packets have a file in common, or a basename that no third packet has. */
  ghost predicate SharesFile(ns: seq<Normalized>, i: nat, j: nat)
    requires i < j < |ns|
  {
    || (exists x :: x in ns[i].files && x in ns[j].files)
    || (exists b :: Has(ns[i], b) && Has(ns[j], b) && OnlyAt(ns, b, {i, j}))
  }

  lemma SharesExactly(ns: seq<Normalized>, i: nat, j: nat)
    requires i < j < |ns|
    ensures SharedFile(ns, ns[i], ns[j]) != [] <==> SharesFile(ns, i, j)
    ensures SharedSymbol(ns[i], ns[j]) != [] <==> SharesSymbol(ns[i], ns[j])
    ensures SharedTest(ns[i], ns[j]) != [] <==> SharesTest(ns[i], ns[j])
  {
    hide SharedFile, NormalizedRefs, Listed, Commas, OnlyAt, Has;
    SharedFileExactly(ns, i, j);
    Meets(ns[i].symbols, ns[j].symbols);
    Meets(ns[i].tests, ns[j].tests);
  }

  lemma FilesReportedFrom(packets: seq<Packet>, focus: Option<Focus>)
    ensures var ns := FlatMap(NormalizedOf, packets);
      Reports(packets, focus, "shared_file") <==> exists f :: FromFiles(ns, f)
  {
    hide AllFindings, FromFiles, FlatMap, Reports, IsRule;
    AllRulesKnown(packets, focus);
    ReportsExactly(packets, focus, "shared_file");
    var ns := FlatMap(NormalizedOf, packets);
    if f :| f in AllFindings(packets, focus) && f.rule == "shared_file" {
      OfPairRule(packets, focus, f);
    }
    if f :| FromFiles(ns, f) {
      OfPairRule(packets, focus, f);
      assert f in AllFindings(packets, focus) && f.rule == "shared_file";
    }
  }

  lemma SymbolsReportedFrom(packets: seq<Packet>, focus: Option<Focus>)
    ensures var ns := FlatMap(NormalizedOf, packets);
      Reports(packets, focus, "shared_symbol") <==> exists f :: FromSymbols(ns, f)
  {
    hide AllFindings, FromSymbols, FlatMap, Reports, IsRule;
    AllRulesKnown(packets, focus);
    ReportsExactly(packets, focus, "shared_symbol");
    var ns := FlatMap(NormalizedOf, packets);
    if f :| f in AllFindings(packets, focus) && f.rule == "shared_symbol" {
      OfPairRule(packets, focus, f);
    }
    if f :| FromSymbols(ns, f) {
      OfPairRule(packets, focus, f);
      assert f in AllFindings(packets, focus) && f.rule == "shared_symbol";
    }
  }

  lemma TestsReportedFrom(packets: seq<Packet>, focus: Option<Focus>)
    ensures var ns := FlatMap(NormalizedOf, packets);
      Reports(packets, focus, "shared_test") <==> exists f :: FromTests(ns, f)
  {
    hide AllFindings, FromTests, FlatMap, Reports, IsRule;
    AllRulesKnown(packets, focus);
    ReportsExactly(packets, focus, "shared_test");
    var ns := FlatMap(NormalizedOf, packets);
    if f :| f in AllFindings(packets, focus) && f.rule == "shared_test" {
      OfPairRule(packets, focus, f);
    }
    if f :| FromTests(ns, f) {
      OfPairRule(packets, focus, f);
      assert f in AllFindings(packets, focus) && f.rule == "shared_test";
    }
  }

  lemma FilesShared(ns: seq<Normalized>)
    ensures (exists f :: FromFiles(ns, f)) <==> exists i, j :: 0 <= i < j < |ns| && SharesFile(ns, i, j)
  {
    hide SharedFile, SharedSymbol, SharedTest, SharesFile, SharesSymbol, SharesTest;
    forall i, j | 0 <= i < j < |ns| ensures SharedFile(ns, ns[i], ns[j]) != [] <==> SharesFile(ns, i, j) {
      SharesExactly(ns, i, j);
    }
    if i, j :| 0 <= i < j < |ns| && SharesFile(ns, i, j) {
      assert FromFiles(ns, SharedFile(ns, ns[i], ns[j])[0]);
    }
  }

  lemma SymbolsShared(ns: seq<Normalized>)
    ensures (exists f :: FromSymbols(ns, f)) <==> exists i, j :: 0 <= i < j < |ns| && SharesSymbol(ns[i], ns[j])
  {
    hide SharedFile, SharedSymbol, SharedTest, SharesFile, SharesSymbol, SharesTest;
    forall i, j | 0 <= i < j < |ns| ensures SharedSymbol(ns[i], ns[j]) != [] <==> SharesSymbol(ns[i], ns[j]) {
      SharesExactly(ns, i, j);
    }
    if i, j :| 0 <= i < j < |ns| && SharesSymbol(ns[i], ns[j]) {
      assert FromSymbols(ns, SharedSymbol(ns[i], ns[j])[0]);
    }
  }

  lemma TestsShared(ns: seq<Normalized>)
    ensures (exists f :: FromTests(ns, f)) <==> exists i, j :: 0 <= i < j < |ns| && SharesTest(ns[i], ns[j])
  {
    hide SharedFile, SharedSymbol, SharedTest, SharesFile, SharesSymbol, SharesTest;
    forall i, j | 0 <= i < j < |ns| ensures SharedTest(ns[i], ns[j]) != [] <==> SharesTest(ns[i], ns[j]) {
      SharesExactly(ns, i, j);
    }
    if i, j :| 0 <= i < j < |ns| && SharesTest(ns[i], ns[j]) {
      assert FromTests(ns, SharedTest(ns[i], ns[j])[0]);
    }
  }

  /** Symbols, tests and files are reported as shared exactly if some two packets share them. */
  lemma SharingReportedExactly(packets: seq<Packet>, focus: Option<Focus>)
    ensures var ns := FlatMap(NormalizedOf, packets);
      && (Reports(packets, focus, "shared_symbol") <==> exists i, j :: 0 <= i < j < |ns| && SharesSymbol(ns[i], ns[j]))
      && (Reports(packets, focus, "shared_test") <==> exists i, j :: 0 <= i < j < |ns| && SharesTest(ns[i], ns[j]))
      && (Reports(packets, focus, "shared_file") <==> exists i, j :: 0 <= i < j < |ns| && SharesFile(ns, i, j))
  {
    hide FromFiles, FromSymbols, FromTests, FlatMap, Reports, SharesFile, SharesSymbol, SharesTest;
    var ns := FlatMap(NormalizedOf, packets);
    FilesReportedFrom(packets, focus);
    SymbolsReportedFrom(packets, focus);
    TestsReportedFrom(packets, focus);
    FilesShared(ns);
    SymbolsShared(ns);
    TestsShared(ns);
  }

  /** An overlap with the checkpoint is reported exactly if some packet has something the checkpoint changed. */
  lemma OverlapReportedExactly(packets: seq<Packet>, focus: Option<Focus>)
    ensures var ns := FlatMap(NormalizedOf, packets);
      Reports(packets, focus, "task_focus_overlap") <==>
        focus.Some? && exists i :: 0 <= i < |ns| && Overlaps(ns, focus.value, i)
  {
    hide TaskFocusOverlap, FlatMap, Reports, Overlaps;
    var ns := FlatMap(NormalizedOf, packets);
    OverlapsReportedFrom(packets, focus);
    if focus.Some? {
      forall i | 0 <= i < |ns|
        ensures TaskFocusOverlap(ns, focus.value, ns[i]) != [] <==> Overlaps(ns, focus.value, i)
      {
        OverlapsExactly(ns, focus.value, i);
      }
      if i :| 0 <= i < |ns| && Overlaps(ns, focus.value, i) {
        var f := TaskFocusOverlap(ns, focus.value, ns[i])[0];
        assert ns[i] in ns && FromFocus(ns, focus, f);
      }
      if f :| FromFocus(ns, focus, f) {
        var p :| p in ns && f in TaskFocusOverlap(ns, focus.value, p);
        var i :| 0 <= i < |ns| && ns[i] == p;
      }
    }
  }

  /** The packet has a changed path or symbol, or alone the basename of a changed path. */
  ghost predicate Overlaps(ns: seq<Normalized>, focus: Focus, i: nat)
    requires i < |ns|
  {
    || (exists f :: f in ns[i].files && f in focus.paths)
    || (exists x :: x in ns[i].symbols && x in focus.symbols)
    || (exists b :: Has(ns[i], b) && b in focus.basenames && OnlyAt(ns, b, {i}))
  }

  lemma OverlapsExactly(ns: seq<Normalized>, focus: Focus, i: nat)
    requires i < |ns|
    ensures TaskFocusOverlap(ns, focus, ns[i]) != [] <==> Overlaps(ns, focus, i)
  {
    hide TaskFocusOverlap, OnlyAt, Has;
    FocusOverlapExactly(ns, focus, i);
  }
}
