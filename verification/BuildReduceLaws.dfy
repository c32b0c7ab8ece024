/** What the grouping of build diagnostics promises. */
module BuildReduceLaws {
  import opened Order
  import opened Sequences
  import opened Sorting
  import opened Wrappers
  import opened BuildDiagnostics
  import opened BuildReduce

  ghost predicate Known(ds: seq<Diagnostic>) {
    forall d :: d in ds ==> KnownSeverity(d)
  }

  /** The part of a root cause before its first colon is the severity. */
  lemma SeverityOfRoot(k: Digest, a: Diagnostic, b: Diagnostic)
    requires KnownSeverity(a) && KnownSeverity(b) && RootCause(k, a) == RootCause(k, b)
    ensures a.severity == b.severity
  {
    var root := RootCause(k, a);
    SeverityBeforeColon(k, a);
    SeverityBeforeColon(k, b);
    FirstColon(root, |a.severity|, |b.severity|);
  }

  lemma SeverityBeforeColon(k: Digest, d: Diagnostic)
    requires KnownSeverity(d)
    ensures |d.severity| < |RootCause(k, d)| && RootCause(k, d)[..|d.severity|] == d.severity
    ensures RootCause(k, d)[|d.severity|] == ':' && forall j :: 0 <= j < |d.severity| ==> RootCause(k, d)[j] != ':'
  {
    assert ':' !in d.severity;
    assert forall j :: 0 <= j < |d.severity| ==> RootCause(k, d)[j] == d.severity[j];
  }

  lemma FirstColon(root: string, n: nat, m: nat)
    requires n < |root| && root[n] == ':' && forall j :: 0 <= j < n ==> root[j] != ':'
    requires m < |root| && root[m] == ':' && forall j :: 0 <= j < m ==> root[j] != ':'
    ensures n == m
  {
  }

  lemma SameSeveritySameOrder(a: Diagnostic, b: Diagnostic)
    requires a.severity == b.severity
    ensures DiagnosticLe(a, b) == PlaceLe(a, b)
  {
    hide PlaceLe;
  }

  /** The members of a group are already in place order, so sorting them again changes nothing. */
  lemma MembersAreInPlace(k: Digest, s: seq<Diagnostic>, root: string)
    requires Known(s) && Sorted(DiagnosticLe, s)
    ensures Sorted(PlaceLe, Filter(IsRoot(k, root), s))
    ensures Tidied(GroupOf(k, s, root)) == GroupOf(k, s, root)
  {
    hide PlaceLe, DiagnosticLe, RootCause, KnownSeverity;
    var members := Filter(IsRoot(k, root), s);
    DiagnosticLeIsTotalPreorder();
    SortedFilter(DiagnosticLe, IsRoot(k, root), s);
    FilterMembers(IsRoot(k, root), s);
    forall i, j | 0 <= i < j < |members| ensures PlaceLe(members[i], members[j]) {
      assert IsRoot(k, root)(members[i]) && IsRoot(k, root)(members[j]);
      SeverityOfRoot(k, members[i], members[j]);
      SameSeveritySameOrder(members[i], members[j]);
    }
    SortOfSorted(PlaceLe, members);
  }

  // ---- the groups partition the diagnostics ----

  ghost function MembersOf(k: Digest, s: seq<Diagnostic>): string -> seq<Diagnostic> {
    (root: string) => Filter(IsRoot(k, root), s)
  }

  lemma {:induction false} FlattenedCounts(k: Digest, s: seq<Diagnostic>, roots: seq<string>, d: Diagnostic)
    requires forall i, j :: 0 <= i < j < |roots| ==> roots[i] != roots[j]
    ensures multiset(FlatMap(MembersOf(k, s), roots))[d] == if RootCause(k, d) in roots then multiset(s)[d] else 0
  {
    hide RootCause, Filter;
    if roots != [] {
      FlattenedCounts(k, s, roots[1..], d);
      FilterMultiset(IsRoot(k, roots[0]), s);
      assert roots == [roots[0]] + roots[1..];
      assert IsRoot(k, roots[0])(d) == (RootCause(k, d) == roots[0]);
    }
  }

  /** Listing the members root by root rearranges the diagnostics and loses none. */
  lemma FlattenedPermutes(k: Digest, s: seq<Diagnostic>, roots: seq<string>)
    requires Lists(k, s, roots)
    ensures multiset(FlatMap(MembersOf(k, s), roots)) == multiset(s)
  {
    hide RootCause, FlatMap, MembersOf;
    var flat := FlatMap(MembersOf(k, s), roots);
    forall d ensures multiset(flat)[d] == multiset(s)[d] {
      FlattenedCounts(k, s, roots, d);
      if d in s {
        assert RootCause(k, d) in Roots(k, s);
      }
    }
  }

  /** Picking one root's diagnostics out of the flattened groups gives that group back. */
  lemma {:induction false} FlattenedKeepsMembers(k: Digest, s: seq<Diagnostic>, roots: seq<string>, root: string)
    requires forall i, j :: 0 <= i < j < |roots| ==> roots[i] != roots[j]
    ensures Filter(IsRoot(k, root), FlatMap(MembersOf(k, s), roots)) ==
      if root in roots then Filter(IsRoot(k, root), s) else []
  {
    if roots == [] {
    } else {
      var first, rest := Filter(IsRoot(k, roots[0]), s), FlatMap(MembersOf(k, s), roots[1..]);
      FlattenedKeepsMembers(k, s, roots[1..], root);
      FilterAppend(IsRoot(k, root), first, rest);
      FilterOfMembers(k, s, roots[0], root);
      assert roots == [roots[0]] + roots[1..];
      ConcatEmpty(Filter(IsRoot(k, root), rest));
      ConcatEmpty(first);
    }
  }

  lemma FilterOfMembers(k: Digest, s: seq<Diagnostic>, root: string, other: string)
    ensures Filter(IsRoot(k, other), Filter(IsRoot(k, root), s)) == if root ==
      other then Filter(IsRoot(k, root), s) else []
  {
    hide RootCause;
    FilterMembers(IsRoot(k, root), s);
    if root == other {
      FilterAll(IsRoot(k, other), Filter(IsRoot(k, root), s));
    } else {
      FilterNone(IsRoot(k, other), Filter(IsRoot(k, root), s));
    }
  }

  // ---- the report ----

  /** A report: the groups of some sorted diagnostics, each root cause once. */
  ghost predicate Reports(k: Digest, s: seq<Diagnostic>, groups: seq<RootCauseGroup>, roots: seq<string>) {
    && Known(s) && Sorted(DiagnosticLe, s) && Lists(k, s, roots)
    && |groups| == |roots| && forall i :: 0 <= i < |groups| ==> groups[i] == GroupOf(k, s, roots[i])
  }

  /** Sorting the groups keeps them the groups of distinct root causes. */
  lemma SortedGroupsReport(k: Digest, s: seq<Diagnostic>, listed: seq<string>) returns (roots: seq<string>)
    requires Known(s) && Sorted(DiagnosticLe, s) && Lists(k, s, listed)
    ensures Reports(k, s, Ordered(k, s, listed), roots)
    ensures Ordered(k, s, listed) == Sort(GroupLe, GroupsFor(k, s, listed))
  {
    hide GroupLe, Known, Roots, Sorted, GroupOf, Tidied, DiagnosticLe;
    var groups := GroupsFor(k, s, listed);
    var sorted := Sort(GroupLe, groups);
    SortPermutes(GroupLe, groups);
    roots := seq(|sorted|, i requires 0 <= i < |sorted| => sorted[i].rootCause);
    forall i | 0 <= i < |sorted|
      ensures sorted[i] == GroupOf(k, s, roots[i]) && roots[i] in listed && Tidied(sorted[i]) == sorted[i]
    {
      assert sorted[i] in groups;
      var j :| 0 <= j < |groups| && groups[j] == sorted[i];
      RootOfGroup(k, s, listed[j]);
      MembersAreInPlace(k, s, roots[i]);
    }
    assert TidiedAll(sorted) == sorted;
    RootsOfSorted(k, s, listed, sorted, roots);
  }

  lemma RootOfGroup(k: Digest, s: seq<Diagnostic>, root: string)
    ensures GroupOf(k, s, root).rootCause == root
  {
  }

  lemma RootsOfSorted(k: Digest, s: seq<Diagnostic>, listed: seq<string>, sorted: seq<RootCauseGroup>,
      roots: seq<string>)
    requires Lists(k, s, listed) && multiset(sorted) == multiset(GroupsFor(k, s, listed))
    requires roots == seq(|sorted|, i requires 0 <= i < |sorted| => sorted[i].rootCause)
    requires forall i :: 0 <= i < |sorted| ==> sorted[i] == GroupOf(k, s, roots[i])
    ensures Lists(k, s, roots)
  {
    hide GroupOf, Roots;
    var f := (g: RootCauseGroup) => [g.rootCause];
    FlatMapPermuted(f, sorted, GroupsFor(k, s, listed));
    RootsAreFlatMap(sorted, roots, f);
    forall i | 0 <= i < |listed| ensures listed[i] == GroupsFor(k, s, listed)[i].rootCause {
      RootOfGroup(k, s, listed[i]);
    }
    RootsAreFlatMap(GroupsFor(k, s, listed), listed, f);
    PermutedMembers(roots, listed);
    DistinctByPermutation(listed, roots);
  }

  lemma {:induction false} RootsAreFlatMap(groups: seq<RootCauseGroup>, roots: seq<string>,
      f: RootCauseGroup -> seq<string>)
    requires |groups| == |roots| && forall i :: 0 <= i < |groups| ==> roots[i] == groups[i].rootCause
    requires forall g :: f(g) == [g.rootCause]
    ensures FlatMap(f, groups) == roots
  {
    if groups != [] {
      RootsAreFlatMap(groups[1..], roots[1..], f);
      assert roots == [roots[0]] + roots[1..];
    }
  }

  lemma SortedDeduped(k: Digest, ds: seq<Diagnostic>)
    requires Known(ds)
    ensures var s := Sort(DiagnosticLe, Deduped(ds, {}));
      Known(s) && Sorted(DiagnosticLe, s) && multiset(s) == multiset(Deduped(ds, {})) && DistinctFingerprints(s)
  {
    hide DiagnosticLe, KnownSeverity, Fingerprints;
    var kept := Deduped(ds, {});
    DedupedKeepsEachOnce(ds, {});
    DiagnosticLeIsTotalPreorder();
    SortSorts(DiagnosticLe, kept);
    SortPermutes(DiagnosticLe, kept);
    DistinctAfterPermuting(kept, Sort(DiagnosticLe, kept));
  }

  lemma DistinctAfterPermuting(a: seq<Diagnostic>, b: seq<Diagnostic>)
    requires multiset(a) == multiset(b) && DistinctFingerprints(a)
    ensures DistinctFingerprints(b)
  {
    PermutedMembers(a, b);
    DistinctByPermutation(a, b);
    forall i, j | 0 <= i < j < |b| ensures b[i].fingerprint != b[j].fingerprint {
      assert b[i] in a && b[j] in a;
      var x :| 0 <= x < |a| && a[x] == b[i];
      var y :| 0 <= y < |a| && a[y] == b[j];
      assert x != y;
    }
  }

  lemma {:induction false} FlattenedReport(k: Digest, s: seq<Diagnostic>, groups: seq<RootCauseGroup>,
      roots: seq<string>)
    requires |groups| == |roots| && forall i :: 0 <= i < |groups| ==> groups[i] == GroupOf(k, s, roots[i])
    ensures Flattened(groups) == FlatMap(MembersOf(k, s), roots)
  {
    if groups != [] {
      FlattenedReport(k, s, groups[1..], roots[1..]);
    }
  }

  lemma ReducedReports(k: Digest, ds: seq<Diagnostic>) returns (roots: seq<string>)
    requires Known(ds)
    ensures Reports(k, Sort(DiagnosticLe, Deduped(ds, {})), Reduced(k, ds), roots)
  {
    hide DiagnosticLe, Known, GroupLe, Deduped, Lists;
    SortedDeduped(k, ds);
    var s := Sort(DiagnosticLe, Deduped(ds, {}));
    RootsInOrderLists(k, s);
    roots := SortedGroupsReport(k, s, RootsInOrder(k, s));
  }

  /**
   * The groups partition the deduplicated diagnostics: together they hold each exactly as often,
   * no two share a root cause, and each holds just the diagnostics of its root cause, of one severity, counted right.
   */
  lemma GroupsPartition(k: Digest, ds: seq<Diagnostic>)
    requires Known(ds)
    ensures multiset(Flattened(Reduced(k, ds))) == multiset(Deduped(ds, {}))
    ensures forall i, j :: 0 <= i < j < |Reduced(k, ds)| ==> Reduced(k, ds)[i].rootCause != Reduced(k, ds)[j].rootCause
    ensures forall g :: g in Reduced(k, ds) ==> g.diagnostics != [] && g.count == Saturated(|g.diagnostics|)
    ensures forall g, d :: g in Reduced(k, ds) && d in g.diagnostics ==>
      RootCause(k, d) == g.rootCause && d.severity == g.severity
  {
    hide DiagnosticLe, GroupLe, Deduped, RootCause, KnownSeverity, Reduced, Flattened, Filter;
    SortedDeduped(k, ds);
    var s := Sort(DiagnosticLe, Deduped(ds, {}));
    var roots := ReducedReports(k, ds);
    FlattenedReport(k, s, Reduced(k, ds), roots);
    FlattenedPermutes(k, s, roots);
    forall i | 0 <= i < |roots| ensures Reduced(k, ds)[i].rootCause == roots[i] && OneKind(k, Reduced(k, ds)[i]) {
      GroupIsOneKind(k, s, roots[i]);
    }
  }

  ghost predicate OneKind(k: Digest, g: RootCauseGroup) {
    && g.diagnostics != [] && g.count == Saturated(|g.diagnostics|)
    && forall d :: d in g.diagnostics ==> RootCause(k, d) == g.rootCause && d.severity == g.severity
  }

  lemma GroupIsOneKind(k: Digest, s: seq<Diagnostic>, root: string)
    requires Known(s) && root in Roots(k, s)
    ensures OneKind(k, GroupOf(k, s, root))
  {
    hide RootCause, KnownSeverity;
    var e :| e in s && RootCause(k, e) == root;
    var members := Filter(IsRoot(k, root), s);
    FilterMembers(IsRoot(k, root), s);
    assert IsRoot(k, root)(e);
    forall d | d in members ensures RootCause(k, d) == root && d.severity == members[0].severity {
      assert IsRoot(k, root)(d) && IsRoot(k, root)(members[0]);
      SeverityOfRoot(k, d, members[0]);
    }
  }

  /** Sorting the flattened groups brings back every group's members in their order. */
  lemma RegroupedMembers(k: Digest, s: seq<Diagnostic>, groups: seq<RootCauseGroup>, roots: seq<string>, root: string)
    requires Reports(k, s, groups, roots)
    requires root in roots
    ensures GroupOf(k, Sort(DiagnosticLe, Flattened(groups)), root) == GroupOf(k, s, root)
  {
    hide DiagnosticLe, Roots, Known, RootCause, MembersOf, FlatMap;
    FlattenedReport(k, s, groups, roots);
    FlattenedKeepsMembers(k, s, roots, root);
    DiagnosticLeIsTotalPreorder();
    SortFilter(DiagnosticLe, IsRoot(k, root), Flattened(groups));
    SortedFilter(DiagnosticLe, IsRoot(k, root), s);
    SortOfSorted(DiagnosticLe, Filter(IsRoot(k, root), s));
  }

  lemma SameRoots(k: Digest, s: seq<Diagnostic>, t: seq<Diagnostic>)
    requires multiset(s) == multiset(t)
    ensures Roots(k, s) == Roots(k, t)
  {
    hide RootCause;
    PermutedMembers(s, t);
  }

  lemma RegroupingSorted(k: Digest, s: seq<Diagnostic>, groups: seq<RootCauseGroup>, roots: seq<string>)
    requires Reports(k, s, groups, roots) && DistinctFingerprints(s)
    ensures Deduped(Flattened(groups), {}) == Flattened(groups)
    ensures var t := Sort(DiagnosticLe, Flattened(groups));
      Lists(k, t, roots) && GroupsFor(k, t, roots) == GroupsFor(k, s, roots)
  {
    hide DiagnosticLe, Known, GroupOf, RootCause, Flattened, MembersOf, Sorted;
    var flat := Flattened(groups);
    var t := Sort(DiagnosticLe, flat);
    FlattenedReport(k, s, groups, roots);
    FlattenedPermutes(k, s, roots);
    DistinctAfterPermuting(s, flat);
    DedupedOfDistinct(flat, {});
    SortPermutes(DiagnosticLe, flat);
    SameRoots(k, s, t);
    forall root | root in roots ensures GroupOf(k, t, root) == GroupOf(k, s, root) {
      RegroupedMembers(k, s, groups, roots, root);
    }
  }

  /** Reducing the diagnostics of a report, group after group, gives the same report. */
  lemma RegroupingChangesNothing(k: Digest, ds: seq<Diagnostic>)
    requires Known(ds)
    ensures Reduced(k, Flattened(Reduced(k, ds))) == Reduced(k, ds)
  {
    hide DiagnosticLe, GroupLe, Deduped, Flattened, Lists, GroupsFor, RootsInOrder, Known, Sort, Roots;
    var s := Sort(DiagnosticLe, Deduped(ds, {}));
    var groups := Reduced(k, ds);
    var roots := ReducedReports(k, ds);
    SortedDeduped(k, ds);
    RegroupingSorted(k, s, groups, roots);
    var t := Sort(DiagnosticLe, Flattened(groups));
    RootsInOrderLists(k, s);
    RootsInOrderLists(k, t);
    ListingIrrelevant(k, s, RootsInOrder(k, s), roots);
    ListingIrrelevant(k, t, RootsInOrder(k, t), roots);
  }

  /**
   * Groups come gravest first, then largest, then by root cause; the diagnostics of each by file, line, column and
   * message.
   */
  lemma ReportIsOrdered(k: Digest, ds: seq<Diagnostic>)
    requires Known(ds)
    ensures forall i, j :: 0 <= i < j < |Reduced(k, ds)| ==> Precedes(Reduced(k, ds)[i], Reduced(k, ds)[j])
    ensures forall i :: 0 <= i < |Reduced(k, ds)| ==> Sorted(PlaceLe, Reduced(k, ds)[i].diagnostics)
  {
    hide DiagnosticLe, GroupLe, PlaceLe, Deduped, Lists, GroupsFor, RootsInOrder;
    hide Known, Sort, Roots, Ordered, Filter, Precedes;
    SortedDeduped(k, ds);
    var s := Sort(DiagnosticLe, Deduped(ds, {}));
    RootsInOrderLists(k, s);
    var roots := SortedGroupsReport(k, s, RootsInOrder(k, s));
    GroupLeIsTotalPreorder();
    SortSorts(GroupLe, GroupsFor(k, s, RootsInOrder(k, s)));
    forall i, j | 0 <= i < j < |Reduced(k, ds)| ensures Precedes(Reduced(k, ds)[i], Reduced(k, ds)[j]) {
      LePrecedes(Reduced(k, ds)[i], Reduced(k, ds)[j]);
    }
    forall i | 0 <= i < |roots| ensures Sorted(PlaceLe, Reduced(k, ds)[i].diagnostics) {
      MembersAreInPlace(k, s, roots[i]);
    }
  }

  /** No later group is graver; among equally grave ones none is larger; among equally large ones root causes ascend. */
  ghost predicate Precedes(a: RootCauseGroup, b: RootCauseGroup) {
    && SeverityRank(a.severity) >= SeverityRank(b.severity)
    && (SeverityRank(a.severity) == SeverityRank(b.severity) ==> a.count >= b.count)
    && (SeverityRank(a.severity) == SeverityRank(b.severity) && a.count == b.count ==> StrLe(a.rootCause, b.rootCause))
  }

  lemma LePrecedes(a: RootCauseGroup, b: RootCauseGroup)
    requires GroupLe(a, b)
    ensures Precedes(a, b)
  {
  }

  /** What is parsed from a log, truncated or not, may be reduced. */
  lemma LogsAreKnown(k: Digest, lines: seq<LogLine>, max: Option<nat>)
    ensures Known(Truncated(Diagnose(k, lines), max))
  {
    hide Diagnose;
    DiagnosedSeverities(k, lines);
  }

  /** The laws hold of every build log, whole or truncated. */
  lemma LogReportLaws(k: Digest, lines: seq<LogLine>, max: Option<nat>)
    ensures var ds := Truncated(Diagnose(k, lines), max); var groups := Reduced(k, ds);
      && multiset(Flattened(groups)) == multiset(Deduped(ds, {}))
      && (forall i, j :: 0 <= i < j < |groups| ==> groups[i].rootCause != groups[j].rootCause)
      && (forall i, j :: 0 <= i < j < |groups| ==> Precedes(groups[i], groups[j]))
      && (forall g :: g in groups ==> OneKind(k, g))
      && Reduced(k, Flattened(groups)) == groups
  {
    hide *;
    var ds := Truncated(Diagnose(k, lines), max);
    LogsAreKnown(k, lines, max);
    GroupsPartition(k, ds);
    ReportIsOrdered(k, ds);
    RegroupingChangesNothing(k, ds);
    GroupsAreOneKind(k, ds);
  }

  lemma GroupsAreOneKind(k: Digest, ds: seq<Diagnostic>)
    requires Known(ds)
    ensures forall g :: g in Reduced(k, ds) ==> OneKind(k, g)
  {
    hide Reduced, RootCause, Known, Saturated;
    GroupsPartition(k, ds);
  }
}
