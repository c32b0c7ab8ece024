/** Reducing build diagnostics to root-cause groups. */
module BuildReduce {
  import opened Order
  import opened Sequences
  import opened Sorting
  import opened Wrappers
  import opened BuildDiagnostics

  const USIZE_MAX := 0xFFFF_FFFF_FFFF_FFFF

  datatype RootCauseGroup = RootCauseGroup(
    rootCause: string, severity: string, count: nat, diagnostics: seq<Diagnostic>)

  datatype Output = Output(
    totalDiagnostics: nat, uniqueDiagnostics: nat, duplicatesRemoved: nat, groups: seq<RootCauseGroup>)

  function SeverityRank(severity: string): nat {
    if severity == "error" then 4
    else if severity == "warning" then 3
    else if severity == "note" then 2
    else if severity == "info" then 1
    else 0
  }

  predicate KnownSeverity(d: Diagnostic) {
    d.severity in {"error", "warning", "note", "info"}
  }

  /** Position in the sources, then message. */
  predicate PlaceLe(a: Diagnostic, b: Diagnostic) {
    if a.file != b.file then StrLe(a.file, b.file)
    else if a.line != b.line then a.line < b.line
    else if a.column != b.column then a.column < b.column
    else StrLe(a.message, b.message)
  }

  /** The gravest first, then by place. */
  predicate DiagnosticLe(a: Diagnostic, b: Diagnostic) {
    SeverityRank(a.severity) > SeverityRank(b.severity)
    || (SeverityRank(a.severity) == SeverityRank(b.severity) && PlaceLe(a, b))
  }

  predicate GroupLe(a: RootCauseGroup, b: RootCauseGroup) {
    SeverityRank(a.severity) > SeverityRank(b.severity)
    || (SeverityRank(a.severity) == SeverityRank(b.severity)
        && (a.count > b.count || (a.count == b.count && StrLe(a.rootCause, b.rootCause))))
  }

  function RootCause(k: Digest, d: Diagnostic): string {
    d.severity + ":" + match d.code case Some(code) => code case None => k.normalize(d.message)
  }

  function IsRoot(k: Digest, root: string): Diagnostic -> bool {
    (d: Diagnostic) => RootCause(k, d) == root
  }

  lemma PlaceLeIsTotalPreorder()
    ensures TotalPreorder(PlaceLe)
  {
    forall a, b ensures PlaceLe(a, b) || PlaceLe(b, a) {
      StrLeTotal(a.file, b.file);
      StrLeTotal(a.message, b.message);
    }
    forall a, b, c | PlaceLe(a, b) && PlaceLe(b, c) ensures PlaceLe(a, c) {
      PlaceLeTransitive(a, b, c);
    }
  }

  lemma PlaceLeTransitive(a: Diagnostic, b: Diagnostic, c: Diagnostic)
    requires PlaceLe(a, b) && PlaceLe(b, c)
    ensures PlaceLe(a, c)
  {
    hide StrLe;
    if a.file != b.file && b.file != c.file {
      StrLeTransitive(a.file, b.file, c.file);
      if a.file == c.file {
        StrLeAntisymmetric(a.file, b.file);
      }
    } else if a.file == b.file == c.file && a.line == b.line == c.line && a.column == b.column == c.column {
      StrLeTransitive(a.message, b.message, c.message);
    }
  }

  lemma DiagnosticLeIsTotalPreorder()
    ensures TotalPreorder(DiagnosticLe)
  {
    hide PlaceLe, SeverityRank;
    PlaceLeIsTotalPreorder();
  }

  lemma GroupLeIsTotalPreorder()
    ensures TotalPreorder(GroupLe)
  {
    hide StrLe, SeverityRank;
    StrLeIsTotalPreorder();
  }

  // ---- dropping duplicates ----

  /** The first diagnostic of every fingerprint not seen before. */
  function Deduped(ds: seq<Diagnostic>, seen: set<string>): seq<Diagnostic> {
    if ds == [] then []
    else if ds[0].fingerprint in seen then Deduped(ds[1..], seen)
    else [ds[0]] + Deduped(ds[1..], seen + {ds[0].fingerprint})
  }

  ghost predicate DistinctFingerprints(ds: seq<Diagnostic>) {
    forall i, j :: 0 <= i < j < |ds| ==> ds[i].fingerprint != ds[j].fingerprint
  }

  function Fingerprints(ds: seq<Diagnostic>): (marks: set<string>)
    ensures forall d :: d in ds ==> d.fingerprint in marks
    ensures forall mark :: mark in marks ==> exists d :: d in ds && d.fingerprint == mark
  {
    set d | d in ds :: d.fingerprint
  }

  lemma FingerprintsCons(ds: seq<Diagnostic>)
    requires ds != []
    ensures Fingerprints(ds) == {ds[0].fingerprint} + Fingerprints(ds[1..])
  {
    assert ds == [ds[0]] + ds[1..];
  }

  /** Every fingerprint is kept exactly once, by a diagnostic of the log. */
  lemma {:induction false} DedupedKeepsEachOnce(ds: seq<Diagnostic>, seen: set<string>)
    ensures |Deduped(ds, seen)| <= |ds|
    ensures forall d :: d in Deduped(ds, seen) ==> d in ds
    ensures Fingerprints(Deduped(ds, seen)) == Fingerprints(ds) - seen
    ensures DistinctFingerprints(Deduped(ds, seen))
  {
    hide Fingerprints;
    if ds == [] {
      assert Fingerprints(ds) == {};
    } else {
      FingerprintsCons(ds);
      var head, tail := ds[0], ds[1..];
      if head.fingerprint in seen {
        DedupedKeepsEachOnce(tail, seen);
      } else {
        var kept := Deduped(tail, seen + {head.fingerprint});
        DedupedKeepsEachOnce(tail, seen + {head.fingerprint});
        FingerprintsCons([head] + kept);
        assert ([head] + kept)[1..] == kept;
      }
    }
  }

  lemma {:induction false} DedupedOfDistinct(ds: seq<Diagnostic>, seen: set<string>)
    requires DistinctFingerprints(ds) && forall d :: d in ds ==> d.fingerprint !in seen
    ensures Deduped(ds, seen) == ds
  {
    if ds != [] {
      assert ds == [ds[0]] + ds[1..];
      DedupedOfDistinct(ds[1..], seen + {ds[0].fingerprint});
    }
  }

  lemma {:induction false} DedupedLast(ds: seq<Diagnostic>, d: Diagnostic, seen: set<string>)
    ensures Deduped(ds + [d], seen) == Deduped(ds, seen) +
      if d.fingerprint in seen || (exists e :: e in ds && e.fingerprint == d.fingerprint) then [] else [d]
  {
    if ds == [] {
      assert ([] + [d])[1..] == [];
    } else {
      assert (ds + [d])[1..] == ds[1..] + [d] && (ds + [d])[0] == ds[0];
      assert ds == [ds[0]] + ds[1..];
      DedupedLast(ds[1..], d, if ds[0].fingerprint in seen then seen else seen + {ds[0].fingerprint});
    }
  }

  // ---- grouping ----

  function Saturated(n: nat): nat {
    if n <= USIZE_MAX then n else USIZE_MAX
  }

  /** The group of one root cause: its diagnostics in the order they come. */
  function GroupOf(k: Digest, s: seq<Diagnostic>, root: string): RootCauseGroup {
    var members := Filter(IsRoot(k, root), s);
    RootCauseGroup(root, if members == [] then "" else members[0].severity, Saturated(|members|), members)
  }

  ghost function Roots(k: Digest, s: seq<Diagnostic>): (roots: set<string>)
    ensures forall root :: root in roots <==> exists d :: d in s && RootCause(k, d) == root
  {
    set d | d in s :: RootCause(k, d)
  }

  function GroupsFor(k: Digest, s: seq<Diagnostic>, roots: seq<string>): (groups: seq<RootCauseGroup>)
    ensures |groups| == |roots| && forall i :: 0 <= i < |roots| ==> groups[i] == GroupOf(k, s, roots[i])
  {
    seq(|roots|, i requires 0 <= i < |roots| => GroupOf(k, s, roots[i]))
  }

  function Tidied(group: RootCauseGroup): RootCauseGroup {
    group.(diagnostics := Sort(PlaceLe, group.diagnostics))
  }

  function TidiedAll(groups: seq<RootCauseGroup>): (tidied: seq<RootCauseGroup>)
    ensures |tidied| == |groups| && forall i :: 0 <= i < |groups| ==> tidied[i] == Tidied(groups[i])
  {
    seq(|groups|, i requires 0 <= i < |groups| => Tidied(groups[i]))
  }

  /** The root causes listed once each, in some order. */
  ghost predicate Lists(k: Digest, s: seq<Diagnostic>, roots: seq<string>) {
    && (forall i, j :: 0 <= i < j < |roots| ==> roots[i] != roots[j])
    && forall root :: root in roots <==> root in Roots(k, s)
  }

  /** The groups in report order, whatever order their root causes are listed in. */
  function Ordered(k: Digest, s: seq<Diagnostic>, roots: seq<string>): seq<RootCauseGroup> {
    TidiedAll(Sort(GroupLe, GroupsFor(k, s, roots)))
  }

  /** The root causes in the order they first occur. */
  function RootsInOrder(k: Digest, s: seq<Diagnostic>): seq<string> {
    if s == [] then []
    else
      var earlier, root := RootsInOrder(k, s[..|s| - 1]), RootCause(k, s[|s| - 1]);
      if root in earlier then earlier else earlier + [root]
  }

  /** The groups of a list of diagnostics. */
  function Reduced(k: Digest, ds: seq<Diagnostic>): seq<RootCauseGroup> {
    var s := Sort(DiagnosticLe, Deduped(ds, {}));
    Ordered(k, s, RootsInOrder(k, s))
  }

  function Flattened(groups: seq<RootCauseGroup>): seq<Diagnostic> {
    FlatMap((g: RootCauseGroup) => g.diagnostics, groups)
  }

  function Truncated(ds: seq<Diagnostic>, max: Option<nat>): seq<Diagnostic> {
    if max.Some? && max.value < |ds| then ds[..max.value] else ds
  }

  // ---- the reducer ----

  lemma {:induction false} RootsInOrderLists(k: Digest, s: seq<Diagnostic>)
    ensures Lists(k, s, RootsInOrder(k, s))
  {
    if s != [] {
      var before, d := s[..|s| - 1], s[|s| - 1];
      assert s == before + [d];
      RootsInOrderLists(k, before);
      RootsLast(k, before, d);
    }
  }

  lemma RootsLast(k: Digest, s: seq<Diagnostic>, d: Diagnostic)
    ensures Roots(k, s + [d]) == Roots(k, s) + {RootCause(k, d)}
  {
    hide RootCause;
    assert forall e :: e in s + [d] <==> e in s || e == d;
  }

  /** Pushing one more diagnostic onto its group, or opening a group for it. */
  function Extended(k: Digest, grouped: map<string, RootCauseGroup>, d: Diagnostic): map<string, RootCauseGroup> {
    var root := RootCause(k, d);
    grouped[root :=
      if root in grouped
      then grouped[root].(count := Saturated(grouped[root].count + 1), diagnostics := grouped[root].diagnostics + [d])
      else RootCauseGroup(root, d.severity, 1, [d])]
  }

  ghost predicate Grouped(k: Digest, s: seq<Diagnostic>, grouped: map<string, RootCauseGroup>) {
    && grouped.Keys == Roots(k, s)
    && forall root :: root in grouped ==> grouped[root] == GroupOf(k, s, root)
  }

  lemma GroupOfLast(k: Digest, s: seq<Diagnostic>, d: Diagnostic, root: string)
    ensures RootCause(k, d) != root ==> GroupOf(k, s + [d], root) == GroupOf(k, s, root)
    ensures var group := GroupOf(k, s, root);
      RootCause(k, d) == root && root in Roots(k, s) ==>
        GroupOf(k, s + [d], root) == group.(count := Saturated(group.count + 1), diagnostics := group.diagnostics + [d])
    ensures RootCause(k, d) == root && root !in Roots(k, s) ==>
      GroupOf(k, s + [d], root) == RootCauseGroup(root, d.severity, 1, [d])
  {
    hide RootCause, Roots, Filter;
    FilterLast(IsRoot(k, root), s, d);
    FilterMembers(IsRoot(k, root), s);
    assert IsRoot(k, root)(d) == (RootCause(k, d) == root);
    if root in Roots(k, s) {
      var e :| e in s && RootCause(k, e) == root;
      assert IsRoot(k, root)(e);
      assert e in Filter(IsRoot(k, root), s);
    } else {
      assert forall e :: e in s ==> !IsRoot(k, root)(e);
      FilterNone(IsRoot(k, root), s);
    }
  }

  lemma GroupedLast(k: Digest, s: seq<Diagnostic>, d: Diagnostic, grouped: map<string, RootCauseGroup>)
    requires Grouped(k, s, grouped)
    ensures Grouped(k, s + [d], Extended(k, grouped, d))
  {
    hide Roots, GroupOf, RootCause;
    RootsLast(k, s, d);
    forall root | root in Extended(k, grouped, d) ensures Extended(k, grouped, d)[root] == GroupOf(k, s + [d], root) {
      GroupOfLast(k, s, d, root);
    }
  }

  /** Groups the sorted diagnostics by root cause in a hash map. */
  method GroupByRootCause(k: Digest, deduped: seq<Diagnostic>) returns (grouped: map<string, RootCauseGroup>)
    ensures Grouped(k, deduped, grouped)
  {
    hide Roots, GroupOf, RootCause;
    grouped := map[];
    assert Grouped(k, [], grouped);
    for i := 0 to |deduped|
      invariant Grouped(k, deduped[..i], grouped)
    {
      var diagnostic := deduped[i];
      var rootCause := RootCause(k, diagnostic);
      GroupedLast(k, deduped[..i], diagnostic, grouped);
      assert deduped[..i + 1] == deduped[..i] + [diagnostic];
      hide Grouped;
      if rootCause in grouped {
        var group := grouped[rootCause];
        group := group.(count := Saturated(group.count + 1));
        group := group.(diagnostics := group.diagnostics + [diagnostic]);
        grouped := grouped[rootCause := group];
      } else {
        grouped := grouped[rootCause := RootCauseGroup(rootCause, diagnostic.severity, 1, [diagnostic])];
      }
    }
    assert deduped[..|deduped|] == deduped;
  }

  /** `into_values`: the groups in whatever order the hash map yields them. */
  method IntoValues(k: Digest, ghost s: seq<Diagnostic>, grouped: map<string, RootCauseGroup>)
    returns (values: seq<RootCauseGroup>, ghost roots: seq<string>)
    requires Grouped(k, s, grouped)
    ensures Lists(k, s, roots) && values == GroupsFor(k, s, roots)
  {
    hide Roots, GroupOf, GroupsFor;
    values, roots := [], [];
    var rest := grouped.Keys;
    while rest != {}
      invariant rest <= grouped.Keys && |values| == |roots|
      invariant forall i, j :: 0 <= i < j < |roots| ==> roots[i] != roots[j]
      invariant forall root :: root in grouped.Keys <==> root in roots || root in rest
      invariant forall root :: root in roots ==> root !in rest
      invariant forall i :: 0 <= i < |roots| ==> values[i] == GroupOf(k, s, roots[i])
    {
      var root :| root in rest;
      values := values + [grouped[root]];
      roots := roots + [root];
      rest := rest - {root};
    }
    assert values == GroupsFor(k, s, roots);
  }

  lemma {:induction false} GroupsForPermuted(k: Digest, s: seq<Diagnostic>, roots: seq<string>, others: seq<string>)
    requires multiset(roots) == multiset(others)
    ensures multiset(GroupsFor(k, s, roots)) == multiset(GroupsFor(k, s, others))
  {
    hide GroupOf;
    var f := (root: string) => [GroupOf(k, s, root)];
    GroupsForIsFlatMap(k, s, roots, f);
    GroupsForIsFlatMap(k, s, others, f);
    FlatMapPermuted(f, roots, others);
  }

  lemma {:induction false} GroupsForIsFlatMap(k: Digest, s: seq<Diagnostic>, roots: seq<string>,
      f: string -> seq<RootCauseGroup>)
    requires forall root :: f(root) == [GroupOf(k, s, root)]
    ensures GroupsFor(k, s, roots) == FlatMap(f, roots)
  {
    hide GroupOf;
    if roots != [] {
      GroupsForIsFlatMap(k, s, roots[1..], f);
      assert GroupsFor(k, s, roots) == [GroupOf(k, s, roots[0])] + GroupsFor(k, s, roots[1..]);
    }
  }

  /** The report does not depend on the order in which the hash map yields the groups. */
  lemma ListingIrrelevant(k: Digest, s: seq<Diagnostic>, roots: seq<string>, others: seq<string>)
    requires Lists(k, s, roots) && Lists(k, s, others)
    ensures Ordered(k, s, roots) == Ordered(k, s, others)
  {
    hide GroupLe, Roots;
    var a, b := GroupsFor(k, s, roots), GroupsFor(k, s, others);
    DistinctPermuted(roots, others);
    GroupsForPermuted(k, s, roots, others);
    GroupLeIsTotalPreorder();
    forall x, y | x in a && y in a && GroupLe(x, y) && GroupLe(y, x) ensures x == y {
      GroupLeAntisymmetric(x, y);
    }
    SortCanonical(GroupLe, a, b);
  }

  lemma GroupLeAntisymmetric(x: RootCauseGroup, y: RootCauseGroup)
    requires GroupLe(x, y) && GroupLe(y, x)
    ensures x.rootCause == y.rootCause
  {
    hide StrLe, SeverityRank;
    StrLeTies(x.rootCause, y.rootCause);
  }

  lemma FingerprintsLast(ds: seq<Diagnostic>, d: Diagnostic)
    ensures Fingerprints(ds + [d]) == Fingerprints(ds) + {d.fingerprint}
  {
    assert forall e :: e in ds + [d] <==> e in ds || e == d;
  }

  method DropDuplicates(parsed: seq<Diagnostic>) returns (deduped: seq<Diagnostic>)
    ensures deduped == Deduped(parsed, {})
  {
    hide Deduped;
    deduped := [];
    var seen: set<string> := {};
    DedupedOfDistinct([], {});
    for i := 0 to |parsed|
      invariant deduped == Deduped(parsed[..i], {})
      invariant seen == Fingerprints(parsed[..i])
    {
      DedupedLast(parsed[..i], parsed[i], {});
      FingerprintsLast(parsed[..i], parsed[i]);
      assert parsed[..i + 1] == parsed[..i] + [parsed[i]];
      if parsed[i].fingerprint !in seen {
        seen := seen + {parsed[i].fingerprint};
        deduped := deduped + [parsed[i]];
      }
    }
    assert parsed[..|parsed|] == parsed;
  }

  /** Sorts the diagnostics of every group where they are. */
  method TidyGroups(ordered: seq<RootCauseGroup>) returns (groups: seq<RootCauseGroup>)
    ensures groups == TidiedAll(ordered)
  {
    hide Sort, PlaceLe;
    groups := ordered;
    for i := 0 to |groups|
      invariant |groups| == |ordered|
      invariant forall j :: 0 <= j < |groups| ==> groups[j] == if j < i then Tidied(ordered[j]) else ordered[j]
    {
      groups := groups[i := groups[i].(diagnostics := Sort(PlaceLe, groups[i].diagnostics))];
    }
  }

  /** Truncates, deduplicates, sorts, groups and orders the diagnostics of a build log. */
  method Reduce(k: Digest, lines: seq<LogLine>, maxDiagnostics: Option<nat>) returns (output: Output)
    ensures var parsed := Truncated(Diagnose(k, lines), maxDiagnostics);
      && output.totalDiagnostics == |parsed|
      && output.uniqueDiagnostics == |Deduped(parsed, {})|
      && output.duplicatesRemoved == output.totalDiagnostics - output.uniqueDiagnostics
      && output.groups == Reduced(k, parsed)
  {
    hide Lists, Grouped, GroupsFor, RootsInOrder, Diagnose, Deduped, TidiedAll, Sort;
    hide DistinctFingerprints, Fingerprints;
    var parsed := ParseDiagnostics(k, lines);
    if maxDiagnostics.Some? && maxDiagnostics.value < |parsed| {
      parsed := parsed[..maxDiagnostics.value];
    }
    var totalDiagnostics := |parsed|;
    var deduped := DropDuplicates(parsed);
    DedupedKeepsEachOnce(parsed, {});
    SortPermutes(DiagnosticLe, deduped);
    deduped := Sort(DiagnosticLe, deduped);
    var uniqueDiagnostics := |deduped|;
    var duplicatesRemoved := if uniqueDiagnostics <= totalDiagnostics then totalDiagnostics - uniqueDiagnostics else 0;
    var grouped := GroupByRootCause(k, deduped);
    var values, roots := IntoValues(k, deduped, grouped);
    var groups := TidyGroups(Sort(GroupLe, values));
    RootsInOrderLists(k, deduped);
    ListingIrrelevant(k, deduped, roots, RootsInOrder(k, deduped));
    output := Output(totalDiagnostics, uniqueDiagnostics, duplicatesRemoved, groups);
  }
}
