/** What each line of a build log becomes, what one root cause is, and the order of a report, told field by field. */
module BuildMeaning {
  import opened Order
  import opened Sequences
  import opened Sorting
  import opened Text
  import opened Wrappers
  import opened BuildDiagnostics
  import opened BuildReduce
  import opened BuildReduceLaws

  // ---- the fields of a diagnostic ----

  /** The words for a severity, in any case and between any white space; every other word is a warning. */
  ghost predicate IsWordFor(word: string, severity: string) {
    var w := Lower(Trim(word));
    && (severity == "error" <==> w == "error" || w == "err")
    && (severity == "note" <==> w == "note")
    && (severity == "info" <==> w == "info" || w == "information")
    && (severity == "warning" <==> w !in ["error", "err", "note", "info", "information"])
  }

  lemma SeverityExactly(word: string)
    ensures IsWordFor(word, NormalizeSeverity(word))
  {
    hide Lower, Trim;
    WordsDiffer();
  }

  lemma WordsDiffer()
    ensures "error" != "warning" && "error" != "note" && "error" != "info"
    ensures "warning" != "note" && "warning" != "info" && "note" != "info"
    ensures "err" != "note" && "err" != "info" && "information" != "note" && "information" != "err"
    ensures "information" != "error" && "info" != "err"
    ensures "warn" !in ["error", "err", "note", "info", "information"]
    ensures "warning" !in ["error", "err", "note", "info", "information"]
  {
  }

  /** The trimmed path with slashes for backslashes. */
  ghost predicate IsPathFor(file: string, path: string) {
    && |path| == |Trim(file)|
    && forall i :: 0 <= i < |path| ==> path[i] == if Trim(file)[i] == '\\' then '/' else Trim(file)[i]
  }

  /** The number if it fits 32 bits, and zero otherwise. */
  ghost predicate IsNumberFor(n: nat, m: nat) {
    m == if n < 0x1_0000_0000 then n else 0
  }

  /** Severity, code, message and fingerprint of a diagnostic are those of the report. */
  ghost predicate Says(k: Digest, d: Diagnostic, report: Report) {
    && IsWordFor(report.severity, d.severity) && d.code == report.code && d.message == Trim(report.message)
    && d.fingerprint == k.hash(d.file, d.line, d.column, d.severity,
         if d.code.Some? then d.code.value else "", k.normalize(d.message))
  }

  ghost predicate IsAt(d: Diagnostic, site: Site) {
    IsPathFor(site.file, d.file) && IsNumberFor(site.line, d.line) && IsNumberFor(site.column, d.column)
  }

  lemma LocatedExactly(k: Digest, site: Site, report: Report)
    ensures var d := Located(k, site, Read(report)); IsAt(d, site) && Says(k, d, report)
  {
    hide Trim, Lower, Replaced, NormalizeSeverity, IsWordFor;
    SeverityExactly(report.severity);
    ReplacedExactly(Trim(site.file), '\\', '/');
  }

  // ---- the lines of a log ----

  /** A line with a place and a report is one diagnostic, whatever comes after it. */
  lemma PlacedLineExactly(k: Digest, site: Site, report: Report, rest: seq<LogLine>)
    ensures forall line :: line in [Colon(site, report), Msvc(site, report)] ==>
      var ds := Diagnose(k, [line] + rest);
      |ds| > 0 && ds[1..] == Diagnose(k, rest) && IsAt(ds[0], site) && Says(k, ds[0], report)
  {
    hide Diagnose, Located, Read, IsAt, Says;
    LocatedExactly(k, site, report);
    forall line | line in [Colon(site, report), Msvc(site, report)]
      ensures Diagnose(k, [line] + rest) == [Located(k, site, Read(report))] + Diagnose(k, rest)
    {
      var lines := [line] + rest;
      assert lines[0] == line && lines[1..] == rest;
      DiagnoseCons(k, lines);
    }
  }

  lemma HeaderThenOthers(k: Digest, report: Report, others: seq<LogLine>, after: seq<LogLine>)
    requires forall l :: l in others ==> l == Other
    ensures Diagnose(k, [Header(report)] + (others + after)) ==
      HeaderYields(k, Read(report), after) + Diagnose(k, after)
  {
    hide Diagnose, Read, Located, Unlocated;
    var lines := [Header(report)] + (others + after);
    assert lines[0] == Header(report) && lines[1..] == others + after;
    DiagnoseCons(k, lines);
    SkipsOthers(k, others, after);
  }

  /** A header and the next location, over unrecognised lines, are one diagnostic. */
  lemma HeaderWithPlaceExactly(k: Digest, report: Report, others: seq<LogLine>, site: Site, rest: seq<LogLine>)
    requires forall l :: l in others ==> l == Other
    ensures var ds := Diagnose(k, [Header(report)] + (others + ([Location(site)] + rest)));
      |ds| > 0 && ds[1..] == Diagnose(k, rest) && IsAt(ds[0], site) && Says(k, ds[0], report)
  {
    hide Diagnose, Located, Read, IsAt, Says;
    var after := [Location(site)] + rest;
    assert after[0] == Location(site) && after[1..] == rest;
    HeaderThenOthers(k, report, others, after);
    DiagnoseCons(k, after);
    ConcatEmpty(Diagnose(k, rest));
    LocatedExactly(k, site, report);
  }

  /** A header that nothing recognisable follows is a diagnostic without a place. */
  lemma HeaderAtTheEndExactly(k: Digest, report: Report, others: seq<LogLine>)
    requires forall l :: l in others ==> l == Other
    ensures var ds := Diagnose(k, [Header(report)] + others);
      |ds| == 1 && ds[0].file == "<unknown>" && ds[0].line == 0 && ds[0].column == 0 && Says(k, ds[0], report)
  {
    hide Diagnose, Trim, NormalizeSeverity, IsWordFor;
    SeverityExactly(report.severity);
    assert others + [] == others;
    HeaderThenOthers(k, report, others, []);
    AtTheEnd(k, None);
    ConcatEmpty([Unlocated(k, Read(report))]);
  }

  /** A header that another report follows is dropped, and so are a location without a header and other lines. */
  lemma DroppedLinesExactly(k: Digest, report: Report, others: seq<LogLine>, line: LogLine, site: Site,
      rest: seq<LogLine>)
    requires forall l :: l in others ==> l == Other
    ensures line.Header? || line.Colon? || line.Msvc? ==>
      Diagnose(k, [Header(report)] + (others + ([line] + rest))) == Diagnose(k, [line] + rest)
    ensures Diagnose(k, [Location(site)] + rest) == Diagnose(k, rest)
    ensures Diagnose(k, [Other] + rest) == Diagnose(k, rest)
  {
    hide Diagnose, Located, Unlocated, Read;
    var after := [line] + rest;
    assert after[0] == line;
    HeaderThenOthers(k, report, others, after);
    ConcatEmpty(Diagnose(k, after));
    ConcatEmpty(Diagnose(k, rest));
    var placed, blank := [Location(site)] + rest, [Other] + rest;
    assert placed[1..] == rest && blank[1..] == rest;
    DiagnoseCons(k, placed);
    DiagnoseCons(k, blank);
  }

  // ---- duplicates and root causes ----

  /** The diagnostic occurs before any other of its fingerprint. */
  ghost predicate IsFirst(ds: seq<Diagnostic>, d: Diagnostic) {
    exists i :: 0 <= i < |ds| && ds[i] == d && forall j :: 0 <= j < i ==> ds[j].fingerprint != d.fingerprint
  }

  lemma IsFirstCons(ds: seq<Diagnostic>, d: Diagnostic)
    requires ds != []
    ensures IsFirst(ds, d) <==> ds[0] == d || (ds[0].fingerprint != d.fingerprint && IsFirst(ds[1..], d))
  {
    var tail := ds[1..];
    if i :| 0 <= i < |ds| && ds[i] == d && forall j :: 0 <= j < i ==> ds[j].fingerprint != d.fingerprint {
      assert i > 0 ==> tail[i - 1] == d;
      assert forall j :: 0 <= j < i - 1 ==> tail[j] == ds[j + 1];
    }
    if i :| 0 <= i < |tail| && tail[i] == d && forall j :: 0 <= j < i ==> tail[j].fingerprint != d.fingerprint {
      assert ds[i + 1] == d && forall j :: 0 < j <= i ==> ds[j] == tail[j - 1];
    }
  }

  /** What is kept of a log is the first diagnostic of every fingerprint. */
  lemma {:induction false} KeptAreFirst(ds: seq<Diagnostic>, seen: set<string>, d: Diagnostic)
    ensures d in Deduped(ds, seen) <==> d.fingerprint !in seen && IsFirst(ds, d)
  {
    hide IsFirst;
    if ds == [] {
      NoneIsFirst(d);
    } else {
      KeptAreFirst(ds[1..], if ds[0].fingerprint in seen then seen else seen + {ds[0].fingerprint}, d);
      IsFirstCons(ds, d);
    }
  }

  lemma NoneIsFirst(d: Diagnostic)
    ensures !IsFirst([], d)
  {
  }

  /** A limit keeps the first diagnostics of a log. */
  lemma LimitKeepsTheFirst(ds: seq<Diagnostic>, max: Option<nat>)
    ensures Truncated(ds, max) <= ds
    ensures |Truncated(ds, max)| == if max.Some? && max.value < |ds| then max.value else |ds|
  {
  }

  /** The code if there is one, and otherwise the normalised message. */
  ghost function Cause(k: Digest, d: Diagnostic): string {
    if d.code.Some? then d.code.value else k.normalize(d.message)
  }

  /** Diagnostics have one root cause exactly if they agree in severity and in cause. */
  lemma RootCauseExactly(k: Digest, a: Diagnostic, b: Diagnostic)
    requires KnownSeverity(a) && KnownSeverity(b)
    ensures RootCause(k, a) == RootCause(k, b) <==> a.severity == b.severity && Cause(k, a) == Cause(k, b)
  {
    if RootCause(k, a) == RootCause(k, b) {
      SeverityOfRoot(k, a, b);
      var n := |a.severity| + 1;
      assert RootCause(k, a)[n..] == Cause(k, a) && RootCause(k, b)[n..] == Cause(k, b);
    }
  }

  // ---- the order of a report ----

  /** Errors are graver than warnings, these than notes, and these than the rest. */
  ghost predicate Graver(a: string, b: string) {
    || (a == "error" && b != "error")
    || (a == "warning" && b in ["note", "info"])
    || (a == "note" && b == "info")
  }

  /** By gravity, then by size with the largest first, then by root cause. */
  ghost predicate GroupNotAfter(a: RootCauseGroup, b: RootCauseGroup) {
    && !Graver(b.severity, a.severity)
    && (a.severity == b.severity ==> a.count >= b.count)
    && (a.severity == b.severity && a.count == b.count ==> StrLe(a.rootCause, b.rootCause))
  }

  /** By file, line, column and message, in this order. */
  ghost predicate PlaceNotAfter(a: Diagnostic, b: Diagnostic) {
    && StrLe(a.file, b.file)
    && (a.file == b.file ==> a.line <= b.line)
    && (a.file == b.file && a.line == b.line ==> a.column <= b.column)
    && (a.file == b.file && a.line == b.line && a.column == b.column ==> StrLe(a.message, b.message))
  }

  lemma PlaceExactly(a: Diagnostic, b: Diagnostic)
    ensures PlaceLe(a, b) <==> PlaceNotAfter(a, b)
  {
    hide StrLe;
    StrLeReflexive(a.file);
  }

  lemma GravityExactly(a: string, b: string)
    requires a in ["error", "warning", "note", "info"] && b in ["error", "warning", "note", "info"]
    ensures Graver(a, b) <==> SeverityRank(a) > SeverityRank(b)
    ensures a == b <==> SeverityRank(a) == SeverityRank(b)
  {
    WordsDiffer();
  }

  lemma GroupSeverityKnown(k: Digest, ds: seq<Diagnostic>, g: RootCauseGroup)
    requires Known(ds) && g in Reduced(k, ds)
    ensures g.severity in ["error", "warning", "note", "info"]
  {
    hide Reduced, Deduped, RootCause, Saturated, DistinctFingerprints, Fingerprints;
    GroupsAreOneKind(k, ds);
    GroupsPartition(k, ds);
    DedupedKeepsEachOnce(ds, {});
    var d := g.diagnostics[0];
    FlatMapMembers((h: RootCauseGroup) => h.diagnostics, Reduced(k, ds));
    assert d in Flattened(Reduced(k, ds));
    assert d in multiset(Flattened(Reduced(k, ds)));
    assert d in Deduped(ds, {});
    assert KnownSeverity(d);
  }

  /** The groups of a log's report and the diagnostics of each group come in these orders. */
  lemma ReportOrderExactly(k: Digest, lines: seq<LogLine>, max: Option<nat>)
    ensures var groups := Reduced(k, Truncated(Diagnose(k, lines), max));
      && (forall i, j :: 0 <= i < j < |groups| ==> GroupNotAfter(groups[i], groups[j]))
      && forall g :: g in groups ==> InPlaceOrder(g.diagnostics)
  {
    hide *;
    var ds := Truncated(Diagnose(k, lines), max);
    var groups := Reduced(k, ds);
    LogsAreKnown(k, lines, max);
    ReportIsOrdered(k, ds);
    forall i, j | 0 <= i < j < |groups| ensures GroupNotAfter(groups[i], groups[j]) {
      GroupSeverityKnown(k, ds, groups[i]);
      GroupSeverityKnown(k, ds, groups[j]);
      GroupsPrecede(groups[i], groups[j]);
    }
    forall g | g in groups ensures InPlaceOrder(g.diagnostics) {
      var i :| 0 <= i < |groups| && groups[i] == g;
      MembersPrecede(g.diagnostics);
    }
  }

  ghost predicate InPlaceOrder(ds: seq<Diagnostic>) {
    forall i, j :: 0 <= i < j < |ds| ==> PlaceNotAfter(ds[i], ds[j])
  }

  lemma GroupsPrecede(a: RootCauseGroup, b: RootCauseGroup)
    requires a.severity in ["error", "warning", "note", "info"] && b.severity in ["error", "warning", "note", "info"]
    requires Precedes(a, b)
    ensures GroupNotAfter(a, b)
  {
    hide StrLe, Graver, SeverityRank;
    GravityExactly(a.severity, b.severity);
    GravityExactly(b.severity, a.severity);
  }

  lemma MembersPrecede(ds: seq<Diagnostic>)
    requires Sorted(PlaceLe, ds)
    ensures InPlaceOrder(ds)
  {
    hide PlaceNotAfter;
    forall i, j | 0 <= i < j < |ds| ensures PlaceNotAfter(ds[i], ds[j]) {
      PlaceExactly(ds[i], ds[j]);
    }
  }
}
