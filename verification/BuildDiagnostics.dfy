/** Reading compiler diagnostics out of a build log, line by line. */
module BuildDiagnostics {
  import opened Sequences
  import opened Text
  import opened Wrappers

  const U32_MAX := 0xFFFF_FFFF

  datatype Site = Site(file: string, line: nat, column: nat)

  datatype Report = Report(severity: string, code: Option<string>, message: string)

  /** A line by the first expression that matches it, with what that expression captured. */
  datatype LogLine =
    | Colon(site: Site, report: Report)
    | Msvc(site: Site, report: Report)
    | Header(report: Report)
    | Location(site: Site)
    | Other

  datatype Diagnostic = Diagnostic(
    file: string, line: nat, column: nat,
    severity: string, code: Option<string>, message: string, fingerprint: string)

  /**
   * The functions of the text that the parser takes from outside: group normalisation and the short hash of the joined
   * fields.
   */
  datatype Digest = Digest(normalize: string -> string, hash: (string, nat, nat, string, string, string) -> string)

  function NormalizeSeverity(word: string): (severity: string)
    ensures severity == "error" || severity == "warning" || severity == "note" || severity == "info"
  {
    var w := Lower(Trim(word));
    if w == "error" || w == "err" then "error"
    else if w == "warning" || w == "warn" then "warning"
    else if w == "note" then "note"
    else if w == "info" || w == "information" then "info"
    else "warning"
  }

  function NormalizePath(path: string): string {
    Replaced(Trim(path), '\\', '/')
  }

  /** `parse::<u32>().ok().unwrap_or(0)` */
  function ParseU32(n: nat): nat {
    if n <= U32_MAX then n else 0
  }

  function OrEmpty(code: Option<string>): string {
    match code case None => "" case Some(c) => c
  }

  function BuildDiagnostic(k: Digest, file: string, line: nat, column: nat, severity: string, code: Option<string>,
      message: string): Diagnostic {
    Diagnostic(file, line, column, severity, code, message,
      k.hash(file, line, column, severity, OrEmpty(code), k.normalize(message)))
  }

  /** A report with its severity and message as the parser keeps them. */
  function Read(report: Report): Report {
    Report(NormalizeSeverity(report.severity), report.code, Trim(report.message))
  }

  function Located(k: Digest, site: Site, report: Report): Diagnostic {
    BuildDiagnostic(k, NormalizePath(site.file), ParseU32(site.line), ParseU32(site.column),
      report.severity, report.code, report.message)
  }

  function Unlocated(k: Digest, report: Report): Diagnostic {
    BuildDiagnostic(k, "<unknown>", 0, 0, report.severity, report.code, report.message)
  }

  // ---- what a log means ----

  /** The first line that any of the expressions recognises. */
  function NextRecognised(lines: seq<LogLine>): (next: Option<LogLine>)
    ensures next.Some? ==> next.value in lines && next.value != Other
    ensures next.None? <==> forall l :: l in lines ==> l == Other
  {
    if lines == [] then None
    else if lines[0] != Other then Some(lines[0])
    else
      assert lines == [lines[0]] + lines[1..];
      NextRecognised(lines[1..])
  }

  /** A header looks ahead: the next recognised line either gives its place or discards it. */
  function HeaderYields(k: Digest, report: Report, rest: seq<LogLine>): seq<Diagnostic> {
    match NextRecognised(rest)
    case None => [Unlocated(k, report)]
    case Some(Location(site)) => [Located(k, site, report)]
    case Some(_) => []
  }

  function LineYields(k: Digest, line: LogLine, rest: seq<LogLine>): seq<Diagnostic> {
    match line
    case Colon(site, report) => [Located(k, site, Read(report))]
    case Msvc(site, report) => [Located(k, site, Read(report))]
    case Header(report) => HeaderYields(k, Read(report), rest)
    case _ => []
  }

  /** Every line contributes by itself and by what follows it, in the order of the lines. */
  function Diagnose(k: Digest, lines: seq<LogLine>): seq<Diagnostic> {
    if lines == [] then [] else LineYields(k, lines[0], lines[1..]) + Diagnose(k, lines[1..])
  }

  // ---- the parser ----

  /** What a header still waiting for its place will contribute. */
  function PendingYields(k: Digest, pending: Option<Report>, rest: seq<LogLine>): seq<Diagnostic> {
    match pending case None => [] case Some(report) => HeaderYields(k, report, rest)
  }

  /** What the parser adds at one line, and the header it then waits with. */
  function StepYields(k: Digest, pending: Option<Report>, line: LogLine): seq<Diagnostic> {
    match line
    case Colon(site, report) => [Located(k, site, Read(report))]
    case Msvc(site, report) => [Located(k, site, Read(report))]
    case Location(site) => if pending.Some? then [Located(k, site, pending.value)] else []
    case _ => []
  }

  function StepPending(pending: Option<Report>, line: LogLine): Option<Report> {
    match line
    case Header(report) => Some(Read(report))
    case Other => pending
    case _ => None
  }

  lemma StepMeans(k: Digest, pending: Option<Report>, lines: seq<LogLine>)
    requires lines != []
    ensures PendingYields(k, pending, lines) + Diagnose(k, lines)
      == StepYields(k, pending, lines[0])
        + (PendingYields(k, StepPending(pending, lines[0]), lines[1..]) + Diagnose(k, lines[1..]))
  {
    hide PendingYields, LineYields, StepYields, StepPending;
    LineAndPending(k, pending, lines);
    var next, rest := PendingYields(k, StepPending(pending, lines[0]), lines[1..]), Diagnose(k, lines[1..]);
    ConcatAssociates(PendingYields(k, pending, lines), LineYields(k, lines[0], lines[1..]), rest);
    ConcatAssociates(StepYields(k, pending, lines[0]), next, rest);
  }

  lemma LineAndPending(k: Digest, pending: Option<Report>, lines: seq<LogLine>)
    requires lines != []
    ensures PendingYields(k, pending, lines) + LineYields(k, lines[0], lines[1..])
      == StepYields(k, pending, lines[0]) + PendingYields(k, StepPending(pending, lines[0]), lines[1..])
  {
    hide Located, Unlocated, Read;
  }

  method ParseDiagnostics(k: Digest, lines: seq<LogLine>) returns (diagnostics: seq<Diagnostic>)
    ensures diagnostics == Diagnose(k, lines)
  {
    hide Diagnose, PendingYields, HeaderYields, Located, Unlocated, Read;
    diagnostics := [];
    var pendingRust: Option<Report> := None;
    NothingPending(k, lines);
    for i := 0 to |lines|
      invariant diagnostics + (PendingYields(k, pendingRust, lines[i..]) + Diagnose(k, lines[i..])) ==
        Diagnose(k, lines)
    {
      ghost var before, pending := diagnostics, pendingRust;
      StepMeans(k, pendingRust, lines[i..]);
      assert lines[i..][0] == lines[i] && lines[i..][1..] == lines[i + 1..];
      match lines[i] {
        case Colon(site, report) =>
          diagnostics := diagnostics + [Located(k, site, Read(report))];
          pendingRust := None;
        case Msvc(site, report) =>
          diagnostics := diagnostics + [Located(k, site, Read(report))];
          pendingRust := None;
        case Header(report) =>
          pendingRust := Some(Read(report));
        case Location(site) =>
          if pendingRust.Some? {
            diagnostics := diagnostics + [Located(k, site, pendingRust.value)];
            pendingRust := None;
          }
        case Other =>
      }
      assert diagnostics == before + StepYields(k, pending, lines[i]) && pendingRust == StepPending(pending, lines[i]);
      ConcatAssociates(before, StepYields(k, pending, lines[i]),
        PendingYields(k, pendingRust, lines[i + 1..]) + Diagnose(k, lines[i + 1..]));
    }
    AtTheEnd(k, pendingRust);
    if pendingRust.Some? {
      diagnostics := diagnostics + [Unlocated(k, pendingRust.value)];
    }
  }

  lemma NothingPending(k: Digest, lines: seq<LogLine>)
    ensures PendingYields(k, None, lines) == [] && lines[0..] == lines
  {
  }

  lemma AtTheEnd(k: Digest, pending: Option<Report>)
    ensures Diagnose(k, []) == []
    ensures PendingYields(k, pending, []) == if pending.Some? then [Unlocated(k, pending.value)] else []
  {
  }

  // ---- which lines speak ----

  /** Line `i` produces a diagnostic: it carries one, or it is a header that is not cut off. */
  predicate Speaks(lines: seq<LogLine>, i: nat)
    requires i < |lines|
  {
    || lines[i].Colon? || lines[i].Msvc?
    || (lines[i].Header? && var next := NextRecognised(lines[i + 1..]); next.None? || next.value.Location?)
  }

  ghost predicate Ascending(origin: seq<nat>) {
    forall a, b :: 0 <= a < b < |origin| ==> origin[a] < origin[b]
  }

  lemma SpeakingLineYieldsOne(k: Digest, lines: seq<LogLine>)
    requires lines != []
    ensures |LineYields(k, lines[0], lines[1..])| == if Speaks(lines, 0) then 1 else 0
  {
    hide Located, Unlocated, Read;
  }

  lemma SpeaksLater(lines: seq<LogLine>, i: nat)
    requires 0 < i < |lines|
    ensures Speaks(lines, i) == Speaks(lines[1..], i - 1)
  {
    assert lines[1..][i - 1 + 1..] == lines[i + 1..];
  }

  /** `origin[a]` is the line that produced diagnostic `a`. */
  ghost predicate Traces(k: Digest, lines: seq<LogLine>, origin: seq<nat>) {
    && |origin| == |Diagnose(k, lines)|
    && forall a :: 0 <= a < |origin| ==>
      && origin[a] < |lines|
      && LineYields(k, lines[origin[a]], lines[origin[a] + 1..]) == [Diagnose(k, lines)[a]]
  }

  lemma TracesCons(k: Digest, lines: seq<LogLine>, later: seq<nat>, origin: seq<nat>)
    requires lines != [] && Traces(k, lines[1..], later)
    requires origin ==
      (if Speaks(lines, 0) then [0] else []) + seq(|later|, a requires 0 <= a < |later| => later[a] + 1)
    ensures Traces(k, lines, origin)
  {
    hide LineYields, Speaks, Diagnose;
    SpeakingLineYieldsOne(k, lines);
    DiagnoseCons(k, lines);
    var first := if Speaks(lines, 0) then 1 else 0;
    forall a | 0 <= a < |origin|
      ensures origin[a] < |lines| && LineYields(k, lines[origin[a]], lines[origin[a] + 1..]) == [Diagnose(k, lines)[a]]
    {
      if a >= first {
        assert origin[a] == later[a - first] + 1;
        assert lines[origin[a] + 1..] == lines[1..][later[a - first] + 1..];
      }
    }
  }

  lemma DiagnoseCons(k: Digest, lines: seq<LogLine>)
    requires lines != []
    ensures Diagnose(k, lines) == LineYields(k, lines[0], lines[1..]) + Diagnose(k, lines[1..])
  {
  }

  lemma NothingToTrace(k: Digest)
    ensures Traces(k, [], [])
  {
  }

  /** Each diagnostic comes from one line of its own, in order, and exactly the speaking lines have one. */
  lemma {:induction false} DiagnosticsFollowTheirLines(k: Digest, lines: seq<LogLine>) returns (origin: seq<nat>)
    ensures Traces(k, lines, origin) && Ascending(origin)
    ensures forall i :: 0 <= i < |lines| ==> (i in origin <==> Speaks(lines, i))
  {
    hide Speaks, Traces;
    if lines == [] {
      origin := [];
      NothingToTrace(k);
    } else {
      var later := DiagnosticsFollowTheirLines(k, lines[1..]);
      origin := (if Speaks(lines, 0) then [0] else []) + seq(|later|, a requires 0 <= a < |later| => later[a] + 1);
      TracesCons(k, lines, later, origin);
      OriginSpeaks(lines, later, origin);
    }
  }

  lemma OriginSpeaks(lines: seq<LogLine>, later: seq<nat>, origin: seq<nat>)
    requires lines != [] && forall i :: 0 <= i < |lines| - 1 ==> (i in later <==> Speaks(lines[1..], i))
    requires origin ==
      (if Speaks(lines, 0) then [0] else []) + seq(|later|, a requires 0 <= a < |later| => later[a] + 1)
    ensures forall i :: 0 <= i < |lines| ==> (i in origin <==> Speaks(lines, i))
  {
    hide Speaks;
    var first := if Speaks(lines, 0) then 1 else 0;
    forall i | 0 < i < |lines| ensures i in origin <==> Speaks(lines, i) {
      SpeaksLater(lines, i);
      assert i - 1 in later <==> Speaks(lines[1..], i - 1);
      if i - 1 in later {
        var a :| 0 <= a < |later| && later[a] == i - 1;
        assert origin[a + first] == i;
      }
      if i in origin {
        var b :| 0 <= b < |origin| && origin[b] == i;
        assert b >= first && later[b - first] == i - 1;
      }
    }
  }

  /** Every diagnostic a log yields has one of the four severities. */
  lemma {:induction false} DiagnosedSeverities(k: Digest, lines: seq<LogLine>)
    ensures forall d :: d in Diagnose(k, lines) ==> d.severity in {"error", "warning", "note", "info"}
  {
    if lines != [] {
      hide NormalizeSeverity;
      DiagnosedSeverities(k, lines[1..]);
    }
  }

  lemma {:induction false} SkipsOthers(k: Digest, others: seq<LogLine>, rest: seq<LogLine>)
    requires forall l :: l in others ==> l == Other
    ensures NextRecognised(others + rest) == NextRecognised(rest)
    ensures Diagnose(k, others + rest) == Diagnose(k, rest)
  {
    hide Located, Unlocated, HeaderYields, Read;
    if others == [] {
      assert others + rest == rest;
    } else {
      assert others[0] in others && forall l :: l in others[1..] ==> l in others;
      SkipsOthers(k, others[1..], rest);
      assert (others + rest)[0] == Other && (others + rest)[1..] == others[1..] + rest;
    }
  }

  /** A header takes the place of the next location, over any unrecognised lines; what follows is read afresh. */
  lemma HeaderTakesItsLocation(k: Digest, report: Report, others: seq<LogLine>, site: Site, rest: seq<LogLine>)
    requires forall l :: l in others ==> l == Other
    requires site.line <= U32_MAX && site.column <= U32_MAX
    ensures var ds := Diagnose(k, [Header(report)] + (others + ([Location(site)] + rest)));
      && |ds| >= 1 && ds[1..] == Diagnose(k, rest)
      && ds[0].file == NormalizePath(site.file) && ds[0].line == site.line && ds[0].column == site.column
      && ds[0].severity == NormalizeSeverity(report.severity) && ds[0].code == report.code && ds[0].message ==
        Trim(report.message)
  {
    hide Diagnose, NormalizePath, NormalizeSeverity, Trim;
    var after := [Location(site)] + rest;
    assert after[0] == Location(site) && after[1..] == rest;
    var lines := [Header(report)] + (others + after);
    assert lines[0] == Header(report) && lines[1..] == others + after;
    SkipsOthers(k, others, after);
    DiagnoseCons(k, after);
    DiagnoseCons(k, lines);
    ConcatEmpty(Diagnose(k, rest));
    assert Diagnose(k, lines) == [Located(k, site, Read(report))] + Diagnose(k, rest);
  }
}
