/** The rules that relate the packets of a task, and the findings they make. */
module CorrelationRules {
  import opened Order
  import opened Sequences
  import opened Sorting
  import opened Wrappers

  const DIFF_ANALYZE := "suite.diff.analyze.v1"
  const TEST_IMPACT := "suite.test.impact.v1"
  const STACK_SLICE := "suite.stack.slice.v1"
  const BUILD_REDUCE := "suite.build.reduce.v1"
  const MAP_REPO := "suite.map.repo.v1"

  /** A packet whose envelope parses as one of the reducers' outputs; paths are canonical. */
  datatype Typed =
    | Diff(payloadPaths: set<string>, files: set<string>)
    | Impact(selectedTests: seq<string>)
    | Stack(files: set<string>)
    | Build(files: set<string>)
    | Map(fileList: seq<Option<string>>, edges: seq<(nat, nat)>)
    | Untyped

  function PacketTypeFor(tool: string, kind: string): string {
    match (tool, kind)
    case ("diffy", "diff_analyze") => DIFF_ANALYZE
    case ("testy", "test_impact") => TEST_IMPACT
    case ("stacky", "stack_slice") => STACK_SLICE
    case ("buildy", "build_reduce") => BUILD_REDUCE
    case ("mapy", "repo_map") => MAP_REPO
    case ("mapy", "repo_query") => "suite.map.query.v1"
    case ("agenty", "agent_snapshot") => "suite.agent.snapshot.v1"
    case ("agenty", "agent_state") => "suite.agent.state.v1"
    case ("contextq", "context_correlate") => "suite.context.correlate.v1"
    case ("contextq", "context_manage") => "suite.context.manage.v1"
    case ("contextq", "context_assemble") => "suite.context.assemble.v1"
    case _ => "suite." + tool + "." + kind + ".v1"
  }

  datatype Normalized = Normalized(
    packetId: Option<string>, tool: string, kind: string,
    files: set<string>, basenames: set<string>, symbols: set<string>, tests: set<string>,
    mapEdges: seq<(string, string)>)
  {
    function PacketType(): string {
      PacketTypeFor(tool, kind)
    }
  }

  /** A packet has a typed reading and, if its body has a tool and a kind, a normalised one. */
  datatype Packet = Packet(packetId: Option<string>, typed: Typed, normalized: Option<Normalized>)

  /** What changed since the checkpoint; `paths` are canonical and `symbols` in lower case. */
  datatype Focus = Focus(taskId: string, paths: set<string>, basenames: set<string>, symbols: set<string>)

  datatype Evidence = Evidence(packetId: Option<string>, packetType: string, kind: string, value: string)

  datatype Finding = Finding(rule: string, relation: string, summary: string, evidence: seq<Evidence>)

  // ---- listing sets ----

  lemma {:induction false} LeastExists(s: set<string>)
    requires s != {}
    ensures exists x :: x in s && forall y :: y in s ==> StrLe(x, y)
    decreases |s|
  {
    hide StrLe;
    var x :| x in s;
    StrLeReflexive(x);
    if s != {x} {
      assert (s - {x}) + {x} == s;
      LeastExists(s - {x});
      var m :| m in s - {x} && forall y :: y in s - {x} ==> StrLe(m, y);
      StrLeTotal(x, m);
      if StrLe(x, m) {
        forall y | y in s ensures StrLe(x, y) {
          if y != x {
            StrLeTransitive(x, m, y);
          }
        }
      }
    }
  }

  predicate Least(s: set<string>, x: string) {
    x in s && forall y :: y in s ==> StrLe(x, y)
  }

  lemma LeastIsUnique(s: set<string>)
    requires s != {}
    ensures exists x :: Least(s, x)
    ensures forall a, b :: Least(s, a) && Least(s, b) ==> a == b
  {
    hide StrLe;
    LeastExists(s);
    var x :| x in s && forall y :: y in s ==> StrLe(x, y);
    assert Least(s, x);
    forall a, b | Least(s, a) && Least(s, b) ensures a == b {
      StrLeAntisymmetric(a, b);
    }
  }

  /** The elements of a `BTreeSet` in the order it iterates. */
  function Listed(s: set<string>): (listed: seq<string>)
    ensures |listed| == |s| && forall x :: x in listed <==> x in s
  {
    if s == {} then []
    else
      LeastIsUnique(s);
      var x :| Least(s, x);
      [x] + Listed(s - {x})
  }

  function Join(parts: seq<string>, separator: string): string {
    if parts == [] then ""
    else if |parts| == 1 then parts[0]
    else parts[0] + separator + Join(parts[1..], separator)
  }

  function Commas(s: set<string>): string {
    Join(Listed(s), ", ")
  }

  function Decimal(n: nat): string {
    if n < 10 then [('0' as int + n) as char] else Decimal(n / 10) + [('0' as int + n % 10) as char]
  }

  /** The number that a row of decimal digits writes. */
  function Written(digits: string): int {
    if digits == "" then 0 else 10 * Written(digits[..|digits| - 1]) + (digits[|digits| - 1] as int - '0' as int)
  }

  lemma {:induction false} DecimalReadsBack(n: nat)
    ensures Written(Decimal(n)) == n
    ensures Decimal(n) != "" && forall i :: 0 <= i < |Decimal(n)| ==> '0' <= Decimal(n)[i] <= '9'
  {
    if n >= 10 {
      DecimalReadsBack(n / 10);
      assert Decimal(n)[..|Decimal(n)| - 1] == Decimal(n / 10);
    } else {
      assert Decimal(n)[..0] == "";
    }
  }

  // ---- keys ----

  function EvidenceText(e: Evidence): string {
    e.packetType + ":" + e.kind + ":" + e.value
  }

  function Texts(evidence: seq<Evidence>): (texts: seq<string>)
    ensures |texts| == |evidence| && forall i :: 0 <= i < |evidence| ==> texts[i] == EvidenceText(evidence[i])
  {
    seq(|evidence|, i requires 0 <= i < |evidence| => EvidenceText(evidence[i]))
  }

  /** The key by which findings are deduplicated: rule, relation and the sorted evidence. */
  function Key(f: Finding): string {
    f.rule + "|" + f.relation + "|" + Join(Sort(StrLe, Texts(f.evidence)), "|")
  }

  ghost function Keys(findings: seq<Finding>): (keys: set<string>)
    ensures forall key :: key in keys <==> exists f :: f in findings && Key(f) == key
  {
    set f | f in findings :: Key(f)
  }

  // ---- evidence ----

  function Refs(packetId: Option<string>, packetType: string, kind: string, values: seq<string>): (refs: seq<Evidence>)
    ensures |refs| == |values| && forall i :: 0 <= i < |values| ==>
      refs[i] == Evidence(packetId, packetType, kind, values[i])
  {
    seq(|values|, i requires 0 <= i < |values| => Evidence(packetId, packetType, kind, values[i]))
  }

  function NormalizedRefs(p: Normalized, kind: string, values: seq<string>): seq<Evidence> {
    Refs(p.packetId, p.PacketType(), kind, values)
  }

  // ---- the rules about a diff ----

  function ChangedFiles(diff: Packet): set<string>
    requires diff.typed.Diff?
  {
    if diff.typed.payloadPaths != {} then diff.typed.payloadPaths else diff.typed.files
  }

  function FileAt(files: seq<Option<string>>, i: nat): Option<string> {
    if i < |files| then files[i] else None
  }

  /** Some edge of the map runs between the two sets of files, in either direction. */
  predicate MapHasEdge(map_: Packet, left: set<string>, right: set<string>)
    requires map_.typed.Map?
  {
    exists i :: 0 <= i < |map_.typed.edges| && Connects(
      FileAt(map_.typed.fileList, map_.typed.edges[i].0),
      FileAt(map_.typed.fileList, map_.typed.edges[i].1), left, right)
  }

  predicate Connects(from: Option<string>, to: Option<string>, left: set<string>, right: set<string>) {
    from.Some? && to.Some?
    && ((from.value in left && to.value in right) || (from.value in right && to.value in left))
  }

  predicate AnyMapConnects(maps: seq<Packet>, left: set<string>, right: set<string>) {
    exists map_ :: map_ in maps && map_.typed.Map? && MapHasEdge(map_, left, right)
  }

  function DiffVsStack(diff: Packet, stack: Packet, maps: seq<Packet>): seq<Finding>
    requires diff.typed.Diff? && stack.typed.Stack?
  {
    var changed, stackFiles := ChangedFiles(diff), stack.typed.files;
    var overlap := changed * stackFiles;
    var relation :=
      if overlap != {} then "related"
      else if !AnyMapConnects(maps, changed, stackFiles) && maps != [] then "unrelated"
      else "possibly_related";
    var summary :=
      if overlap != {} then "Stack failures touch changed files: " + Commas(overlap)
      else if relation == "unrelated" then
        "Stack failures in " + Commas(stackFiles) + " appear unrelated to diff in " + Commas(changed)
      else "Stack failures in " + Commas(stackFiles) + " may relate indirectly to diff in " + Commas(changed);
    if stackFiles == {} then []
    else [Finding("diff_vs_stack", relation, summary,
      Refs(diff.packetId, DIFF_ANALYZE, "file", Listed(changed))
        + Refs(stack.packetId, STACK_SLICE, "file", Listed(stackFiles)))]
  }

  function DiffVsImpact(diff: Packet, impact: Packet): seq<Finding>
    requires diff.typed.Diff? && impact.typed.Impact?
  {
    var changed, tests := ChangedFiles(diff), impact.typed.selectedTests;
    if tests == [] then []
    else [Finding("diff_vs_impact", "supports",
      "Test impact selected " + Decimal(|tests|) + " tests for changed files " + Commas(changed),
      Refs(diff.packetId, DIFF_ANALYZE, "file", Listed(changed)) + Refs(impact.packetId, TEST_IMPACT, "test", tests))]
  }

  function DiffVsBuild(diff: Packet, build: Packet): seq<Finding>
    requires diff.typed.Diff? && build.typed.Build?
  {
    var changed := ChangedFiles(diff);
    var untouched := build.typed.files - changed;
    if untouched == {} then []
    else [Finding("diff_vs_build", "pre_existing_or_unrelated",
      "Build diagnostics touch untouched files: " + Commas(untouched),
      Refs(diff.packetId, DIFF_ANALYZE, "file", Listed(changed))
        + Refs(build.packetId, BUILD_REDUCE, "file", Listed(untouched)))]
  }

  // ---- the rules about two packets ----

  /** How many packets have a file of that basename. */
  function BasenameCount(ns: seq<Normalized>, basename: string): nat {
    Weigh((n: Normalized) => if basename in n.basenames then 1 else 0, ns)
  }

  function WithCount(ns: seq<Normalized>, basenames: set<string>, count: nat): set<string> {
    set b | b in basenames && BasenameCount(ns, b) == count
  }

  /** Two packets that have something in common, with that as evidence from both. */
  function Shared(rule: string, kind: string, summary: string, left: Normalized, right: Normalized,
      values: set<string>): seq<Finding> {
    if values == {} then []
    else [Finding(rule, "related", summary + Commas(values),
      NormalizedRefs(left, kind, Listed(values)) + NormalizedRefs(right, kind, Listed(values)))]
  }

  /** Shared files or, failing those, basenames that no third packet has. */
  function SharedFile(ns: seq<Normalized>, left: Normalized, right: Normalized): seq<Finding> {
    var files := left.files * right.files;
    if files != {} then Shared("shared_file", "file", "Packets share files: ", left, right, files)
    else Shared("shared_file", "file_basename", "Packets share unique file basenames: ", left, right,
      WithCount(ns, left.basenames * right.basenames, 2))
  }

  function SharedSymbol(left: Normalized, right: Normalized): seq<Finding> {
    Shared("shared_symbol", "symbol", "Packets share symbols: ", left, right, left.symbols * right.symbols)
  }

  function SharedTest(left: Normalized, right: Normalized): seq<Finding> {
    Shared("shared_test", "test", "Packets share tests: ", left, right, left.tests * right.tests)
  }

  predicate IsRepoMap(n: Normalized) {
    n.tool == "mapy" && n.kind == "repo_map"
  }

  predicate EdgeConnects(map_: Normalized, left: Normalized, right: Normalized) {
    exists e :: e in map_.mapEdges
      && ((e.0 in left.files && e.1 in right.files) || (e.1 in left.files && e.0 in right.files))
  }

  function MapEdgeFinding(left: Normalized, right: Normalized, map_: Normalized): Finding {
    Finding("map_edge_connects", "related", "Repo map connects " + left.PacketType() + " and " + right.PacketType(),
      [Evidence(map_.packetId, map_.PacketType(), "map_edge", "edge")])
  }

  function MapEdgeConnects(left: Normalized, right: Normalized, map_: Normalized): seq<Finding> {
    if IsRepoMap(map_) && EdgeConnects(map_, left, right) then [MapEdgeFinding(left, right, map_)] else []
  }

  function MapRule(left: Normalized, right: Normalized): Normalized -> seq<Finding> {
    (m: Normalized) => MapEdgeConnects(left, right, m)
  }

  function PairFindings(ns: seq<Normalized>, left: Normalized, right: Normalized): seq<Finding> {
    SharedFile(ns, left, right) + SharedSymbol(left, right) + SharedTest(left, right)
      + FlatMap(MapRule(left, right), ns)
  }

  // ---- the rule about the checkpoint ----

  function TaskFocusOverlap(ns: seq<Normalized>, focus: Focus, p: Normalized): seq<Finding> {
    var paths := p.files * focus.paths;
    var basenames := if paths != {} then {} else WithCount(ns, p.basenames * focus.basenames, 1);
    var symbols := p.symbols * focus.symbols;
    if paths == {} && basenames == {} && symbols == {} then []
    else [Finding("task_focus_overlap", "related", "Packet overlaps task checkpoint deltas for task " + focus.taskId,
      NormalizedRefs(p, "file", Listed(paths)) + NormalizedRefs(p, "symbol", Listed(symbols))
        + NormalizedRefs(p, "file_basename", Listed(basenames)))]
  }

  // ---- all findings ----

  function DiffRule(stacks: seq<Packet>, impacts: seq<Packet>, builds: seq<Packet>,
      maps: seq<Packet>): Packet -> seq<Finding> {
    (diff: Packet) => DiffFindings(diff, stacks, impacts, builds, maps)
  }

  function StackRule(diff: Packet, maps: seq<Packet>): Packet -> seq<Finding> {
    (p: Packet) => if diff.typed.Diff? && p.typed.Stack? then DiffVsStack(diff, p, maps) else []
  }

  function ImpactRule(diff: Packet): Packet -> seq<Finding> {
    (p: Packet) => if diff.typed.Diff? && p.typed.Impact? then DiffVsImpact(diff, p) else []
  }

  function BuildRule(diff: Packet): Packet -> seq<Finding> {
    (p: Packet) => if diff.typed.Diff? && p.typed.Build? then DiffVsBuild(diff, p) else []
  }

  function DiffFindings(diff: Packet, stacks: seq<Packet>, impacts: seq<Packet>, builds: seq<Packet>,
      maps: seq<Packet>): seq<Finding> {
    if !diff.typed.Diff? || ChangedFiles(diff) == {} then []
    else FlatMap(StackRule(diff, maps), stacks) + FlatMap(ImpactRule(diff), impacts) + FlatMap(BuildRule(diff), builds)
  }

  function WithEach(ns: seq<Normalized>, left: Normalized): Normalized -> seq<Finding> {
    (right: Normalized) => PairFindings(ns, left, right)
  }

  /** Every packet of `tail` with every later one; `ns` are all the packets. */
  function PairsFrom(ns: seq<Normalized>, tail: seq<Normalized>): seq<Finding> {
    if tail == [] then [] else FlatMap(WithEach(ns, tail[0]), tail[1..]) + PairsFrom(ns, tail[1..])
  }

  function FocusRule(ns: seq<Normalized>, focus: Focus): Normalized -> seq<Finding> {
    (p: Normalized) => TaskFocusOverlap(ns, focus, p)
  }

  function FocusFindings(ns: seq<Normalized>, focus: Option<Focus>): seq<Finding> {
    if focus.Some? then FlatMap(FocusRule(ns, focus.value), ns) else []
  }

  function NormalizedOf(p: Packet): seq<Normalized> {
    if p.normalized.Some? then [p.normalized.value] else []
  }

  function AllDiffFindings(packets: seq<Packet>): seq<Finding> {
    FlatMap(
      DiffRule(
        Filter((p: Packet) => p.typed.Stack?, packets), Filter((p: Packet) => p.typed.Impact?, packets),
        Filter((p: Packet) => p.typed.Build?, packets), Filter((p: Packet) => p.typed.Map?, packets)),
      Filter((p: Packet) => p.typed.Diff?, packets))
  }

  function AllFindings(packets: seq<Packet>, focus: Option<Focus>): seq<Finding> {
    var ns := FlatMap(NormalizedOf, packets);
    AllDiffFindings(packets) + PairsFrom(ns, ns) + FocusFindings(ns, focus)
  }
}
