/** The findings that a repository map connects two packets: deduplication keeps only one. */
module CorrelationMaps {
  import opened Sequences
  import opened Sorting
  import opened Wrappers
  import opened CorrelationRules
  import opened CorrelationRun

  const RULE := "map_edge_connects"

  /** The key of every finding by this rule: the evidence names neither the map nor the packets it connects. */
  ghost function MapKey(): string {
    Key(Finding(RULE, "related", "", [Evidence(None, MAP_REPO, "map_edge", "edge")]))
  }

  lemma MapFindingsShareKey(left: Normalized, right: Normalized, map_: Normalized)
    requires IsRepoMap(map_)
    ensures Key(MapEdgeFinding(left, right, map_)) == MapKey()
  {
    hide Sort, Join;
    assert Texts(MapEdgeFinding(left, right, map_).evidence) ==
      Texts([Evidence(None, MAP_REPO, "map_edge", "edge")]);
  }

  // ---- other rules have other keys ----

  /** The rule of a finding that is not about a map; only that rule's name starts with an m. */
  predicate OtherRule(f: Finding) {
    f.rule != "" && f.rule[0] != 'm'
  }

  lemma OtherRuleOtherKey(f: Finding)
    requires OtherRule(f)
    ensures Key(f) != MapKey()
  {
    hide Sort, Join, Texts;
    assert Key(f)[0] == f.rule[0];
    assert MapKey()[0] == RULE[0];
  }

  lemma {:induction false} OthersAreNotFirst(findings: seq<Finding>)
    requires forall f :: f in findings ==> OtherRule(f)
    ensures First(findings, MapKey()) == None
  {
    hide Key, MapKey, OtherRule;
    if findings != [] {
      assert findings == [findings[0]] + findings[1..];
      OtherRuleOtherKey(findings[0]);
      OthersAreNotFirst(findings[1..]);
    }
  }

  lemma DiffFindingsAreOther(packets: seq<Packet>)
    ensures forall f :: f in AllDiffFindings(packets) ==> OtherRule(f)
  {
    var stacks := Filter((p: Packet) => p.typed.Stack?, packets);
    var impacts := Filter((p: Packet) => p.typed.Impact?, packets);
    var builds := Filter((p: Packet) => p.typed.Build?, packets);
    var maps := Filter((p: Packet) => p.typed.Map?, packets);
    var diffs := Filter((p: Packet) => p.typed.Diff?, packets);
    FlatMapMembers(DiffRule(stacks, impacts, builds, maps), diffs);
    forall diff, f | f in DiffFindings(diff, stacks, impacts, builds, maps) ensures OtherRule(f) {
      OneDiffIsOther(diff, stacks, impacts, builds, maps, f);
    }
    hide DiffFindings, Filter, FlatMap;
  }

  lemma OneDiffIsOther(diff: Packet, stacks: seq<Packet>, impacts: seq<Packet>, builds: seq<Packet>,
      maps: seq<Packet>, f: Finding)
    requires f in DiffFindings(diff, stacks, impacts, builds, maps)
    ensures OtherRule(f)
  {
    hide FlatMap, ChangedFiles, AnyMapConnects, Refs, Listed, Commas, Decimal;
    FlatMapMembers(StackRule(diff, maps), stacks);
    FlatMapMembers(ImpactRule(diff), impacts);
    FlatMapMembers(BuildRule(diff), builds);
  }

  lemma FocusFindingsAreOther(ns: seq<Normalized>, focus: Option<Focus>)
    ensures forall f :: f in FocusFindings(ns, focus) ==> OtherRule(f)
  {
    hide FlatMap, WithCount, NormalizedRefs, Listed;
    if focus.Some? {
      FlatMapMembers(FocusRule(ns, focus.value), ns);
    }
  }

  lemma SharedIsOther(ns: seq<Normalized>, left: Normalized, right: Normalized)
    ensures forall f :: f in SharedFile(ns, left, right) + SharedSymbol(left, right) + SharedTest(left, right) ==>
      OtherRule(f)
  {
    hide WithCount, NormalizedRefs, Listed, Commas;
  }

  // ---- the first finding in a list of lists ----

  lemma {:induction false} FirstConcat(a: seq<Finding>, b: seq<Finding>, key: string)
    ensures First(a + b, key) == if First(a, key).Some? then First(a, key) else First(b, key)
  {
    hide Key;
    if a == [] {
      assert a + b == b;
    } else {
      assert (a + b)[0] == a[0] && (a + b)[1..] == a[1..] + b;
      FirstConcat(a[1..], b, key);
    }
  }

  lemma {:induction false} FirstOfEach<A>(f: A -> seq<Finding>, s: seq<A>, n: nat, key: string)
    requires n <= |s| && forall h :: 0 <= h < n ==> First(f(s[h]), key) == None
    requires n < |s| ==> First(f(s[n]), key).Some?
    ensures First(FlatMap(f, s), key) == if n < |s| then First(f(s[n]), key) else None
  {
    hide Key, First;
    if s == [] {
      NothingFirst(key);
    } else {
      FirstConcat(f(s[0]), FlatMap(f, s[1..]), key);
      if n > 0 {
        FirstOfEach(f, s[1..], n - 1, key);
      }
    }
  }

  lemma NothingFirst(key: string)
    ensures First([], key) == None
  {
  }

  // ---- which connection is found first ----

  /** A repository map with an edge between a file of the one packet and a file of the other. */
  ghost predicate Joins(map_: Normalized, left: Normalized, right: Normalized) {
    && map_.tool == "mapy" && map_.kind == "repo_map"
    && exists from, to :: (from, to) in map_.mapEdges
         && ((from in left.files && to in right.files) || (from in right.files && to in left.files))
  }

  lemma JoinsExactly(map_: Normalized, left: Normalized, right: Normalized)
    ensures Joins(map_, left, right) <==> IsRepoMap(map_) && EdgeConnects(map_, left, right)
  {
    if EdgeConnects(map_, left, right) {
      var e :| e in map_.mapEdges
        && ((e.0 in left.files && e.1 in right.files) || (e.1 in left.files && e.0 in right.files));
      assert (e.0, e.1) in map_.mapEdges;
    }
    if from, to :| (from, to) in map_.mapEdges
                   && ((from in left.files && to in right.files) || (from in right.files && to in left.files)) {
      assert (from, to) in map_.mapEdges;
    }
  }

  /** Map `k` joins packet `i` and the later packet `j`. */
  ghost predicate Connected(ns: seq<Normalized>, i: nat, j: nat, k: nat) {
    i < j < |ns| && k < |ns| && Joins(ns[k], ns[i], ns[j])
  }

  predicate Earlier(a: (nat, nat, nat), b: (nat, nat, nat)) {
    a.0 < b.0 || (a.0 == b.0 && (a.1 < b.1 || (a.1 == b.1 && a.2 < b.2)))
  }

  ghost predicate FirstConnected(ns: seq<Normalized>, i: nat, j: nat, k: nat) {
    && Connected(ns, i, j, k)
    && forall a: nat, b: nat, c: nat :: Connected(ns, a, b, c) ==> !Earlier((a, b, c), (i, j, k))
  }

  lemma MapGives(left: Normalized, right: Normalized, map_: Normalized)
    ensures First(MapRule(left, right)(map_), MapKey()) ==
      if Joins(map_, left, right) then Some(MapEdgeFinding(left, right, map_)) else None
  {
    JoinsExactly(map_, left, right);
    if IsRepoMap(map_) && EdgeConnects(map_, left, right) {
      MapFindingsShareKey(left, right, map_);
    }
    hide Key, MapKey, EdgeConnects, MapEdgeFinding, Joins;
  }

  /** What a pair of packets gives, `k` being the first map that connects them or the number of packets. */
  lemma PairGives(ns: seq<Normalized>, i: nat, j: nat, k: nat)
    requires i < j < |ns| && k <= |ns| && forall c: nat :: c < k ==> !Connected(ns, i, j, c)
    requires k < |ns| ==> Connected(ns, i, j, k)
    ensures First(PairFindings(ns, ns[i], ns[j]), MapKey()) ==
      if k < |ns| then Some(MapEdgeFinding(ns[i], ns[j], ns[k])) else None
  {
    hide Key, MapKey, Joins, MapEdgeFinding, First, FlatMap, MapRule;
    hide SharedFile, SharedSymbol, SharedTest;
    var left, right := ns[i], ns[j];
    var shared := SharedFile(ns, left, right) + SharedSymbol(left, right) + SharedTest(left, right);
    SharedIsOther(ns, left, right);
    OthersAreNotFirst(shared);
    FirstConcat(shared, FlatMap(MapRule(left, right), ns), MapKey());
    forall c | 0 <= c < |ns| && c <= k
      ensures First(MapRule(left, right)(ns[c]), MapKey()) ==
        if c == k then Some(MapEdgeFinding(left, right, ns[c])) else None
    {
      MapGives(left, right, ns[c]);
      assert Connected(ns, i, j, c) <==> c == k;
    }
    FirstOfEach(MapRule(left, right), ns, k, MapKey());
  }

  lemma RowGivesNone(ns: seq<Normalized>, i: nat)
    requires i < |ns| && forall j: nat, k: nat :: !Connected(ns, i, j, k)
    ensures First(FlatMap(WithEach(ns, ns[i]), ns[i + 1..]), MapKey()) == None
  {
    hide MapKey, Connected, PairFindings, First, FlatMap;
    var later := ns[i + 1..];
    forall h | 0 <= h < |later| ensures First(WithEach(ns, ns[i])(later[h]), MapKey()) == None {
      PairGives(ns, i, i + 1 + h, |ns|);
    }
    FirstOfEach(WithEach(ns, ns[i]), later, |later|, MapKey());
  }

  lemma EarlierGivesNone(ns: seq<Normalized>, i: nat, b: nat, j: nat, k: nat)
    requires FirstConnected(ns, i, j, k) && i < b < j
    ensures b < |ns| && First(PairFindings(ns, ns[i], ns[b]), MapKey()) == None
  {
    assert j < |ns|;
    hide MapKey, Connected, PairFindings, First;
    forall c: nat ensures !Connected(ns, i, b, c) {
      assert Earlier((i, b, c), (i, j, k));
    }
    PairGives(ns, i, b, |ns|);
  }

  lemma FirstPairGives(ns: seq<Normalized>, i: nat, j: nat, k: nat)
    requires FirstConnected(ns, i, j, k)
    ensures i < j < |ns| && k < |ns|
    ensures First(PairFindings(ns, ns[i], ns[j]), MapKey()) == Some(MapEdgeFinding(ns[i], ns[j], ns[k]))
  {
    assert i < j < |ns| && k < |ns|;
    hide MapKey, Connected, PairFindings, First, MapEdgeFinding;
    forall c: nat | c < k ensures !Connected(ns, i, j, c) {
      assert Earlier((i, j, c), (i, j, k));
    }
    PairGives(ns, i, j, k);
  }

  lemma EachGives(ns: seq<Normalized>, left: Normalized, right: Normalized)
    ensures WithEach(ns, left)(right) == PairFindings(ns, left, right)
  {
  }

  lemma RowGives(ns: seq<Normalized>, i: nat, j: nat, k: nat)
    requires FirstConnected(ns, i, j, k)
    ensures i < j < |ns| && k < |ns|
    ensures First(FlatMap(WithEach(ns, ns[i]), ns[i + 1..]), MapKey()) == Some(MapEdgeFinding(ns[i], ns[j], ns[k]))
  {
    hide MapKey, FirstConnected, PairFindings, First, FlatMap, MapEdgeFinding, WithEach;
    FirstPairGives(ns, i, j, k);
    var later, n := ns[i + 1..], j - i - 1;
    forall h | 0 <= h < n ensures First(WithEach(ns, ns[i])(later[h]), MapKey()) == None {
      assert later[h] == ns[i + 1 + h];
      EachGives(ns, ns[i], later[h]);
      EarlierGivesNone(ns, i, i + 1 + h, j, k);
    }
    assert later[n] == ns[j];
    EachGives(ns, ns[i], later[n]);
    FirstOfEach(WithEach(ns, ns[i]), later, n, MapKey());
  }

  lemma {:induction false} PairsGive(ns: seq<Normalized>, from: nat, i: nat, j: nat, k: nat)
    requires FirstConnected(ns, i, j, k) && from <= i
    ensures i < j < |ns| && k < |ns|
    ensures First(PairsFrom(ns, ns[from..]), MapKey()) == Some(MapEdgeFinding(ns[i], ns[j], ns[k]))
    decreases i - from
  {
    hide MapKey, FirstConnected, First, FlatMap, MapEdgeFinding, WithEach, PairsFrom;
    RowGives(ns, i, j, k);
    FromRow(ns, from);
    if from < i {
      EarlierRowGivesNone(ns, from, i, j, k);
      PairsGive(ns, from + 1, i, j, k);
    }
  }

  lemma EarlierRowGivesNone(ns: seq<Normalized>, a: nat, i: nat, j: nat, k: nat)
    requires FirstConnected(ns, i, j, k) && a < i
    ensures a < |ns| && First(FlatMap(WithEach(ns, ns[a]), ns[a + 1..]), MapKey()) == None
  {
    assert i < |ns|;
    hide MapKey, Connected, First, FlatMap, WithEach;
    forall b: nat, c: nat ensures !Connected(ns, a, b, c) {
      assert Earlier((a, b, c), (i, j, k));
    }
    RowGivesNone(ns, a);
  }

  lemma FromRow(ns: seq<Normalized>, from: nat)
    requires from < |ns|
    ensures var row := First(FlatMap(WithEach(ns, ns[from]), ns[from + 1..]), MapKey());
      First(PairsFrom(ns, ns[from..]), MapKey()) ==
        if row.Some? then row else First(PairsFrom(ns, ns[from + 1..]), MapKey())
  {
    hide MapKey, First, FlatMap, WithEach;
    assert ns[from..][0] == ns[from] && ns[from..][1..] == ns[from + 1..];
    FirstConcat(FlatMap(WithEach(ns, ns[from]), ns[from + 1..]), PairsFrom(ns, ns[from + 1..]), MapKey());
  }

  lemma {:induction false} PairsGiveNone(ns: seq<Normalized>, from: nat)
    requires from <= |ns| && forall i: nat, j: nat, k: nat :: !Connected(ns, i, j, k)
    ensures First(PairsFrom(ns, ns[from..]), MapKey()) == None
    decreases |ns| - from
  {
    hide MapKey, Connected, First, FlatMap, WithEach;
    if from == |ns| {
      NothingFirst(MapKey());
    } else {
      FromRow(ns, from);
      RowGivesNone(ns, from);
      PairsGiveNone(ns, from + 1);
    }
  }

  lemma OnlyPairsGive(packets: seq<Packet>, focus: Option<Focus>)
    ensures var ns := FlatMap(NormalizedOf, packets);
      First(AllFindings(packets, focus), MapKey()) == First(PairsFrom(ns, ns), MapKey())
  {
    hide MapKey, First, FlatMap, PairsFrom, AllDiffFindings, FocusFindings, OtherRule;
    var ns := FlatMap(NormalizedOf, packets);
    DiffFindingsAreOther(packets);
    OthersAreNotFirst(AllDiffFindings(packets));
    FocusFindingsAreOther(ns, focus);
    OthersAreNotFirst(FocusFindings(ns, focus));
    FirstConcat(AllDiffFindings(packets), PairsFrom(ns, ns), MapKey());
    FirstConcat(AllDiffFindings(packets) + PairsFrom(ns, ns), FocusFindings(ns, focus), MapKey());
  }

  // ---- there is a first one ----

  lemma {:induction false} LeastNumber(p: nat -> bool, n: nat) returns (least: nat)
    requires p(n)
    ensures p(least) && forall h: nat :: p(h) ==> least <= h
    decreases n
  {
    if h: nat :| h < n && p(h) {
      least := LeastNumber(p, h);
    } else {
      least := n;
    }
  }

  lemma SomeFirst(ns: seq<Normalized>, a: nat, b: nat, c: nat) returns (i: nat, j: nat, k: nat)
    requires Connected(ns, a, b, c)
    ensures FirstConnected(ns, i, j, k) && i < j < |ns| && k < |ns|
  {
    var left := (x: nat) => exists y: nat, z: nat :: Connected(ns, x, y, z);
    i := LeastNumber(left, a);
    var y0: nat, z0: nat :| Connected(ns, i, y0, z0);
    var right := (y: nat) => exists z: nat :: Connected(ns, i, y, z);
    j := LeastNumber(right, y0);
    var z1: nat :| Connected(ns, i, j, z1);
    var between := (z: nat) => Connected(ns, i, j, z);
    k := LeastNumber(between, z1);
    hide Connected;
    forall x: nat, y: nat, z: nat | Connected(ns, x, y, z) ensures !Earlier((x, y, z), (i, j, k)) {
      assert left(x);
      if x == i {
        assert right(y);
        if y == j {
          assert between(z);
        }
      }
    }
  }

  // ---- the one that survives ----

  ghost predicate MapSurvives(packets: seq<Packet>, focus: Option<Focus>, f: Finding) {
    Survives(packets, focus, f) && f.rule == RULE
  }

  lemma FirstGives(packets: seq<Packet>, focus: Option<Focus>, i: nat, j: nat, k: nat)
    requires FirstConnected(FlatMap(NormalizedOf, packets), i, j, k)
    ensures var ns := FlatMap(NormalizedOf, packets);
      First(AllFindings(packets, focus), MapKey()) == Some(MapEdgeFinding(ns[i], ns[j], ns[k]))
  {
    var ns := FlatMap(NormalizedOf, packets);
    assert i < j < |ns| && k < |ns|;
    hide MapKey, First, FlatMap, PairsFrom, AllFindings, FirstConnected, MapEdgeFinding;
    OnlyPairsGive(packets, focus);
    assert ns[0..] == ns;
    PairsGive(ns, 0, i, j, k);
  }

  lemma PairIsOtherOrMap(ns: seq<Normalized>, left: Normalized, right: Normalized, f: Finding)
    requires f in PairFindings(ns, left, right)
    ensures OtherRule(f) || Key(f) == MapKey()
  {
    hide Key, MapKey, FlatMap, SharedFile, SharedSymbol, SharedTest, EdgeConnects, MapEdgeFinding, OtherRule;
    SharedIsOther(ns, left, right);
    FlatMapMembers(MapRule(left, right), ns);
    forall map_ | map_ in ns && IsRepoMap(map_) ensures Key(MapEdgeFinding(left, right, map_)) == MapKey() {
      MapFindingsShareKey(left, right, map_);
    }
  }

  lemma {:induction false} PairsAreOtherOrMap(ns: seq<Normalized>, tail: seq<Normalized>, f: Finding)
    requires f in PairsFrom(ns, tail)
    ensures OtherRule(f) || Key(f) == MapKey()
  {
    hide Key, MapKey, FlatMap, PairFindings, OtherRule;
    FlatMapMembers(WithEach(ns, tail[0]), tail[1..]);
    if f in PairsFrom(ns, tail[1..]) {
      PairsAreOtherOrMap(ns, tail[1..], f);
    } else {
      var right :| right in tail[1..] && f in PairFindings(ns, tail[0], right);
      PairIsOtherOrMap(ns, tail[0], right, f);
    }
  }

  lemma MapRuleMapKey(packets: seq<Packet>, focus: Option<Focus>, f: Finding)
    requires MapSurvives(packets, focus, f)
    ensures Key(f) == MapKey()
  {
    assert !OtherRule(f);
    hide Key, MapKey, First, FlatMap, PairsFrom, AllDiffFindings, FocusFindings, OtherRule;
    var ns := FlatMap(NormalizedOf, packets);
    FirstIsMember(AllFindings(packets, focus), Key(f));
    DiffFindingsAreOther(packets);
    FocusFindingsAreOther(ns, focus);
    if f in PairsFrom(ns, ns) {
      PairsAreOtherOrMap(ns, ns, f);
    }
  }

  lemma FirstSurvives(packets: seq<Packet>, focus: Option<Focus>, i: nat, j: nat, k: nat)
    requires FirstConnected(FlatMap(NormalizedOf, packets), i, j, k)
    ensures var ns := FlatMap(NormalizedOf, packets);
      i < j < |ns| && k < |ns| && MapSurvives(packets, focus, MapEdgeFinding(ns[i], ns[j], ns[k]))
  {
    var ns := FlatMap(NormalizedOf, packets);
    assert i < j < |ns| && k < |ns|;
    JoinsExactly(ns[k], ns[i], ns[j]);
    hide FirstConnected, Key, MapKey, First, AllFindings;
    FirstGives(packets, focus, i, j, k);
    MapFindingsShareKey(ns[i], ns[j], ns[k]);
  }

  /** The one finding of the rule that survives is about the first pair of packets that a map connects. */
  lemma MapEdgeSurvivorExactly(packets: seq<Packet>, focus: Option<Focus>, f: Finding)
    ensures var ns := FlatMap(NormalizedOf, packets);
      MapSurvives(packets, focus, f) <==>
      exists i: nat, j: nat, k: nat :: FirstConnected(ns, i, j, k) && f == MapEdgeFinding(ns[i], ns[j], ns[k])
  {
    hide Key, MapKey, First, FlatMap, AllFindings, MapEdgeFinding, Joins, MapSurvives;
    var ns := FlatMap(NormalizedOf, packets);
    if MapSurvives(packets, focus, f) {
      SurvivorIsFirst(packets, focus, f);
      SurvivorIsConnected(packets, focus, f);
    }
    if i: nat, j: nat, k: nat :| FirstConnected(ns, i, j, k) && f == MapEdgeFinding(ns[i], ns[j], ns[k]) {
      FirstSurvives(packets, focus, i, j, k);
    }
  }

  lemma SurvivorIsConnected(packets: seq<Packet>, focus: Option<Focus>, f: Finding)
    requires First(AllFindings(packets, focus), MapKey()) == Some(f)
    ensures var ns := FlatMap(NormalizedOf, packets);
      exists i: nat, j: nat, k: nat :: FirstConnected(ns, i, j, k) && f == MapEdgeFinding(ns[i], ns[j], ns[k])
  {
    hide MapKey, First, FlatMap, PairsFrom, AllFindings, Connected, MapEdgeFinding;
    var ns := FlatMap(NormalizedOf, packets);
    if a: nat, b: nat, c: nat :| Connected(ns, a, b, c) {
      var i, j, k := SomeFirst(ns, a, b, c);
      FirstGives(packets, focus, i, j, k);
    } else {
      OnlyPairsGive(packets, focus);
      assert ns[0..] == ns;
      PairsGiveNone(ns, 0);
    }
  }

  /** However many pairs of packets the maps connect, one finding tells of it, if any does. */
  lemma OneMapEdgeSurvives(packets: seq<Packet>, focus: Option<Focus>)
    ensures forall f, g :: MapSurvives(packets, focus, f) && MapSurvives(packets, focus, g) ==> f == g
    ensures (exists f :: MapSurvives(packets, focus, f)) <==>
      exists i: nat, j: nat, k: nat :: Connected(FlatMap(NormalizedOf, packets), i, j, k)
  {
    hide MapKey, First, FlatMap, AllFindings, Connected, MapSurvives, MapEdgeFinding;
    var ns := FlatMap(NormalizedOf, packets);
    forall f, g | MapSurvives(packets, focus, f) && MapSurvives(packets, focus, g) ensures f == g {
      SurvivorIsFirst(packets, focus, f);
      SurvivorIsFirst(packets, focus, g);
    }
    if f :| MapSurvives(packets, focus, f) {
      MapEdgeSurvivorExactly(packets, focus, f);
    }
    if a: nat, b: nat, c: nat :| Connected(ns, a, b, c) {
      var i, j, k := SomeFirst(ns, a, b, c);
      FirstSurvives(packets, focus, i, j, k);
    }
  }

  lemma SurvivorIsFirst(packets: seq<Packet>, focus: Option<Focus>, f: Finding)
    requires MapSurvives(packets, focus, f)
    ensures First(AllFindings(packets, focus), MapKey()) == Some(f)
  {
    hide First, Key, MapKey;
    MapRuleMapKey(packets, focus, f);
  }

  // ---- and the order of the packets decides which ----

  const MAP_OF_EDGE := Packet(None, Map([Some("x"), Some("y")], [(0, 1)]),
    Some(Normalized(None, "mapy", "repo_map", {"x", "y"}, {"x", "y"}, {}, {}, [("x", "y")])))

  const DIFF_OF_END := Packet(None, Diff({}, {"y"}),
    Some(Normalized(None, "diffy", "diff_analyze", {"y"}, {"y"}, {}, {}, [])))

  function Says(left: string, right: string): string {
    "Repo map connects " + left + " and " + right
  }

  /** Two packets that are connected give one summary in one order and another in the other. */
  lemma PacketOrderPicksTheSummary()
    ensures exists f :: MapSurvives([MAP_OF_EDGE, DIFF_OF_END], None, f) && f.summary == Says(MAP_REPO, DIFF_ANALYZE)
    ensures exists f :: MapSurvives([DIFF_OF_END, MAP_OF_EDGE], None, f) && f.summary == Says(DIFF_ANALYZE, MAP_REPO)
    ensures Says(MAP_REPO, DIFF_ANALYZE) != Says(DIFF_ANALYZE, MAP_REPO)
  {
    hide MapSurvives, Joins, FlatMap;
    var m, d := MAP_OF_EDGE.normalized.value, DIFF_OF_END.normalized.value;
    TwoPackets(MAP_OF_EDGE, DIFF_OF_END);
    TwoPackets(DIFF_OF_END, MAP_OF_EDGE);
    EdgeIsThere(m, d);
    SummariesDiffer();
    hide Says;
    MapThenEnd(m, d);
    EndThenMap(m, d);
    FirstSurvives([MAP_OF_EDGE, DIFF_OF_END], None, 0, 1, 0);
    FirstSurvives([DIFF_OF_END, MAP_OF_EDGE], None, 0, 1, 1);
  }

  lemma SummariesDiffer()
    ensures Says(MAP_REPO, DIFF_ANALYZE) != Says(DIFF_ANALYZE, MAP_REPO)
  {
    var start := "Repo map connects ";
    assert |start| == 18 && MAP_REPO[6] == 'm' && DIFF_ANALYZE[6] == 'd';
    assert Says(MAP_REPO, DIFF_ANALYZE)[24] == 'm' && Says(DIFF_ANALYZE, MAP_REPO)[24] == 'd';
  }

  lemma EdgeIsThere(m: Normalized, d: Normalized)
    requires m == MAP_OF_EDGE.normalized.value && d == DIFF_OF_END.normalized.value
    ensures Joins(m, m, d) && Joins(m, d, m)
  {
    assert ("x", "y") in m.mapEdges;
  }

  lemma MapThenEnd(m: Normalized, d: Normalized)
    requires m == MAP_OF_EDGE.normalized.value && Joins(m, m, d)
    ensures FirstConnected([m, d], 0, 1, 0)
  {
    hide Joins;
  }

  lemma EndThenMap(m: Normalized, d: Normalized)
    requires m == MAP_OF_EDGE.normalized.value && d == DIFF_OF_END.normalized.value && Joins(m, d, m)
    ensures FirstConnected([d, m], 0, 1, 1)
  {
    assert !Joins(d, d, m);
    hide Joins;
  }

  lemma TwoPackets(a: Packet, b: Packet)
    requires a.normalized.Some? && b.normalized.Some?
    ensures FlatMap(NormalizedOf, [a, b]) == [a.normalized.value, b.normalized.value]
  {
    assert [a, b][1..] == [b] && [b][1..] == [];
    assert FlatMap(NormalizedOf, [b]) == NormalizedOf(b) + FlatMap(NormalizedOf, []);
  }
}
