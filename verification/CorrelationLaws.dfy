/** The findings that survive deduplication do not depend on the order of the packets. */
module CorrelationLaws {
  import opened Order
  import opened Sequences
  import opened Sorting
  import opened Wrappers
  import opened CorrelationRules

  // ---- keys ----

  lemma KeysConcat(a: seq<Finding>, b: seq<Finding>)
    ensures Keys(a + b) == Keys(a) + Keys(b)
  {
    hide Key;
    assert forall f :: f in a + b <==> f in a || f in b;
  }

  lemma KeysPermuted(a: seq<Finding>, b: seq<Finding>)
    requires multiset(a) == multiset(b)
    ensures Keys(a) == Keys(b)
  {
    hide Key;
    PermutedMembers(a, b);
  }

  lemma TextsPermuted(a: seq<Evidence>, b: seq<Evidence>)
    ensures multiset(Texts(a + b)) == multiset(Texts(b + a))
  {
    hide EvidenceText;
    assert Texts(a + b) == Texts(a) + Texts(b);
    assert Texts(b + a) == Texts(b) + Texts(a);
  }

  /** The key does not tell which packet's evidence comes first. */
  lemma KeyIgnoresSides(rule: string, relation: string, s1: string, s2: string, a: seq<Evidence>, b: seq<Evidence>)
    ensures Key(Finding(rule, relation, s1, a + b)) == Key(Finding(rule, relation, s2, b + a))
  {
    TextsPermuted(a, b);
    hide Texts, StrLe;
    StrLeIsTotalPreorder();
    forall x, y | x in Texts(a + b) && y in Texts(a + b) && StrLe(x, y) && StrLe(y, x) ensures x == y {
      StrLeAntisymmetric(x, y);
    }
    SortCanonical(StrLe, Texts(a + b), Texts(b + a));
  }

  // ---- two packets in either order ----

  lemma SharedIsSymmetric(rule: string, kind: string, summary: string, left: Normalized, right: Normalized,
      values: set<string>)
    ensures Keys(Shared(rule, kind, summary, left, right, values)) ==
      Keys(Shared(rule, kind, summary, right, left, values))
  {
    hide Key, Listed, NormalizedRefs, Commas;
    if values != {} {
      KeyIgnoresSides(rule, "related", summary + Commas(values), summary + Commas(values),
        NormalizedRefs(left, kind, Listed(values)), NormalizedRefs(right, kind, Listed(values)));
    }
  }

  lemma SharedFileIsSymmetric(ns: seq<Normalized>, left: Normalized, right: Normalized)
    ensures Keys(SharedFile(ns, left, right)) == Keys(SharedFile(ns, right, left))
  {
    hide Key, Shared, WithCount;
    assert left.files * right.files == right.files * left.files;
    assert left.basenames * right.basenames == right.basenames * left.basenames;
    SharedIsSymmetric("shared_file", "file", "Packets share files: ", left, right, left.files * right.files);
    SharedIsSymmetric("shared_file", "file_basename", "Packets share unique file basenames: ", left, right,
      WithCount(ns, left.basenames * right.basenames, 2));
  }

  lemma {:induction false} MapRuleIsSymmetric(ns: seq<Normalized>, left: Normalized, right: Normalized)
    ensures Keys(FlatMap(MapRule(left, right), ns)) == Keys(FlatMap(MapRule(right, left), ns))
  {
    if ns != [] {
      MapRuleIsSymmetric(ns[1..], left, right);
      MapEdgeIsSymmetric(left, right, ns[0]);
      hide Keys, MapEdgeConnects;
      KeysConcat(MapRule(left, right)(ns[0]), FlatMap(MapRule(left, right), ns[1..]));
      KeysConcat(MapRule(right, left)(ns[0]), FlatMap(MapRule(right, left), ns[1..]));
    }
  }

  lemma MapEdgeIsSymmetric(left: Normalized, right: Normalized, m: Normalized)
    ensures Keys(MapEdgeConnects(left, right, m)) == Keys(MapEdgeConnects(right, left, m))
  {
    assert EdgeConnects(m, left, right) == EdgeConnects(m, right, left);
    hide EdgeConnects, Keys, Sort;
    if IsRepoMap(m) && EdgeConnects(m, left, right) {
      SameKey(MapEdgeConnects(left, right, m)[0], MapEdgeConnects(right, left, m)[0]);
    }
  }

  lemma SameKey(a: Finding, b: Finding)
    requires a.rule == b.rule && a.relation == b.relation && a.evidence == b.evidence
    ensures Keys([a]) == Keys([b])
  {
    hide Sort, Texts, Join;
    assert Key(a) == Key(b);
    assert forall f :: f in [a] <==> f == a;
    assert forall f :: f in [b] <==> f == b;
  }

  ghost function PairKeys(ns: seq<Normalized>, left: Normalized, right: Normalized): set<string> {
    Keys(PairFindings(ns, left, right))
  }

  lemma PairKeysSplit(ns: seq<Normalized>, left: Normalized, right: Normalized)
    ensures PairKeys(ns, left, right)
      == Keys(SharedFile(ns, left, right)) + Keys(SharedSymbol(left, right))
        + Keys(SharedTest(left, right)) + Keys(FlatMap(MapRule(left, right), ns))
  {
    hide Keys, SharedFile, SharedSymbol, SharedTest, MapRule, FlatMap;
    KeysConcat(SharedFile(ns, left, right), SharedSymbol(left, right));
    KeysConcat(SharedFile(ns, left, right) + SharedSymbol(left, right), SharedTest(left, right));
    KeysConcat(SharedFile(ns, left, right) + SharedSymbol(left, right) + SharedTest(left, right),
      FlatMap(MapRule(left, right), ns));
  }

  /** Every rule about two packets finds the same, whichever of them comes first. */
  lemma PairKeysAreSymmetric(ns: seq<Normalized>, left: Normalized, right: Normalized)
    ensures PairKeys(ns, left, right) == PairKeys(ns, right, left)
  {
    hide Keys, PairKeys, SharedFile, Shared, FlatMap, MapRule;
    PairKeysSplit(ns, left, right);
    PairKeysSplit(ns, right, left);
    SharedFileIsSymmetric(ns, left, right);
    assert left.symbols * right.symbols == right.symbols * left.symbols;
    assert left.tests * right.tests == right.tests * left.tests;
    SharedIsSymmetric("shared_symbol", "symbol", "Packets share symbols: ", left, right, left.symbols * right.symbols);
    SharedIsSymmetric("shared_test", "test", "Packets share tests: ", left, right, left.tests * right.tests);
    MapRuleIsSymmetric(ns, left, right);
  }

  // ---- the other packets in any order ----

  lemma CountsPermuted(ns: seq<Normalized>, ms: seq<Normalized>, basenames: set<string>, count: nat)
    requires multiset(ns) == multiset(ms)
    ensures WithCount(ns, basenames, count) == WithCount(ms, basenames, count)
  {
    forall b | b in basenames ensures BasenameCount(ns, b) == BasenameCount(ms, b) {
      WeighPermuted((n: Normalized) => if b in n.basenames then 1 else 0, ns, ms);
    }
    hide BasenameCount;
  }

  lemma PairKeysPermuted(ns: seq<Normalized>, ms: seq<Normalized>, left: Normalized, right: Normalized)
    requires multiset(ns) == multiset(ms)
    ensures PairKeys(ns, left, right) == PairKeys(ms, left, right)
  {
    hide Keys, PairKeys, WithCount, Shared, FlatMap, MapRule, SharedSymbol, SharedTest;
    PairKeysSplit(ns, left, right);
    PairKeysSplit(ms, left, right);
    CountsPermuted(ns, ms, left.basenames * right.basenames, 2);
    FlatMapPermuted(MapRule(left, right), ns, ms);
    KeysPermuted(FlatMap(MapRule(left, right), ns), FlatMap(MapRule(left, right), ms));
  }

  // ---- all pairs ----

  /** Two different positions hold packets that give this key. */
  ghost predicate SomePair(ns: seq<Normalized>, tail: seq<Normalized>, key: string) {
    exists i, j :: 0 <= i < j < |tail| && key in PairKeys(ns, tail[i], tail[j])
  }

  lemma {:induction false} WithEachKeys(ns: seq<Normalized>, left: Normalized, rest: seq<Normalized>, key: string)
    ensures key in Keys(FlatMap(WithEach(ns, left), rest)) <==>
      exists j :: 0 <= j < |rest| && key in PairKeys(ns, left, rest[j])
  {
    hide Keys, PairFindings;
    if rest == [] {
      assert Keys([]) == {} by {
        NoKeys();
      }
    } else {
      WithEachKeys(ns, left, rest[1..], key);
      KeysConcat(WithEach(ns, left)(rest[0]), FlatMap(WithEach(ns, left), rest[1..]));
      assert Keys(WithEach(ns, left)(rest[0])) == PairKeys(ns, left, rest[0]);
      hide PairKeys;
      assert forall j :: 0 <= j < |rest| - 1 ==> rest[1..][j] == rest[j + 1];
      assert forall j :: 0 < j < |rest| ==> rest[j] == rest[1..][j - 1];
    }
  }

  lemma NoKeys()
    ensures Keys([]) == {}
  {
  }

  lemma SomePairCons(ns: seq<Normalized>, tail: seq<Normalized>, key: string)
    requires tail != []
    ensures SomePair(ns, tail, key) <==>
      SomePair(ns, tail[1..], key) || exists j :: 0 <= j < |tail| - 1 && key in PairKeys(ns, tail[0], tail[1..][j])
  {
    hide PairKeys;
    if SomePair(ns, tail[1..], key) {
      var i, j :| 0 <= i < j < |tail| - 1 && key in PairKeys(ns, tail[1..][i], tail[1..][j]);
      assert tail[i + 1] == tail[1..][i] && tail[j + 1] == tail[1..][j];
    }
    if j :| 0 <= j < |tail| - 1 && key in PairKeys(ns, tail[0], tail[1..][j]) {
      assert tail[j + 1] == tail[1..][j];
    }
    if SomePair(ns, tail, key) {
      var i, j :| 0 <= i < j < |tail| && key in PairKeys(ns, tail[i], tail[j]);
      assert tail[j] == tail[1..][j - 1];
      assert i > 0 ==> tail[i] == tail[1..][i - 1];
    }
  }

  lemma {:induction false} PairsFromKeys(ns: seq<Normalized>, tail: seq<Normalized>, key: string)
    ensures key in Keys(PairsFrom(ns, tail)) <==> SomePair(ns, tail, key)
  {
    hide Keys, WithEach;
    if tail == [] {
      NoKeys();
    } else {
      hide PairKeys;
      PairsFromKeys(ns, tail[1..], key);
      KeysConcat(FlatMap(WithEach(ns, tail[0]), tail[1..]), PairsFrom(ns, tail[1..]));
      WithEachKeys(ns, tail[0], tail[1..], key);
      SomePairCons(ns, tail, key);
    }
  }

  lemma TwoPositions<T>(a: seq<T>, i: nat, j: nat)
    requires i < j < |a|
    ensures multiset{a[i], a[j]} <= multiset(a)
  {
    assert a == a[..i] + [a[i]] + a[i + 1..j] + [a[j]] + a[j + 1..];
  }

  lemma Without<T>(b: seq<T>, p: nat, y: T) returns (q: nat)
    requires p < |b| && multiset{b[p], y} <= multiset(b)
    ensures q < |b| && q != p && b[q] == y
  {
    RemoveAt(b, p);
    var rest := b[..p] + b[p + 1..];
    assert multiset{b[p], y}[y] == multiset{b[p]}[y] + 1;
    assert multiset(rest)[y] == multiset(b)[y] - multiset{b[p]}[y] >= 1;
    assert y in rest;
    var r :| 0 <= r < |rest| && rest[r] == y;
    q := if r < p then r else r + 1;
  }

  lemma FindTwo<T>(b: seq<T>, x: T, y: T) returns (i: nat, j: nat)
    requires multiset{x, y} <= multiset(b)
    ensures i < j < |b| && ((b[i] == x && b[j] == y) || (b[i] == y && b[j] == x))
  {
    assert multiset{x, y}[x] >= 1;
    assert x in b;
    var p :| 0 <= p < |b| && b[p] == x;
    var q := Without(b, p, y);
    i, j := if q < p then q else p, if q < p then p else q;
  }

  lemma SomePairPermuted(ns: seq<Normalized>, ms: seq<Normalized>, key: string)
    requires multiset(ns) == multiset(ms) && SomePair(ns, ns, key)
    ensures SomePair(ms, ms, key)
  {
    hide PairKeys;
    var i, j :| 0 <= i < j < |ns| && key in PairKeys(ns, ns[i], ns[j]);
    TwoPositions(ns, i, j);
    var p, q := FindTwo(ms, ns[i], ns[j]);
    PairKeysPermuted(ns, ms, ns[i], ns[j]);
    PairKeysAreSymmetric(ms, ns[i], ns[j]);
  }

  lemma PairsPermuted(ns: seq<Normalized>, ms: seq<Normalized>)
    requires multiset(ns) == multiset(ms)
    ensures Keys(PairsFrom(ns, ns)) == Keys(PairsFrom(ms, ms))
  {
    hide Keys, PairsFrom, SomePair;
    forall key ensures key in Keys(PairsFrom(ns, ns)) <==> key in Keys(PairsFrom(ms, ms)) {
      PairsFromKeys(ns, ns, key);
      PairsFromKeys(ms, ms, key);
      if SomePair(ns, ns, key) {
        SomePairPermuted(ns, ms, key);
      }
      if SomePair(ms, ms, key) {
        SomePairPermuted(ms, ns, key);
      }
    }
  }

  // ---- the rules about a diff, and about the checkpoint ----

  lemma StackRulePermuted(diff: Packet, maps: seq<Packet>, others: seq<Packet>, p: Packet)
    requires multiset(maps) == multiset(others)
    ensures StackRule(diff, maps)(p) == StackRule(diff, others)(p)
  {
    PermutedMembers(maps, others);
    if diff.typed.Diff? && p.typed.Stack? {
      var changed, files := ChangedFiles(diff), p.typed.files;
      assert AnyMapConnects(maps, changed, files) == AnyMapConnects(others, changed, files);
      hide AnyMapConnects, ChangedFiles, Commas, Refs, Listed;
      assert (maps != []) == (others != []);
    }
  }

  datatype Inputs = Inputs(stacks: seq<Packet>, impacts: seq<Packet>, builds: seq<Packet>, maps: seq<Packet>)

  ghost predicate SameInputs(a: Inputs, b: Inputs) {
    && multiset(a.stacks) == multiset(b.stacks) && multiset(a.impacts) == multiset(b.impacts)
    && multiset(a.builds) == multiset(b.builds) && multiset(a.maps) == multiset(b.maps)
  }

  lemma DiffFindingsPermuted(diff: Packet, a: Inputs, b: Inputs)
    requires SameInputs(a, b)
    ensures multiset(DiffFindings(diff, a.stacks, a.impacts, a.builds, a.maps)) ==
      multiset(DiffFindings(diff, b.stacks, b.impacts, b.builds, b.maps))
  {
    hide FlatMap, StackRule, ImpactRule, BuildRule, ChangedFiles;
    forall p ensures StackRule(diff, a.maps)(p) == StackRule(diff, b.maps)(p) {
      StackRulePermuted(diff, a.maps, b.maps, p);
    }
    FlatMapCongruent(StackRule(diff, a.maps), StackRule(diff, b.maps), a.stacks);
    FlatMapPermuted(StackRule(diff, b.maps), a.stacks, b.stacks);
    FlatMapPermuted(ImpactRule(diff), a.impacts, b.impacts);
    FlatMapPermuted(BuildRule(diff), a.builds, b.builds);
  }

  lemma {:induction false} SameFromEach(f: Packet -> seq<Finding>, g: Packet -> seq<Finding>, s: seq<Packet>)
    requires forall p :: multiset(f(p)) == multiset(g(p))
    ensures multiset(FlatMap(f, s)) == multiset(FlatMap(g, s))
  {
    if s != [] {
      SameFromEach(f, g, s[1..]);
    }
  }

  lemma AllDiffFindingsPermuted(packets: seq<Packet>, others: seq<Packet>)
    requires multiset(packets) == multiset(others)
    ensures multiset(AllDiffFindings(packets)) == multiset(AllDiffFindings(others))
  {
    hide FlatMap, DiffFindings, Filter;
    FilterPermuted((p: Packet) => p.typed.Stack?, packets, others);
    FilterPermuted((p: Packet) => p.typed.Impact?, packets, others);
    FilterPermuted((p: Packet) => p.typed.Build?, packets, others);
    FilterPermuted((p: Packet) => p.typed.Map?, packets, others);
    FilterPermuted((p: Packet) => p.typed.Diff?, packets, others);
    var a := Inputs(Filter((p: Packet) => p.typed.Stack?, packets), Filter((p: Packet) => p.typed.Impact?, packets),
      Filter((p: Packet) => p.typed.Build?, packets), Filter((p: Packet) => p.typed.Map?, packets));
    var b := Inputs(Filter((p: Packet) => p.typed.Stack?, others), Filter((p: Packet) => p.typed.Impact?, others),
      Filter((p: Packet) => p.typed.Build?, others), Filter((p: Packet) => p.typed.Map?, others));
    var f, g := DiffRule(a.stacks, a.impacts, a.builds, a.maps), DiffRule(b.stacks, b.impacts, b.builds, b.maps);
    forall p ensures multiset(f(p)) == multiset(g(p)) {
      DiffFindingsPermuted(p, a, b);
    }
    SameFromEach(f, g, Filter((p: Packet) => p.typed.Diff?, packets));
    FlatMapPermuted(g, Filter((p: Packet) => p.typed.Diff?, packets), Filter((p: Packet) => p.typed.Diff?, others));
  }

  lemma FocusFindingsPermuted(ns: seq<Normalized>, ms: seq<Normalized>, focus: Option<Focus>)
    requires multiset(ns) == multiset(ms)
    ensures multiset(FocusFindings(ns, focus)) == multiset(FocusFindings(ms, focus))
  {
    hide WithCount, FlatMap, Listed, NormalizedRefs;
    if focus.Some? {
      forall p ensures FocusRule(ns, focus.value)(p) == FocusRule(ms, focus.value)(p) {
        CountsPermuted(ns, ms, p.basenames * focus.value.basenames, 1);
      }
      FlatMapCongruent(FocusRule(ns, focus.value), FocusRule(ms, focus.value), ns);
      FlatMapPermuted(FocusRule(ms, focus.value), ns, ms);
    }
  }

  /** Whatever the order of the packets, the findings have the same keys. */
  lemma FindingsIgnorePacketOrder(packets: seq<Packet>, others: seq<Packet>, focus: Option<Focus>)
    requires multiset(packets) == multiset(others)
    ensures Keys(AllFindings(packets, focus)) == Keys(AllFindings(others, focus))
  {
    hide Keys, AllDiffFindings, PairsFrom, FocusFindings, FlatMap;
    var ns, ms := FlatMap(NormalizedOf, packets), FlatMap(NormalizedOf, others);
    FlatMapPermuted(NormalizedOf, packets, others);
    AllDiffFindingsPermuted(packets, others);
    KeysPermuted(AllDiffFindings(packets), AllDiffFindings(others));
    PairsPermuted(ns, ms);
    FocusFindingsPermuted(ns, ms, focus);
    KeysPermuted(FocusFindings(ns, focus), FocusFindings(ms, focus));
    KeysConcat(AllDiffFindings(packets), PairsFrom(ns, ns));
    KeysConcat(AllDiffFindings(packets) + PairsFrom(ns, ns), FocusFindings(ns, focus));
    KeysConcat(AllDiffFindings(others), PairsFrom(ms, ms));
    KeysConcat(AllDiffFindings(others) + PairsFrom(ms, ms), FocusFindings(ms, focus));
  }

  // ---- what the rules find ----

  predicate Has(n: Normalized, basename: string) {
    basename in n.basenames
  }

  lemma {:induction false} CountZero(ns: seq<Normalized>, b: string)
    ensures BasenameCount(ns, b) == 0 <==> forall n :: n in ns ==> !Has(n, b)
  {
    if ns != [] {
      assert ns == [ns[0]] + ns[1..];
      CountZero(ns[1..], b);
      CountConcat([ns[0]], ns[1..], b);
      CountSingle(ns[0], b);
    }
  }

  lemma CountConcat(a: seq<Normalized>, c: seq<Normalized>, b: string)
    ensures BasenameCount(a + c, b) == BasenameCount(a, b) + BasenameCount(c, b)
  {
    WeighAppend((n: Normalized) => if b in n.basenames then 1 else 0, a, c);
  }

  lemma CountSingle(n: Normalized, b: string)
    ensures BasenameCount([n], b) == if Has(n, b) then 1 else 0
  {
    var w := (m: Normalized) => if b in m.basenames then 1 else 0;
    assert Weigh(w, [n]) == w(n) + Weigh(w, []);
  }

  /** No packet at another position has the basename. */
  ghost predicate OnlyAt(ns: seq<Normalized>, b: string, positions: set<nat>) {
    forall k: nat :: k < |ns| && k !in positions ==> !Has(ns[k], b)
  }

  /** A basename is counted once if and only if no other packet has it. */
  lemma CountedOnce(ns: seq<Normalized>, i: nat, b: string)
    requires i < |ns| && Has(ns[i], b)
    ensures BasenameCount(ns, b) >= 1
    ensures BasenameCount(ns, b) == 1 <==> OnlyAt(ns, b, {i})
  {
    hide BasenameCount, Has;
    var before, after := ns[..i], ns[i + 1..];
    assert ns == before + ([ns[i]] + after);
    CountConcat(before, [ns[i]] + after, b);
    CountConcat([ns[i]], after, b);
    CountSingle(ns[i], b);
    CountZero(before, b);
    CountZero(after, b);
    assert forall k :: 0 <= k < i ==> ns[k] in before;
    assert forall k :: i < k < |ns| ==> ns[k] == after[k - i - 1];
    assert forall k :: 0 <= k < |after| ==> after[k] == ns[i + 1 + k];
  }

  lemma OnlyAtSplits(ns: seq<Normalized>, i: nat, j: nat, b: string)
    requires i < j < |ns|
    ensures OnlyAt(ns, b, {i, j}) <==> OnlyAt(ns[..i + 1], b, {i}) && OnlyAt(ns[i + 1..], b, {j - i - 1})
  {
    hide Has;
    var before, after := ns[..i + 1], ns[i + 1..];
    if OnlyAt(before, b, {i}) && OnlyAt(after, b, {j - i - 1}) {
      forall k: nat | k < |ns| && k !in {i, j} ensures !Has(ns[k], b) {
        if k <= i {
          assert before[k] == ns[k];
        } else {
          assert after[k - i - 1] == ns[k];
        }
      }
    }
    if OnlyAt(ns, b, {i, j}) {
      forall k: nat | k < |before| && k !in {i} ensures !Has(before[k], b) {
        assert before[k] == ns[k];
      }
      forall k: nat | k < |after| && k !in {j - i - 1} ensures !Has(after[k], b) {
        assert after[k] == ns[i + 1 + k];
      }
    }
  }

  /** A basename two packets share is counted twice if and only if no third packet has it. */
  lemma CountedTwice(ns: seq<Normalized>, i: nat, j: nat, b: string)
    requires i < j < |ns| && Has(ns[i], b) && Has(ns[j], b)
    ensures BasenameCount(ns, b) == 2 <==> OnlyAt(ns, b, {i, j})
  {
    hide BasenameCount, OnlyAt, Has;
    var before, after := ns[..i + 1], ns[i + 1..];
    assert ns == before + after && before[i] == ns[i] && after[j - i - 1] == ns[j];
    CountConcat(before, after, b);
    CountedOnce(before, i, b);
    CountedOnce(after, j - i - 1, b);
    OnlyAtSplits(ns, i, j, b);
  }

  /**
   * Two packets are found to share a file exactly when they do, or have a basename in common that no third packet has.
   */
  lemma SharedFileExactly(ns: seq<Normalized>, i: nat, j: nat)
    requires i < j < |ns|
    ensures SharedFile(ns, ns[i], ns[j]) != [] <==>
      || (exists f :: f in ns[i].files && f in ns[j].files)
      || exists b :: Has(ns[i], b) && Has(ns[j], b) && OnlyAt(ns, b, {i, j})
  {
    hide BasenameCount, Listed, Commas, NormalizedRefs, OnlyAt;
    var shared := WithCount(ns, ns[i].basenames * ns[j].basenames, 2);
    forall b | Has(ns[i], b) && Has(ns[j], b)
      ensures b in shared <==> OnlyAt(ns, b, {i, j})
    {
      CountedTwice(ns, i, j, b);
    }
    Meets(ns[i].files, ns[j].files);
    if shared != {} {
      var b :| b in shared;
      assert Has(ns[i], b) && Has(ns[j], b);
    }
  }

  /**
   * A packet is found to overlap the checkpoint exactly when it has a changed path, a changed symbol, or alone the
   * basename of a changed path.
   */
  lemma FocusOverlapExactly(ns: seq<Normalized>, focus: Focus, i: nat)
    requires i < |ns|
    ensures TaskFocusOverlap(ns, focus, ns[i]) != [] <==>
      || (exists f :: f in ns[i].files && f in focus.paths)
      || (exists x :: x in ns[i].symbols && x in focus.symbols)
      || exists b :: Has(ns[i], b) && b in focus.basenames && OnlyAt(ns, b, {i})
  {
    hide BasenameCount, Listed, NormalizedRefs, OnlyAt;
    var alone := WithCount(ns, ns[i].basenames * focus.basenames, 1);
    forall b | Has(ns[i], b) && b in focus.basenames
      ensures b in alone <==> OnlyAt(ns, b, {i})
    {
      CountedOnce(ns, i, b);
    }
    Meets(ns[i].files, focus.paths);
    Meets(ns[i].symbols, focus.symbols);
    if alone != {} {
      var b :| b in alone;
      assert Has(ns[i], b) && b in focus.basenames;
    }
  }

  lemma Meets(a: set<string>, b: set<string>)
    ensures a * b != {} <==> exists x :: x in a && x in b
  {
    if a * b != {} {
      var x :| x in a * b;
      assert x in a && x in b;
    }
    if x :| x in a && x in b {
      assert x in a * b;
    }
  }

  /**
   * A stack failure is related to a diff if they share a file, unrelated if they do not and the maps there are show no
   * edge between them.
   */
  lemma StackRelationExactly(diff: Packet, stack: Packet, maps: seq<Packet>)
    requires diff.typed.Diff? && stack.typed.Stack? && stack.typed.files != {}
    requires forall m :: m in maps ==> m.typed.Map?
    ensures |DiffVsStack(diff, stack, maps)| == 1
    ensures DiffVsStack(diff, stack, maps)[0].relation == "related" <==>
      exists f :: f in ChangedFiles(diff) && f in stack.typed.files
    ensures DiffVsStack(diff, stack, maps)[0].relation == "unrelated" <==>
      && (forall f :: f in ChangedFiles(diff) ==> f !in stack.typed.files)
      && maps != [] && forall m :: m in maps ==> !MapHasEdge(m, ChangedFiles(diff), stack.typed.files)
  {
    hide MapHasEdge, Commas, Listed, Refs, ChangedFiles;
    Meets(ChangedFiles(diff), stack.typed.files);
  }
}
