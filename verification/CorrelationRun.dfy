/** Running the correlation rules over the packets of a task and deduplicating what they find. */
module CorrelationRun {
  import opened Order
  import opened Sequences
  import opened Sorting
  import opened Wrappers
  import opened CorrelationRules

  // ---- deduplication ----

  predicate FindingLe(a: Finding, b: Finding) {
    if a.rule != b.rule then StrLe(a.rule, b.rule) else StrLe(a.summary, b.summary)
  }

  lemma FindingLeIsTotalPreorder()
    ensures TotalPreorder(FindingLe)
  {
    hide StrLe;
    StrLeIsTotalPreorder();
    forall a, b, c | FindingLe(a, b) && FindingLe(b, c) ensures FindingLe(a, c) {
      if StrLe(a.rule, b.rule) && StrLe(b.rule, a.rule) {
        StrLeAntisymmetric(a.rule, b.rule);
      }
      if StrLe(b.rule, c.rule) && StrLe(c.rule, b.rule) {
        StrLeAntisymmetric(b.rule, c.rule);
      }
    }
  }

  /** The first finding of a key, which is the one that is kept. */
  function First(findings: seq<Finding>, key: string): Option<Finding> {
    if findings == [] then None
    else if Key(findings[0]) == key then Some(findings[0])
    else First(findings[1..], key)
  }

  lemma {:induction false} FirstLast(findings: seq<Finding>, f: Finding, key: string)
    ensures First(findings + [f], key) == if First(findings, key).Some? then First(findings, key) else if Key(f) ==
      key then Some(f) else None
  {
    hide Key;
    if findings == [] {
      assert ([] + [f])[1..] == [] && ([] + [f])[0] == f;
    } else {
      assert (findings + [f])[1..] == findings[1..] + [f];
      FirstLast(findings[1..], f, key);
    }
  }

  lemma {:induction false} FirstIsMember(findings: seq<Finding>, key: string)
    ensures First(findings, key).Some? ==> First(findings, key).value in findings
  {
    hide Key;
    if findings != [] {
      FirstIsMember(findings[1..], key);
    }
  }

  lemma {:induction false} FirstOfKey(findings: seq<Finding>, key: string)
    ensures First(findings, key).Some? <==> key in Keys(findings)
    ensures First(findings, key).Some? ==> Key(First(findings, key).value) == key
  {
    hide Key;
    if findings != [] {
      assert findings == [findings[0]] + findings[1..];
      FirstOfKey(findings[1..], key);
    }
  }

  ghost predicate Indexed(findings: seq<Finding>, deduped: map<string, Finding>) {
    forall key :: First(findings, key) == if key in deduped then Some(deduped[key]) else None
  }

  /** `into_values`: the findings in whatever order the hash map yields them. */
  method IntoValues(deduped: map<string, Finding>) returns (values: seq<Finding>)
    requires forall key :: key in deduped ==> Key(deduped[key]) == key
    ensures forall i, j :: 0 <= i < j < |values| ==> Key(values[i]) != Key(values[j])
    ensures forall f :: f in values <==> Key(f) in deduped && deduped[Key(f)] == f
  {
    hide Key;
    values := [];
    var rest := deduped.Keys;
    while rest != {}
      invariant rest <= deduped.Keys
      invariant forall i, j :: 0 <= i < j < |values| ==> Key(values[i]) != Key(values[j])
      invariant forall f :: f in values <==> Key(f) in deduped.Keys - rest && deduped[Key(f)] == f
    {
      var key :| key in rest;
      values := values + [deduped[key]];
      rest := rest - {key};
    }
  }

  method DedupeFindings(findings: seq<Finding>) returns (values: seq<Finding>)
    ensures Keys(values) == Keys(findings)
    ensures forall i, j :: 0 <= i < |values| && 0 <= j < |values| && i != j ==> Key(values[i]) != Key(values[j])
    ensures forall f :: f in values ==> First(findings, Key(f)) == Some(f)
    ensures Sorted(FindingLe, values)
  {
    hide Key, FindingLe, Sort, Keys, First;
    var deduped: map<string, Finding> := map[];
    NothingIndexed();
    for i := 0 to |findings|
      invariant Indexed(findings[..i], deduped)
    {
      var key := Key(findings[i]);
      assert findings[..i + 1] == findings[..i] + [findings[i]];
      forall other
        ensures First(findings[..i + 1], other) ==
          if First(findings[..i], other).Some? then First(findings[..i], other)
          else if key == other then Some(findings[i]) else None
      {
        FirstLast(findings[..i], findings[i], other);
      }
      if key !in deduped {
        deduped := deduped[key := findings[i]];
      }
    }
    assert findings[..|findings|] == findings;
    IndexedKeys(findings, deduped);
    var listed := IntoValues(deduped);
    FindingLeIsTotalPreorder();
    SortSorts(FindingLe, listed);
    SortPermutes(FindingLe, listed);
    values := Sort(FindingLe, listed);
    DedupedIsRight(findings, deduped, listed, values);
  }

  lemma NothingIndexed()
    ensures Indexed([], map[])
  {
  }

  lemma IndexedKeys(findings: seq<Finding>, deduped: map<string, Finding>)
    requires Indexed(findings, deduped)
    ensures deduped.Keys == Keys(findings)
    ensures forall key :: key in deduped ==> Key(deduped[key]) == key
  {
    hide Key, Keys;
    forall key ensures key in deduped <==> key in Keys(findings) {
      FirstOfKey(findings, key);
    }
    forall key | key in deduped ensures Key(deduped[key]) == key {
      FirstOfKey(findings, key);
    }
  }

  lemma DedupedIsRight(findings: seq<Finding>, deduped: map<string, Finding>, listed: seq<Finding>,
      values: seq<Finding>)
    requires Indexed(findings, deduped)
    requires forall i, j :: 0 <= i < j < |listed| ==> Key(listed[i]) != Key(listed[j])
    requires forall f :: f in listed <==> Key(f) in deduped && deduped[Key(f)] == f
    requires multiset(values) == multiset(listed)
    ensures Keys(values) == Keys(findings)
    ensures forall i, j :: 0 <= i < |values| && 0 <= j < |values| && i != j ==> Key(values[i]) != Key(values[j])
    ensures forall f :: f in values ==> First(findings, Key(f)) == Some(f)
  {
    hide Key, First;
    PermutedMembers(values, listed);
    IndexedKeys(findings, deduped);
    forall key ensures key in Keys(values) <==> key in Keys(findings) {
      if key in deduped {
        assert deduped[key] in values;
      }
    }
    DistinctByPermutation(listed, values);
    assert forall i, j :: 0 <= i < |values| && 0 <= j < |values| && i != j ==> values[i] != values[j];
    forall i, j | 0 <= i < |values| && 0 <= j < |values| && i != j ensures Key(values[i]) != Key(values[j]) {
      assert values[i] in listed && values[j] in listed;
    }
  }

  // ---- the rules over all packets ----

  method CorrelateDiff(diff: Packet, stacks: seq<Packet>, impacts: seq<Packet>, builds: seq<Packet>, maps: seq<Packet>)
    returns (findings: seq<Finding>)
    requires diff.typed.Diff?
    requires forall p :: p in stacks ==> p.typed.Stack?
    requires forall p :: p in impacts ==> p.typed.Impact?
    requires forall p :: p in builds ==> p.typed.Build?
    ensures findings == DiffFindings(diff, stacks, impacts, builds, maps)
  {
    hide FlatMap, DiffVsStack, DiffVsImpact, DiffVsBuild, ChangedFiles;
    NoFindings(StackRule(diff, maps));
    NoFindings(ImpactRule(diff));
    NoFindings(BuildRule(diff));
    findings := [];
    if ChangedFiles(diff) == {} {
      return;
    }
    for i := 0 to |stacks|
      invariant findings == FlatMap(StackRule(diff, maps), stacks[..i])
    {
      FlatMapLast(StackRule(diff, maps), stacks[..i], stacks[i]);
      assert stacks[..i + 1] == stacks[..i] + [stacks[i]] && stacks[i] in stacks;
      findings := findings + DiffVsStack(diff, stacks[i], maps);
    }
    assert stacks[..|stacks|] == stacks;
    ghost var fromStacks := findings;
    ConcatEmpty(fromStacks);
    for i := 0 to |impacts|
      invariant findings == fromStacks + FlatMap(ImpactRule(diff), impacts[..i])
    {
      FlatMapLast(ImpactRule(diff), impacts[..i], impacts[i]);
      assert impacts[..i + 1] == impacts[..i] + [impacts[i]] && impacts[i] in impacts;
      ConcatAssociates(fromStacks, FlatMap(ImpactRule(diff), impacts[..i]), DiffVsImpact(diff, impacts[i]));
      findings := findings + DiffVsImpact(diff, impacts[i]);
    }
    assert impacts[..|impacts|] == impacts;
    ghost var fromImpacts := findings;
    ConcatEmpty(fromImpacts);
    for i := 0 to |builds|
      invariant findings == fromImpacts + FlatMap(BuildRule(diff), builds[..i])
    {
      FlatMapLast(BuildRule(diff), builds[..i], builds[i]);
      assert builds[..i + 1] == builds[..i] + [builds[i]] && builds[i] in builds;
      ConcatAssociates(fromImpacts, FlatMap(BuildRule(diff), builds[..i]), DiffVsBuild(diff, builds[i]));
      findings := findings + DiffVsBuild(diff, builds[i]);
    }
    assert builds[..|builds|] == builds;
  }

  lemma NoFindings<A>(f: A -> seq<Finding>)
    ensures FlatMap(f, []) == []
  {
  }

  function CountIn(counts: map<string, nat>, basename: string): nat {
    if basename in counts then counts[basename] else 0
  }

  /** Counts, over all packets, how many have a file of each basename. */
  method CountBasenames(ns: seq<Normalized>) returns (counts: map<string, nat>)
    ensures forall b :: BasenameCount(ns, b) == CountIn(counts, b)
  {
    hide BasenameCount;
    counts := map[];
    NoBasenames();
    for i := 0 to |ns|
      invariant forall b :: BasenameCount(ns[..i], b) == CountIn(counts, b)
    {
      assert ns[..i + 1] == ns[..i] + [ns[i]];
      var rest := ns[i].basenames;
      while rest != {}
        invariant rest <= ns[i].basenames
        invariant forall b ::
          BasenameCount(ns[..i], b) + (if b in ns[i].basenames - rest then 1 else 0) == CountIn(counts, b)
      {
        var basename :| basename in rest;
        counts := counts[basename := CountIn(counts, basename) + 1];
        rest := rest - {basename};
      }
      forall b
        ensures BasenameCount(ns[..i + 1], b) == BasenameCount(ns[..i], b) + if b in ns[i].basenames then 1 else 0
      {
        BasenameCountLast(ns[..i], ns[i], b);
      }
    }
    assert ns[..|ns|] == ns;
  }

  lemma NoBasenames()
    ensures forall b :: BasenameCount([], b) == 0
  {
  }

  lemma BasenameCountLast(ns: seq<Normalized>, n: Normalized, b: string)
    ensures BasenameCount(ns + [n], b) == BasenameCount(ns, b) + if b in n.basenames then 1 else 0
  {
    var w := (m: Normalized) => if b in m.basenames then 1 else 0;
    WeighAppend(w, ns, [n]);
    assert Weigh(w, [n]) == w(n) + Weigh(w, []);
  }

  method CorrelatePair(ns: seq<Normalized>, basenameCounts: map<string, nat>, left: Normalized, right: Normalized)
    returns (findings: seq<Finding>)
    requires forall b :: BasenameCount(ns, b) == CountIn(basenameCounts, b)
    ensures findings == PairFindings(ns, left, right)
  {
    hide FlatMap, Shared, MapEdgeConnects, BasenameCount;
    var sharedFiles := left.files * right.files;
    if sharedFiles != {} {
      findings := Shared("shared_file", "file", "Packets share files: ", left, right, sharedFiles);
    } else {
      var both := left.basenames * right.basenames;
      var sharedBasenames := set b | b in both && b in basenameCounts && basenameCounts[b] == 2;
      assert sharedBasenames == WithCount(ns, left.basenames * right.basenames, 2);
      findings :=
        Shared("shared_file", "file_basename", "Packets share unique file basenames: ", left, right, sharedBasenames);
    }
    findings := findings
      + Shared("shared_symbol", "symbol", "Packets share symbols: ", left, right, left.symbols * right.symbols);
    findings := findings
      + Shared("shared_test", "test", "Packets share tests: ", left, right, left.tests * right.tests);
    ghost var shared := findings;
    NoFindings(MapRule(left, right));
    ConcatEmpty(shared);
    for i := 0 to |ns|
      invariant findings == shared + FlatMap(MapRule(left, right), ns[..i])
    {
      FlatMapLast(MapRule(left, right), ns[..i], ns[i]);
      assert ns[..i + 1] == ns[..i] + [ns[i]];
      ConcatAssociates(shared, FlatMap(MapRule(left, right), ns[..i]), MapEdgeConnects(left, right, ns[i]));
      findings := findings + MapEdgeConnects(left, right, ns[i]);
    }
    assert ns[..|ns|] == ns;
  }

  /** Every packet with every later one. */
  method CorrelatePairs(ns: seq<Normalized>, basenameCounts: map<string, nat>) returns (findings: seq<Finding>)
    requires forall b :: BasenameCount(ns, b) == CountIn(basenameCounts, b)
    ensures findings == PairsFrom(ns, ns)
  {
    hide FlatMap, PairFindings, BasenameCount;
    findings := [];
    ConcatEmpty(PairsFrom(ns, ns));
    assert ns[0..] == ns;
    for idx := 0 to |ns|
      invariant findings + PairsFrom(ns, ns[idx..]) == PairsFrom(ns, ns)
    {
      var left, later := ns[idx], ns[idx + 1..];
      assert ns[idx..][0] == left && ns[idx..][1..] == later;
      ghost var before := findings;
      NoFindings(WithEach(ns, left));
      ConcatEmpty(before);
      for j := 0 to |later|
        invariant findings == before + FlatMap(WithEach(ns, left), later[..j])
      {
        FlatMapLast(WithEach(ns, left), later[..j], later[j]);
        assert later[..j + 1] == later[..j] + [later[j]];
        var more := CorrelatePair(ns, basenameCounts, left, later[j]);
        ConcatAssociates(before, FlatMap(WithEach(ns, left), later[..j]), more);
        findings := findings + more;
      }
      assert later[..|later|] == later;
      ConcatAssociates(before, FlatMap(WithEach(ns, left), later), PairsFrom(ns, later));
    }
    ConcatEmpty(findings);
  }

  method CorrelateFocus(ns: seq<Normalized>, focus: Option<Focus>) returns (findings: seq<Finding>)
    ensures findings == FocusFindings(ns, focus)
  {
    hide FlatMap, TaskFocusOverlap;
    findings := [];
    if focus.Some? {
      NoFindings(FocusRule(ns, focus.value));
      for i := 0 to |ns|
        invariant findings == FlatMap(FocusRule(ns, focus.value), ns[..i])
      {
        FlatMapLast(FocusRule(ns, focus.value), ns[..i], ns[i]);
        assert ns[..i + 1] == ns[..i] + [ns[i]];
        findings := findings + TaskFocusOverlap(ns, focus.value, ns[i]);
      }
      assert ns[..|ns|] == ns;
    }
  }

  method CorrelateDiffs(packets: seq<Packet>) returns (findings: seq<Finding>)
    ensures findings == AllDiffFindings(packets)
  {
    hide FlatMap, DiffFindings, Filter;
    var diffs := Filter((p: Packet) => p.typed.Diff?, packets);
    var impacts := Filter((p: Packet) => p.typed.Impact?, packets);
    var stacks := Filter((p: Packet) => p.typed.Stack?, packets);
    var builds := Filter((p: Packet) => p.typed.Build?, packets);
    var maps := Filter((p: Packet) => p.typed.Map?, packets);
    FilterMembers((p: Packet) => p.typed.Diff?, packets);
    FilterMembers((p: Packet) => p.typed.Impact?, packets);
    FilterMembers((p: Packet) => p.typed.Stack?, packets);
    FilterMembers((p: Packet) => p.typed.Build?, packets);
    ghost var rule := DiffRule(stacks, impacts, builds, maps);
    findings := [];
    NoFindings(rule);
    for i := 0 to |diffs|
      invariant findings == FlatMap(rule, diffs[..i])
    {
      FlatMapLast(rule, diffs[..i], diffs[i]);
      assert diffs[..i + 1] == diffs[..i] + [diffs[i]] && diffs[i] in diffs;
      var more := CorrelateDiff(diffs[i], stacks, impacts, builds, maps);
      findings := findings + more;
    }
    assert diffs[..|diffs|] == diffs;
  }

  lemma SurvivorsAreKept(all: seq<Finding>, kept: seq<Finding>)
    requires Keys(kept) == Keys(all)
    requires forall f :: f in kept ==> First(all, Key(f)) == Some(f)
    ensures forall f :: f in kept <==> First(all, Key(f)) == Some(f)
  {
    hide Key, First;
    forall f | First(all, Key(f)) == Some(f) ensures f in kept {
      FirstOfKey(all, Key(f));
      var g :| g in kept && Key(g) == Key(f);
    }
  }

  /** Of all the findings with its key it is the first. */
  ghost predicate Survives(packets: seq<Packet>, focus: Option<Focus>, f: Finding) {
    First(AllFindings(packets, focus), Key(f)) == Some(f)
  }

  /** The surviving findings: of every key the rules produce, the first, sorted by rule and summary. */
  method CorrelatePackets(packets: seq<Packet>, focus: Option<Focus>) returns (findings: seq<Finding>)
    ensures Keys(findings) == Keys(AllFindings(packets, focus))
    ensures forall i, j :: 0 <= i < |findings| && 0 <= j < |findings| && i != j ==> Key(findings[i]) != Key(findings[j])
    ensures forall f :: f in findings <==> Survives(packets, focus, f)
    ensures Sorted(FindingLe, findings)
  {
    hide Key, Keys, FindingLe, First, FlatMap, AllDiffFindings, PairsFrom, FocusFindings, Sorted, BasenameCount;
    var all := CorrelateDiffs(packets);
    var normalized := FlatMap(NormalizedOf, packets);
    var basenameCounts := CountBasenames(normalized);
    var pairs := CorrelatePairs(normalized, basenameCounts);
    var overlaps := CorrelateFocus(normalized, focus);
    findings := DedupeFindings(all + pairs + overlaps);
    SurvivorsAreKept(all + pairs + overlaps, findings);
  }
}
