/** What the correlation rules find and what their evidence names, told from the packets. */
module CorrelationMeaning {
  import opened Order
  import opened Sequences
  import opened Sorting
  import opened Wrappers
  import opened CorrelationRules
  import opened CorrelationLaws

  // ---- listing a set ----

  /** A set is listed in ascending order, each element once. */
  lemma {:induction false} ListedExactly(s: set<string>)
    ensures forall x :: x in Listed(s) <==> x in s
    ensures forall i, j :: 0 <= i < j < |Listed(s)| ==>
      Listed(s)[i] != Listed(s)[j] && StrLe(Listed(s)[i], Listed(s)[j])
    decreases |s|
  {
    hide StrLe;
    if s != {} {
      LeastIsUnique(s);
      var x :| Least(s, x);
      ListedExactly(s - {x});
      assert Listed(s) == [x] + Listed(s - {x});
      LeastFirst(s, x, Listed(s - {x}));
    }
  }

  lemma LeastFirst(s: set<string>, x: string, rest: seq<string>)
    requires Least(s, x) && forall y :: y in rest <==> y in s - {x}
    requires forall i, j :: 0 <= i < j < |rest| ==> rest[i] != rest[j] && StrLe(rest[i], rest[j])
    ensures var all := [x] + rest;
      forall i, j :: 0 <= i < j < |all| ==> all[i] != all[j] && StrLe(all[i], all[j])
  {
    hide StrLe;
    assert forall j :: 0 <= j < |rest| ==> rest[j] in s - {x};
  }

  /** The evidence names exactly these values, each once and in order, all of one packet and one kind. */
  ghost predicate NamesAll(evidence: seq<Evidence>, packetId: Option<string>, packetType: string, kind: string,
      values: set<string>) {
    && (forall i :: 0 <= i < |evidence| ==>
          evidence[i] == Evidence(packetId, packetType, kind, evidence[i].value) && evidence[i].value in values)
    && (forall x :: x in values ==> exists i :: 0 <= i < |evidence| && evidence[i].value == x)
    && forall i, j :: 0 <= i < j < |evidence| ==>
         evidence[i].value != evidence[j].value && StrLe(evidence[i].value, evidence[j].value)
  }

  lemma RefsNameAll(packetId: Option<string>, packetType: string, kind: string, values: set<string>)
    ensures NamesAll(Refs(packetId, packetType, kind, Listed(values)), packetId, packetType, kind, values)
  {
    hide StrLe, Listed;
    ListedExactly(values);
    forall x | x in values
      ensures exists i :: 0 <= i < |Listed(values)| && Refs(packetId, packetType, kind, Listed(values))[i].value == x
    {
      assert x in Listed(values);
      var i :| 0 <= i < |Listed(values)| && Listed(values)[i] == x;
      assert Refs(packetId, packetType, kind, Listed(values))[i].value == x;
    }
  }

  // ---- the rules about a diff ----

  /** The files a diff changes: those of its payload, or of its envelope if the payload has none. */
  ghost predicate Changes(diff: Packet, f: string)
    requires diff.typed.Diff?
  {
    f in diff.typed.payloadPaths || (diff.typed.payloadPaths == {} && f in diff.typed.files)
  }

  ghost function Changed(diff: Packet): set<string>
    requires diff.typed.Diff?
  {
    set f | f in diff.typed.payloadPaths + diff.typed.files && Changes(diff, f)
  }

  lemma ChangedExactly(diff: Packet)
    requires diff.typed.Diff?
    ensures ChangedFiles(diff) == Changed(diff)
    ensures forall f :: f in Changed(diff) <==> Changes(diff, f)
  {
    assert forall f :: f in ChangedFiles(diff) <==> f in Changed(diff);
  }

  /** The evidence names what the diff changes, and then these values of the other packet. */
  ghost predicate NamesBoth(f: Finding, diff: Packet, other: Packet, packetType: string, kind: string,
      values: set<string>)
    requires diff.typed.Diff?
  {
    exists n :: 0 <= n <= |f.evidence|
      && NamesAll(f.evidence[..n], diff.packetId, "suite.diff.analyze.v1", "file", Changed(diff))
      && NamesAll(f.evidence[n..], other.packetId, packetType, kind, values)
  }

  lemma ConcatNamesBoth(f: Finding, a: seq<Evidence>, b: seq<Evidence>, diff: Packet, other: Packet,
      packetType: string, kind: string, values: set<string>)
    requires diff.typed.Diff? && f.evidence == a + b
    requires NamesAll(a, diff.packetId, "suite.diff.analyze.v1", "file", Changed(diff))
    requires NamesAll(b, other.packetId, packetType, kind, values)
    ensures NamesBoth(f, diff, other, packetType, kind, values)
  {
    hide NamesAll, Changed;
    assert f.evidence[..|a|] == a && f.evidence[|a|..] == b;
  }

  ghost function Untouched(diff: Packet, build: Packet): set<string>
    requires diff.typed.Diff? && build.typed.Build?
  {
    set f | f in build.typed.files && !Changes(diff, f)
  }

  /** A build is found unrelated exactly if it has diagnostics in files the diff leaves alone, and names them. */
  lemma BuildRuleExactly(diff: Packet, build: Packet)
    requires diff.typed.Diff? && build.typed.Build?
    ensures DiffVsBuild(diff, build) != [] <==> exists f :: f in build.typed.files && !Changes(diff, f)
    ensures DiffVsBuild(diff, build) != [] ==>
      var f, untouched := DiffVsBuild(diff, build)[0], Untouched(diff, build);
      && DiffVsBuild(diff, build) == [f] && f.rule == "diff_vs_build" && f.relation == "pre_existing_or_unrelated"
      && f.summary == "Build diagnostics touch untouched files: " + Commas(untouched)
      && NamesBoth(f, diff, build, "suite.build.reduce.v1", "file", untouched)
  {
    hide ChangedFiles, Changed, Listed, Commas, Refs, NamesAll, NamesBoth;
    ChangedExactly(diff);
    var untouched := Untouched(diff, build);
    assert build.typed.files - ChangedFiles(diff) == untouched;
    assert forall f :: f in untouched <==> f in build.typed.files && !Changes(diff, f);
    hide Changes, Untouched;
    if untouched != {} {
      var f :| f in untouched;
      var a, b := Refs(diff.packetId, DIFF_ANALYZE, "file", Listed(Changed(diff))),
        Refs(build.packetId, BUILD_REDUCE, "file", Listed(untouched));
      RefsNameAll(diff.packetId, DIFF_ANALYZE, "file", Changed(diff));
      RefsNameAll(build.packetId, BUILD_REDUCE, "file", untouched);
      ConcatNamesBoth(DiffVsBuild(diff, build)[0], a, b, diff, build, BUILD_REDUCE, "file", untouched);
    }
  }

  /** The evidence names what the diff changes, and then these tests as they come. */
  ghost predicate NamesTests(f: Finding, diff: Packet, impact: Packet, tests: seq<string>)
    requires diff.typed.Diff?
  {
    exists n :: 0 <= n <= |f.evidence| && |f.evidence| - n == |tests|
      && NamesAll(f.evidence[..n], diff.packetId, "suite.diff.analyze.v1", "file", Changed(diff))
      && forall i :: 0 <= i < |tests| ==>
           f.evidence[n + i] == Evidence(impact.packetId, "suite.test.impact.v1", "test", tests[i])
  }

  /** A test impact supports a diff exactly if it selected tests, which the finding names. */
  lemma ImpactRuleExactly(diff: Packet, impact: Packet)
    requires diff.typed.Diff? && impact.typed.Impact?
    ensures DiffVsImpact(diff, impact) != [] <==> impact.typed.selectedTests != []
    ensures DiffVsImpact(diff, impact) != [] ==>
      var f, tests := DiffVsImpact(diff, impact)[0], impact.typed.selectedTests;
      && DiffVsImpact(diff, impact) == [f] && f.rule == "diff_vs_impact" && f.relation == "supports"
      && f.summary == "Test impact selected " + Decimal(|tests|) + " tests for changed files " + Commas(Changed(diff))
      && NamesTests(f, diff, impact, tests)
  {
    hide ChangedFiles, Changed, Listed, Commas, NamesAll, Decimal;
    ChangedExactly(diff);
    RefsNameAll(diff.packetId, DIFF_ANALYZE, "file", Changed(diff));
    var a, tests := Refs(diff.packetId, DIFF_ANALYZE, "file", Listed(Changed(diff))), impact.typed.selectedTests;
    if tests != [] {
      var f := DiffVsImpact(diff, impact)[0];
      assert f.evidence == a + Refs(impact.packetId, TEST_IMPACT, "test", tests);
      assert f.evidence[..|a|] == a;
    }
  }

  /** The edge has one end among the changed files and the other among those of the stack. */
  ghost predicate LinksEdge(diff: Packet, stack: Packet, files: seq<Option<string>>, from: nat, to: nat)
    requires diff.typed.Diff? && stack.typed.Stack?
  {
    && from < |files| && to < |files| && files[from].Some? && files[to].Some?
    && (|| (Changes(diff, files[from].value) && files[to].value in stack.typed.files)
        || (Changes(diff, files[to].value) && files[from].value in stack.typed.files))
  }

  ghost predicate LinkedByMap(diff: Packet, stack: Packet, map_: Packet)
    requires diff.typed.Diff? && stack.typed.Stack?
  {
    map_.typed.Map? && exists e :: e in map_.typed.edges && LinksEdge(diff, stack, map_.typed.fileList, e.0, e.1)
  }

  lemma LinkedExactly(diff: Packet, stack: Packet, map_: Packet)
    requires diff.typed.Diff? && stack.typed.Stack? && map_.typed.Map?
    ensures MapHasEdge(map_, ChangedFiles(diff), stack.typed.files) <==> LinkedByMap(diff, stack, map_)
  {
    hide ChangedFiles, Changed;
    ChangedExactly(diff);
    hide Changes;
    var edges := map_.typed.edges;
    forall i | 0 <= i < |edges|
      ensures edges[i] in edges
      ensures LinksEdge(diff, stack, map_.typed.fileList, edges[i].0, edges[i].1) <==>
        Connects(FileAt(map_.typed.fileList, edges[i].0), FileAt(map_.typed.fileList, edges[i].1),
          ChangedFiles(diff), stack.typed.files)
    {
    }
    hide LinksEdge, Connects, FileAt;
  }

  /** The one finding about a diff and a stack: related, unrelated or possibly related, naming the files of both. */
  lemma StackRuleExactly(diff: Packet, stack: Packet, maps: seq<Packet>)
    requires diff.typed.Diff? && stack.typed.Stack? && forall m :: m in maps ==> m.typed.Map?
    ensures DiffVsStack(diff, stack, maps) != [] <==> stack.typed.files != {}
    ensures DiffVsStack(diff, stack, maps) != [] ==>
      var f := DiffVsStack(diff, stack, maps)[0];
      && DiffVsStack(diff, stack, maps) == [f] && f.rule == "diff_vs_stack"
      && (f.relation == "related" <==> exists x :: x in stack.typed.files && Changes(diff, x))
      && (f.relation == "unrelated" <==>
            && (forall x :: x in stack.typed.files ==> !Changes(diff, x))
            && maps != [] && forall m :: m in maps ==> !LinkedByMap(diff, stack, m))
      && f.relation in ["related", "unrelated", "possibly_related"]
      && NamesBoth(f, diff, stack, "suite.stack.slice.v1", "file", stack.typed.files)
  {
    hide ChangedFiles, Changed, Listed, Commas, Refs, NamesAll, NamesBoth, MapHasEdge, LinkedByMap;
    ChangedExactly(diff);
    var files := stack.typed.files;
    if files != {} {
      StackRelationExactly(diff, stack, maps);
      forall m | m in maps ensures MapHasEdge(m, ChangedFiles(diff), files) <==> LinkedByMap(diff, stack, m) {
        LinkedExactly(diff, stack, m);
      }
      hide Changes;
      var a, b := Refs(diff.packetId, DIFF_ANALYZE, "file", Listed(Changed(diff))),
        Refs(stack.packetId, STACK_SLICE, "file", Listed(files));
      RefsNameAll(diff.packetId, DIFF_ANALYZE, "file", Changed(diff));
      RefsNameAll(stack.packetId, STACK_SLICE, "file", files);
      ConcatNamesBoth(DiffVsStack(diff, stack, maps)[0], a, b, diff, stack, STACK_SLICE, "file", files);
    }
  }

  // ---- the rules about two packets, and about the checkpoint ----

  /** The evidence names these values of one packet and then the same values of the other. */
  ghost predicate NamesTwice(f: Finding, left: Normalized, right: Normalized, kind: string, values: set<string>) {
    exists n :: 0 <= n <= |f.evidence|
      && NamesAll(f.evidence[..n], left.packetId, left.PacketType(), kind, values)
      && NamesAll(f.evidence[n..], right.packetId, right.PacketType(), kind, values)
  }

  ghost predicate IsShared(found: seq<Finding>, rule: string, kind: string, summary: string, left: Normalized,
      right: Normalized, values: set<string>) {
    if values == {} then found == []
    else
      && |found| == 1 && found[0].rule == rule && found[0].relation == "related"
      && found[0].summary == summary + Commas(values) && NamesTwice(found[0], left, right, kind, values)
  }

  lemma SharedExactly(rule: string, kind: string, summary: string, left: Normalized, right: Normalized,
      values: set<string>)
    ensures IsShared(Shared(rule, kind, summary, left, right, values), rule, kind, summary, left, right, values)
  {
    hide Listed, Commas, NamesAll, PacketTypeFor;
    var a, b := NormalizedRefs(left, kind, Listed(values)), NormalizedRefs(right, kind, Listed(values));
    RefsNameAll(left.packetId, left.PacketType(), kind, values);
    RefsNameAll(right.packetId, right.PacketType(), kind, values);
    assert (a + b)[..|a|] == a && (a + b)[|a|..] == b;
  }

  /** Two packets share the symbols, and the tests, that both have. */
  lemma SharedNamesExactly(left: Normalized, right: Normalized)
    ensures var symbols := set x | x in left.symbols && x in right.symbols;
      IsShared(SharedSymbol(left, right), "shared_symbol", "symbol", "Packets share symbols: ", left, right, symbols)
    ensures var tests := set x | x in left.tests && x in right.tests;
      IsShared(SharedTest(left, right), "shared_test", "test", "Packets share tests: ", left, right, tests)
  {
    hide Shared, IsShared;
    assert left.symbols * right.symbols == set x | x in left.symbols && x in right.symbols;
    assert left.tests * right.tests == set x | x in left.tests && x in right.tests;
    SharedExactly("shared_symbol", "symbol", "Packets share symbols: ", left, right, left.symbols * right.symbols);
    SharedExactly("shared_test", "test", "Packets share tests: ", left, right, left.tests * right.tests);
  }

  /** Two packets share the files that both have or, if there are none, the basenames that they alone have. */
  lemma SharedFilesExactly(ns: seq<Normalized>, i: nat, j: nat)
    requires i < j < |ns|
    ensures var files := set x | x in ns[i].files && x in ns[j].files;
      var alone := set b | b in ns[i].basenames && b in ns[j].basenames && OnlyAt(ns, b, {i, j});
      if files != {}
      then IsShared(SharedFile(ns, ns[i], ns[j]), "shared_file", "file", "Packets share files: ", ns[i], ns[j], files)
      else IsShared(SharedFile(ns, ns[i], ns[j]), "shared_file", "file_basename",
             "Packets share unique file basenames: ", ns[i], ns[j], alone)
  {
    hide Shared, IsShared, OnlyAt, BasenameCount;
    var files := set x | x in ns[i].files && x in ns[j].files;
    var alone := set b | b in ns[i].basenames && b in ns[j].basenames && OnlyAt(ns, b, {i, j});
    assert ns[i].files * ns[j].files == files;
    forall b | b in ns[i].basenames * ns[j].basenames ensures BasenameCount(ns, b) == 2 <==> OnlyAt(ns, b, {i, j}) {
      CountedTwice(ns, i, j, b);
    }
    assert WithCount(ns, ns[i].basenames * ns[j].basenames, 2) == alone;
    SharedExactly("shared_file", "file", "Packets share files: ", ns[i], ns[j], files);
    SharedExactly("shared_file", "file_basename", "Packets share unique file basenames: ", ns[i], ns[j], alone);
  }

  /** The evidence names paths, then symbols, then basenames of one packet. */
  ghost predicate NamesThrice(f: Finding, p: Normalized, paths: set<string>, symbols: set<string>,
      basenames: set<string>) {
    exists n, m :: 0 <= n <= m <= |f.evidence|
      && NamesAll(f.evidence[..n], p.packetId, p.PacketType(), "file", paths)
      && NamesAll(f.evidence[n..m], p.packetId, p.PacketType(), "symbol", symbols)
      && NamesAll(f.evidence[m..], p.packetId, p.PacketType(), "file_basename", basenames)
  }

  lemma ConcatNamesThrice(f: Finding, p: Normalized, a: seq<Evidence>, b: seq<Evidence>, c: seq<Evidence>,
      paths: set<string>, symbols: set<string>, basenames: set<string>)
    requires f.evidence == a + b + c
    requires NamesAll(a, p.packetId, p.PacketType(), "file", paths)
    requires NamesAll(b, p.packetId, p.PacketType(), "symbol", symbols)
    requires NamesAll(c, p.packetId, p.PacketType(), "file_basename", basenames)
    ensures NamesThrice(f, p, paths, symbols, basenames)
  {
    hide NamesAll, PacketTypeFor;
    var n, m := |a|, |a| + |b|;
    assert f.evidence[..n] == a && f.evidence[n..m] == b && f.evidence[m..] == c;
  }

  lemma NothingCommon(a: set<string>, b: set<string>)
    ensures (set x | x in a && x in b) == {} <==> forall x :: x in a ==> x !in b
  {
    var common := set x | x in a && x in b;
    assert forall x :: x in common <==> x in a && x in b;
    if common != {} {
      var x :| x in common;
    }
  }

  /** The basenames that this packet alone has, if it has none of the changed paths. */
  ghost function AloneChanged(ns: seq<Normalized>, focus: Focus, i: nat): set<string>
    requires i < |ns|
  {
    set b | b in ns[i].basenames && b in focus.basenames && OnlyAt(ns, b, {i})
      && forall x :: x in ns[i].files ==> x !in focus.paths
  }

  /** What an overlap with the checkpoint names: changed paths and symbols, or the basenames that are unmistakable. */
  lemma OverlapNamesExactly(ns: seq<Normalized>, focus: Focus, i: nat)
    requires i < |ns|
    ensures var p := ns[i]; var found := TaskFocusOverlap(ns, focus, p);
      var paths, symbols := (set x | x in p.files && x in focus.paths), set x | x in p.symbols && x in focus.symbols;
      && (found != [] <==> paths != {} || symbols != {} || AloneChanged(ns, focus, i) != {})
      && (found != [] ==>
            && |found| == 1 && found[0].rule == "task_focus_overlap" && found[0].relation == "related"
            && found[0].summary == "Packet overlaps task checkpoint deltas for task " + focus.taskId
            && NamesThrice(found[0], p, paths, symbols, AloneChanged(ns, focus, i)))
  {
    hide BasenameCount, Listed, NamesAll, NamesThrice, OnlyAt, PacketTypeFor;
    var p := ns[i];
    var paths, symbols := (set x | x in p.files && x in focus.paths), set x | x in p.symbols && x in focus.symbols;
    assert p.files * focus.paths == paths && p.symbols * focus.symbols == symbols;
    forall b | b in p.basenames * focus.basenames ensures BasenameCount(ns, b) == 1 <==> OnlyAt(ns, b, {i}) {
      CountedOnce(ns, i, b);
    }
    NothingCommon(p.files, focus.paths);
    var alone := if paths != {} then {} else WithCount(ns, p.basenames * focus.basenames, 1);
    assert AloneChanged(ns, focus, i) == alone;
    hide AloneChanged, WithCount;
    var found := TaskFocusOverlap(ns, focus, p);
    if found != [] {
      RefsNameAll(p.packetId, p.PacketType(), "file", paths);
      RefsNameAll(p.packetId, p.PacketType(), "symbol", symbols);
      RefsNameAll(p.packetId, p.PacketType(), "file_basename", alone);
      ConcatNamesThrice(found[0], p, NormalizedRefs(p, "file", Listed(paths)),
        NormalizedRefs(p, "symbol", Listed(symbols)), NormalizedRefs(p, "file_basename", Listed(alone)),
        paths, symbols, alone);
    }
  }
}
