/** The shared scan feeds both consumers what the separate scans feed them, reading each file once. */
module ScanEquivalence {
  import opened Wrappers
  import opened Order
  import opened Sequences
  import opened Sorting
  import opened Text
  import opened RepoPaths
  import opened RepoWalk
  import opened DigestFraming
  import opened SharedScan

  // ---- the sorts ----

  lemma ByStringIsTotal()
    ensures TotalPreorder(ByString())
  {
    var leq := ByString();
    StrLeIsTotalPreorder();
    forall x, y ensures leq(x, y) || leq(y, x) {
      StrLeTotal(RelativePath(x), RelativePath(y));
    }
    forall x, y, z | leq(x, y) && leq(y, z) ensures leq(x, z) {
      StrLeTransitive(RelativePath(x), RelativePath(y), RelativePath(z));
    }
  }

  lemma ByPathIsTotal()
    ensures TotalPreorder(ByPath())
  {
    var leq := ByPath();
    forall x, y ensures leq(x, y) || leq(y, x) {
      PathLeTotal(x.path, y.path);
    }
    forall x, y, z | leq(x, y) && leq(y, z) ensures leq(x, z) {
      PathLeTransitive(x.path, y.path, z.path);
    }
  }

  // ---- both scans in terms of all files ----

  predicate KnownMapCandidate(f: File) {
    f.Known() && MapCandidate(f)
  }

  lemma MapFilesAreCandidates(root: string, tree: seq<Child>)
    requires WellFormed(tree)
    ensures MapFiles(root, tree) == Sort(ByString(), Filter(KnownMapCandidate, AllFiles(tree)))
  {
    GeneratedIsClosed();
    PrunedWalkIsFilteredWalk([], tree, IsGeneratedOrVendor);
    WalkNamesFilesOnce([], tree);
    hide IsSource, IsGeneratedOrVendor, Walk;
    forall f | f in AllFiles(tree)
      ensures KnownMapCandidate(f) == (Spared(IsGeneratedOrVendor)(f) && SourceUnder(root)(f))
    {
      assert f.path != [] && f.path[0] in f.path;
      assert RelativePath(f) != "";
      SourceOfFullPath(root, RelativePath(f));
    }
    FilterTwice(Spared(IsGeneratedOrVendor), SourceUnder(root), KnownMapCandidate, AllFiles(tree));
  }

  lemma BroadFilesAreFiltered(tree: seq<Child>)
    ensures BroadFiles(tree, ExcludedByBoth) == Filter(Spared(ExcludedByBoth), BroadFiles(tree, SkipNothing))
  {
    ExcludedByBothIsClosed();
    PrunedWalkIsFilteredWalk([], tree, ExcludedByBoth);
    ByPathIsTotal();
    SortFilter(ByPath(), Spared(ExcludedByBoth), AllFiles(tree));
  }

  /** Nothing either consumer wants is pruned by the union walk. */
  lemma CandidatesAreSpared(f: File)
    ensures Candidate(f) ==> Spared(ExcludedByBoth)(f)
  {
    assert Spared(ExcludedByBoth)(f) == !ExcludedByBoth(RelativePath(f));
  }

  lemma BroadFilesMembers(tree: seq<Child>, f: File)
    ensures f in BroadFiles(tree, SkipNothing) <==> f in AllFiles(tree)
    ensures f in BroadFiles(tree, ExcludedByBoth) <==> f in AllFiles(tree) && !ExcludedByBoth(RelativePath(f))
  {
    SortPermutes(ByPath(), AllFiles(tree));
    BroadFilesAreFiltered(tree);
    FilterMembers(Spared(ExcludedByBoth), BroadFiles(tree, SkipNothing));
  }

  // ---- the regex consumer ----

  /** Both scans feed the regex consumer the same documents in the same order. */
  lemma RegexFedTheSame(tree: seq<Child>)
    ensures FlatMap(RegexDoc, RegexFiles(tree)) == FlatMap(RegexDoc, BroadFiles(tree, ExcludedByBoth))
  {
    var all := BroadFiles(tree, SkipNothing);
    BroadFilesAreFiltered(tree);
    hide IsRegexExcluded, IsGeneratedOrVendor, BroadFiles;
    FlatMapFilter(RegexDoc, RegexPath, all);
    FlatMapFilter(RegexDoc, Spared(ExcludedByBoth), all);
  }

  // ---- the map consumer ----

  function Fed(isUtf8: string -> bool): File -> bool {
    (f: File) => MapCandidate(f) && f.Readable() && isUtf8(f.content)
  }

  lemma FedMeans(isUtf8: string -> bool, f: File)
    ensures Fed(isUtf8)(f) == (MapCandidate(f) && f.access == Granted && isUtf8(f.content))
  {
    hide MapCandidate;
    assert f.Readable() == (f.access == Granted);
    assert Fed(isUtf8)(f) == (MapCandidate(f) && f.Readable() && isUtf8(f.content));
  }

  /** The files whose contents reach the map consumer. */
  function Consumed(tree: seq<Child>, isUtf8: string -> bool): seq<File> {
    Filter(Fed(isUtf8), AllFiles(tree))
  }

  function SeparateMapDocs(root: string, tree: seq<Child>, isUtf8: string -> bool): seq<Document> {
    FlatMap(MapDoc(isUtf8), MapFiles(root, tree))
  }

  function SharedMapDocs(tree: seq<Child>, isUtf8: string -> bool): seq<Document> {
    FlatMap(SharedMapDoc(isUtf8), BroadFiles(tree, ExcludedByBoth))
  }

  lemma SeparateMapDocsAreConsumed(root: string, tree: seq<Child>, isUtf8: string -> bool)
    requires WellFormed(tree)
    ensures SeparateMapDocs(root, tree, isUtf8) ==
      FlatMap(SharedMapDoc(isUtf8), Sort(ByString(), Consumed(tree, isUtf8)))
  {
    hide IsSource, IsGeneratedOrVendor, AllFiles, MapFiles, Filter, FlatMap, Sort;
    var candidates := Filter(KnownMapCandidate, AllFiles(tree));
    var files := Sort(ByString(), candidates);
    MapFilesAreCandidates(root, tree);
    ByStringIsTotal();
    FilterMembers(KnownMapCandidate, AllFiles(tree));
    forall f | f in files ensures MapDoc(isUtf8)(f) == SharedMapDoc(isUtf8)(f) {
      SortMember(ByString(), candidates, f);
    }
    FlatMapCongruent(MapDoc(isUtf8), SharedMapDoc(isUtf8), files);
    FlatMapFilter(SharedMapDoc(isUtf8), Fed(isUtf8), files);
    SortFilter(ByString(), Fed(isUtf8), candidates);
    forall f: File ensures Fed(isUtf8)(f) == (KnownMapCandidate(f) && Fed(isUtf8)(f)) {
      FedMeans(isUtf8, f);
    }
    FilterTwice(KnownMapCandidate, Fed(isUtf8), Fed(isUtf8), AllFiles(tree));
  }

  lemma SharedMapDocsAreConsumed(tree: seq<Child>, isUtf8: string -> bool)
    ensures SharedMapDocs(tree, isUtf8) == FlatMap(SharedMapDoc(isUtf8), Sort(ByPath(), Consumed(tree, isUtf8)))
  {
    var all := BroadFiles(tree, SkipNothing);
    BroadFilesAreFiltered(tree);
    ByPathIsTotal();
    SortFilter(ByPath(), Fed(isUtf8), AllFiles(tree));
    hide Filter, FlatMap, Sort, IsSource, IsGeneratedOrVendor, IsRegexExcluded, AllFiles;
    forall f: File ensures Candidate(f) ==> Spared(ExcludedByBoth)(f) {
      CandidatesAreSpared(f);
    }
    FlatMapFilter(SharedMapDoc(isUtf8), Spared(ExcludedByBoth), all);
    FlatMapFilter(SharedMapDoc(isUtf8), Fed(isUtf8), all);
  }

  lemma {:induction false} DocumentsIdentifyFiles(isUtf8: string -> bool, a: seq<File>, b: seq<File>)
    requires forall f :: f in a || f in b ==> Fed(isUtf8)(f)
    requires NamedPaths(a + b)
    ensures FlatMap(SharedMapDoc(isUtf8), a) == FlatMap(SharedMapDoc(isUtf8), b) <==> a == b
  {
    hide IsSource, IsGeneratedOrVendor;
    if a != [] && b != [] {
      var f, g := a[0], b[0];
      assert f in a && g in b && f in a + b && g in a + b;
      FedMeans(isUtf8, f);
      FedMeans(isUtf8, g);
      RelativeIdentifies(a + b, f, g);
      assert NamedPaths(a[1..] + b[1..]) by {
        assert forall x :: x in a[1..] + b[1..] ==> x in a + b;
      }
      DocumentsIdentifyFiles(isUtf8, a[1..], b[1..]);
      assert a == [f] + a[1..] && b == [g] + b[1..];
      var rest, rest' := FlatMap(SharedMapDoc(isUtf8), a[1..]), FlatMap(SharedMapDoc(isUtf8), b[1..]);
      assert FlatMap(SharedMapDoc(isUtf8), a) == [DocumentOf(f)] + rest;
      assert FlatMap(SharedMapDoc(isUtf8), b) == [DocumentOf(g)] + rest';
      if [DocumentOf(f)] + rest == [DocumentOf(g)] + rest' {
        assert ([DocumentOf(f)] + rest)[0] == ([DocumentOf(g)] + rest')[0];
        assert ([DocumentOf(f)] + rest)[1..] == rest && ([DocumentOf(g)] + rest')[1..] == rest';
      }
    } else if a != [] {
      assert a[0] in a;
      assert FlatMap(SharedMapDoc(isUtf8), a) == [DocumentOf(a[0])] + FlatMap(SharedMapDoc(isUtf8), a[1..]);
    } else if b != [] {
      assert b[0] in b;
      assert FlatMap(SharedMapDoc(isUtf8), b) == [DocumentOf(b[0])] + FlatMap(SharedMapDoc(isUtf8), b[1..]);
    }
  }

  ghost predicate OrdersAgree(files: seq<File>) {
    forall f, g :: f in files && g in files ==> ByString()(f, g) == ByPath()(f, g)
  }

  /** Sorting by two orders that separate all elements gives one result exactly when the orders agree. */
  lemma SortsAgree(files: seq<File>)
    requires NamedPaths(files)
    requires forall f, g :: f in files && g in files && f.path == g.path ==> f == g
    ensures Sort(ByString(), files) == Sort(ByPath(), files) <==> OrdersAgree(files)
  {
    var sorted := Sort(ByString(), files);
    if OrdersAgree(files) {
      SortCongruent(ByString(), ByPath(), files);
    }
    if sorted == Sort(ByPath(), files) {
      ByStringIsTotal();
      ByPathIsTotal();
      SortSorts(ByString(), files);
      SortSorts(ByPath(), files);
      SortPermutes(ByString(), files);
      forall f, g | f in files && g in files ensures ByString()(f, g) == ByPath()(f, g) {
        var i :| 0 <= i < |sorted| && sorted[i] == f;
        var j :| 0 <= j < |sorted| && sorted[j] == g;
        RelativeIdentifies(files, f, g);
        BothWaysMeansSame(files, f, g);
        hide *;
        SortedEitherWay(ByString(), sorted, i, j);
        SortedEitherWay(ByPath(), sorted, i, j);
      }
    }
  }

  lemma SortedEitherWay(leq: (File, File) -> bool, sorted: seq<File>, i: nat, j: nat)
    requires Sorted(leq, sorted) && i < |sorted| && j < |sorted|
    ensures i < j ==> leq(sorted[i], sorted[j])
    ensures j < i ==> leq(sorted[j], sorted[i])
    ensures i == j ==> sorted[i] == sorted[j]
  {
  }

  lemma BothWaysMeansSame(files: seq<File>, f: File, g: File)
    requires NamedPaths(files) && f in files && g in files
    ensures ByString()(f, g) && ByString()(g, f) ==> f.path == g.path
    ensures ByPath()(f, g) && ByPath()(g, f) ==> f.path == g.path
    ensures f.path == g.path ==> ByString()(f, g) && ByPath()(f, g)
  {
    RelativeIdentifies(files, f, g);
    if ByString()(f, g) && ByString()(g, f) {
      StrLeAntisymmetric(RelativePath(f), RelativePath(g));
    }
    if ByPath()(f, g) && ByPath()(g, f) {
      PathLeAntisymmetric(f.path, g.path);
    }
    StrLeReflexive(RelativePath(f));
    PathLeTotal(f.path, f.path);
  }

  lemma ConsumedFiles(tree: seq<Child>, isUtf8: string -> bool)
    requires WellFormed(tree)
    ensures NamedPaths(Consumed(tree, isUtf8))
    ensures forall f :: f in Consumed(tree, isUtf8) <==> f in AllFiles(tree) && Fed(isUtf8)(f)
    ensures forall f, g :: f in Consumed(tree, isUtf8) && g in Consumed(tree, isUtf8) && f.path == g.path ==> f == g
  {
    WalkNamesFilesOnce([], tree);
    FilterMembers(Fed(isUtf8), AllFiles(tree));
    PathsIdentify(AllFiles(tree));
    hide Walk, Filter, FlatMap, WellFormed;
  }

  lemma PathsIdentify(files: seq<File>)
    requires DistinctPaths(files)
    ensures forall f, g :: f in files && g in files && f.path == g.path ==> f == g
  {
    forall f, g | f in files && g in files && f.path == g.path ensures f == g {
      var i :| 0 <= i < |files| && files[i] == f;
      var j :| 0 <= j < |files| && files[j] == g;
    }
  }

  /** The map consumer is fed the same multiset; the same sequence exactly when the two orders agree. */
  lemma MapFedTheSame(root: string, tree: seq<Child>, isUtf8: string -> bool)
    requires WellFormed(tree)
    ensures multiset(SeparateMapDocs(root, tree, isUtf8)) == multiset(SharedMapDocs(tree, isUtf8))
    ensures SeparateMapDocs(root, tree, isUtf8) == SharedMapDocs(tree, isUtf8) <==> OrdersAgree(Consumed(tree, isUtf8))
  {
    var files := Consumed(tree, isUtf8);
    SeparateMapDocsAreConsumed(root, tree, isUtf8);
    SharedMapDocsAreConsumed(tree, isUtf8);
    ConsumedFiles(tree, isUtf8);
    hide *;
    SortsFeedTheSame(isUtf8, files, Sort(ByString(), files), Sort(ByPath(), files));
  }

  lemma SortsFeedTheSame(isUtf8: string -> bool, files: seq<File>, a: seq<File>, b: seq<File>)
    requires NamedPaths(files)
    requires forall f :: f in files ==> Fed(isUtf8)(f)
    requires forall f, g :: f in files && g in files && f.path == g.path ==> f == g
    requires a == Sort(ByString(), files) && b == Sort(ByPath(), files)
    ensures multiset(FlatMap(SharedMapDoc(isUtf8), a)) == multiset(FlatMap(SharedMapDoc(isUtf8), b))
    ensures FlatMap(SharedMapDoc(isUtf8), a) == FlatMap(SharedMapDoc(isUtf8), b) <==> OrdersAgree(files)
  {
    hide Filter, FlatMap, Sort, IsSource, IsGeneratedOrVendor, IsRegexExcluded;
    SortPermutes(ByString(), files);
    SortPermutes(ByPath(), files);
    FlatMapPermuted(SharedMapDoc(isUtf8), a, b);
    forall f | f in a + b ensures f in files {
    }
    DocumentsIdentifyFiles(isUtf8, a, b);
    SortsAgree(files);
  }

  // ---- when the two orders disagree ----

  /**
   * Below a common prefix, `p` enters a directory whose name the other path's component extends
   * with a character before '/': the string order puts the directory's files second.
   */
  ghost predicate Clash(p: seq<string>, q: seq<string>) {
    p != [] && q != [] &&
      if p[0] == q[0] then Clash(p[1..], q[1..])
      else |p| > 1 && p[0] < q[0] && q[0][|p[0]|] < '/'
  }

  lemma {:induction false} StrLeCommonPrefix(c: string, a: string, b: string)
    ensures StrLe(c + a, c + b) == StrLe(a, b)
  {
    if c == "" {
      assert c + a == a && c + b == b;
    } else {
      assert (c + a)[1..] == c[1..] + a && (c + b)[1..] == c[1..] + b;
      StrLeCommonPrefix(c[1..], a, b);
    }
  }

  lemma {:induction false} StrLeExtends(a: string, b: string, x: string, y: string)
    requires !(a <= b) && !(b <= a)
    ensures StrLe(a + x, b + y) == StrLe(a, b)
  {
    assert (a + x)[0] == a[0] && (b + y)[0] == b[0];
    if a[0] == b[0] {
      assert (a + x)[1..] == a[1..] + x && (b + y)[1..] == b[1..] + y;
      assert a == [a[0]] + a[1..] && b == [b[0]] + b[1..];
      StrLeExtends(a[1..], b[1..], x, y);
    }
  }

  function Tail(path: seq<string>): string {
    if |path| <= 1 then "" else "/" + Relative(path[1..])
  }

  lemma RelativeIsHeadAndTail(path: seq<string>)
    requires path != []
    ensures Relative(path) == path[0] + Tail(path)
  {
    if |path| > 1 {
      var rest := Relative(path[1..]);
      assert Relative(path) == path[0] + "/" + rest;
      hide *;
      ConcatAssociates(path[0], "/", rest);
    }
  }

  lemma TailStart(path: seq<string>)
    ensures Tail(path) == "" || Tail(path)[0] == '/'
    ensures |path| > 1 <==> Tail(path) != ""
  {
    if |path| > 1 {
      var rest := Relative(path[1..]);
      assert ("/" + rest)[0] == '/';
    }
  }

  lemma StrLeByFirst(x: string, z: string)
    requires z != "" && z[0] != '/' && (x == "" || x[0] == '/')
    ensures StrLe(x, z) <==> x == "" || '/' < z[0]
    ensures StrLe(z, x) <==> x != "" && z[0] < '/'
  {
  }

  lemma PrefixDecides(a: string, b: string, x: string, y: string)
    requires a < b && IsName(b) && (x == "" || x[0] == '/')
    ensures StrLe(a, b) && !StrLe(b, a)
    ensures StrLe(a + x, b + y) <==> x == "" || '/' < b[|a|]
    ensures StrLe(b + y, a + x) <==> x != "" && b[|a|] < '/'
  {
    hide StrLe;
    var rest := b[|a|..];
    assert b == a + rest && b + y == a + (rest + y) && a == a + "";
    assert rest[0] == b[|a|] && (rest + y)[0] == b[|a|];
    StrLeByFirst(x, rest + y);
    StrLeByFirst("", rest);
    StrLeCommonPrefix(a, x, rest + y);
    StrLeCommonPrefix(a, rest + y, x);
    StrLeCommonPrefix(a, "", rest);
    StrLeCommonPrefix(a, rest, "");
  }

  lemma PathLeByFirst(p: seq<string>, q: seq<string>)
    requires p != [] && q != [] && p[0] != q[0]
    ensures PathLe(p, q) == StrLe(p[0], q[0])
    ensures Clash(p, q) <==> |p| > 1 && p[0] < q[0] && q[0][|p[0]|] < '/'
  {
  }

  lemma PrefixPaths(p: seq<string>, q: seq<string>)
    requires p != [] && q != [] && p[0] < q[0] && StrLe(p[0], q[0]) && !StrLe(q[0], p[0])
    ensures PathLe(p, q) && !PathLe(q, p) && !Clash(q, p)
    ensures Clash(p, q) <==> Tail(p) != "" && q[0][|p[0]|] < '/'
  {
    TailStart(p);
    PathLeByFirst(p, q);
    PathLeByFirst(q, p);
    hide *;
  }

  /** One component a prefix of the other: what follows the shorter one decides. */
  lemma PrefixClash(p: seq<string>, q: seq<string>)
    requires p != [] && q != [] && p[0] < q[0] && IsName(q[0])
    ensures PathLe(p, q) && !PathLe(q, p) && !Clash(q, p)
    ensures StrLe(p[0] + Tail(p), q[0] + Tail(q)) <==> !Clash(p, q)
    ensures StrLe(q[0] + Tail(q), p[0] + Tail(p)) <==> Clash(p, q)
  {
    TailStart(p);
    NameHasNoSlash(q[0], |p[0]|);
    hide *;
    PrefixDecides(p[0], q[0], Tail(p), Tail(q));
    PrefixPaths(p, q);
  }

  lemma NameHasNoSlash(name: string, i: nat)
    requires IsName(name) && i < |name|
    ensures name[i] != '/'
  {
  }

  lemma NoPrefixNoClash(p: seq<string>, q: seq<string>)
    requires p != [] && q != [] && !(p[0] <= q[0]) && !(q[0] <= p[0])
    ensures !Clash(p, q) && !Clash(q, p)
    ensures StrLe(p[0] + Tail(p), q[0] + Tail(q)) == PathLe(p, q)
  {
    PathLeByFirst(p, q);
    PathLeByFirst(q, p);
    StrLeExtends(p[0], q[0], Tail(p), Tail(q));
    hide StrLe, PathLe, Clash, Relative, Tail;
  }

  /** Different first components: only a clash makes the orders differ. */
  lemma HeadsDecide(p: seq<string>, q: seq<string>)
    requires p != [] && q != [] && p[0] != q[0] && IsName(p[0]) && IsName(q[0])
    ensures (StrLe(Relative(p), Relative(q)) == PathLe(p, q)) <==> !Clash(p, q) && !Clash(q, p)
  {
    RelativeIsHeadAndTail(p);
    RelativeIsHeadAndTail(q);
    hide StrLe, PathLe, Clash, Relative, Tail, IsName;
    if p[0] < q[0] {
      PrefixClash(p, q);
    } else if q[0] < p[0] {
      PrefixClash(q, p);
    } else {
      NoPrefixNoClash(p, q);
    }
  }

  lemma {:induction false} OrdersDifferByClash(p: seq<string>, q: seq<string>)
    requires p != [] && q != [] && forall n :: n in p || n in q ==> IsName(n)
    ensures (StrLe(Relative(p), Relative(q)) == PathLe(p, q)) <==> !Clash(p, q) && !Clash(q, p)
  {
    assert p[0] in p && q[0] in q;
    if p[0] != q[0] {
      HeadsDecide(p, q);
    } else {
      RelativeIsHeadAndTail(p);
      RelativeIsHeadAndTail(q);
      StrLeCommonPrefix(p[0], Tail(p), Tail(q));
      StrLeReflexive(p[0]);
      if |p| > 1 && |q| > 1 {
        assert p == [p[0]] + p[1..] && q == [q[0]] + q[1..];
        StrLeCommonPrefix("/", Relative(p[1..]), Relative(q[1..]));
        OrdersDifferByClash(p[1..], q[1..]);
      }
    }
  }

  ghost predicate ClashFree(files: seq<File>) {
    forall f, g :: f in files && g in files ==> !Clash(f.path, g.path)
  }

  lemma OrdersAgreeWithoutClashes(files: seq<File>)
    requires NamedPaths(files)
    ensures OrdersAgree(files) <==> ClashFree(files)
  {
    forall f, g | f in files && g in files
      ensures ByString()(f, g) == ByPath()(f, g) <==> !Clash(f.path, g.path) && !Clash(g.path, f.path)
    {
      OrdersDifferByClash(f.path, g.path);
      assert RelativePath(f) == Relative(f.path) && RelativePath(g) == Relative(g.path);
    }
  }

  /**
   * Fusion preserves meaning. Whenever the shared scan succeeds so do the separate scans; the regex
   * consumer gets the same sequence and so the same summary; the map consumer gets the same
   * multiset, and the same sequence exactly when no consumed source file lies in a directory whose
   * name a sibling's extends with a character before '/'.
   */
  lemma FusionPreservesMeaning(root: string, tree: seq<Child>, isUtf8: string -> bool)
    requires WellFormed(tree) && SharedResult(tree, isUtf8).Ok?
    ensures SeparateResult(root, tree, isUtf8).Ok?
    ensures SeparateResult(root, tree, isUtf8).value.0.regex == SharedResult(tree, isUtf8).value.0.regex
    ensures SeparateResult(root, tree, isUtf8).value.0.mapped == Summarise(SeparateMapDocs(root, tree, isUtf8))
    ensures SharedResult(tree, isUtf8).value.0.mapped == Summarise(SharedMapDocs(tree, isUtf8))
    ensures multiset(SeparateMapDocs(root, tree, isUtf8)) == multiset(SharedMapDocs(tree, isUtf8))
    ensures SeparateMapDocs(root, tree, isUtf8) == SharedMapDocs(tree, isUtf8) <==> ClashFree(Consumed(tree, isUtf8))
  {
    SharedSuccessIsEnough(root, tree, isUtf8);
    RegexFedTheSame(tree);
    MapFedTheSame(root, tree, isUtf8);
    ConsumedFiles(tree, isUtf8);
    OrdersAgreeWithoutClashes(Consumed(tree, isUtf8));
  }

  /**
   * For documents whose lengths fit the length prefix the two map summaries are equal, stream of the digest
   * included, exactly when no two consumed files clash.
   */
  lemma MapSummariesAgreeExactly(root: string, tree: seq<Child>, isUtf8: string -> bool)
    requires WellFormed(tree) && SharedResult(tree, isUtf8).Ok?
    requires forall d :: d in SharedMapDocs(tree, isUtf8) ==> Framable(d)
    ensures SeparateResult(root, tree, isUtf8).Ok?
    ensures SeparateResult(root, tree, isUtf8).value.0.mapped == SharedResult(tree, isUtf8).value.0.mapped <==>
      ClashFree(Consumed(tree, isUtf8))
  {
    FusionPreservesMeaning(root, tree, isUtf8);
    hide SeparateResult, SharedResult, SeparateMapDocs, SharedMapDocs, ClashFree, Consumed;
    hide Framable, Frames, TotalBytes, WellFormed;
    var separate, shared := SeparateMapDocs(root, tree, isUtf8), SharedMapDocs(tree, isUtf8);
    PermutedMembers(separate, shared);
    if Summarise(separate) == Summarise(shared) {
      FramesIdentify(separate, shared);
    }
  }

  predicate AnyText(s: string) {
    true
  }

  /** `a.rs` beside `a/b.rs`: the two scans feed the map consumer in different orders. */
  lemma MapOrderCanDiffer(root: string)
    ensures var inner := [Child("b.rs", FileNode("x", Granted))];
      var tree := [Child("a", DirNode(inner)), Child("a.rs", FileNode("y", Granted))];
      WellFormed(tree) && SeparateMapDocs(root, tree, AnyText) != SharedMapDocs(tree, AnyText)
  {
    var inner := [Child("b.rs", FileNode("x", Granted))];
    var tree := [Child("a", DirNode(inner)), Child("a.rs", FileNode("y", Granted))];
    var f, g := File(["a", "b.rs"], "x", Granted), File(["a.rs"], "y", Granted);
    assert WellFormed(inner) && WellFormed(tree);
    ExampleFiles(inner, tree, f, g);
    ExampleClashes(f, g);
    ConsumedFiles(tree, AnyText);
    hide *;
    ClashShows(root, tree, AnyText, f, g);
  }

  lemma ExampleClashes(f: File, g: File)
    requires f == File(["a", "b.rs"], "x", Granted) && g == File(["a.rs"], "y", Granted)
    ensures Fed(AnyText)(f) && Fed(AnyText)(g) && Clash(f.path, g.path)
  {
    var p, q := "a/b.rs", "a.rs";
    ExampleIsCandidate(f.path, p);
    ExampleIsCandidate(g.path, q);
    assert RelativePath(f) == p && RelativePath(g) == q;
    PathLeByFirst(f.path, g.path);
    assert f.path[0] == "a" && g.path[0] == "a.rs";
    hide *;
    FedByName(f, p);
    FedByName(g, q);
  }

  lemma FedByName(f: File, name: string)
    requires RelativePath(f) == name && IsSource(name) && !IsGeneratedOrVendor(name) && f.Readable()
    ensures Fed(AnyText)(f)
  {
    assert MapCandidate(f) && AnyText(f.content);
    assert Fed(AnyText)(f) == (MapCandidate(f) && f.Readable() && AnyText(f.content));
  }

  lemma ClashShows(root: string, tree: seq<Child>, isUtf8: string -> bool, f: File, g: File)
    requires WellFormed(tree) && f in Consumed(tree, isUtf8) && g in Consumed(tree, isUtf8) && Clash(f.path, g.path)
    ensures SeparateMapDocs(root, tree, isUtf8) != SharedMapDocs(tree, isUtf8)
  {
    ConsumedFiles(tree, isUtf8);
    MapFedTheSame(root, tree, isUtf8);
    OrdersAgreeWithoutClashes(Consumed(tree, isUtf8));
    hide Consumed, SeparateMapDocs, SharedMapDocs, Clash, OrdersAgree, NamedPaths;
  }

  lemma ExampleFiles(inner: seq<Child>, tree: seq<Child>, f: File, g: File)
    requires inner == [Child("b.rs", FileNode("x", Granted))]
    requires tree == [Child("a", DirNode(inner)), Child("a.rs", FileNode("y", Granted))]
    requires f == File(["a", "b.rs"], "x", Granted) && g == File(["a.rs"], "y", Granted)
    ensures f in AllFiles(tree) && g in AllFiles(tree)
  {
    SingleFileWalk(["a"], "b.rs", "x", Granted);
    SingleFileWalk([], "a.rs", "y", Granted);
    assert tree[1..] == [Child("a.rs", FileNode("y", Granted))];
    assert ["a"] + ["b.rs"] == f.path && [] + ["a"] == ["a"] && [] + ["a.rs"] == g.path;
    var all := Walk([], tree, SkipNothing);
    assert all == WalkNode(["a"], DirNode(inner), SkipNothing) + [VisitedFile(g)];
    assert WalkNode(["a"], DirNode(inner), SkipNothing) == [VisitedDir(["a"]), VisitedFile(f)];
    assert all[1] == VisitedFile(f) && all[2] == VisitedFile(g);
    FlatMapMembers(FileOf, all);
    assert f in FileOf(all[1]) && g in FileOf(all[2]);
  }

  lemma SingleFileWalk(at: seq<string>, name: string, content: string, access: Access)
    ensures Walk(at, [Child(name, FileNode(content, access))], SkipNothing) ==
      [VisitedFile(File(at + [name], content, access))]
  {
    var one := [Child(name, FileNode(content, access))];
    assert one[1..] == [];
    assert !SkipNothing(Relative(at + [name]));
    assert Walk(at, one, SkipNothing) == WalkNode(at + [name], one[0].node, SkipNothing) + Walk(at, [], SkipNothing);
  }

  lemma {:induction false} ContainsFits(s: string, part: string)
    ensures Contains(s, part) ==> |part| <= |s|
  {
    if s != "" {
      ContainsFits(s[1..], part);
    }
  }

  lemma {:induction false} LowerOfLower(s: string)
    requires forall i :: 0 <= i < |s| ==> !('A' <= s[i] <= 'Z')
    ensures Lower(s) == s
  {
    if s != "" {
      LowerOfLower(s[1..]);
      assert s == [s[0]] + s[1..];
    }
  }

  lemma GeneratedDirNames(d: string)
    requires d in GENERATED_DIRS
    ensures |d| >= 3 && d[0] != 'a' && (|d| == 3 ==> d[0] == 'o')
  {
    var i :| 0 <= i < |GENERATED_DIRS| && GENERATED_DIRS[i] == d;
  }

  lemma ShortNotGenerated(s: string, d: string)
    requires s == "a.rs" || s == "a/b.rs"
    requires d in GENERATED_DIRS
    ensures !UnderGeneratedDir(s, d)
  {
    var part := "/" + d + "/";
    GeneratedDirNames(d);
    ContainsFits(s[2..], part);
    assert s[1..][1..] == s[2..];
    assert part[1] == d[0] && (d + "/")[0] == d[0];
    assert !(part <= s) && !(part <= s[1..]) && !(d + "/" <= s);
    assert !Contains(s[1..], part);
  }

  lemma ExampleIsCandidate(path: seq<string>, s: string)
    requires (path == ["a.rs"] && s == "a.rs") || (path == ["a", "b.rs"] && s == "a/b.rs")
    ensures Relative(path) == s && IsSource(s) && !IsGeneratedOrVendor(s)
  {
    assert EXTENSIONS[1] == ".rs" && HasSuffix(s, ".rs");
    assert Relative(path) == s by {
      if |path| == 2 {
        assert path[1..] == ["b.rs"];
      }
    }
    SegmentsOfRelative(path);
    assert forall n :: n in path ==> !IsTemporary(n);
    hide Relative, Segments, Lower, Contains, UnderGeneratedDir;
    ShortIsNotGenerated(s);
  }

  lemma ShortIsNotGenerated(s: string)
    requires s == "a.rs" || s == "a/b.rs"
    requires forall n :: n in Segments(s) ==> !IsTemporary(n)
    ensures !IsGeneratedOrVendor(s)
  {
    LowerOfLower(s);
    ContainsFits(s, "/jacoco-resources/");
    hide Segments, Lower, Contains, UnderGeneratedDir, IsTemporary;
    forall d | d in GENERATED_DIRS ensures !UnderGeneratedDir(s, d) {
      ShortNotGenerated(s, d);
    }
  }

  // ---- read errors ----

  /**
   * The scans fail on different files: the separate map pass skips what it cannot read, and the fused one asks
   * every file for its metadata that is not excluded by both tests.
   */
  lemma ReadErrorsExact(root: string, tree: seq<Child>, isUtf8: string -> bool)
    ensures SeparateResult(root, tree, isUtf8).Err? <==>
      exists f :: f in AllFiles(tree) && RegexPath(f) && Fails(RegexCandidate, f)
    ensures SharedResult(tree, isUtf8).Err? <==>
      exists f :: f in AllFiles(tree) && !ExcludedByBoth(RelativePath(f)) && Fails(Candidate, f)
  {
    var all := BroadFiles(tree, SkipNothing);
    FilterMembers(RegexPath, all);
    hide IsSource, IsGeneratedOrVendor, IsRegexExcluded;
    forall f ensures f in RegexFiles(tree) <==> f in AllFiles(tree) && RegexPath(f) {
      BroadFilesMembers(tree, f);
    }
    forall f
      ensures f in BroadFiles(tree, ExcludedByBoth) <==> f in AllFiles(tree) && !ExcludedByBoth(RelativePath(f))
    {
      BroadFilesMembers(tree, f);
    }
  }

  /** When the fused scan succeeds so do the separate ones, and every file that either consumer wants is readable. */
  lemma SharedSuccessIsEnough(root: string, tree: seq<Child>, isUtf8: string -> bool)
    requires SharedResult(tree, isUtf8).Ok?
    ensures SeparateResult(root, tree, isUtf8).Ok?
    ensures forall f :: f in AllFiles(tree) && Candidate(f) ==> f.Readable()
  {
    ReadErrorsExact(root, tree, isUtf8);
    hide SeparateResult, SharedResult, IsSource, IsGeneratedOrVendor, IsRegexExcluded, AllFiles;
    forall f | f in AllFiles(tree) && (RegexPath(f) || Candidate(f)) ensures !Fails(Candidate, f) {
      assert !ExcludedByBoth(RelativePath(f));
    }
  }

  lemma {:induction false} ContainsAt(s: string, part: string) returns (i: nat)
    requires Contains(s, part) && |part| >= 2
    ensures i + |part| <= |s| && s[i] == part[0] && s[i + 1] == part[1]
  {
    if part <= s {
      i := 0;
    } else {
      var j := ContainsAt(s[1..], part);
      i := j + 1;
    }
  }

  const HIDDEN := ".packet28/a.rs"

  lemma HiddenContains(part: string)
    requires |part| >= 2 && part[0] == '/' && part[1] != 'a'
    ensures !Contains(HIDDEN, part)
  {
    assert forall i :: 0 <= i < |HIDDEN| - 1 && HIDDEN[i] == '/' ==> HIDDEN[i + 1] == 'a';
    hide Contains;
    if Contains(HIDDEN, part) {
      var i := ContainsAt(HIDDEN, part);
    }
  }

  lemma HiddenUnderNoDir(d: string)
    requires d in GENERATED_DIRS
    ensures !UnderGeneratedDir(HIDDEN, d)
  {
    GeneratedDirNames(d);
    assert ("/" + d + "/")[0] == '/' && ("/" + d + "/")[1] == d[0];
    HiddenContains("/" + d + "/");
    var i :| 0 <= i < |GENERATED_DIRS| && GENERATED_DIRS[i] == d;
    assert (d + "/")[0] == d[0] && (d + "/")[1] == d[1];
    hide Contains;
  }

  lemma HiddenSegments()
    ensures Relative([".packet28", "a.rs"]) == HIDDEN
    ensures forall n :: n in Segments(HIDDEN) ==> !IsTemporary(n)
  {
    hide Relative, Segments;
    var path := [".packet28", "a.rs"];
    HiddenRelative();
    assert IsName(path[0]) && IsName(path[1]);
    SegmentsOfRelative(path);
    HiddenNotTemporary(path[0]);
    HiddenNotTemporary(path[1]);
  }

  lemma HiddenNotTemporary(name: string)
    requires name == ".packet28" || name == "a.rs"
    ensures !IsTemporary(name)
  {
    assert name[1] != 't' && ".tmp"[1] == ".temp"[1] == ".tmp-"[1] == 't';
  }

  lemma HiddenRelative()
    ensures Relative([".packet28", "a.rs"]) == HIDDEN
  {
    var path := [".packet28", "a.rs"];
    assert path[1..] == ["a.rs"];
    assert Relative(path) == path[0] + "/" + Relative(["a.rs"]);
  }

  lemma HiddenNotGenerated()
    ensures !IsGeneratedOrVendor(HIDDEN)
  {
    hide Segments, Lower, Contains, UnderGeneratedDir, IsTemporary;
    HiddenSegments();
    LowerOfLower(HIDDEN);
    HiddenContains("/jacoco-resources/");
    forall d | d in GENERATED_DIRS ensures !UnderGeneratedDir(HIDDEN, d) {
      HiddenUnderNoDir(d);
    }
  }

  lemma HiddenIsMapOnly(f: File)
    requires f.path == [".packet28", "a.rs"] && f.access == Denied
    ensures !RegexPath(f) && !ExcludedByBoth(RelativePath(f)) && Fails(Candidate, f)
  {
    hide IsGeneratedOrVendor, Relative;
    HiddenSegments();
    HiddenNotGenerated();
    assert EXTENSIONS[1] == ".rs" && HasSuffix(HIDDEN, ".rs");
    assert IsRegexExcluded(HIDDEN) && IsSource(HIDDEN);
    assert RelativePath(f) == HIDDEN;
  }

  /**
   * An unreadable source file that only the map consumer wants: the separate scans pass it over, the fused scan fails.
   */
  lemma FusedScanCanFail(root: string, isUtf8: string -> bool)
    ensures var tree := [Child(".packet28", DirNode([Child("a.rs", FileNode("x", Denied))]))];
      SeparateResult(root, tree, isUtf8).Ok? && SharedResult(tree, isUtf8).Err?
  {
    hide *;
    var inner := [Child("a.rs", FileNode("x", Denied))];
    var tree := [Child(".packet28", DirNode(inner))];
    var f := File([".packet28", "a.rs"], "x", Denied);
    HiddenIsOnlyFile(inner, tree, f);
    HiddenIsMapOnly(f);
    ReadErrorsExact(root, tree, isUtf8);
    assert f in AllFiles(tree);
  }

  lemma HiddenIsOnlyFile(inner: seq<Child>, tree: seq<Child>, f: File)
    requires inner == [Child("a.rs", FileNode("x", Denied))] && tree == [Child(".packet28", DirNode(inner))]
    requires f == File([".packet28", "a.rs"], "x", Denied)
    ensures AllFiles(tree) == [f]
  {
    SingleFileWalk([".packet28"], "a.rs", "x", Denied);
    assert [".packet28"] + ["a.rs"] == f.path && [] + [".packet28"] == [".packet28"] && tree[1..] == [];
    assert WalkNode([".packet28"], DirNode(inner), SkipNothing) == [VisitedDir([".packet28"]), VisitedFile(f)];
    assert !SkipNothing(Relative([".packet28"])) && Walk([], tree[1..], SkipNothing) == [];
    var all := Walk([], tree, SkipNothing);
    assert all == WalkNode([".packet28"], DirNode(inner), SkipNothing) + [];
    assert all == [VisitedDir([".packet28"]), VisitedFile(f)];
    assert all[1..] == [VisitedFile(f)] && all[1..][1..] == [];
    assert FlatMap(FileOf, all[1..]) == [f] + FlatMap(FileOf, []);
  }

  // ---- what sharing saves ----

  predicate InBoth(f: File) {
    MapCandidate(f) && RegexCandidate(f)
  }

  lemma {:induction false} WeighOne(files: seq<File>)
    ensures Weigh(One, files) == |files|
  {
    if files != [] {
      WeighOne(files[1..]);
    }
  }

  lemma SeparateReads(root: string, tree: seq<Child>, w: File -> nat)
    requires WellFormed(tree)
    requires forall f :: f in AllFiles(tree) && Candidate(f) ==> f.Readable()
    ensures Weigh(w, Filter(Readable, MapFiles(root, tree)) + Filter(RegexCandidate, RegexFiles(tree)))
         == Weigh(w, Filter(MapCandidate, AllFiles(tree))) + Weigh(w, Filter(RegexCandidate, AllFiles(tree)))
  {
    var all, candidates := AllFiles(tree), Filter(MapCandidate, AllFiles(tree));
    MapFilesAreCandidates(root, tree);
    FilterCongruent(KnownMapCandidate, MapCandidate, all);
    SortPermutes(ByString(), candidates);
    hide IsSource, IsGeneratedOrVendor, IsRegexExcluded;
    FilterMembers(MapCandidate, all);
    forall f | f in MapFiles(root, tree) ensures Readable(f) {
      SortMember(ByString(), candidates, f);
      assert Candidate(f);
    }
    FilterAll(Readable, MapFiles(root, tree));
    WeighPermuted(w, MapFiles(root, tree), candidates);
    FilterTwice(RegexPath, RegexCandidate, RegexCandidate, BroadFiles(tree, SkipNothing));
    SortPermutes(ByPath(), all);
    FilterPermuted(RegexCandidate, BroadFiles(tree, SkipNothing), all);
    WeighPermuted(w, Filter(RegexCandidate, BroadFiles(tree, SkipNothing)), Filter(RegexCandidate, all));
    WeighAppend(w, Filter(Readable, MapFiles(root, tree)), Filter(RegexCandidate, RegexFiles(tree)));
  }

  lemma SharedReads(tree: seq<Child>, w: File -> nat)
    ensures Weigh(w, Filter(Candidate, BroadFiles(tree, ExcludedByBoth))) == Weigh(w, Filter(Candidate, AllFiles(tree)))
  {
    var all := AllFiles(tree);
    BroadFilesAreFiltered(tree);
    hide Filter, FlatMap, Sort, Weigh, IsSource, IsGeneratedOrVendor, IsRegexExcluded;
    forall f: File ensures Candidate(f) ==> Spared(ExcludedByBoth)(f) {
      CandidatesAreSpared(f);
    }
    FilterTwice(Spared(ExcludedByBoth), Candidate, Candidate, BroadFiles(tree, SkipNothing));
    SortPermutes(ByPath(), all);
    FilterPermuted(Candidate, BroadFiles(tree, SkipNothing), all);
    WeighPermuted(w, Filter(Candidate, BroadFiles(tree, SkipNothing)), Filter(Candidate, all));
  }

  /** The reads and the bytes that sharing saves are those of the files both consumers want. */
  lemma SavingIsOverlap(root: string, tree: seq<Child>, isUtf8: string -> bool)
    requires WellFormed(tree) && SharedResult(tree, isUtf8).Ok?
    ensures SeparateResult(root, tree, isUtf8).Ok?
    ensures var separate, shared := SeparateResult(root, tree, isUtf8).value.1, SharedResult(tree, isUtf8).value.1;
      var all := AllFiles(tree);
      && separate.readCalls == |Filter(MapCandidate, all)| + |Filter(RegexCandidate, all)|
      && shared.readCalls == |Filter(Candidate, all)|
      && separate.readCalls - shared.readCalls == |Filter(InBoth, all)|
      && separate.bytesRead - shared.bytesRead == Weigh(Size, Filter(InBoth, all))
  {
    var all := AllFiles(tree);
    SharedSuccessIsEnough(root, tree, isUtf8);
    SeparateReads(root, tree, One);
    SeparateReads(root, tree, Size);
    SharedReads(tree, One);
    SharedReads(tree, Size);
    hide IsSource, IsGeneratedOrVendor, IsRegexExcluded;
    WeighUnion(One, MapCandidate, RegexCandidate, Candidate, InBoth, all);
    WeighUnion(Size, MapCandidate, RegexCandidate, Candidate, InBoth, all);
    WeighOne(Filter(MapCandidate, all));
    WeighOne(Filter(RegexCandidate, all));
    WeighOne(Filter(Candidate, all));
    WeighOne(Filter(InBoth, all));
    WeighOne(Filter(Readable, MapFiles(root, tree)) + Filter(RegexCandidate, RegexFiles(tree)));
    WeighOne(Filter(Candidate, BroadFiles(tree, ExcludedByBoth)));
  }
}
