/** Which documents the scans feed their consumers, told from the tree and the components of the paths in it. */
module ScanMeaning {
  import opened Order
  import opened Sequences
  import opened Sorting
  import opened Text
  import opened RepoPaths
  import opened RepoPathLaws
  import opened RepoWalk
  import opened DigestFraming
  import opened SharedScan
  import opened ScanEquivalence

  // ---- the files of a tree ----

  /** Following the names of `path` down from these children leads to a file. */
  ghost predicate LeadsTo(children: seq<Child>, path: seq<string>, content: string, access: Access)
    decreases children
  {
    path != [] && exists i ::
      0 <= i < |children| && children[i].name == path[0] && NodeLeadsTo(children[i].node, path[1..], content, access)
  }

  ghost predicate NodeLeadsTo(node: Node, rest: seq<string>, content: string, access: Access)
    decreases node
  {
    match node
    case FileNode(c, a) => rest == [] && c == content && a == access
    case DirNode(inner) => LeadsTo(inner, rest, content, access)
  }

  lemma LeadsToCons(children: seq<Child>, path: seq<string>, content: string, access: Access)
    requires children != []
    ensures LeadsTo(children, path, content, access) <==>
      || (path != [] && children[0].name == path[0] && NodeLeadsTo(children[0].node, path[1..], content, access))
      || LeadsTo(children[1..], path, content, access)
  {
    hide NodeLeadsTo;
    if LeadsTo(children, path, content, access) {
      var i :|
        0 <= i < |children| && children[i].name == path[0] && NodeLeadsTo(children[i].node, path[1..], content, access);
      assert i > 0 ==> children[1..][i - 1] == children[i];
    }
    if LeadsTo(children[1..], path, content, access) {
      var rest := children[1..];
      var i :| 0 <= i < |rest| && rest[i].name == path[0] && NodeLeadsTo(rest[i].node, path[1..], content, access);
      assert children[i + 1] == rest[i];
    }
  }

  ghost predicate FoundBelow(at: seq<string>, children: seq<Child>, f: File) {
    at <= f.path && LeadsTo(children, f.path[|at|..], f.content, f.access)
  }

  lemma {:induction false} WalkFindsFiles(at: seq<string>, children: seq<Child>, f: File)
    ensures f in FlatMap(FileOf, Walk(at, children, SkipNothing)) <==> FoundBelow(at, children, f)
    decreases children
  {
    hide LeadsTo, FlatMap;
    if children == [] {
      FlatMapMembers(FileOf, []);
      if at <= f.path {
        NothingLeadsOn(f.path[|at|..], f.content, f.access);
      }
    } else {
      var here := at + [children[0].name];
      WalkFindsFiles(at, children[1..], f);
      NodeFindsFiles(here, children[0].node, f);
      FlatMapAppend(FileOf, WalkNode(here, children[0].node, SkipNothing), Walk(at, children[1..], SkipNothing));
      if at <= f.path {
        LeadsToCons(children, f.path[|at|..], f.content, f.access);
        BelowChild(at, children[0].name, f.path);
      }
    }
  }

  lemma BelowChild(at: seq<string>, name: string, path: seq<string>)
    requires at <= path
    ensures at + [name] <= path <==> path[|at|..] != [] && path[|at|..][0] == name
    ensures at + [name] <= path ==> path[|at|..][1..] == path[|at + [name]|..]
  {
    if at + [name] <= path {
      assert path[..|at| + 1] == at + [name];
    }
  }

  lemma NothingLeadsOn(path: seq<string>, content: string, access: Access)
    ensures !LeadsTo([], path, content, access)
  {
  }

  lemma {:induction false} NodeFindsFiles(here: seq<string>, node: Node, f: File)
    ensures f in FlatMap(FileOf, WalkNode(here, node, SkipNothing)) <==>
      here <= f.path && NodeLeadsTo(node, f.path[|here|..], f.content, f.access)
    decreases node
  {
    match node
    case FileNode(content, access) =>
      var found := File(here, content, access);
      FlatMapMembers(FileOf, [VisitedFile(found)]);
      assert FileOf(VisitedFile(found)) == [found];
      if here <= f.path && f.path[|here|..] == [] {
        assert f.path == here + f.path[|here|..] == here;
      }
    case DirNode(inner) =>
      WalkFindsFiles(here, inner, f);
      DirYieldsItsFiles(here, inner, SkipNothing);
  }

  /** The full walk finds exactly the files of the tree. */
  lemma AllFilesExactly(tree: seq<Child>, f: File)
    ensures f in AllFiles(tree) <==> LeadsTo(tree, f.path, f.content, f.access)
  {
    WalkFindsFiles([], tree, f);
    assert f.path[0..] == f.path;
  }

  // ---- what the consumers want ----

  /** Source by its name, and neither generated nor temporary by its components. */
  ghost predicate WantedByMap(path: seq<string>)
    requires path != []
  {
    && HasEnding(path[|path| - 1],
      [".java", ".rs", ".py", ".tsx", ".ts", ".js", ".jsx", ".go", ".cpp", ".cc", ".cxx", ".hpp", ".hh", ".h", ".c"])
    && !InGenerated(LowerAll(path)) && !HasTemporary(LowerAll(path)) && !InJacoco(LowerAll(path))
  }

  /** Not in a directory left out at the top, and of at most two mebibytes. */
  ghost predicate WantedByRegex(path: seq<string>, content: string)
    requires path != []
  {
    !(|path| > 1 && path[0] in {".git", ".packet28", "target", "node_modules"}) && |content| <= 2097152
  }

  lemma CandidatesExactly(f: File)
    requires IsPathOfNames(f.path)
    ensures MapCandidate(f) <==> WantedByMap(f.path)
    ensures RegexCandidate(f) <==> WantedByRegex(f.path, f.content)
  {
    hide IsSource, IsGeneratedOrVendor, IsRegexExcluded, Relative, HasEnding, InGenerated, HasTemporary, InJacoco;
    SourceByName(f.path);
    GeneratedByComponents(f.path);
    RegexExcludedByComponents(f.path);
  }

  // ---- the documents they get ----

  /** `docs` are the documents of some files, one each, that `select` picks. */
  ghost predicate Feeds(doc: File -> seq<Document>, select: File -> bool) {
    forall f :: doc(f) == if select(f) then [Document(Relative(f.path), f.content)] else []
  }

  function BySegments(): (string, string) -> bool {
    (p: string, q: string) => PathLe(Segments(p), Segments(q))
  }

  /** Every path once, in the given order. */
  ghost predicate InOrder(le: (string, string) -> bool, docs: seq<Document>) {
    forall i, j :: 0 <= i < j < |docs| ==> docs[i].path != docs[j].path && le(docs[i].path, docs[j].path)
  }

  lemma {:induction false} FedMembers(doc: File -> seq<Document>, select: File -> bool, files: seq<File>, d: Document)
    requires Feeds(doc, select)
    ensures d in FlatMap(doc, files) <==>
      exists f :: f in files && select(f) && d == Document(Relative(f.path), f.content)
  {
    hide Relative;
    FlatMapMembers(doc, files);
  }

  ghost predicate SortedPaths(le: (string, string) -> bool, files: seq<File>) {
    forall i, j :: 0 <= i < j < |files| ==>
      Relative(files[i].path) != Relative(files[j].path) && le(Relative(files[i].path), Relative(files[j].path))
  }

  lemma {:induction false} FedInOrder(le: (string, string) -> bool, doc: File -> seq<Document>, select: File -> bool,
      files: seq<File>)
    requires Feeds(doc, select) && SortedPaths(le, files)
    ensures InOrder(le, FlatMap(doc, files))
  {
    hide Relative;
    if files != [] {
      var rest := FlatMap(doc, files[1..]);
      FedInOrder(le, doc, select, files[1..]);
      forall d | d in rest
        ensures Relative(files[0].path) != d.path && le(Relative(files[0].path), d.path)
      {
        FedMembers(doc, select, files[1..], d);
        var f :| f in files[1..] && d == Document(Relative(f.path), f.content);
        var j :| 0 <= j < |files| - 1 && files[1..][j] == f;
        assert files[j + 1] == f;
      }
      assert forall j :: 0 <= j < |rest| ==> rest[j] in rest;
    }
  }

  /** Sorting the files of a tree puts their paths in order, each once. */
  lemma SortedFiles(le: (string, string) -> bool, order: (File, File) -> bool, files: seq<File>)
    requires TotalPreorder(order) && DistinctPaths(files) && NamedPaths(files)
    requires forall f, g :: f in files && g in files && order(f, g) ==> le(Relative(f.path), Relative(g.path))
    ensures SortedPaths(le, Sort(order, files))
  {
    hide Relative;
    var sorted := Sort(order, files);
    SortSorts(order, files);
    SortPermutes(order, files);
    DistinctAfterSorting(files, sorted);
    forall i, j | 0 <= i < j < |sorted|
      ensures Relative(sorted[i].path) != Relative(sorted[j].path)
        && le(Relative(sorted[i].path), Relative(sorted[j].path))
    {
      assert sorted[i] in files && sorted[j] in files && order(sorted[i], sorted[j]);
      RelativeIdentifies(files, sorted[i], sorted[j]);
    }
  }

  lemma DistinctAfterSorting(a: seq<File>, b: seq<File>)
    requires multiset(a) == multiset(b) && DistinctPaths(a)
    ensures DistinctPaths(b)
  {
    PermutedMembers(a, b);
    DistinctByPermutation(a, b);
    forall i, j | 0 <= i < j < |b| ensures b[i].path != b[j].path {
      assert b[i] in a && b[j] in a;
      var x :| 0 <= x < |a| && a[x] == b[i];
      var y :| 0 <= y < |a| && a[y] == b[j];
      assert x != y;
    }
  }

  lemma FilesByPath(tree: seq<Child>, files: seq<File>)
    requires WellFormed(tree) && DistinctPaths(files) && forall f :: f in files ==> f in AllFiles(tree)
    ensures SortedPaths(BySegments(), Sort(ByPath(), files)) && SortedPaths(StrLe, Sort(ByString(), files))
  {
    hide Relative, Segments, AllFiles, Sort;
    WalkNamesFilesOnce([], tree);
    ByPathIsTotal();
    ByStringIsTotal();
    assert NamedPaths(files) by {
      AllFilesNamed(tree);
    }
    forall f, g | f in files && g in files && ByPath()(f, g)
      ensures BySegments()(Relative(f.path), Relative(g.path))
    {
      SegmentsOfRelative(f.path);
      SegmentsOfRelative(g.path);
    }
    SortedFiles(BySegments(), ByPath(), files);
    SortedFiles(StrLe, ByString(), files);
  }

  lemma AllFilesNamed(tree: seq<Child>)
    requires WellFormed(tree)
    ensures DistinctPaths(AllFiles(tree)) && NamedPaths(AllFiles(tree))
  {
    WalkNamesFilesOnce([], tree);
  }

  lemma {:induction false} DistinctFiltered(p: File -> bool, files: seq<File>)
    requires DistinctPaths(files)
    ensures DistinctPaths(Filter(p, files))
  {
    if files != [] {
      DistinctFiltered(p, files[1..]);
      FilterMembers(p, files[1..]);
      forall f | f in files[1..] ensures f.path != files[0].path {
        var j :| 0 <= j < |files| - 1 && files[1..][j] == f;
        assert files[j + 1] == f;
      }
      assert forall f :: f in Filter(p, files[1..]) ==> f.path != files[0].path;
    }
  }

  ghost predicate IsMapped(tree: seq<Child>, isUtf8: string -> bool, d: Document, path: seq<string>) {
    && IsPathOfNames(path) && LeadsTo(tree, path, d.bytes, Granted) && d.path == Relative(path)
    && WantedByMap(path) && isUtf8(d.bytes)
  }

  /** A document for each readable UTF-8 file of the tree that the map consumer wants. */
  ghost predicate MapsDocument(tree: seq<Child>, isUtf8: string -> bool, d: Document) {
    exists path :: IsMapped(tree, isUtf8, d, path)
  }

  ghost predicate IsSearched(tree: seq<Child>, d: Document, path: seq<string>) {
    && IsPathOfNames(path) && LeadsTo(tree, path, d.bytes, Granted) && d.path == Relative(path)
    && WantedByRegex(path, d.bytes) && d.bytes != "" && forall i :: 0 <= i < |d.bytes| ==> d.bytes[i] as int != 0
  }

  /** A document for each readable file the regex consumer wants that is not empty and holds no zero character. */
  ghost predicate SearchesDocument(tree: seq<Child>, d: Document) {
    exists path :: IsSearched(tree, d, path)
  }

  lemma ConsumedMembers(tree: seq<Child>, isUtf8: string -> bool, d: Document)
    requires WellFormed(tree)
    ensures (exists f :: f in AllFiles(tree) && Fed(isUtf8)(f) && d == Document(Relative(f.path), f.content)) <==>
      MapsDocument(tree, isUtf8, d)
  {
    hide Relative, WantedByMap, LeadsTo, MapCandidate, AllFiles;
    AllFilesNamed(tree);
    if f :| f in AllFiles(tree) && Fed(isUtf8)(f) && d == Document(Relative(f.path), f.content) {
      FedMeans(isUtf8, f);
      AllFilesExactly(tree, f);
      CandidatesExactly(f);
      assert IsMapped(tree, isUtf8, d, f.path);
    }
    if path :| IsMapped(tree, isUtf8, d, path) {
      var f := File(path, d.bytes, Granted);
      FedMeans(isUtf8, f);
      AllFilesExactly(tree, f);
      CandidatesExactly(f);
    }
  }

  lemma FeedsMap(isUtf8: string -> bool)
    ensures Feeds(SharedMapDoc(isUtf8), Fed(isUtf8))
  {
    hide Relative, MapCandidate;
    forall f ensures SharedMapDoc(isUtf8)(f) == if Fed(isUtf8)(f) then [Document(Relative(f.path), f.content)] else [] {
      assert DocumentOf(f) == Document(Relative(f.path), f.content);
    }
  }

  /**
   * Both scans feed the map consumer exactly the wanted files of the tree, each once: the shared scan in the order of
   * the path components, the separate one in the order of the path strings.
   */
  lemma MapDocumentsExactly(root: string, tree: seq<Child>, isUtf8: string -> bool)
    requires WellFormed(tree)
    ensures forall d :: d in SharedMapDocs(tree, isUtf8) <==> MapsDocument(tree, isUtf8, d)
    ensures forall d :: d in SeparateMapDocs(root, tree, isUtf8) <==> MapsDocument(tree, isUtf8, d)
    ensures InOrder(BySegments(), SharedMapDocs(tree, isUtf8))
    ensures InOrder(StrLe, SeparateMapDocs(root, tree, isUtf8))
  {
    hide Relative, MapCandidate, AllFiles, SharedMapDocs, SeparateMapDocs, Sort, MapsDocument, FlatMap, Filter;
    var files := Consumed(tree, isUtf8);
    SharedMapDocsAreConsumed(tree, isUtf8);
    SeparateMapDocsAreConsumed(root, tree, isUtf8);
    FeedsMap(isUtf8);
    FilterMembers(Fed(isUtf8), AllFiles(tree));
    AllFilesNamed(tree);
    DistinctFiltered(Fed(isUtf8), AllFiles(tree));
    FilesByPath(tree, files);
    FedInOrder(BySegments(), SharedMapDoc(isUtf8), Fed(isUtf8), Sort(ByPath(), files));
    FedInOrder(StrLe, SharedMapDoc(isUtf8), Fed(isUtf8), Sort(ByString(), files));
    SortPermutes(ByPath(), files);
    SortPermutes(ByString(), files);
    forall d
      ensures d in SharedMapDocs(tree, isUtf8) <==> MapsDocument(tree, isUtf8, d)
      ensures d in SeparateMapDocs(root, tree, isUtf8) <==> MapsDocument(tree, isUtf8, d)
    {
      FedMembers(SharedMapDoc(isUtf8), Fed(isUtf8), Sort(ByPath(), files), d);
      FedMembers(SharedMapDoc(isUtf8), Fed(isUtf8), Sort(ByString(), files), d);
      ConsumedMembers(tree, isUtf8, d);
    }
  }

  predicate Searched(f: File) {
    RegexCandidate(f) && f.Readable() && IsText(f.content)
  }

  lemma FeedsRegex()
    ensures Feeds(RegexDoc, Searched)
  {
    hide Relative, RegexCandidate, IsText;
    forall f ensures RegexDoc(f) == if Searched(f) then [Document(Relative(f.path), f.content)] else [] {
      assert DocumentOf(f) == Document(Relative(f.path), f.content);
    }
  }

  lemma SearchedMembers(tree: seq<Child>, d: Document)
    requires WellFormed(tree)
    ensures (exists f :: f in AllFiles(tree) && Searched(f) && d == Document(Relative(f.path), f.content)) <==>
      SearchesDocument(tree, d)
  {
    hide Relative, WantedByRegex, LeadsTo, RegexCandidate, AllFiles;
    AllFilesNamed(tree);
    if f :| f in AllFiles(tree) && Searched(f) && d == Document(Relative(f.path), f.content) {
      AllFilesExactly(tree, f);
      CandidatesExactly(f);
      assert forall i :: 0 <= i < |d.bytes| ==> d.bytes[i] in d.bytes;
      assert IsSearched(tree, d, f.path);
    }
    if path :| IsSearched(tree, d, path) {
      var f := File(path, d.bytes, Granted);
      AllFilesExactly(tree, f);
      CandidatesExactly(f);
    }
  }

  /** And the regex consumer exactly the wanted texts, each once, in the order of the path components. */
  lemma RegexDocumentsExactly(tree: seq<Child>)
    requires WellFormed(tree)
    ensures forall d :: d in FlatMap(RegexDoc, RegexFiles(tree)) <==> SearchesDocument(tree, d)
    ensures InOrder(BySegments(), FlatMap(RegexDoc, RegexFiles(tree)))
  {
    hide Relative, RegexCandidate, AllFiles, Sort, SearchesDocument, FlatMap, Filter, IsText;
    var all := AllFiles(tree);
    var sorted := Sort(ByPath(), all);
    RegexFilesAre(tree);
    FlatMapFilter(RegexDoc, RegexPath, sorted) by {
      forall f | f in sorted && !RegexPath(f) ensures RegexDoc(f) == [] {
        NotSearched(f);
      }
    }
    FeedsRegex();
    AllFilesNamed(tree);
    FilesByPath(tree, all);
    FedInOrder(BySegments(), RegexDoc, Searched, sorted);
    SortPermutes(ByPath(), all);
    forall d ensures d in FlatMap(RegexDoc, RegexFiles(tree)) <==> SearchesDocument(tree, d) {
      FedMembers(RegexDoc, Searched, sorted, d);
      SearchedMembers(tree, d);
    }
  }

  lemma RegexFilesAre(tree: seq<Child>)
    ensures RegexFiles(tree) == Filter(RegexPath, Sort(ByPath(), AllFiles(tree)))
  {
  }

  lemma NotSearched(f: File)
    requires !RegexPath(f)
    ensures RegexDoc(f) == []
  {
    hide IsRegexExcluded;
  }

  // ---- what is counted of the reads ----

  ghost predicate IsPeak(files: seq<File>, peak: nat) {
    && (forall f :: f in files ==> |f.content| <= peak)
    && (files == [] ==> peak == 0)
    && (files != [] ==> exists f :: f in files && |f.content| == peak)
  }

  lemma PeakGrows(files: seq<File>, peak: nat, f: File)
    requires IsPeak(files, peak)
    ensures IsPeak(files + [f], if |f.content| > peak then |f.content| else peak)
  {
    assert f in files + [f] && forall g :: g in files ==> g in files + [f];
  }

  /** The peak is the size of the largest file that was read. */
  lemma {:induction false} PeakExactly(files: seq<File>)
    ensures IsPeak(files, Largest(files))
  {
    if files != [] {
      hide IsPeak;
      var before, last := files[..|files| - 1], files[|files| - 1];
      PeakExactly(before);
      PeakGrows(before, Largest(before), last);
      assert files == before + [last];
    }
  }
}
