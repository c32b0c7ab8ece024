/** The directory walk, and why pruning an excluded directory loses nothing. */
module RepoWalk {
  import opened Sequences
  import opened RepoPaths

  /** Whether a file can be read, answers only for its metadata, or not even that. */
  datatype Access = Granted | Denied | Lost

  datatype Node = FileNode(content: string, access: Access) | DirNode(children: seq<Child>)

  datatype Child = Child(name: string, node: Node)

  datatype File = File(path: seq<string>, content: string, access: Access) {
    predicate Readable() {
      access == Granted
    }

    /** Its metadata can be had. */
    predicate Known() {
      access != Lost
    }
  }

  datatype Visit = VisitedFile(file: File) | VisitedDir(path: seq<string>)

  /** `WalkBuilder` with a `filter_entry`: an entry that is skipped is not yielded and not descended into. */
  function Walk(at: seq<string>, children: seq<Child>, skip: string -> bool): seq<Visit>
    decreases children
  {
    if children == [] then []
    else
      var here := at + [children[0].name];
      (if skip(Relative(here)) then [] else WalkNode(here, children[0].node, skip)) + Walk(at, children[1..], skip)
  }

  function WalkNode(here: seq<string>, node: Node, skip: string -> bool): seq<Visit>
    decreases node
  {
    match node
    case FileNode(content, access) => [VisitedFile(File(here, content, access))]
    case DirNode(children) => [VisitedDir(here)] + Walk(here, children, skip)
  }

  predicate SkipNothing(path: string) {
    false
  }

  function FileOf(visit: Visit): seq<File> {
    match visit
    case VisitedFile(file) => [file]
    case VisitedDir(_) => []
  }

  /** The files of a tree that a walk with the given filter reaches, in visiting order. */
  function FilesWalked(children: seq<Child>, skip: string -> bool): seq<File> {
    FlatMap(FileOf, Walk([], children, skip))
  }

  function AllFiles(children: seq<Child>): seq<File> {
    FilesWalked(children, SkipNothing)
  }

  function RelativePath(f: File): string {
    Relative(f.path)
  }

  function Spared(skip: string -> bool): File -> bool {
    f => !skip(RelativePath(f))
  }

  ghost predicate Below(at: seq<string>, f: File) {
    at < f.path && (at != [] ==> exists rest :: RelativePath(f) == Relative(at) + "/" + rest)
  }

  lemma BelowTransitive(at: seq<string>, name: string, f: File)
    requires Below(at + [name], f)
    ensures Below(at, f)
  {
    if at != [] {
      RelativeOfChild(at, name);
      var rest :| RelativePath(f) == Relative(at + [name]) + "/" + rest;
      assert RelativePath(f) == Relative(at) + "/" + (name + "/" + rest);
    }
  }

  lemma {:induction false} WalkStaysBelow(at: seq<string>, children: seq<Child>, skip: string -> bool)
    ensures forall f :: f in FlatMap(FileOf, Walk(at, children, skip)) ==> Below(at, f)
    decreases children
  {
    if children != [] {
      var here := at + [children[0].name];
      var rest := Walk(at, children[1..], skip);
      WalkStaysBelow(at, children[1..], skip);
      if skip(Relative(here)) {
        assert Walk(at, children, skip) == [] + rest == rest;
      } else {
        NodeStaysBelow(at, children[0].name, children[0].node, skip);
        FlatMapAppend(FileOf, WalkNode(here, children[0].node, skip), rest);
      }
    }
  }

  lemma {:induction false} NodeStaysBelow(at: seq<string>, name: string, node: Node, skip: string -> bool)
    ensures forall f :: f in FlatMap(FileOf, WalkNode(at + [name], node, skip)) ==>
      at + [name] <= f.path && Below(at, f) && (f.path == at + [name] || Below(at + [name], f))
    decreases node
  {
    var here := at + [name];
    match node
    case FileNode(content, access) =>
      if at != [] {
        RelativeOfChild(at, name);
      }
    case DirNode(children) =>
      WalkStaysBelow(here, children, skip);
      DirYieldsItsFiles(here, children, skip);
      forall f | f in FlatMap(FileOf, Walk(here, children, skip)) ensures Below(at, f) {
        BelowTransitive(at, name, f);
      }
  }

  lemma DirYieldsItsFiles(here: seq<string>, children: seq<Child>, skip: string -> bool)
    ensures FlatMap(FileOf, WalkNode(here, DirNode(children), skip)) == FlatMap(FileOf, Walk(here, children, skip))
  {
    var below := Walk(here, children, skip);
    assert ([VisitedDir(here)] + below)[1..] == below;
    assert FlatMap(FileOf, [VisitedDir(here)] + below) == [] + FlatMap(FileOf, below);
  }

  /**
   * Pruned walk equals filtered walk: when the test stays true below a path, not descending where
   * it holds yields the files of the full walk that fail the test themselves.
   */
  lemma {:induction false} PrunedWalkIsFilteredWalk(at: seq<string>, children: seq<Child>, skip: string -> bool)
    requires ClosedUnderExtension(skip)
    ensures FlatMap(FileOf, Walk(at, children, skip)) ==
      Filter(Spared(skip), FlatMap(FileOf, Walk(at, children, SkipNothing)))
    decreases children
  {
    if children != [] {
      var name, node, rest := children[0].name, children[0].node, children[1..];
      var here := at + [name];
      PrunedWalkIsFilteredWalk(at, rest, skip);
      FlatMapAppend(FileOf, WalkNode(here, node, SkipNothing), Walk(at, rest, SkipNothing));
      FlatMapAppend(FileOf, WalkNode(here, node, skip), Walk(at, rest, skip));
      var below := FlatMap(FileOf, WalkNode(here, node, SkipNothing));
      FilterAppend(Spared(skip), below, FlatMap(FileOf, Walk(at, rest, SkipNothing)));
      if skip(Relative(here)) {
        assert Walk(at, children, skip) == [] + Walk(at, rest, skip) == Walk(at, rest, skip);
        NodeStaysBelow(at, name, node, SkipNothing);
        forall f | f in below ensures !Spared(skip)(f) {
          if f.path != here {
            assert Below(here, f) && here != [];
            var tail :| RelativePath(f) == Relative(here) + "/" + tail;
            assert skip(Relative(here) + "/" + tail);
          } else {
            assert RelativePath(f) == Relative(here);
          }
        }
        FilterNone(Spared(skip), below);
      } else {
        PrunedNodeIsFilteredNode(here, node, skip);
      }
    }
  }

  lemma {:induction false} PrunedNodeIsFilteredNode(here: seq<string>, node: Node, skip: string -> bool)
    requires ClosedUnderExtension(skip) && !skip(Relative(here))
    ensures FlatMap(FileOf, WalkNode(here, node, skip)) ==
      Filter(Spared(skip), FlatMap(FileOf, WalkNode(here, node, SkipNothing)))
    decreases node
  {
    match node
    case FileNode(content, access) =>
      var f := File(here, content, access);
      assert RelativePath(f) == Relative(here);
      assert FlatMap(FileOf, [VisitedFile(f)]) == [f] + FlatMap(FileOf, []);
      assert Filter(Spared(skip), [f]) == [f] + Filter(Spared(skip), []);
    case DirNode(children) =>
      PrunedWalkIsFilteredWalk(here, children, skip);
      DirYieldsItsFiles(here, children, skip);
      DirYieldsItsFiles(here, children, SkipNothing);
  }

  // ---- real trees name each file once ----

  ghost predicate WellFormed(children: seq<Child>)
    decreases children
  {
    && (forall i :: 0 <= i < |children| ==> IsName(children[i].name))
    && (forall i, j :: 0 <= i < j < |children| ==> children[i].name != children[j].name)
    && (forall i :: 0 <= i < |children| ==> children[i].node.DirNode? ==> WellFormed(children[i].node.children))
  }

  ghost predicate DistinctPaths(files: seq<File>) {
    forall i, j :: 0 <= i < j < |files| ==> files[i].path != files[j].path
  }

  ghost predicate NamedPaths(files: seq<File>) {
    forall f :: f in files ==> f.path != [] && forall n :: n in f.path ==> IsName(n)
  }

  lemma {:induction false} WalkNamesFilesOnce(at: seq<string>, children: seq<Child>)
    requires WellFormed(children) && forall n :: n in at ==> IsName(n)
    ensures var files := FlatMap(FileOf, Walk(at, children, SkipNothing));
      && DistinctPaths(files) && NamedPaths(files)
      && forall f :: f in files ==> exists i :: 0 <= i < |children| && at + [children[i].name] <= f.path
    decreases children
  {
    if children != [] {
      var name, node, rest := children[0].name, children[0].node, children[1..];
      var here := at + [name];
      var first := FlatMap(FileOf, WalkNode(here, node, SkipNothing));
      var others := FlatMap(FileOf, Walk(at, rest, SkipNothing));
      WellFormedTail(children);
      WalkNamesFilesOnce(at, rest);
      FlatMapAppend(FileOf, WalkNode(here, node, SkipNothing), Walk(at, rest, SkipNothing));
      NodeStaysBelow(at, name, node, SkipNothing);
      NodeNamesFilesOnce(here, node);
      NamesApart(at, children, first, others);
    }
  }

  /** The files below the first child and those below the others have different paths, each below some child. */
  lemma NamesApart(at: seq<string>, children: seq<Child>, first: seq<File>, others: seq<File>)
    requires children != [] && forall i :: 0 < i < |children| ==> children[i].name != children[0].name
    requires DistinctPaths(first) && NamedPaths(first) && DistinctPaths(others) && NamedPaths(others)
    requires forall f :: f in first ==> at + [children[0].name] <= f.path
    requires forall g :: g in others ==> exists i :: 0 <= i < |children| - 1 && at + [children[1..][i].name] <= g.path
    ensures DistinctPaths(first + others) && NamedPaths(first + others)
    ensures forall f :: f in first + others ==> exists i :: 0 <= i < |children| && at + [children[i].name] <= f.path
  {
    hide Relative;
    forall g | g in others ensures exists i :: 0 < i < |children| && at + [children[i].name] <= g.path {
      var i :| 0 <= i < |children| - 1 && at + [children[1..][i].name] <= g.path;
      assert children[i + 1] == children[1..][i];
    }
    forall f, g | f in first && g in others ensures f.path != g.path {
      var i :| 0 < i < |children| && at + [children[i].name] <= g.path;
      assert f.path[|at|] == children[0].name && g.path[|at|] == children[i].name;
    }
  }

  lemma {:induction false} NodeNamesFilesOnce(here: seq<string>, node: Node)
    requires node.DirNode? ==> WellFormed(node.children)
    requires here != [] && forall n :: n in here ==> IsName(n)
    ensures var files := FlatMap(FileOf, WalkNode(here, node, SkipNothing)); DistinctPaths(files) && NamedPaths(files)
    decreases node
  {
    match node
    case FileNode(_, _) =>
    case DirNode(inner) =>
      WalkNamesFilesOnce(here, inner);
      DirYieldsItsFiles(here, inner, SkipNothing);
  }

  lemma WellFormedTail(children: seq<Child>)
    requires WellFormed(children) && children != []
    ensures WellFormed(children[1..])
    ensures children[0].node.DirNode? ==> WellFormed(children[0].node.children)
  {
  }

  lemma RelativeIdentifies(files: seq<File>, f: File, g: File)
    requires NamedPaths(files) && f in files && g in files
    ensures RelativePath(f) == RelativePath(g) ==> f.path == g.path
  {
    SegmentsOfRelative(f.path);
    SegmentsOfRelative(g.path);
  }
}
