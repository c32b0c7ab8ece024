/**
 * The architecture check's dependency graph: loading it from Cargo metadata and searching it for forbidden packages.
 */
module DependencyGraph {
  import opened Order
  import opened Sequences
  import opened Sorting
  import opened Wrappers
  import opened DependencyPaths
  import opened DependencySearch

  datatype Package = Package(id: string, name: string)

  /** `kinds` holds the `kind` of each entry of `dep_kinds`; Cargo writes a normal dependency as null. */
  datatype Dependency = Dependency(pkg: string, kinds: seq<Option<string>>)

  datatype Node = Node(id: string, deps: seq<Dependency>)

  datatype MetadataError =
    | DuplicatePackage(id: string)
    | UnknownMembers(ids: set<string>)
    | UnknownNode(id: string)
    | UnknownDependency(id: string, pkg: string)
    | MissingWorkspacePackage(name: string)
    | AmbiguousWorkspacePackage(name: string)

  predicate HasNormalKind(kinds: seq<Option<string>>) {
    None in kinds || Some("normal") in kinds
  }

  // ---- what well-formed metadata says ----

  ghost predicate DistinctIds(packages: seq<Package>) {
    forall i, j :: 0 <= i < j < |packages| ==> packages[i].id != packages[j].id
  }

  ghost predicate Named(packages: seq<Package>, names: Names) {
    && (forall p :: p in packages ==> p.id in names && names[p.id] == p.name)
    && (forall id :: id in names ==> Package(id, names[id]) in packages)
  }

  ghost predicate KnownNode(names: Names, node: Node) {
    node.id in names && forall d :: d in node.deps ==> d.pkg in names
  }

  /** `from` depends on `to` in some way that is not only for building or testing: the kind is absent or "normal". */
  ghost predicate Linked(nodes: seq<Node>, from: string, to: string) {
    exists node, d, kind :: node in nodes && node.id == from && d in node.deps && d.pkg == to && kind in d.kinds
      && (kind == None || kind == Some("normal"))
  }

  ghost predicate IsFault(packages: seq<Package>, members: set<string>, nodes: seq<Node>, error: MetadataError) {
    match error
    case DuplicatePackage(id) =>
      exists i, j :: 0 <= i < j < |packages| && packages[i].id == id == packages[j].id
    case UnknownMembers(ids) =>
      && DistinctIds(packages) && ids != {}
      && forall id :: id in ids <==> id in members && forall p :: p in packages ==> p.id != id
    case UnknownNode(id) =>
      && DistinctIds(packages) && (exists node :: node in nodes && node.id == id)
      && forall p :: p in packages ==> p.id != id
    case UnknownDependency(id, pkg) =>
      && DistinctIds(packages) && (exists node, d :: node in nodes && node.id == id && d in node.deps && d.pkg == pkg)
      && forall p :: p in packages ==> p.id != pkg
    case _ => false
  }

  /** Reads the package list; a repeated id is an error. */
  method ReadPackages(packages: seq<Package>) returns (r: Result<Names, MetadataError>)
    ensures r.Ok? <==> DistinctIds(packages)
    ensures r.Ok? ==> Named(packages, r.value)
    ensures r.Err? ==> IsFault(packages, {}, [], r.error)
  {
    var names: Names := map[];
    for i := 0 to |packages|
      invariant DistinctIds(packages[..i])
      invariant Named(packages[..i], names)
    {
      assert packages[..i + 1] == packages[..i] + [packages[i]];
      if packages[i].id in names {
        assert Package(packages[i].id, names[packages[i].id]) in packages[..i];
        return Err(DuplicatePackage(packages[i].id));
      }
      names := names[packages[i].id := packages[i].name];
    }
    assert packages[..|packages|] == packages;
    return Ok(names);
  }

  /** Adds the normal dependencies of one resolve node to the edges. */
  method ReadNode(names: Names, node: Node, edges: Edges) returns (r: Result<Edges, MetadataError>)
    requires edges.Keys == names.Keys
    ensures r.Ok? <==> KnownNode(names, node)
    ensures r.Ok? ==> r.value.Keys == names.Keys
    ensures r.Ok? ==> forall u, w :: u in names ==>
      (w in r.value[u] <==> w in edges[u] || Linked([node], u, w))
    ensures r.Err? ==>
      || (r.error == UnknownNode(node.id) && node.id !in names)
      || (r.error.UnknownDependency? && r.error.id == node.id && r.error.pkg !in names
          && exists d :: d in node.deps && d.pkg == r.error.pkg)
  {
    if node.id !in names {
      return Err(UnknownNode(node.id));
    }
    var linked := edges;
    for i := 0 to |node.deps|
      invariant linked.Keys == names.Keys
      invariant forall d :: d in node.deps[..i] ==> d.pkg in names
      invariant forall u :: u in names && u != node.id ==> linked[u] == edges[u]
      invariant forall w :: w in linked[node.id] <==>
        w in edges[node.id] || exists d :: d in node.deps[..i] && d.pkg == w && HasNormalKind(d.kinds)
    {
      var d := node.deps[i];
      assert node.deps[..i + 1] == node.deps[..i] + [d];
      if d.pkg !in names {
        return Err(UnknownDependency(node.id, d.pkg));
      }
      if HasNormalKind(d.kinds) {
        linked := linked[node.id := linked[node.id] + {d.pkg}];
      }
    }
    assert node.deps[..|node.deps|] == node.deps;
    return Ok(linked);
  }

  /** Reads the resolved graph: exactly the normal dependencies become edges. */
  method ReadNodes(names: Names, nodes: seq<Node>) returns (r: Result<Edges, MetadataError>)
    ensures r.Ok? <==> forall node :: node in nodes ==> KnownNode(names, node)
    ensures r.Ok? ==> r.value.Keys == names.Keys
    ensures r.Ok? ==> forall u, w :: u in names ==> (w in r.value[u] <==> Linked(nodes, u, w))
    ensures r.Err? ==> r.error.UnknownNode? || r.error.UnknownDependency?
    ensures r.Err? && r.error.UnknownNode? ==>
      r.error.id !in names && exists node :: node in nodes && node.id == r.error.id
    ensures r.Err? && r.error.UnknownDependency? ==>
      && r.error.pkg !in names
      && exists node, d :: node in nodes && node.id == r.error.id && d in node.deps && d.pkg == r.error.pkg
  {
    var edges: Edges := map id | id in names :: {};
    for i := 0 to |nodes|
      invariant edges.Keys == names.Keys
      invariant forall node :: node in nodes[..i] ==> KnownNode(names, node)
      invariant forall u, w :: u in names ==> (w in edges[u] <==> Linked(nodes[..i], u, w))
    {
      assert nodes[..i + 1] == nodes[..i] + [nodes[i]];
      var added := ReadNode(names, nodes[i], edges);
      if added.Err? {
        assert nodes[i] in nodes;
        return Err(added.error);
      }
      forall u, w ensures Linked(nodes[..i + 1], u, w) <==> Linked(nodes[..i], u, w) || Linked([nodes[i]], u, w) {
        LinkedSplits(nodes[..i], nodes[i], u, w);
      }
      edges := added.value;
    }
    assert nodes[..|nodes|] == nodes;
    return Ok(edges);
  }

  lemma LinkedSplits(nodes: seq<Node>, last: Node, u: string, w: string)
    ensures Linked(nodes + [last], u, w) <==> Linked(nodes, u, w) || Linked([last], u, w)
  {
    if Linked([last], u, w) {
      var node, d :| node in [last] && node.id == u && d in node.deps && d.pkg == w && HasNormalKind(d.kinds);
      assert node in nodes + [last];
    }
    if Linked(nodes, u, w) {
      var node, d :| node in nodes && node.id == u && d in node.deps && d.pkg == w && HasNormalKind(d.kinds);
      assert node in nodes + [last];
    }
  }

  // ---- what a forbidden path is ----

  /** A path along normal dependencies from the source to another package called `name`. */
  ghost predicate Leads(names: Names, edges: Edges, source: string, path: seq<string>, name: string) {
    && IsPath(edges, source, path)
    && path[|path| - 1] != source && NameOf(names, path[|path| - 1]) == name
  }

  /** No path to any package of that name is shorter, or as short and earlier by (name, id). */
  ghost predicate Foremost(names: Names, edges: Edges, source: string, path: seq<string>, name: string) {
    Leads(names, edges, source, path, name)
    && forall other :: Leads(names, edges, source, other, name) ==> Before(names, path, other)
  }

  /** The reported path is a shortest one, and which one is fixed by the graph alone. */
  lemma ForemostIsShortestAndUnique(names: Names, edges: Edges, source: string, path: seq<string>, other: seq<string>,
      name: string)
    requires Foremost(names, edges, source, path, name) && Leads(names, edges, source, other, name)
    ensures |path| <= |other|
    ensures Foremost(names, edges, source, other, name) ==> other == path
  {
    if Foremost(names, edges, source, other, name) {
      BeforeAntisymmetric(names, path, other);
    }
  }

  /** In the order of discovery, the first package of a name is the one the foremost path leads to. */
  lemma FirstFoundIsForemost(names: Names, edges: Edges, source: string, s: Search, k: nat)
    requires Searching(names, edges, source, s, |s.order|)
    requires k < |s.order| && s.order[k] != source
    requires forall j :: 0 <= j < k && NameOf(names, s.order[j]) == NameOf(names, s.order[k]) ==> s.order[j] == source
    ensures Foremost(names, edges, source, s.paths[s.order[k]], NameOf(names, s.order[k]))
  {
    var name := NameOf(names, s.order[k]);
    var path := s.paths[s.order[k]];
    PathsLead(edges, source, s, s.order[k]);
    Finishes(names, edges, source, s);
    forall other | Leads(names, edges, source, other, name) ensures Before(names, path, other) {
      var end := other[|other| - 1];
      CompleteIsFirst(names, edges, source, s.paths, other);
      var j :| 0 <= j < |s.order| && s.order[j] == end;
      assert k <= j;
      BeforeTransitive(names, path, s.paths[end], other);
    }
  }

  lemma ReachableIsFound(names: Names, edges: Edges, source: string, s: Search, path: seq<string>, name: string)
    requires Searching(names, edges, source, s, |s.order|)
    requires Leads(names, edges, source, path, name)
    ensures exists k :: 0 <= k < |s.order| && s.order[k] != source && NameOf(names, s.order[k]) == name
  {
    Finishes(names, edges, source, s);
    CompleteIsFirst(names, edges, source, s.paths, path);
    assert path[|path| - 1] in s.order;
  }

  // ---- the graph and its search ----

  function ById(names: Names): (string, string) -> bool {
    (a: string, b: string) => PathLe(KeyOf(names, a), KeyOf(names, b))
  }

  lemma ByIdIsTotalPreorder(names: Names)
    ensures TotalPreorder(ById(names))
  {
    forall a, b ensures ById(names)(a, b) || ById(names)(b, a) {
      PathLeTotal(KeyOf(names, a), KeyOf(names, b));
    }
    forall a, b, c | ById(names)(a, b) && ById(names)(b, c) ensures ById(names)(a, c) {
      PathLeTransitive(KeyOf(names, a), KeyOf(names, b), KeyOf(names, c));
    }
  }

  /** `sorted(ids, key=(name, id))`, from a set that is iterated in any order. */
  method SortedIds(names: Names, ids: set<string>) returns (sorted: seq<string>)
    ensures forall id :: id in sorted <==> id in ids
    ensures Sorted(ById(names), sorted)
  {
    var listed: seq<string> := [];
    var rest := ids;
    while rest != {}
      invariant forall id :: id in ids <==> id in listed || id in rest
    {
      var id :| id in rest;
      listed := listed + [id];
      rest := rest - {id};
    }
    ByIdIsTotalPreorder(names);
    SortPermutes(ById(names), listed);
    SortSorts(ById(names), listed);
    sorted := Sort(ById(names), listed);
  }

  class CargoMetadataGraph {
    var names: Names
    var edges: Edges
    var workspaceMembers: set<string>

    ghost predicate Valid()
      reads this
    {
      && edges.Keys == names.Keys
      && (forall u, w :: u in edges && w in edges[u] ==> w in names)
      && workspaceMembers <= names.Keys
    }

    constructor (names: Names, edges: Edges, workspaceMembers: set<string>)
      requires edges.Keys == names.Keys && workspaceMembers <= names.Keys
      requires forall u, w :: u in edges && w in edges[u] ==> w in names
      ensures Valid()
      ensures this.names == names && this.edges == edges && this.workspaceMembers == workspaceMembers
    {
      this.names := names;
      this.edges := edges;
      this.workspaceMembers := workspaceMembers;
    }

    /** Loads the metadata, or names a fault in it. */
    static method Load(packages: seq<Package>, members: set<string>, nodes: seq<Node>)
      returns (r: Result<CargoMetadataGraph, MetadataError>)
      ensures r.Ok? <==>
        && DistinctIds(packages)
        && (forall id :: id in members ==> exists p :: p in packages && p.id == id)
        && forall node, names :: node in nodes && Named(packages, names) ==> KnownNode(names, node)
      ensures r.Ok? ==>
        && fresh(r.value) && r.value.Valid()
        && Named(packages, r.value.names) && r.value.workspaceMembers == members
        && forall u, w :: u in r.value.names ==> (w in r.value.edges[u] <==> Linked(nodes, u, w))
      ensures r.Err? ==> IsFault(packages, members, nodes, r.error)
    {
      var names := ReadPackages(packages);
      if names.Err? {
        return Err(names.error);
      }
      var unknown := members - names.value.Keys;
      if unknown != {} {
        forall id ensures id in unknown <==> id in members && forall p :: p in packages ==> p.id != id {
          if id in names.value {
            assert Package(id, names.value[id]) in packages;
          }
        }
        var id :| id in unknown;
        assert IsFault(packages, members, nodes, UnknownMembers(unknown));
        return Err(UnknownMembers(unknown));
      }
      assert forall id :: id in members ==> id in unknown || id in names.value;
      forall id | id in members ensures exists p :: p in packages && p.id == id {
        assert Package(id, names.value[id]) in packages;
      }
      var edges := ReadNodes(names.value, nodes);
      if edges.Err? {
        return Err(edges.error);
      }
      forall other | Named(packages, other) ensures other.Keys == names.value.Keys {
        SameIds(packages, names.value, other);
      }
      var graph := new CargoMetadataGraph(names.value, edges.value, members);
      return Ok(graph);
    }

    ghost function WorkspaceIds(name: string): set<string>
      reads this
      requires Valid()
    {
      set id | id in workspaceMembers && names[id] == name
    }

    /** The one workspace package of that name, or an error if there is none or more than one. */
    method WorkspacePackageId(name: string) returns (r: Result<string, MetadataError>)
      requires Valid()
      ensures r.Ok? ==> WorkspaceIds(name) == {r.value}
      ensures r == Err(MissingWorkspacePackage(name)) <==> WorkspaceIds(name) == {}
      ensures r == Err(AmbiguousWorkspacePackage(name)) <==>
        exists a, b :: a in WorkspaceIds(name) && b in WorkspaceIds(name) && a != b
      ensures r.Err? <==> !exists id :: WorkspaceIds(name) == {id}
    {
      var matches := set id | id in workspaceMembers && names[id] == name;
      if matches == {} {
        return Err(MissingWorkspacePackage(name));
      }
      var id :| id in matches;
      if matches != {id} {
        assert exists other :: other in matches && other != id;
        return Err(AmbiguousWorkspacePackage(name));
      }
      return Ok(id);
    }

    /** The breadth-first search: discovers every reachable package, in the order of its foremost path. */
    method Discover(source: string)
      returns (order: seq<string>, predecessors: map<string, Option<string>>, ghost s: Search)
      requires Valid() && source in names
      ensures s.order == order && s.parent == predecessors
      ensures Searching(names, edges, source, s, |order|)
    {
      hide Searching, LeftFrom, Visited, ById, Sorted;
      Starts(names, edges, source);
      predecessors, order := map[source := None], [source];
      var queue := [source];
      s := Start(source);
      ghost var k := 0;
      while queue != []
        invariant s.order == order && s.parent == predecessors
        invariant k <= |order| && queue == order[k..]
        invariant Searching(names, edges, source, s, k) && LeftFrom(s, k)
        invariant predecessors.Keys <= names.Keys
        decreases names.Keys - predecessors.Keys, |queue|
      {
        var current := queue[0];
        queue := queue[1..];
        var dependencies := SortedIds(names, if current in edges then edges[current] else {});
        ghost var order0, keys0 := order, predecessors.Keys;
        StartVisit(names, edges, source, s, k, dependencies);
        for i := 0 to |dependencies|
          invariant s.order == order && s.parent == predecessors
          invariant k < |order| && order[k] == current && queue == order[k + 1..]
          invariant Searching(names, edges, source, s, k) && LeftFrom(s, k + 1)
          invariant keys0 <= predecessors.Keys <= names.Keys
          invariant predecessors.Keys == keys0 ==> |order| == |order0|
          invariant Visited(s, k, dependencies, i)
        {
          var dependency := dependencies[i];
          if dependency in predecessors {
            VisitSkips(s, k, dependencies, i);
          } else {
            VisitStep(names, edges, source, s, k, dependencies, i);
            VisitAdds(s, k, dependencies, i);
            predecessors := predecessors[dependency := Some(current)];
            order := order + [dependency];
            queue := queue + [dependency];
            s := s.Add(current, dependency);
          }
        }
        VisitEnds(s, k, dependencies);
        Settles(names, edges, source, s, k);
        k := k + 1;
      }
    }

    /** Follows the predecessors back to the source and reverses what was met on the way. */
    method PathTo(predecessors: map<string, Option<string>>, packageId: string, ghost source: string, ghost s: Search)
      returns (path: seq<string>)
      requires s.parent == predecessors && Tree(edges, source, s) && packageId in predecessors
      ensures path == s.paths[packageId]
    {
      var pathIds: seq<string> := [];
      var cursor := Some(packageId);
      while cursor.Some?
        invariant cursor.Some? ==> cursor.value in predecessors
        invariant s.paths[packageId] == (if cursor.Some? then s.paths[cursor.value] else []) + Reverse(pathIds)
        decreases if cursor.Some? then |s.paths[cursor.value]| + 1 else 0
      {
        var v := cursor.value;
        BackOneStep(edges, source, s, v, pathIds);
        pathIds := pathIds + [v];
        cursor := predecessors[v];
      }
      path := Reverse(pathIds);
    }

    /** Goes through the discovered packages in order and keeps, for each forbidden name, the first shortest path. */
    method Report(source: string, order: seq<string>, predecessors: map<string, Option<string>>,
        forbidden: set<string>, ghost s: Search)
      returns (found: map<string, seq<string>>)
      requires s.order == order && s.parent == predecessors && Searching(names, edges, source, s, |order|)
      ensures Kept(names, edges, source, order, |order|, forbidden, found)
    {
      found := map[];
      hide Tree, Searching, Kept, NamesOf;
      NothingFoundYet(names, edges, source, s, forbidden);
      for i := 0 to |order|
        invariant Kept(names, edges, source, order, i, forbidden, found)
      {
        ghost var before := found;
        var packageId := order[i];
        var name := NameOf(names, packageId);
        if packageId != source && name in forbidden {
          var pathIds := PathTo(predecessors, packageId, source, s);
          var path := NamesOf(names, pathIds);
          if name !in found || |path| < |found[name]| {
            found := found[name := path];
          }
        }
        KeepsFirst(names, edges, source, s, i, forbidden, before, found);
      }
    }

    /**
     * For every forbidden name that the source reaches, the names along the foremost path
     * to a package so called; nothing for any other name.
     */
    method ShortestForbiddenPaths(sourceName: string, forbidden: set<string>)
      returns (r: Result<map<string, seq<string>>, MetadataError>)
      requires Valid()
      ensures r.Err? <==> !exists source :: WorkspaceIds(sourceName) == {source}
      ensures forall source, name :: r.Ok? && WorkspaceIds(sourceName) == {source} ==>
        (name in r.value <==> name in forbidden && exists path :: Leads(names, edges, source, path, name))
      ensures forall source, name :: r.Ok? && WorkspaceIds(sourceName) == {source} && name in r.value ==>
        exists path :: Foremost(names, edges, source, path, name) && r.value[name] == NamesOf(names, path)
    {
      var sourceId := WorkspacePackageId(sourceName);
      if sourceId.Err? {
        return Err(sourceId.error);
      }
      var source := sourceId.value;
      assert source in WorkspaceIds(sourceName);
      var order, predecessors, s := Discover(source);
      var found := Report(source, order, predecessors, forbidden, s);
      forall name | exists path :: Leads(names, edges, source, path, name)
        ensures name in Seen(names, source, order, |order|)
      {
        var path :| Leads(names, edges, source, path, name);
        ReachableIsFound(names, edges, source, s, path, name);
      }
      hide Searching, Foremost, Leads;
      return Ok(found);
    }
  }

  /** The first `i` dependencies have been discovered, and only they from the current package. */
  ghost predicate Visited(s: Search, k: nat, dependencies: seq<string>, i: nat)
    requires k < |s.order| && i <= |dependencies|
  {
    && (forall w :: w in dependencies[..i] ==> w in s.parent)
    && forall v :: v in s.parent && s.parent[v] == Some(s.order[k]) ==> v in dependencies[..i]
  }

  lemma StartVisit(names: Names, edges: Edges, source: string, s: Search, k: nat, dependencies: seq<string>)
    requires Searching(names, edges, source, s, k) && k < |s.order| && LeftFrom(s, k)
    ensures LeftFrom(s, k + 1) && Visited(s, k, dependencies, 0)
  {
    hide Settled, InOrder, Steps;
    assert forall u :: Among(s.order, k, u) ==> Among(s.order, k + 1, u) && u != s.order[k];
  }

  lemma VisitStep(names: Names, edges: Edges, source: string, s: Search, k: nat, dependencies: seq<string>, i: nat)
    requires Searching(names, edges, source, s, k) && k < |s.order| && LeftFrom(s, k + 1)
    requires Sorted(ById(names), dependencies) && i < |dependencies|
    requires dependencies[i] !in s.parent && dependencies[i] in Targets(edges, s.order[k])
    requires Visited(s, k, dependencies, i)
    ensures s.order[k] in s.paths
    ensures Searching(names, edges, source, s.Add(s.order[k], dependencies[i]), k)
    ensures LeftFrom(s.Add(s.order[k], dependencies[i]), k + 1)
  {
    forall v | v in dependencies[..i] ensures PathLe(KeyOf(names, v), KeyOf(names, dependencies[i])) {
      assert ById(names)(v, dependencies[i]);
    }
    hide PathLe;
    AddKeeps(names, edges, source, s, k, dependencies[i]);
  }

  lemma VisitSkips(s: Search, k: nat, dependencies: seq<string>, i: nat)
    requires k < |s.order| && i < |dependencies| && dependencies[i] in s.parent && Visited(s, k, dependencies, i)
    ensures Visited(s, k, dependencies, i + 1)
  {
    assert dependencies[..i + 1] == dependencies[..i] + [dependencies[i]];
  }

  lemma VisitAdds(s: Search, k: nat, dependencies: seq<string>, i: nat)
    requires k < |s.order| && s.order[k] in s.paths && i < |dependencies| && Visited(s, k, dependencies, i)
    ensures Visited(s.Add(s.order[k], dependencies[i]), k, dependencies, i + 1)
  {
    assert dependencies[..i + 1] == dependencies[..i] + [dependencies[i]];
  }

  lemma VisitEnds(s: Search, k: nat, dependencies: seq<string>)
    requires k < |s.order| && Visited(s, k, dependencies, |dependencies|)
    ensures forall w :: w in dependencies ==> w in s.parent
  {
    assert dependencies[..|dependencies|] == dependencies;
  }

  /** The names of the first `i` discovered packages other than the source. */
  ghost function Seen(names: Names, source: string, order: seq<string>, i: nat): (seen: set<string>)
    requires i <= |order|
    ensures forall name :: name in seen <==>
      exists j :: 0 <= j < i && order[j] != source && NameOf(names, order[j]) == name
  {
    if i == 0 then {}
    else Seen(names, source, order, i - 1) + if order[i - 1] == source then {} else {NameOf(names, order[i - 1])}
  }

  ghost predicate Reported(names: Names, edges: Edges, source: string, path: seq<string>, name: string) {
    exists ids :: Foremost(names, edges, source, ids, name) && path == NamesOf(names, ids)
  }

  lemma FirstOfItsName(names: Names, edges: Edges, source: string, s: Search, i: nat)
    requires Searching(names, edges, source, s, |s.order|)
    requires i < |s.order| && s.order[i] != source
    ensures NameOf(names, s.order[i]) in Seen(names, source, s.order, i) ||
      Reported(names, edges, source, NamesOf(names, s.paths[s.order[i]]), NameOf(names, s.order[i]))
  {
    if NameOf(names, s.order[i]) !in Seen(names, source, s.order, i) {
      FirstFoundIsForemost(names, edges, source, s, i);
    }
  }

  /** What the report holds after the first `i` discovered packages. */
  ghost predicate Kept(names: Names, edges: Edges, source: string, order: seq<string>, i: nat, forbidden: set<string>,
      found: map<string, seq<string>>)
    requires i <= |order|
  {
    && found.Keys == Seen(names, source, order, i) * forbidden
    && forall name :: name in found ==> Reported(names, edges, source, found[name], name)
  }

  lemma NothingFoundYet(names: Names, edges: Edges, source: string, s: Search, forbidden: set<string>)
    requires Searching(names, edges, source, s, |s.order|)
    ensures Kept(names, edges, source, s.order, 0, forbidden, map[])
    ensures Tree(edges, source, s) && forall v :: v in s.order ==> v in s.parent
  {
  }

  lemma KeepsFirst(names: Names, edges: Edges, source: string, s: Search, i: nat, forbidden: set<string>,
    before: map<string, seq<string>>, after: map<string, seq<string>>)
    requires Searching(names, edges, source, s, |s.order|) && i < |s.order|
    requires Kept(names, edges, source, s.order, i, forbidden, before)
    requires var name := NameOf(names, s.order[i]);
      var path := NamesOf(names, s.paths[s.order[i]]);
      after == if s.order[i] != source && name in forbidden && (name !in before || |path| < |before[name]|)
        then before[name := path] else before
    ensures Kept(names, edges, source, s.order, i + 1, forbidden, after)
  {
    if s.order[i] != source && NameOf(names, s.order[i]) in forbidden {
      FoundIsForemost(names, edges, source, s, i, forbidden, before);
    }
    if s.order[i] != source && NameOf(names, s.order[i]) in forbidden && NameOf(names, s.order[i]) !in before {
      KeptWith(names, edges, source, s.order, i, forbidden, before, NamesOf(names, s.paths[s.order[i]]));
    } else {
      KeptWithout(names, edges, source, s.order, i, forbidden, before);
    }
    hide *;
  }

  lemma KeptWith(names: Names, edges: Edges, source: string, order: seq<string>, i: nat, forbidden: set<string>,
    before: map<string, seq<string>>, path: seq<string>)
    requires i < |order| && order[i] != source && NameOf(names, order[i]) in forbidden
    requires Kept(names, edges, source, order, i, forbidden, before)
    requires Reported(names, edges, source, path, NameOf(names, order[i]))
    ensures Kept(names, edges, source, order, i + 1, forbidden, before[NameOf(names, order[i]) := path])
  {
    hide Seen, Reported, NameOf;
    SeenNext(names, source, order, i);
    assert before[NameOf(names, order[i]) := path].Keys == before.Keys + {NameOf(names, order[i])};
  }

  lemma SeenNext(names: Names, source: string, order: seq<string>, i: nat)
    requires i < |order| && order[i] != source
    ensures Seen(names, source, order, i + 1) == Seen(names, source, order, i) + {NameOf(names, order[i])}
  {
  }

  lemma KeptWithout(names: Names, edges: Edges, source: string, order: seq<string>, i: nat, forbidden: set<string>,
    before: map<string, seq<string>>)
    requires i < |order|
    requires order[i] == source || NameOf(names, order[i]) !in forbidden || NameOf(names, order[i]) in before
    requires Kept(names, edges, source, order, i, forbidden, before)
    ensures Kept(names, edges, source, order, i + 1, forbidden, before)
  {
    hide Reported, NameOf;
  }

  lemma FoundIsForemost(names: Names, edges: Edges, source: string, s: Search, i: nat, forbidden: set<string>,
      before: map<string, seq<string>>)
    requires Searching(names, edges, source, s, |s.order|) && i < |s.order|
    requires Kept(names, edges, source, s.order, i, forbidden, before)
    requires s.order[i] != source && NameOf(names, s.order[i]) in forbidden
    ensures NameOf(names, s.order[i]) in before ==>
      |before[NameOf(names, s.order[i])]| <= |NamesOf(names, s.paths[s.order[i]])|
    ensures NameOf(names, s.order[i]) !in before ==>
      Reported(names, edges, source, NamesOf(names, s.paths[s.order[i]]), NameOf(names, s.order[i]))
  {
    FirstOfItsName(names, edges, source, s, i);
    if NameOf(names, s.order[i]) in before {
      LaterIsNoShorter(names, edges, source, s, i, before[NameOf(names, s.order[i])]);
    }
    hide Seen, Reported;
  }

  lemma LaterIsNoShorter(names: Names, edges: Edges, source: string, s: Search, i: nat, path: seq<string>)
    requires Tree(edges, source, s) && i < |s.order| && s.order[i] != source
    requires Reported(names, edges, source, path, NameOf(names, s.order[i]))
    ensures |path| <= |s.paths[s.order[i]]|
  {
    var ids :| Foremost(names, edges, source, ids, NameOf(names, s.order[i])) && path == NamesOf(names, ids);
    PathsLead(edges, source, s, s.order[i]);
    ForemostIsShortestAndUnique(names, edges, source, ids, s.paths[s.order[i]], NameOf(names, s.order[i]));
  }

  lemma BackOneStep(edges: Edges, source: string, s: Search, v: string, met: seq<string>)
    requires Tree(edges, source, s) && v in s.parent
    ensures s.parent[v].Some? ==> s.parent[v].value in s.parent && |s.paths[s.parent[v].value]| < |s.paths[v]|
    ensures s.paths[v] + Reverse(met) ==
      (if s.parent[v].Some? then s.paths[s.parent[v].value] else []) + Reverse(met + [v])
  {
    assert Reverse(met + [v]) == [v] + Reverse(met) by {
      ReverseAt(met + [v]);
      ReverseAt(met);
    }
    assert v != source ==> Steps(edges, s, v);
    ConcatAssociates(if s.parent[v].Some? then s.paths[s.parent[v].value] else [], [v], Reverse(met));
  }

  lemma SameIds(packages: seq<Package>, names: Names, other: Names)
    requires Named(packages, names) && Named(packages, other)
    ensures other.Keys == names.Keys
  {
    forall id | id in names ensures id in other {
      assert Package(id, names[id]) in packages;
    }
    forall id | id in other ensures id in names {
      assert Package(id, other[id]) in packages;
    }
  }
}
