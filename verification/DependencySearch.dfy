/** The state of the sorted breadth-first search, and what each step of it keeps. */
module DependencySearch {
  import opened Order
  import opened Wrappers
  import opened DependencyPaths

  /**
   * `parent` is the program's `predecessors` and `order` its insertion order;
   * `paths` names, for the proof, the path that following predecessors spells out.
   */
  datatype Search = Search(order: seq<string>, parent: map<string, Option<string>>, paths: map<string, seq<string>>) {
    function Add(from: string, to: string): Search
      requires from in paths
    {
      Search(order + [to], parent[to := Some(from)], paths[to := paths[from] + [to]])
    }
  }

  function Start(source: string): Search {
    Search([source], map[source := None], map[source := [source]])
  }

  ghost predicate Steps(edges: Edges, s: Search, v: string)
    requires v in s.parent && v in s.paths
  {
    && s.parent[v].Some? && s.parent[v].value in s.paths
    && v in Targets(edges, s.parent[v].value)
    && s.paths[v] == s.paths[s.parent[v].value] + [v]
  }

  /** The discovered packages are listed without repetition, the source first. */
  ghost predicate Listed(source: string, s: Search) {
    && s.order != [] && s.order[0] == source
    && (forall i, j :: 0 <= i < j < |s.order| ==> s.order[i] != s.order[j])
    && (forall v :: v in s.order <==> v in s.parent)
    && s.parent.Keys == s.paths.Keys
  }

  /** The predecessors form a tree rooted at the source. */
  ghost predicate Tree(edges: Edges, source: string, s: Search) {
    && Listed(source, s)
    && source in s.parent && s.parent[source] == None && s.paths[source] == [source]
    && forall v :: v in s.parent && v != source ==> Steps(edges, s, v)
  }

  /** Packages are discovered in the order of their paths. */
  ghost predicate InOrder(names: Names, s: Search) {
    && (forall v :: v in s.order ==> v in s.paths)
    && forall i, j :: 0 <= i <= j < |s.order| ==> Before(names, s.paths[s.order[i]], s.paths[s.order[j]])
  }

  ghost predicate Among(order: seq<string>, k: nat, u: string)
    requires k <= |order|
  {
    exists i :: 0 <= i < k && order[i] == u
  }

  /** Only the first `k` discovered packages have been left along an edge. */
  ghost predicate LeftFrom(s: Search, k: nat)
    requires k <= |s.order|
  {
    forall v :: v in s.parent && s.parent[v].Some? ==> Among(s.order, k, s.parent[v].value)
  }

  ghost predicate Settled(names: Names, edges: Edges, s: Search, u: string)
    requires u in s.paths
  {
    forall w :: w in Targets(edges, u) ==> w in s.paths && Before(names, s.paths[w], s.paths[u] + [w])
  }

  ghost predicate Searching(names: Names, edges: Edges, source: string, s: Search, k: nat) {
    && Tree(edges, source, s) && InOrder(names, s)
    && k <= |s.order| && forall i :: 0 <= i < k ==> Settled(names, edges, s, s.order[i])
  }

  lemma Starts(names: Names, edges: Edges, source: string)
    ensures Searching(names, edges, source, Start(source), 0) && LeftFrom(Start(source), 0)
  {
    BeforeReflexive(names, [source]);
  }

  /**
   * Any package already discovered, `w` included, comes no later than the path that reaches `w` from the current one.
   */
  lemma DiscoveredBefore(names: Names, edges: Edges, source: string, s: Search, k: nat, v: string, w: string)
    requires Tree(edges, source, s) && InOrder(names, s) && k < |s.order| && LeftFrom(s, k + 1)
    requires v in s.parent
    requires s.parent[v] == Some(s.order[k]) ==> PathLe(KeyOf(names, v), KeyOf(names, w))
    ensures Before(names, s.paths[v], s.paths[s.order[k]] + [w])
  {
    var current := s.order[k];
    PathsLead(edges, source, s, current);
    if v != source {
      var u := s.parent[v].value;
      PathsLead(edges, source, s, u);
      if u == current {
        BeforeByLast(names, s.paths[u], v, w);
      } else {
        var i :| 0 <= i < k + 1 && s.order[i] == u;
        BeforeExtends(names, s.paths[u], s.paths[current], v, w);
      }
    }
  }

  /** The path kept for a package is a path of the graph from the source to it. */
  lemma {:induction false} PathsLead(edges: Edges, source: string, s: Search, v: string)
    requires Tree(edges, source, s) && v in s.paths
    ensures IsPath(edges, source, s.paths[v]) && s.paths[v][|s.paths[v]| - 1] == v
    decreases |s.paths[v]|
  {
    if v != source {
      PathsLead(edges, source, s, s.parent[v].value);
    }
  }

  /** Discovering `w` from the current package keeps the tree and the order. */
  lemma AddKeeps(names: Names, edges: Edges, source: string, s: Search, k: nat, w: string)
    requires Searching(names, edges, source, s, k) && k < |s.order| && LeftFrom(s, k + 1)
    requires w !in s.parent && w in Targets(edges, s.order[k])
    requires forall v :: v in s.parent && s.parent[v] == Some(s.order[k]) ==> PathLe(KeyOf(names, v), KeyOf(names, w))
    ensures Searching(names, edges, source, s.Add(s.order[k], w), k) && LeftFrom(s.Add(s.order[k], w), k + 1)
  {
    var t := s.Add(s.order[k], w);
    AddKeepsTree(edges, source, s, k, w);
    AddKeepsLeftFrom(s, k, w);
    AddKeepsOrder(names, edges, source, s, k, w);
    forall i | 0 <= i < k ensures Settled(names, edges, t, t.order[i]) {
      AddKeepsSettled(names, edges, source, s, k, w, s.order[i]);
    }
    hide Tree, Settled, LeftFrom;
  }

  lemma AddKeepsTree(edges: Edges, source: string, s: Search, k: nat, w: string)
    requires Tree(edges, source, s) && k < |s.order|
    requires w !in s.parent && w in Targets(edges, s.order[k])
    ensures Tree(edges, source, s.Add(s.order[k], w))
  {
    var t := s.Add(s.order[k], w);
    AddKeepsListed(source, s, k, w);
    forall v | v in s.parent && v != source ensures Steps(edges, t, v) {
      AddKeepsSteps(edges, s, k, w, v);
    }
    assert Steps(edges, t, w);
    hide Steps, Targets, Listed;
  }

  lemma AddKeepsLeftFrom(s: Search, k: nat, w: string)
    requires k < |s.order| && LeftFrom(s, k + 1) && s.order[k] in s.paths
    ensures LeftFrom(s.Add(s.order[k], w), k + 1)
  {
    var t := s.Add(s.order[k], w);
    assert t.order[k] == s.order[k];
    forall v | v in t.parent && t.parent[v].Some? ensures Among(t.order, k + 1, t.parent[v].value) {
      if v != w {
        var i :| 0 <= i < k + 1 && s.order[i] == s.parent[v].value;
        assert t.order[i] == s.order[i];
      }
    }
  }

  lemma AddKeepsListed(source: string, s: Search, k: nat, w: string)
    requires Listed(source, s) && k < |s.order| && w !in s.parent
    ensures Listed(source, s.Add(s.order[k], w))
  {
  }

  lemma AddKeepsSteps(edges: Edges, s: Search, k: nat, w: string, v: string)
    requires s.parent.Keys == s.paths.Keys && k < |s.order| && s.order[k] in s.paths
    requires w !in s.parent && v in s.parent && Steps(edges, s, v)
    ensures Steps(edges, s.Add(s.order[k], w), v)
  {
  }

  lemma AddKeepsOrder(names: Names, edges: Edges, source: string, s: Search, k: nat, w: string)
    requires Tree(edges, source, s) && InOrder(names, s) && k < |s.order| && LeftFrom(s, k + 1)
    requires w !in s.parent
    requires forall v :: v in s.parent && s.parent[v] == Some(s.order[k]) ==> PathLe(KeyOf(names, v), KeyOf(names, w))
    ensures InOrder(names, s.Add(s.order[k], w))
  {
    var t := s.Add(s.order[k], w);
    forall i | 0 <= i < |s.order| ensures Before(names, s.paths[s.order[i]], t.paths[w]) {
      DiscoveredBefore(names, edges, source, s, k, s.order[i], w);
    }
    BeforeReflexive(names, t.paths[w]);
    hide Before, Steps, LeftFrom;
  }

  lemma AddKeepsSettled(names: Names, edges: Edges, source: string, s: Search, k: nat, w: string, u: string)
    requires Tree(edges, source, s) && k < |s.order| && w !in s.parent
    requires u in s.order && Settled(names, edges, s, u)
    ensures Settled(names, edges, s.Add(s.order[k], w), u)
  {
    hide Before, Steps, Targets;
  }

  /** Once every dependency of the current package is discovered, the package is settled. */
  lemma Settles(names: Names, edges: Edges, source: string, s: Search, k: nat)
    requires Searching(names, edges, source, s, k) && k < |s.order| && LeftFrom(s, k + 1)
    requires forall w :: w in Targets(edges, s.order[k]) ==> w in s.parent
    ensures Searching(names, edges, source, s, k + 1)
  {
    SettlesNow(names, edges, source, s, k);
    hide Tree, LeftFrom, Targets, Before, Settled;
  }

  lemma SettlesNow(names: Names, edges: Edges, source: string, s: Search, k: nat)
    requires Tree(edges, source, s) && InOrder(names, s) && k < |s.order| && LeftFrom(s, k + 1)
    requires forall w :: w in Targets(edges, s.order[k]) ==> w in s.parent
    ensures Settled(names, edges, s, s.order[k])
  {
    forall w | w in Targets(edges, s.order[k])
      ensures w in s.paths && Before(names, s.paths[w], s.paths[s.order[k]] + [w])
    {
      ReachesItself(names, edges, source, s, k, w);
    }
    hide Targets, Before, InOrder, LeftFrom, Steps;
  }

  lemma ReachesItself(names: Names, edges: Edges, source: string, s: Search, k: nat, w: string)
    requires Tree(edges, source, s) && InOrder(names, s) && k < |s.order| && LeftFrom(s, k + 1)
    requires w in s.parent
    ensures Before(names, s.paths[w], s.paths[s.order[k]] + [w])
  {
    PathLeTotal(KeyOf(names, w), KeyOf(names, w));
    DiscoveredBefore(names, edges, source, s, k, w, w);
  }

  lemma Finishes(names: Names, edges: Edges, source: string, s: Search)
    requires Searching(names, edges, source, s, |s.order|)
    ensures Complete(names, edges, source, s.paths)
  {
    forall u, w | u in s.paths && w in Targets(edges, u)
      ensures w in s.paths && Before(names, s.paths[w], s.paths[u] + [w])
    {
      var i :| 0 <= i < |s.order| && s.order[i] == u;
      assert Settled(names, edges, s, s.order[i]);
    }
  }
}
