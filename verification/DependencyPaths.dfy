/** Paths through the resolved dependency graph, and the order in which a sorted breadth-first search finds them. */
module DependencyPaths {
  import opened Order
  import opened Sequences

  type Names = map<string, string>
  type Edges = map<string, set<string>>

  /** `edges.get(id, ())` */
  function Targets(edges: Edges, id: string): set<string> {
    if id in edges then edges[id] else {}
  }

  function NameOf(names: Names, id: string): string {
    if id in names then names[id] else ""
  }

  function NamesOf(names: Names, path: seq<string>): (r: seq<string>)
    ensures |r| == |path|
    ensures forall i :: 0 <= i < |path| ==> r[i] == NameOf(names, path[i])
  {
    if path == [] then [] else [NameOf(names, path[0])] + NamesOf(names, path[1..])
  }

  ghost predicate IsPath(edges: Edges, from: string, path: seq<string>) {
    && path != [] && path[0] == from
    && forall i :: 0 <= i < |path| - 1 ==> path[i + 1] in Targets(edges, path[i])
  }

  // ---- the order of discovery ----

  /** Packages sort by (name, id), so paths compare by these keys in turn. */
  function KeyOf(names: Names, id: string): seq<string> {
    [NameOf(names, id), id]
  }

  function KeyPath(names: Names, path: seq<string>): seq<string> {
    if path == [] then [] else KeyOf(names, path[0]) + KeyPath(names, path[1..])
  }

  /** Shorter paths first; of equally long ones, the first by (name, id) where they part. */
  predicate Before(names: Names, p: seq<string>, q: seq<string>) {
    |p| < |q| || (|p| == |q| && PathLe(KeyPath(names, p), KeyPath(names, q)))
  }

  lemma {:induction false} KeyPathLength(names: Names, p: seq<string>)
    ensures |KeyPath(names, p)| == 2 * |p|
  {
    if p != [] {
      KeyPathLength(names, p[1..]);
    }
  }

  lemma {:induction false} KeyPathLast(names: Names, p: seq<string>, v: string)
    ensures KeyPath(names, p + [v]) == KeyPath(names, p) + KeyOf(names, v)
  {
    if p == [] {
      assert [] + [v] == [v];
      assert KeyPath(names, [v]) == KeyOf(names, v) + KeyPath(names, []);
    } else {
      assert (p + [v])[1..] == p[1..] + [v];
      KeyPathLast(names, p[1..], v);
      ConcatAssociates(KeyOf(names, p[0]), KeyPath(names, p[1..]), KeyOf(names, v));
    }
  }

  lemma {:induction false} KeyPathIdentifies(names: Names, p: seq<string>, q: seq<string>)
    requires |p| == |q| && KeyPath(names, p) == KeyPath(names, q)
    ensures p == q
  {
    if p != [] {
      var kp, kq := KeyPath(names, p), KeyPath(names, q);
      assert kp[1] == p[0] && kq[1] == q[0];
      assert kp[2..] == KeyPath(names, p[1..]) && kq[2..] == KeyPath(names, q[1..]);
      KeyPathIdentifies(names, p[1..], q[1..]);
      assert p == [p[0]] + p[1..] && q == [q[0]] + q[1..];
    }
  }

  lemma {:induction false} PathLePartsEarlier(a: seq<string>, b: seq<string>, x: seq<string>, y: seq<string>)
    requires |a| == |b| && a != b && PathLe(a, b)
    ensures PathLe(a + x, b + y)
  {
    assert a == [a[0]] + a[1..] && b == [b[0]] + b[1..];
    assert (a + x)[1..] == a[1..] + x && (b + y)[1..] == b[1..] + y;
    if a[0] == b[0] {
      PathLePartsEarlier(a[1..], b[1..], x, y);
    }
  }

  lemma {:induction false} PathLeCommonStart(a: seq<string>, x: seq<string>, y: seq<string>)
    ensures PathLe(a + x, a + y) == PathLe(x, y)
  {
    if a == [] {
      ConcatEmpty(x);
      ConcatEmpty(y);
    } else {
      assert (a + x)[1..] == a[1..] + x && (a + y)[1..] == a[1..] + y;
      StrLeReflexive(a[0]);
      PathLeCommonStart(a[1..], x, y);
    }
  }

  /** By name and, for packages of one name, by id. */
  ghost predicate SortsFirst(names: Names, v: string, w: string) {
    if NameOf(names, v) != NameOf(names, w) then StrLe(NameOf(names, v), NameOf(names, w)) else StrLe(v, w)
  }

  lemma KeysExactly(names: Names, v: string, w: string)
    ensures PathLe(KeyOf(names, v), KeyOf(names, w)) <==> SortsFirst(names, v, w)
  {
    hide StrLe;
    var a, b := KeyOf(names, v), KeyOf(names, w);
    assert a[1..] == [v] && b[1..] == [w] && [v][1..] == [] && [w][1..] == [];
    StrLeReflexive(a[0]);
    assert PathLe([v], [w]) <==> StrLe(v, w);
  }

  lemma DifferentKeys(names: Names, v: string, w: string, x: seq<string>, y: seq<string>)
    requires v != w
    ensures PathLe(KeyOf(names, v) + x, KeyOf(names, w) + y) <==> PathLe(KeyOf(names, v), KeyOf(names, w))
  {
    var a, b := KeyOf(names, v), KeyOf(names, w);
    assert a[1] == v && b[1] == w;
    if PathLe(a, b) {
      PathLePartsEarlier(a, b, x, y);
    } else {
      PathLeTotal(a, b);
      PathLePartsEarlier(b, a, y, x);
      assert (a + x)[1] == v && (b + y)[1] == w;
      if PathLe(a + x, b + y) {
        PathLeAntisymmetric(a + x, b + y);
      }
    }
  }

  /** Where two paths part, `p` takes the package that sorts first. */
  ghost predicate PartsFirst(names: Names, p: seq<string>, q: seq<string>) {
    exists k :: 0 <= k < |p| && k < |q| && p[..k] == q[..k] && p[k] != q[k] && SortsFirst(names, p[k], q[k])
  }

  lemma PartsLater(names: Names, p: seq<string>, q: seq<string>)
    requires p != [] && q != [] && p[0] == q[0]
    ensures PartsFirst(names, p, q) <==> PartsFirst(names, p[1..], q[1..])
  {
    hide SortsFirst;
    var x, y := p[1..], q[1..];
    if k :| 0 <= k < |p| && k < |q| && p[..k] == q[..k] && p[k] != q[k] && SortsFirst(names, p[k], q[k]) {
      assert x[..k - 1] == p[..k][1..] && y[..k - 1] == q[..k][1..];
      assert x[k - 1] == p[k] && y[k - 1] == q[k];
    }
    if k :| 0 <= k < |x| && k < |y| && x[..k] == y[..k] && x[k] != y[k] && SortsFirst(names, x[k], y[k]) {
      assert p[..k + 1] == [p[0]] + x[..k] && q[..k + 1] == [q[0]] + y[..k];
      assert p[k + 1] == x[k] && q[k + 1] == y[k];
    }
  }

  lemma {:induction false} KeyPathsExactly(names: Names, p: seq<string>, q: seq<string>)
    requires |p| == |q|
    ensures PathLe(KeyPath(names, p), KeyPath(names, q)) <==> p == q || PartsFirst(names, p, q)
  {
    hide SortsFirst, PathLe, PartsFirst, KeyOf;
    if p == [] {
      PathLeTotal(KeyPath(names, p), KeyPath(names, q));
    } else if p[0] == q[0] {
      KeyPathsExactly(names, p[1..], q[1..]);
      PathLeCommonStart(KeyOf(names, p[0]), KeyPath(names, p[1..]), KeyPath(names, q[1..]));
      PartsLater(names, p, q);
      assert p == [p[0]] + p[1..] && q == [q[0]] + q[1..];
    } else {
      DifferentKeys(names, p[0], q[0], KeyPath(names, p[1..]), KeyPath(names, q[1..]));
      KeysExactly(names, p[0], q[0]);
      PartsAtOnce(names, p, q);
    }
  }

  lemma PartsAtOnce(names: Names, p: seq<string>, q: seq<string>)
    requires p != [] && q != [] && p[0] != q[0]
    ensures PartsFirst(names, p, q) <==> SortsFirst(names, p[0], q[0])
  {
    hide SortsFirst;
    assert p[..0] == q[..0];
    if k :| 0 <= k < |p| && k < |q| && p[..k] == q[..k] && p[k] != q[k] && SortsFirst(names, p[k], q[k]) {
      assert k > 0 ==> p[..k][0] == q[..k][0];
    }
  }

  /** A shorter path comes first; of equally long ones, that which takes the first package by name and id. */
  lemma BeforeExactly(names: Names, p: seq<string>, q: seq<string>)
    ensures Before(names, p, q) <==> |p| < |q| || p == q || (|p| == |q| && PartsFirst(names, p, q))
  {
    hide PathLe, PartsFirst, KeyPath;
    if |p| == |q| {
      KeyPathsExactly(names, p, q);
    }
  }

  lemma BeforeReflexive(names: Names, p: seq<string>)
    ensures Before(names, p, p)
  {
    PathLeTotal(KeyPath(names, p), KeyPath(names, p));
  }

  lemma BeforeTransitive(names: Names, p: seq<string>, q: seq<string>, r: seq<string>)
    requires Before(names, p, q) && Before(names, q, r)
    ensures Before(names, p, r)
  {
    if |p| == |q| == |r| {
      PathLeTransitive(KeyPath(names, p), KeyPath(names, q), KeyPath(names, r));
    }
  }

  lemma BeforeAntisymmetric(names: Names, p: seq<string>, q: seq<string>)
    requires Before(names, p, q) && Before(names, q, p)
    ensures p == q
  {
    PathLeAntisymmetric(KeyPath(names, p), KeyPath(names, q));
    KeyPathIdentifies(names, p, q);
  }

  /** A path that comes before another still does when both take one more step. */
  lemma BeforeExtends(names: Names, p: seq<string>, q: seq<string>, v: string, w: string)
    requires Before(names, p, q) && p != q
    ensures Before(names, p + [v], q + [w])
  {
    if |p| == |q| {
      KeyPathLast(names, p, v);
      KeyPathLast(names, q, w);
      KeyPathLength(names, p);
      KeyPathLength(names, q);
      if KeyPath(names, p) == KeyPath(names, q) {
        KeyPathIdentifies(names, p, q);
      }
      PathLePartsEarlier(KeyPath(names, p), KeyPath(names, q), KeyOf(names, v), KeyOf(names, w));
    }
  }

  lemma BeforeByLast(names: Names, p: seq<string>, v: string, w: string)
    requires PathLe(KeyOf(names, v), KeyOf(names, w))
    ensures Before(names, p + [v], p + [w])
  {
    KeyPathLast(names, p, v);
    KeyPathLast(names, p, w);
    PathLeCommonStart(KeyPath(names, p), KeyOf(names, v), KeyOf(names, w));
  }

  lemma BeforeExtendsSame(names: Names, p: seq<string>, q: seq<string>, v: string)
    requires Before(names, p, q)
    ensures Before(names, p + [v], q + [v])
  {
    if p == q {
      BeforeReflexive(names, p + [v]);
    } else {
      BeforeExtends(names, p, q, v, v);
    }
  }

  // ---- a complete search tree ----

  /** Every edge out of a discovered package leads to a package discovered no later than along that edge. */
  ghost predicate Complete(names: Names, edges: Edges, source: string, paths: map<string, seq<string>>) {
    && source in paths && paths[source] == [source]
    && forall u, w :: u in paths && w in Targets(edges, u) ==> w in paths && Before(names, paths[w], paths[u] + [w])
  }

  /** A complete search tree holds, for every reachable package, the first of all paths to it. */
  lemma {:induction false} CompleteIsFirst(names: Names, edges: Edges, source: string, paths: map<string, seq<string>>,
      q: seq<string>)
    requires Complete(names, edges, source, paths) && IsPath(edges, source, q)
    ensures q[|q| - 1] in paths && Before(names, paths[q[|q| - 1]], q)
    decreases |q|
  {
    if |q| == 1 {
      assert q == [source];
      BeforeReflexive(names, q);
    } else {
      var shorter, v := q[..|q| - 1], q[|q| - 1];
      var u := shorter[|shorter| - 1];
      assert q == shorter + [v];
      CompleteIsFirst(names, edges, source, paths, shorter);
      assert v in Targets(edges, u);
      BeforeExtendsSame(names, paths[u], shorter, v);
      BeforeTransitive(names, paths[v], paths[u] + [v], q);
    }
  }
}
