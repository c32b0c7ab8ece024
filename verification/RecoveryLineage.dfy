/** Which tasks' histories a snapshot continues: the chain of recovery links. */
module RecoveryLineage {
  import opened Sequences
  import opened AgentEvents

  /** The predecessors that a task's recovery events name. */
  ghost function Links(events: seq<Event>, task: string): set<string> {
    set e | e in events && e.data.RecoveredFrom? && e.taskId == task :: e.data.predecessor
  }

  ghost function LinkOf(e: Event, task: string): set<string> {
    if e.data.RecoveredFrom? && e.taskId == task then {e.data.predecessor} else {}
  }

  /** Newest first: each task has the next one as its only predecessor. */
  ghost predicate Chain(events: seq<Event>, task: string, c: seq<string>) {
    && c != [] && c[0] == task
    && forall i :: 0 <= i < |c| - 1 ==> Links(events, c[i]) == {c[i + 1]}
  }

  /** A chain that runs back to a task without links. */
  ghost predicate Rooted(events: seq<Event>, task: string, c: seq<string>) {
    Chain(events, task, c) && Links(events, c[|c| - 1]) == {}
  }

  ghost predicate NoDuplicates(c: seq<string>) {
    forall i, j :: 0 <= i < j < |c| ==> c[i] != c[j]
  }

  /** The whole rooted chain, oldest first; the task alone when there is none. */
  ghost function Lineage(events: seq<Event>, task: string): seq<string> {
    if exists c :: Rooted(events, task, c) then
      var c :| Rooted(events, task, c);
      Reverse(c)
    else
      [task]
  }

  lemma {:induction false} ChainIsPrefixOfRooted(events: seq<Event>, task: string, p: seq<string>, c: seq<string>)
    requires Chain(events, task, p) && Rooted(events, task, c)
    ensures p <= c
    decreases |p|
  {
    if |p| > 1 {
      var q := p[..|p| - 1];
      ChainIsPrefixOfRooted(events, task, q, c);
      assert Links(events, q[|q| - 1]) == {p[|p| - 1]};
      assert p[|p| - 1] in Links(events, q[|q| - 1]);
      assert |q| < |c|;
      assert Links(events, c[|q| - 1]) == {c[|q|]};
      assert c[|q|] in {p[|p| - 1]};
      assert p == q + [p[|p| - 1]];
    }
  }

  /** Links being unique, there is one way back. */
  lemma RootedUnique(events: seq<Event>, task: string, c: seq<string>, d: seq<string>)
    requires Rooted(events, task, c) && Rooted(events, task, d)
    ensures c == d
  {
    ChainIsPrefixOfRooted(events, task, c, d);
    ChainIsPrefixOfRooted(events, task, d, c);
  }

  lemma SuffixRooted(events: seq<Event>, task: string, c: seq<string>, i: nat)
    requires Rooted(events, task, c) && i < |c|
    ensures Rooted(events, c[i], c[i..])
  {
    var d := c[i..];
    forall k | 0 <= k < |d| - 1 ensures Links(events, d[k]) == {d[k + 1]} {
      assert d[k] == c[i + k] && d[k + 1] == c[i + k + 1];
    }
    assert d[|d| - 1] == c[|c| - 1];
  }

  /** A chain that reaches a root never revisits a task. */
  lemma RootedHasNoDuplicates(events: seq<Event>, task: string, c: seq<string>)
    requires Rooted(events, task, c)
    ensures NoDuplicates(c)
  {
    forall i, j | 0 <= i < j < |c| ensures c[i] != c[j] {
      SuffixRooted(events, task, c, i);
      SuffixRooted(events, task, c, j);
      assert |c[i..]| != |c[j..]|;
      if c[i] == c[j] {
        RootedUnique(events, c[i], c[i..], c[j..]);
      }
    }
  }

  lemma RootedLinks(events: seq<Event>, task: string, c: seq<string>, i: nat)
    requires Rooted(events, task, c) && i < |c|
    ensures |Links(events, c[i])| <= 1
  {
    if i < |c| - 1 {
      assert Links(events, c[i]) == {c[i + 1]};
    }
  }

  lemma AmbiguousIsNotRooted(events: seq<Event>, task: string, p: seq<string>)
    requires Chain(events, task, p) && |Links(events, p[|p| - 1])| > 1
    ensures !exists c :: Rooted(events, task, c)
  {
    forall c ensures !Rooted(events, task, c) {
      if Rooted(events, task, c) {
        ChainIsPrefixOfRooted(events, task, p, c);
        RootedLinks(events, task, c, |p| - 1);
      }
    }
  }

  lemma CyclicIsNotRooted(events: seq<Event>, task: string, p: seq<string>)
    requires Chain(events, task, p) && !NoDuplicates(p)
    ensures !exists c :: Rooted(events, task, c)
  {
    forall c ensures !Rooted(events, task, c) {
      if Rooted(events, task, c) {
        ChainIsPrefixOfRooted(events, task, p, c);
        RootedHasNoDuplicates(events, task, c);
      }
    }
  }

  lemma LineageOfRooted(events: seq<Event>, task: string, c: seq<string>)
    requires Rooted(events, task, c)
    ensures Lineage(events, task) == Reverse(c)
  {
    forall d | Rooted(events, task, d) ensures d == c {
      RootedUnique(events, task, c, d);
    }
  }

  /**
   * The lineage ends in the task, repeats nobody, and is longer than the task alone exactly when
   * the unique links lead back, without a cycle, through at least one predecessor to a task
   * without links; then it is that whole chain.
   */
  lemma LineageExact(events: seq<Event>, task: string)
    ensures Lineage(events, task) != [] && Lineage(events, task)[|Lineage(events, task)| - 1] == task
    ensures NoDuplicates(Lineage(events, task))
    ensures |Lineage(events, task)| > 1 <==> exists c :: Rooted(events, task, c) && |c| > 1
    ensures forall c :: Rooted(events, task, c) ==> Lineage(events, task) == Reverse(c)
  {
    forall c | Rooted(events, task, c)
      ensures Lineage(events, task) == Reverse(c) && |Reverse(c)| == |c|
    {
      LineageOfRooted(events, task, c);
      ReverseAt(c);
    }
    if exists c :: Rooted(events, task, c) {
      var c :| Rooted(events, task, c);
      RootedHasNoDuplicates(events, task, c);
      ReverseAt(c);
    }
  }

  /**
   * When a successor's lineage is its predecessor's plus itself: its only link names that
   * predecessor, and the predecessor's own chain is rooted and free of the successor.
   */
  lemma LineageExtends(events: seq<Event>, succ: string, pred: string)
    ensures Lineage(events, succ) == Lineage(events, pred) + [succ]
       <==> Links(events, succ) == {pred} && exists c :: Rooted(events, pred, c)
  {
    LineageExact(events, succ);
    LineageExact(events, pred);
    var whole := Lineage(events, succ);
    if Lineage(events, succ) == Lineage(events, pred) + [succ] {
      assert |whole| > 1;
      var c :| Rooted(events, succ, c) && |c| > 1;
      ReverseAt(c);
      SuffixRooted(events, succ, c, 1);
      assert whole[|whole| - 2] == c[1];
      assert whole[|whole| - 2] == Lineage(events, pred)[|whole| - 2] == pred;
    }
    if Links(events, succ) == {pred} && exists c :: Rooted(events, pred, c) {
      var c :| Rooted(events, pred, c);
      var d := [succ] + c;
      assert Rooted(events, succ, d) by {
        forall i | 0 <= i < |d| - 1 ensures Links(events, d[i]) == {d[i + 1]} {
          if i > 0 {
            assert d[i] == c[i - 1] && d[i + 1] == c[i];
          }
        }
      }
      assert d[1..] == c;
    }
  }

  /** Only which events exist matters, not how often or where. */
  lemma LineagePermuted(a: seq<Event>, b: seq<Event>, task: string)
    requires forall e :: e in a <==> e in b
    ensures Lineage(a, task) == Lineage(b, task)
  {
    forall t ensures Links(a, t) == Links(b, t) {
    }
    forall c ensures Rooted(a, task, c) <==> Rooted(b, task, c) {
    }
    if exists c :: Rooted(a, task, c) {
      var c :| Rooted(a, task, c);
      LineageOfRooted(a, task, c);
      LineageOfRooted(b, task, c);
    }
  }

  /** The predecessor map, built event by event. */
  method CollectPredecessors(events: seq<Event>) returns (predecessors: map<string, set<string>>)
    ensures forall t :: t in predecessors <==> Links(events, t) != {}
    ensures forall t :: t in predecessors ==> predecessors[t] == Links(events, t)
  {
    predecessors := map[];
    for i := 0 to |events|
      invariant forall t :: t in predecessors ==> predecessors[t] == Links(events[..i], t) != {}
      invariant forall t :: t !in predecessors ==> Links(events[..i], t) == {}
    {
      var event := events[i];
      LinksGrow(events, i);
      if event.data.RecoveredFrom? {
        var known := if event.taskId in predecessors then predecessors[event.taskId] else {};
        predecessors := predecessors[event.taskId := known + {event.data.predecessor}];
      }
    }
    assert events[..|events|] == events;
  }

  lemma LinksGrow(events: seq<Event>, i: nat)
    requires i < |events|
    ensures forall t ::
      Links(events[..i + 1], t) == Links(events[..i], t) + LinkOf(events[i], t)
  {
    assert events[..i + 1] == events[..i] + [events[i]];
  }

  /** The walk back from the task, with its two ways to give up. */
  method ComputeLineage(events: seq<Event>, taskId: string) returns (lineage: seq<string>)
    ensures lineage == Lineage(events, taskId)
  {
    var predecessors := CollectPredecessors(events);
    var newestFirst := [taskId];
    var current := taskId;
    ghost var unvisited :=
      set e | e in events && e.data.RecoveredFrom? && e.data.predecessor != taskId :: e.data.predecessor;
    while current in predecessors
      invariant Chain(events, taskId, newestFirst) && current == newestFirst[|newestFirst| - 1]
      invariant NoDuplicates(newestFirst)
      invariant forall e :: e in events && e.data.RecoveredFrom? ==>
        e.data.predecessor in newestFirst || e.data.predecessor in unvisited
      decreases unvisited
    {
      var linked := predecessors[current];
      if |linked| != 1 {
        AmbiguousIsNotRooted(events, taskId, newestFirst);
        return [taskId];
      }
      var predecessor :| predecessor in linked;
      SingletonIs(linked, predecessor);
      ghost var extended := newestFirst + [predecessor];
      assert Chain(events, taskId, extended);
      if predecessor in newestFirst {
        ghost var k :| 0 <= k < |newestFirst| && newestFirst[k] == predecessor;
        assert extended[k] == extended[|newestFirst|];
        CyclicIsNotRooted(events, taskId, extended);
        return [taskId];
      }
      newestFirst := newestFirst + [predecessor];
      current := predecessor;
      unvisited := unvisited - {predecessor};
    }
    LineageOfRooted(events, taskId, newestFirst);
    lineage := Reverse(newestFirst);
  }

  lemma SingletonIs<T>(s: set<T>, x: T)
    requires |s| == 1 && x in s
    ensures s == {x}
  {
    assert |s - {x}| == 0;
    assert s - {x} == {};
  }
}
