/** Snapshots compose across recovery and do not depend on how the store is arranged. */
module SnapshotTheorems {
  import opened Wrappers
  import opened Order
  import opened Sequences
  import opened Sorting
  import opened AgentEvents
  import opened RecoveryLineage
  import opened AgentSnapshot
  import opened HistoryMeaning

  // ---- storage order ----

  lemma HistoryPermuted(a: seq<Event>, b: seq<Event>, lineage: seq<string>)
    requires multiset(a) == multiset(b) && HistoryIdsIdentify(a, lineage)
    ensures History(a, lineage) == History(b, lineage)
  {
    var p := Belongs(lineage);
    FilterPermuted(p, a, b);
    FilterMembers(p, a);
    EventOrderIsTotal(lineage);
    var leq := EventOrder(lineage);
    forall x, y | x in Filter(p, a) && y in Filter(p, a) && leq(x, y) && leq(y, x) ensures x == y {
      TiesAreEqual(a, lineage, x, y);
    }
    SortCanonical(leq, Filter(p, a), Filter(p, b));
  }

  /** Reordering entries, or packets within entries, leaves every field of the snapshot as it was. */
  lemma StorageOrderIrrelevant(a: seq<Entry>, b: seq<Entry>, task: string)
    requires Rearranged(a, b) && HistoryIdsIdentify(AllEvents(a), Lineage(AllEvents(a), task))
    ensures TaskSnapshot(AllEvents(a), task) == TaskSnapshot(AllEvents(b), task)
  {
    RearrangedKeepsEvents(a, b);
    PermutedMembers(AllEvents(a), AllEvents(b));
    LineagePermuted(AllEvents(a), AllEvents(b), task);
    HistoryPermuted(AllEvents(a), AllEvents(b), Lineage(AllEvents(a), task));
  }

  /** Identifying ids are needed: two events sharing everything but their content show the store's order. */
  lemma SharedIdsShowStorageOrder()
    ensures
      var set_ := Event("t", "id", 1, ["p"], [], FocusSet);
      var clear := Event("t", "id", 1, [], [], FocusCleared(true));
      SnapshotOf([set_, clear], "t", ["t"]) != SnapshotOf([clear, set_], "t", ["t"])
  {
    var set_ := Event("t", "id", 1, ["p"], [], FocusSet);
    var clear := Event("t", "id", 1, [], [], FocusCleared(true));
    TiedPairHistory(set_, clear);
    TiedPairHistory(clear, set_);
    ReplayStep(EMPTY, [set_], clear);
    ReplayStep(EMPTY, [clear], set_);
    ReplayStep(EMPTY, [], clear);
    assert [] + [clear] == [clear];
    assert "p" in Elements(set_.paths);
  }

  lemma PullOut(events: seq<Event>, e: Event) returns (rest: seq<Event>)
    requires e in events
    ensures multiset([e] + rest) == multiset(events)
  {
    var k :| 0 <= k < |events| && events[k] == e;
    RemoveAt(events, k);
    rest := events[..k] + events[k + 1..];
  }

  lemma TiedBothWays(lineage: seq<string>, e: Event, f: Event)
    requires SameId(e, f)
    ensures EventOrder(lineage)(e, f) && EventOrder(lineage)(f, e)
  {
    StrLeReflexive(e.eventId);
  }

  /** The tied events of a history are in the order of the store. */
  lemma HistoryKeepsTies(events: seq<Event>, lineage: seq<string>, e: Event)
    ensures var leq := EventOrder(lineage);
      Filter(Class(leq, e), History(events, lineage)) == Filter(Class(leq, e), Filter(Belongs(lineage), events))
  {
    hide EventOrder, Belongs, Class;
    var leq, own := EventOrder(lineage), Filter(Belongs(lineage), events);
    EventOrderIsTotal(lineage);
    SortFilter(leq, Class(leq, e), own);
    ClassIsSorted(leq, e, own);
    SortOfSorted(leq, Filter(Class(leq, e), own));
  }

  lemma FirstOfTies(lineage: seq<string>, e: Event, f: Event, rest: seq<Event>)
    requires SameId(e, f) && Belongs(lineage)(e) && Belongs(lineage)(f)
    ensures var leq := EventOrder(lineage);
      var ties := Filter(Class(leq, e), History([f] + rest, lineage));
      ties != [] && ties[0] == f
  {
    HistoryKeepsTies([f] + rest, lineage, e);
    TiedBothWays(lineage, e, f);
    assert ([f] + rest)[1..] == rest;
    assert Class(EventOrder(lineage), e)(f);
    assert Filter(Belongs(lineage), [f] + rest) == [f] + Filter(Belongs(lineage), rest);
    assert ([f] + Filter(Belongs(lineage), rest))[1..] == Filter(Belongs(lineage), rest);
  }

  /** A history is the same for every order of the store exactly when ids identify the events it is made of. */
  lemma StorageOrderIrrelevantExactly(events: seq<Event>, lineage: seq<string>)
    ensures HistoryIdsIdentify(events, lineage) <==>
      forall other :: multiset(other) == multiset(events) ==> History(other, lineage) == History(events, lineage)
  {
    hide SameId, History, Belongs;
    if HistoryIdsIdentify(events, lineage) {
      forall other | multiset(other) == multiset(events) ensures History(other, lineage) == History(events, lineage) {
        HistoryPermuted(events, other, lineage);
      }
    } else {
      var e, f :| e in events && f in events && Belongs(lineage)(e) && Belongs(lineage)(f) && SameId(e, f) && e != f;
      var others := PullOut(events, e);
      assert f in multiset([e] + others);
      assert f in others;
      var rest := PullOut(others, f);
      TiedPairShows(lineage, e, f, rest, events);
    }
  }

  lemma TiedPairShows(lineage: seq<string>, e: Event, f: Event, rest: seq<Event>, events: seq<Event>)
    requires Belongs(lineage)(e) && Belongs(lineage)(f) && SameId(e, f) && e != f
    requires multiset(events) == multiset{e, f} + multiset(rest)
    ensures exists other :: multiset(other) == multiset(events) && History(other, lineage) != History(events, lineage)
  {
    hide History, Belongs, Class, EventOrder;
    var here, there := [e] + ([f] + rest), [f] + ([e] + rest);
    assert multiset(here) == multiset(events) && multiset(there) == multiset(events);
    assert SameId(e, e);
    FirstOfTies(lineage, e, e, [f] + rest);
    FirstOfTies(lineage, e, f, [e] + rest);
    assert History(here, lineage) != History(there, lineage);
  }

  lemma TiedPairHistory(e: Event, f: Event)
    requires e.taskId == f.taskId == "t" && e.at == f.at && e.eventId == f.eventId && Rank(e) == Rank(f)
    requires !e.data.RecoveredFrom? && !f.data.RecoveredFrom?
    ensures History([e, f], ["t"]) == [e, f]
  {
    FilterAll(Belongs(["t"]), [e, f]);
    StrLeReflexive(e.eventId);
    SortOfSorted(EventOrder(["t"]), [e, f]);
  }

  // ---- recovery ----

  lemma {:induction false} GenerationExtends(lineage: seq<string>, succ: string, t: string)
    ensures t in lineage ==> Generation(lineage + [succ], t) == Generation(lineage, t) < |lineage|
    ensures t !in lineage ==> Generation(lineage + [succ], t) >= |lineage|
  {
    if lineage != [] {
      assert (lineage + [succ])[1..] == lineage[1..] + [succ];
      GenerationExtends(lineage[1..], succ, t);
    }
  }

  /** The predecessors' history comes first, then the successor's own, whatever their clocks say. */
  lemma HistoryExtends(events: seq<Event>, lineage: seq<string>, succ: string)
    requires succ !in lineage
    ensures History(events, lineage + [succ]) == History(events, lineage) + History(events, [succ])
  {
    var extended := lineage + [succ];
    var leq, all := EventOrder(extended), Filter(Belongs(extended), events);
    var first, rest := Belongs(lineage), Belongs([succ]);
    EventOrderIsTotal(extended);
    FilterMembers(Belongs(extended), events);
    forall x, y | x in all && y in all && first(x) && rest(y) ensures !leq(y, x) {
      GenerationExtends(lineage, succ, x.taskId);
      GenerationExtends(lineage, succ, y.taskId);
    }
    SortSplits(leq, first, rest, all);
    FilterTwice(Belongs(extended), first, first, events);
    FilterTwice(Belongs(extended), rest, rest, events);
    FilterMembers(first, events);
    FilterMembers(rest, events);
    forall x, y | x in Filter(first, events) && y in Filter(first, events)
      ensures leq(x, y) == EventOrder(lineage)(x, y)
    {
      GenerationExtends(lineage, succ, x.taskId);
      GenerationExtends(lineage, succ, y.taskId);
    }
    SortCongruent(leq, EventOrder(lineage), Filter(first, events));
    SortCongruent(leq, EventOrder([succ]), Filter(rest, events));
  }

  lemma {:induction false} ReplayConcat(l: Ledger, a: seq<Event>, b: seq<Event>)
    ensures Replay(l, a + b) == Replay(Replay(l, a), b)
  {
    if b == [] {
      assert a + b == a;
    } else {
      hide Record;
      var before, e := Split(b);
      assert a + b == (a + before) + [e];
      ReplayConcat(l, a, before);
      ReplayStep(l, a + before, e);
    }
  }

  lemma {:induction false} OwnersConcat(owners: map<string, seq<string>>, a: seq<Event>, b: seq<Event>)
    ensures Owners(owners, a + b) == Owners(Owners(owners, a), b)
  {
    if b == [] {
      assert a + b == a;
    } else {
      var before, e := Split(b);
      assert a + b == (a + before) + [e];
      assert (a + b)[..|a + b| - 1] == a + before;
      OwnersConcat(owners, a, before);
    }
  }

  function WithLists(l: Ledger, invocations: seq<Invocation>, failures: seq<Invocation>): Ledger {
    l.(tools := l.tools.(invocations := invocations, failures := failures))
  }

  /** The replay appends to the invocation lists and never reads them. */
  lemma {:induction false} ReplayIgnoresLists(l: Ledger, invocations: seq<Invocation>, failures: seq<Invocation>,
      es: seq<Event>)
    ensures var changed, plain := Replay(WithLists(l, invocations, failures), es), Replay(l, es);
      changed == WithLists(plain, changed.tools.invocations, changed.tools.failures)
  {
    hide FocusAfter, FilesAfter, DecisionsAfter, QuestionsAfter, EvidenceAfter;
    if es != [] {
      var before, e := Split(es);
      ReplayIgnoresLists(l, invocations, failures, before);
    }
  }

  lemma ListsCompose(n: nat, lineage: seq<string>, succ: string, a: seq<Invocation>, b: seq<Invocation>)
    requires succ !in lineage
    requires forall x :: x in a ==> x.owner in lineage
    requires forall y :: y in b ==> y.owner == succ
    ensures LastN(n, Sort(InvocationOrder(lineage + [succ]), a + b))
         == LastN(n, Sort(InvocationOrder(lineage + [succ]), LastN(n, Sort(InvocationOrder(lineage), a)) + b))
  {
    var extended := lineage + [succ];
    var leq := InvocationOrder(extended);
    var sorted := Sort(InvocationOrder(lineage), a);
    var kept := LastN(n, sorted);
    InvocationOrderIsTotal(lineage);
    InvocationOrderIsTotal(extended);
    forall x, y | x in a && y in a ensures leq(x, y) == InvocationOrder(lineage)(x, y) {
      GenerationExtends(lineage, succ, x.owner);
      GenerationExtends(lineage, succ, y.owner);
    }
    SortCongruent(leq, InvocationOrder(lineage), a);
    SortSorts(leq, a);
    SortPermutes(leq, a);
    SortOfSorted(leq, kept);
    InvocationsSplit(lineage, succ, a, b);
    InvocationsSplit(lineage, succ, kept, b);
    LastNOfLastN(n, sorted, Sort(leq, b));
  }

  lemma InvocationsSplit(lineage: seq<string>, succ: string, a: seq<Invocation>, b: seq<Invocation>)
    requires succ !in lineage
    requires forall x :: x in a ==> x.owner in lineage
    requires forall y :: y in b ==> y.owner == succ
    ensures var leq := InvocationOrder(lineage + [succ]); Sort(leq, a + b) == Sort(leq, a) + Sort(leq, b)
  {
    var leq := InvocationOrder(lineage + [succ]);
    InvocationOrderIsTotal(lineage + [succ]);
    forall x, y | x in a && y in b ensures !leq(y, x) {
      GenerationExtends(lineage, succ, x.owner);
      GenerationExtends(lineage, succ, y.owner);
    }
    SortConcat(leq, (x: Invocation) => x.owner in lineage, (x: Invocation) => x.owner !in lineage, a, b);
  }

  /** What the replay lists belongs to the tasks whose events it replayed. */
  lemma ListedOwners(es: seq<Event>, tasks: seq<string>)
    requires forall e :: e in es ==> e.taskId in tasks
    ensures forall x :: x in FlatMap(CompletedInvocation, es) ==> x.owner in tasks
    ensures forall x :: x in FlatMap(FailedInvocation, es) ==> x.owner in tasks
  {
    FlatMapMembers(CompletedInvocation, es);
    FlatMapMembers(FailedInvocation, es);
  }

  lemma HistoryOwners(events: seq<Event>, lineage: seq<string>)
    ensures forall e :: e in History(events, lineage) ==> e.taskId in lineage
  {
    SortPermutes(EventOrder(lineage), Filter(Belongs(lineage), events));
    FilterMembers(Belongs(lineage), events);
  }

  /** The successor's own history replayed on top of its predecessor's published snapshot. */
  function Resume(published: Snapshot, own: seq<Event>, succ: string, lineage: seq<string>): Snapshot {
    Publish(succ, lineage, Replay(published.ledger, own), Owners(published.owners, own), published.eventCount + |own|)
  }

  /**
   * Recovery composes: a successor's snapshot is its own sorted events replayed on the snapshot
   * its predecessor publishes. The predecessor's clock, its invocation sequence numbers and the
   * truncation of its invocation and failure lists cannot be told from the result.
   */
  lemma RecoveryComposes(events: seq<Event>, pred: string, succ: string)
    requires Lineage(events, succ) == Lineage(events, pred) + [succ]
    ensures TaskSnapshot(events, succ)
         == Resume(TaskSnapshot(events, pred), History(events, [succ]), succ, Lineage(events, succ))
  {
    var lineage := Lineage(events, pred);
    var extended := Lineage(events, succ);
    LineageExact(events, succ);
    assert succ !in lineage by {
      forall i | 0 <= i < |lineage| ensures lineage[i] != succ {
        assert extended[i] == lineage[i] && extended[|lineage|] == succ;
      }
    }
    var a, b := History(events, lineage), History(events, [succ]);
    HistoryExtends(events, lineage, succ);
    ReplayConcat(EMPTY, a, b);
    OwnersConcat(map[], a, b);

    var full := Replay(EMPTY, a);
    var published := TaskSnapshot(events, pred).ledger;
    var kept, lost := published.tools.invocations, published.tools.failures;
    assert published == WithLists(full, kept, lost);
    ReplayIgnoresLists(full, kept, lost, b);
    InvocationsMeaning(EMPTY, a);
    InvocationsMeaning(full, b);
    InvocationsMeaning(published, b);
    HistoryOwners(events, lineage);
    HistoryOwners(events, [succ]);
    ListedOwners(a, lineage);
    ListedOwners(b, [succ]);
    ListsCompose(RECENT_INVOCATIONS, lineage, succ, full.tools.invocations, FlatMap(CompletedInvocation, b));
    ListsCompose(RECENT_FAILURES, lineage, succ, full.tools.failures, FlatMap(FailedInvocation, b));
  }

  /**
   * When it applies: exactly when the successor's one link names the predecessor and the
   * predecessor's own links lead back to a root.
   */
  lemma RecoveryComposesWhenLinked(events: seq<Event>, pred: string, succ: string)
    requires Links(events, succ) == {pred} && exists c :: Rooted(events, pred, c)
    ensures TaskSnapshot(events, succ)
         == Resume(TaskSnapshot(events, pred), History(events, [succ]), succ, Lineage(events, pred) + [succ])
  {
    LineageExtends(events, succ, pred);
    RecoveryComposes(events, pred, succ);
  }

  // ---- artifact owners ----

  ghost predicate Ascending(lineage: seq<string>, owners: seq<string>) {
    forall i, j :: 0 <= i < j < |owners| ==> Generation(lineage, owners[i]) < Generation(lineage, owners[j])
  }

  function CarriesFor(artifact: string, task: string): Event -> bool {
    (e: Event) => e.taskId == task && (
      || (e.data.DecisionAdded? && e.data.decisionArtifact == Some(artifact))
      || (e.data.ToolInvocationCompleted? && e.data.call.artifactId == Some(artifact))
      || (e.data.EvidenceCaptured? && e.data.artifactId == artifact))
  }

  function OwnersAt(owners: map<string, seq<string>>, artifact: string): seq<string> {
    if artifact in owners then owners[artifact] else []
  }

  /** An artifact's owners are the tasks with an event that carries it, each once, oldest generation first. */
  lemma OwnersMeaning(events: seq<Event>, lineage: seq<string>, artifact: string, task: string)
    ensures var owners := OwnersAt(SnapshotOf(events, task, lineage).owners, artifact);
      && Ascending(lineage, owners)
      && forall t :: t in owners <==> Occurs(CarriesFor(artifact, t), History(events, lineage))
  {
    var h := History(events, lineage);
    EventOrderIsTotal(lineage);
    SortSorts(EventOrder(lineage), Filter(Belongs(lineage), events));
    HistoryOwners(events, lineage);
    OwnersAscend(lineage, h, artifact);
    forall t ensures t in OwnersAt(Owners(map[], h), artifact) <==> Occurs(CarriesFor(artifact, t), h) {
      OwnersAre(h, artifact, t);
    }
  }

  lemma OwnersStep(h: seq<Event>, e: Event, artifact: string)
    ensures var known := OwnersAt(Owners(map[], h), artifact);
      OwnersAt(Owners(map[], h + [e]), artifact)
        == if ArtifactOf(e) == Some(artifact) && e.taskId !in known then known + [e.taskId] else known
  {
    assert (h + [e])[..|h|] == h;
  }

  lemma {:induction false} OwnersAre(h: seq<Event>, artifact: string, t: string)
    ensures t in OwnersAt(Owners(map[], h), artifact) <==> Occurs(CarriesFor(artifact, t), h)
  {
    if h != [] {
      var before, e := Split(h);
      OwnersAre(before, artifact, t);
      OwnersStep(before, e, artifact);
      OccursStep(CarriesFor(artifact, t), before, e);
    }
  }

  lemma {:induction false} OwnersAscend(lineage: seq<string>, h: seq<Event>, artifact: string)
    requires forall e :: e in h ==> e.taskId in lineage
    requires Sorted(EventOrder(lineage), h)
    ensures var owners := OwnersAt(Owners(map[], h), artifact);
      && Ascending(lineage, owners)
      && forall t :: t in owners ==> t in lineage && Generation(lineage, t) <= Generation(lineage, h[|h| - 1].taskId)
  {
    hide Owners, OwnersAt, ArtifactOf, Generation, Ascending;
    if h == [] {
      NoOwners(lineage, artifact);
    } else {
      var before, e := Split(h);
      OwnersAscend(lineage, before, artifact);
      OwnersStep(before, e, artifact);
      var known := OwnersAt(Owners(map[], before), artifact);
      if before == [] {
        NoOwners(lineage, artifact);
      } else {
        OrderedGenerations(lineage, h, |before| - 1);
      }
      if e.taskId !in known {
        forall t | t in known ensures Generation(lineage, t) < Generation(lineage, e.taskId) {
          GenerationsIdentify(lineage, t, e.taskId);
        }
        AscendsLast(lineage, known, e.taskId);
      }
    }
  }

  lemma NoOwners(lineage: seq<string>, artifact: string)
    ensures OwnersAt(Owners(map[], []), artifact) == [] && Ascending(lineage, [])
  {
  }

  lemma AscendsLast(lineage: seq<string>, owners: seq<string>, t: string)
    requires Ascending(lineage, owners)
    requires forall u :: u in owners ==> Generation(lineage, u) < Generation(lineage, t)
    ensures Ascending(lineage, owners + [t])
  {
    hide Generation;
  }

  lemma OrderedGenerations(lineage: seq<string>, h: seq<Event>, i: nat)
    requires Sorted(EventOrder(lineage), h) && i + 1 < |h|
    ensures Generation(lineage, h[i].taskId) <= Generation(lineage, h[i + 1].taskId)
  {
    SortedPair(EventOrder(lineage), h, i, i + 1);
  }
}
