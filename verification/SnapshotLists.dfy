/** The published lists of invocations and the order of the history, told field by field. */
module SnapshotLists {
  import opened Order
  import opened Sequences
  import opened Sorting
  import opened AgentEvents
  import opened AgentSnapshot
  import opened HistoryMeaning

  // ---- orders, field by field ----

  /** By the generation of the task, the number of the call, the time and the id of the invocation, in this order. */
  ghost predicate NotAfter(lineage: seq<string>, a: Invocation, b: Invocation) {
    var ga, gb := Generation(lineage, a.owner), Generation(lineage, b.owner);
    && ga <= gb
    && (ga == gb ==> a.call.sequence <= b.call.sequence)
    && (ga == gb && a.call.sequence == b.call.sequence ==> a.at <= b.at)
    && (ga == gb && a.call.sequence == b.call.sequence && a.at == b.at ==>
          StrLe(a.call.invocationId, b.call.invocationId))
  }

  /** By the generation of the task, the time, explicit supersessions last, and the id of the event. */
  ghost predicate EventNotAfter(lineage: seq<string>, a: Event, b: Event) {
    var ga, gb := Generation(lineage, a.taskId), Generation(lineage, b.taskId);
    && ga <= gb
    && (ga == gb ==> a.at <= b.at)
    && (ga == gb && a.at == b.at && a.data.DecisionSuperseded? ==> b.data.DecisionSuperseded?)
    && (ga == gb && a.at == b.at && (a.data.DecisionSuperseded? <==> b.data.DecisionSuperseded?) ==>
          StrLe(a.eventId, b.eventId))
  }

  lemma OrdersExactly(lineage: seq<string>)
    ensures forall a, b :: InvocationOrder(lineage)(a, b) <==> NotAfter(lineage, a, b)
    ensures forall a, b :: EventOrder(lineage)(a, b) <==> EventNotAfter(lineage, a, b)
  {
    hide StrLe, Generation;
  }

  /** The events of the lineage's tasks other than recovery links, each as often as it is stored, in order. */
  lemma HistoryExactly(events: seq<Event>, lineage: seq<string>)
    ensures var h := History(events, lineage);
      && (forall e ::
            multiset(h)[e] == if e.taskId in lineage && !e.data.RecoveredFrom? then multiset(events)[e] else 0)
      && forall i, j :: 0 <= i < j < |h| ==> EventNotAfter(lineage, h[i], h[j])
  {
    hide EventNotAfter, EventLe, Sort;
    var h, kept := History(events, lineage), Filter(Belongs(lineage), events);
    FilterMultiset(Belongs(lineage), events);
    EventOrderIsTotal(lineage);
    SortSorts(EventOrder(lineage), kept);
    SortPermutes(EventOrder(lineage), kept);
    OrdersExactly(lineage);
    forall i, j | 0 <= i < j < |h| ensures EventNotAfter(lineage, h[i], h[j]) {
      assert EventOrder(lineage)(h[i], h[j]);
    }
  }

  // ---- the newest of a list ----

  /** `kept` are the `n` newest of `all`, or all of them if there are fewer, oldest first. */
  ghost predicate Newest(lineage: seq<string>, n: nat, all: seq<Invocation>, kept: seq<Invocation>) {
    && |kept| == (if n < |all| then n else |all|)
    && multiset(kept) <= multiset(all)
    && (forall i, j :: 0 <= i < j < |kept| ==> NotAfter(lineage, kept[i], kept[j]))
    && forall x, y :: x in multiset(all) - multiset(kept) && y in kept ==> NotAfter(lineage, x, y)
  }

  lemma SplitsAt<T>(leq: (T, T) -> bool, s: seq<T>, cut: nat)
    requires Sorted(leq, s) && cut <= |s|
    ensures multiset(s) - multiset(s[cut..]) == multiset(s[..cut]) && multiset(s[cut..]) <= multiset(s)
    ensures Sorted(leq, s[cut..])
    ensures forall x, y :: x in s[..cut] && y in s[cut..] ==> leq(x, y)
  {
    assert s == s[..cut] + s[cut..];
    forall x, y | x in s[..cut] && y in s[cut..] ensures leq(x, y) {
      var i :| 0 <= i < cut && s[i] == x;
      var j :| 0 <= j < |s| - cut && s[cut..][j] == y;
      assert s[cut + j] == y;
    }
  }

  lemma LastNIsSuffix<T>(n: nat, s: seq<T>) returns (cut: nat)
    ensures cut <= |s| && LastN(n, s) == s[cut..] && |LastN(n, s)| == if n < |s| then n else |s|
  {
    cut := if |s| > n then |s| - n else 0;
  }

  lemma CutOff(lineage: seq<string>, n: nat, all: seq<Invocation>)
    ensures Newest(lineage, n, all, LastN(n, Sort(InvocationOrder(lineage), all)))
  {
    hide NotAfter, InvocationOrder, Sort, LastN;
    var order := InvocationOrder(lineage);
    var sorted := Sort(order, all);
    InvocationOrderIsTotal(lineage);
    SortSorts(order, all);
    SortPermutes(order, all);
    OrdersExactly(lineage);
    var cut := LastNIsSuffix(n, sorted);
    SplitsAt(order, sorted, cut);
    ByOrder(lineage, n, all, sorted, cut);
  }

  lemma ByOrder(lineage: seq<string>, n: nat, all: seq<Invocation>, sorted: seq<Invocation>, cut: nat)
    requires multiset(sorted) == multiset(all) && |sorted| == |all| && cut <= |sorted|
    requires multiset(sorted) - multiset(sorted[cut..]) == multiset(sorted[..cut])
    requires multiset(sorted[cut..]) <= multiset(sorted)
    requires |sorted[cut..]| == if n < |sorted| then n else |sorted|
    requires Sorted(InvocationOrder(lineage), sorted[cut..])
    requires forall x, y :: x in sorted[..cut] && y in sorted[cut..] ==> InvocationOrder(lineage)(x, y)
    ensures Newest(lineage, n, all, sorted[cut..])
  {
    hide NotAfter, InvocationOrder;
    OrdersExactly(lineage);
    var kept, dropped := sorted[cut..], sorted[..cut];
    assert forall x :: x in multiset(dropped) <==> x in dropped;
  }

  /**
   * A snapshot publishes the twelve newest completed invocations of the history and the eight newest failed ones; its
   * other accumulators are those of the replay, and it counts the events of the history.
   */
  lemma PublishedExactly(events: seq<Event>, task: string, lineage: seq<string>)
    ensures var h, published := History(events, lineage), SnapshotOf(events, task, lineage);
      && Newest(lineage, 12, FlatMap(CompletedInvocation, h), published.ledger.tools.invocations)
      && Newest(lineage, 8, FlatMap(FailedInvocation, h), published.ledger.tools.failures)
      && published.eventCount == |h| && published.taskId == task
      && published.ledger.(tools := EMPTY.tools) == Replay(EMPTY, h).(tools := EMPTY.tools)
      && published.ledger.tools.(invocations := [], failures := []) ==
           Replay(EMPTY, h).tools.(invocations := [], failures := [])
  {
    hide Newest, Replay, History, Sort, LastN, InvocationOrder;
    var h := History(events, lineage);
    InvocationsMeaning(EMPTY, h);
    ConcatEmpty(FlatMap(CompletedInvocation, h));
    ConcatEmpty(FlatMap(FailedInvocation, h));
    CutOff(lineage, 12, FlatMap(CompletedInvocation, h));
    CutOff(lineage, 8, FlatMap(FailedInvocation, h));
  }
}
