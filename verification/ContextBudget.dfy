/** Packing recalled context under token and byte budgets. */
module ContextBudget {
  const U64_MAX := 0xFFFF_FFFF_FFFF_FFFF

  /** `u64`, and `usize` on the 64-bit targets the packer runs on. */
  type U64 = n: int | 0 <= n <= U64_MAX

  function SaturatingAdd(a: U64, b: U64): U64 {
    if a + b <= U64_MAX then a + b else U64_MAX
  }

  function SaturatingSub(a: U64, b: U64): U64 {
    if b <= a then a - b else 0
  }

  datatype Size = Size(tokens: U64, bytes: U64) {
    function Plus(other: Size): Size {
      Size(SaturatingAdd(tokens, other.tokens), SaturatingAdd(bytes, other.bytes))
    }

    predicate Fits(budget: Size) {
      tokens <= budget.tokens && bytes <= budget.bytes
    }
  }

  datatype Hit = Hit(cacheKey: string, estimate: Size)

  const EMPTY := Size(0, 0)

  const RECOMMENDED := 5

  const EVICTIONS := 8

  // ---- what the working set is ----

  /** The positions of the accepted hits, and the size the packer has counted for them. */
  datatype Packing = Packing(accepted: seq<nat>, used: Size)

  /** Each hit in turn is accepted if it still fits. */
  function Pack(hits: seq<Hit>, budget: Size): Packing {
    if hits == [] then Packing([], EMPTY)
    else
      var p, last := Pack(hits[..|hits| - 1], budget), |hits| - 1;
      var next := p.used.Plus(hits[last].estimate);
      if next.Fits(budget) then Packing(p.accepted + [last], next) else p
  }

  predicate Within(positions: seq<nat>, limit: nat) {
    forall i :: 0 <= i < |positions| ==> positions[i] < limit
  }

  function At(hits: seq<Hit>, positions: seq<nat>): (chosen: seq<Hit>)
    requires Within(positions, |hits|)
    ensures |chosen| == |positions| && forall i :: 0 <= i < |positions| ==> chosen[i] == hits[positions[i]]
  {
    seq(|positions|, i requires 0 <= i < |positions| => hits[positions[i]])
  }

  function Smaller(a: nat, b: nat): nat {
    if a < b then a else b
  }

  /** `hits.iter().skip(from).take(count)` */
  function Window(hits: seq<Hit>, from: nat, count: nat): (window: seq<Hit>)
    ensures |window| == if from + count <= |hits| then count else if from <= |hits| then |hits| - from else 0
    ensures forall j :: 0 <= j < |window| ==> window[j] == hits[from + j]
  {
    var start := Smaller(from, |hits|);
    hits[start..Smaller(start + count, |hits|)]
  }

  ghost predicate Ascending(positions: seq<nat>, limit: nat) {
    && (forall i, j :: 0 <= i < j < |positions| ==> positions[i] < positions[j])
    && Within(positions, limit)
  }

  lemma {:induction false} PackAscends(hits: seq<Hit>, budget: Size)
    ensures Ascending(Pack(hits, budget).accepted, |hits|)
    ensures |Pack(hits, budget).accepted| <= |hits|
    ensures Pack(hits, budget).used.Fits(budget)
  {
    if hits != [] {
      PackAscends(hits[..|hits| - 1], budget);
      AscendsLast(Pack(hits[..|hits| - 1], budget).accepted, |hits| - 1);
    }
  }

  lemma AscendsLast(positions: seq<nat>, i: nat)
    requires Ascending(positions, i)
    ensures Ascending(positions, i + 1) && Ascending(positions + [i], i + 1)
  {
  }

  lemma AtLast(hits: seq<Hit>, positions: seq<nat>, i: nat)
    requires Within(positions, i) && i < |hits|
    ensures Within(positions + [i], |hits|) && At(hits, positions + [i]) == At(hits, positions) + [hits[i]]
    ensures At(hits[..i], positions) == At(hits, positions)
  {
  }

  lemma EmptyAscends(hits: seq<Hit>)
    ensures Ascending([], 0) && At(hits, []) == []
  {
  }

  datatype Managed = Managed(
    workingSet: seq<Hit>, recommended: seq<Hit>, evictionCandidates: seq<Hit>,
    used: Size, headroom: Size)

  lemma HeadroomIsWhatIsLeft(budget: Size, used: Size)
    requires used.Fits(budget)
    ensures SaturatingSub(budget.tokens, used.tokens) + used.tokens == budget.tokens
    ensures SaturatingSub(budget.bytes, used.bytes) + used.bytes == budget.bytes
  {
  }

  /** The budget loop of `contextq.manage` and the eviction list built after it. */
  method Manage(hits: seq<Hit>, budget: Size) returns (managed: Managed)
    ensures Within(Pack(hits, budget).accepted, |hits|)
      && managed.workingSet == At(hits, Pack(hits, budget).accepted)
    ensures managed.used == Pack(hits, budget).used
    ensures managed.recommended == hits[..Smaller(5, |hits|)]
    ensures managed.evictionCandidates == Window(hits, |managed.workingSet|, 8)
    ensures managed.headroom.tokens + managed.used.tokens == budget.tokens
    ensures managed.headroom.bytes + managed.used.bytes == budget.bytes
  {
    hide Ascending, At, SaturatingSub;
    EmptyAscends(hits);
    var workingSet, recommended: seq<Hit> := [], [];
    ghost var accepted: seq<nat> := [];
    var usedTokens: U64, usedBytes: U64 := 0, 0;
    for i := 0 to |hits|
      invariant Pack(hits[..i], budget) == Packing(accepted, Size(usedTokens, usedBytes))
      invariant Ascending(accepted, i) && Within(accepted, i) && workingSet == At(hits, accepted)
      invariant recommended == hits[..Smaller(RECOMMENDED, i)]
      invariant Size(usedTokens, usedBytes).Fits(budget)
    {
      var hit := hits[i];
      AscendsLast(accepted, i);
      AtLast(hits, accepted, i);
      assert hits[..i + 1][..i] == hits[..i] && hits[..i + 1][i] == hit;
      if |recommended| < RECOMMENDED {
        recommended := recommended + [hit];
      }
      var nextTokens := SaturatingAdd(usedTokens, hit.estimate.tokens);
      var nextBytes := SaturatingAdd(usedBytes, hit.estimate.bytes);
      if nextTokens <= budget.tokens && nextBytes <= budget.bytes {
        usedTokens, usedBytes := nextTokens, nextBytes;
        workingSet := workingSet + [hit];
        accepted := accepted + [i];
      }
    }
    assert hits[..|hits|] == hits;
    HeadroomIsWhatIsLeft(budget, Size(usedTokens, usedBytes));
    var evictionCandidates := Window(hits, |workingSet|, EVICTIONS);
    managed := Managed(workingSet, recommended, evictionCandidates, Size(usedTokens, usedBytes),
      Size(SaturatingSub(budget.tokens, usedTokens), SaturatingSub(budget.bytes, usedBytes)));
  }

  // ---- the working set is safe ----

  datatype Exact = Exact(tokens: nat, bytes: nat)

  /** The true size of some hits, with no bound. */
  function Total(hits: seq<Hit>): Exact {
    if hits == [] then Exact(0, 0)
    else
      var t, last := Total(hits[..|hits| - 1]), hits[|hits| - 1].estimate;
      Exact(t.tokens + last.tokens, t.bytes + last.bytes)
  }

  function Capped(n: nat): U64 {
    if n <= U64_MAX then n else U64_MAX
  }

  ghost function WorkingSet(hits: seq<Hit>, budget: Size): seq<Hit> {
    PackAscends(hits, budget);
    At(hits, Pack(hits, budget).accepted)
  }

  lemma WorkingSetLast(hits: seq<Hit>, budget: Size)
    requires hits != []
    ensures var before, last := hits[..|hits| - 1], hits[|hits| - 1];
      WorkingSet(hits, budget) == WorkingSet(before, budget) +
        if Pack(before, budget).used.Plus(last.estimate).Fits(budget) then [last] else []
  {
    var before, last := hits[..|hits| - 1], |hits| - 1;
    PackAscends(before, budget);
    PackAscends(hits, budget);
    AtLast(hits, Pack(before, budget).accepted, last);
  }

  /** What the packer counts is the true total, cut off at the largest number it can hold. */
  lemma {:induction false} UsedIsCappedTotal(hits: seq<Hit>, budget: Size)
    ensures Pack(hits, budget).used.tokens == Capped(Total(WorkingSet(hits, budget)).tokens)
    ensures Pack(hits, budget).used.bytes == Capped(Total(WorkingSet(hits, budget)).bytes)
  {
    hide WorkingSet;
    if hits == [] {
      assert WorkingSet(hits, budget) == [] by {
        EmptyWorkingSet(budget);
      }
    } else {
      var before, last := hits[..|hits| - 1], hits[|hits| - 1];
      UsedIsCappedTotal(before, budget);
      WorkingSetLast(hits, budget);
      var w := WorkingSet(before, budget);
      TotalLast(w, last);
      assert w + [] == w;
    }
  }

  lemma TotalLast(hits: seq<Hit>, hit: Hit)
    ensures Total(hits + [hit]) ==
      Exact(Total(hits).tokens + hit.estimate.tokens, Total(hits).bytes + hit.estimate.bytes)
  {
    assert (hits + [hit])[..|hits|] == hits;
  }

  lemma EmptyWorkingSet(budget: Size)
    ensures WorkingSet([], budget) == []
  {
  }

  /** The hits as if they had no tokens, so that bytes alone decide what is accepted. */
  function BytesOnly(hits: seq<Hit>): (free: seq<Hit>)
    ensures |free| == |hits| && forall i :: 0 <= i < |hits| ==> free[i].estimate == Size(0, hits[i].estimate.bytes)
  {
    seq(|hits|, i requires 0 <= i < |hits| => hits[i].(estimate := Size(0, hits[i].estimate.bytes)))
  }

  function TokensOnly(hits: seq<Hit>): (free: seq<Hit>)
    ensures |free| == |hits| && forall i :: 0 <= i < |hits| ==> free[i].estimate == Size(hits[i].estimate.tokens, 0)
  {
    seq(|hits|, i requires 0 <= i < |hits| => hits[i].(estimate := Size(hits[i].estimate.tokens, 0)))
  }

  /** What the byte estimates of the hits select, whatever their tokens. */
  ghost function SelectedByBytes(hits: seq<Hit>, budget: Size): seq<Hit> {
    PackAscends(BytesOnly(hits), budget);
    At(hits, Pack(BytesOnly(hits), budget).accepted)
  }

  ghost function SelectedByTokens(hits: seq<Hit>, budget: Size): seq<Hit> {
    PackAscends(TokensOnly(hits), budget);
    At(hits, Pack(TokensOnly(hits), budget).accepted)
  }

  /** A budget of the largest number refuses nothing. */
  lemma {:induction false} UnlimitedTokens(hits: seq<Hit>, budget: Size)
    requires budget.tokens == U64_MAX
    ensures Pack(hits, budget).accepted == Pack(BytesOnly(hits), budget).accepted
    ensures Pack(hits, budget).used.bytes == Pack(BytesOnly(hits), budget).used.bytes
  {
    if hits != [] {
      UnlimitedTokens(hits[..|hits| - 1], budget);
      assert BytesOnly(hits)[..|hits| - 1] == BytesOnly(hits[..|hits| - 1]);
    }
  }

  lemma {:induction false} UnlimitedBytes(hits: seq<Hit>, budget: Size)
    requires budget.bytes == U64_MAX
    ensures Pack(hits, budget).accepted == Pack(TokensOnly(hits), budget).accepted
    ensures Pack(hits, budget).used.tokens == Pack(TokensOnly(hits), budget).used.tokens
  {
    if hits != [] {
      UnlimitedBytes(hits[..|hits| - 1], budget);
      assert TokensOnly(hits)[..|hits| - 1] == TokensOnly(hits[..|hits| - 1]);
    }
  }

  /**
   * The true totals stay within the budget, except that a budget of the largest number, which leaves the
   * choice to the other dimension, is met only if what the other dimension selects is no larger.
   */
  lemma WorkingSetFits(hits: seq<Hit>, budget: Size)
    ensures var total := Total(WorkingSet(hits, budget));
      && (total.tokens <= budget.tokens <==>
        budget.tokens < U64_MAX || Total(SelectedByBytes(hits, budget)).tokens <= U64_MAX)
      && (total.bytes <= budget.bytes <==>
        budget.bytes < U64_MAX || Total(SelectedByTokens(hits, budget)).bytes <= U64_MAX)
      && (budget.tokens < U64_MAX ==> Pack(hits, budget).used.tokens == total.tokens)
      && (budget.bytes < U64_MAX ==> Pack(hits, budget).used.bytes == total.bytes)
  {
    UsedIsCappedTotal(hits, budget);
    PackAscends(hits, budget);
    if budget.tokens == U64_MAX {
      UnlimitedTokens(hits, budget);
    }
    if budget.bytes == U64_MAX {
      UnlimitedBytes(hits, budget);
    }
  }

  /** With an unlimited token budget the count sticks at the top while the true total goes on. */
  lemma UnlimitedBudgetOverflows()
    ensures exists hits: seq<Hit>, budget :: Total(WorkingSet(hits, budget)).tokens > budget.tokens
  {
    var big := Hit("a", Size(U64_MAX, 0));
    var hits, budget := [big, big], Size(U64_MAX, U64_MAX);
    assert hits[..1] == [big] && [big][..0] == [];
    assert Pack([big], budget) == Packing([0], Size(U64_MAX, 0));
    assert Pack(hits, budget).accepted == [0, 1];
    assert WorkingSet(hits, budget) == [big, big];
    assert Total([big]).tokens == U64_MAX;
    assert Total([big, big]).tokens == 2 * U64_MAX;
  }

  // ---- and maximal ----

  /** A hit that was passed over does not fit what is left at the end either. */
  lemma {:induction false} NothingSkippedFits(hits: seq<Hit>, budget: Size, i: nat)
    requires i < |hits| && i !in Pack(hits, budget).accepted
    ensures !Pack(hits, budget).used.Plus(hits[i].estimate).Fits(budget)
  {
    var before := hits[..|hits| - 1];
    if i < |before| {
      NothingSkippedFits(before, budget, i);
    }
  }

  // ---- what is offered for eviction ----

  /** The size counted for all of some hits. */
  function Counted(hits: seq<Hit>): Size {
    if hits == [] then EMPTY else Counted(hits[..|hits| - 1]).Plus(hits[|hits| - 1].estimate)
  }

  /** The first `m` hits fit together, and none of the others fits with them. */
  ghost predicate StopsAt(hits: seq<Hit>, budget: Size, m: nat) {
    m <= |hits| && Counted(hits[..m]).Fits(budget)
    && forall i :: m <= i < |hits| ==> !Counted(hits[..m]).Plus(hits[i].estimate).Fits(budget)
  }

  /** Some position is both in the working set and in the window offered for eviction. */
  ghost predicate Overlaps(hits: seq<Hit>, budget: Size) {
    var p := Pack(hits, budget);
    exists i :: i in p.accepted && |p.accepted| <= i < |p.accepted| + EVICTIONS
  }

  lemma CountedLast(hits: seq<Hit>, n: nat)
    requires n < |hits|
    ensures Counted(hits[..n + 1]) == Counted(hits[..n]).Plus(hits[n].estimate)
  {
    assert hits[..n + 1][..n] == hits[..n] && hits[..n + 1][n] == hits[n];
  }

  lemma PackLast(hits: seq<Hit>, budget: Size, n: nat)
    requires n < |hits|
    ensures var p := Pack(hits[..n], budget); var next := p.used.Plus(hits[n].estimate);
      Pack(hits[..n + 1], budget) == if next.Fits(budget) then Packing(p.accepted + [n], next) else p
  {
    assert hits[..n + 1][..n] == hits[..n] && hits[..n + 1][n] == hits[n];
  }

  /** `[0, 1, ..., m - 1]` */
  function FirstPositions(m: nat): (positions: seq<nat>)
    ensures |positions| == m && forall i :: 0 <= i < m ==> positions[i] == i
  {
    seq(m, i requires 0 <= i < m => i)
  }

  /** While all the hits fit together, all are accepted. */
  lemma {:induction false} AllFit(hits: seq<Hit>, budget: Size, m: nat)
    requires m <= |hits| && Counted(hits[..m]).Fits(budget)
    ensures Pack(hits[..m], budget) == Packing(FirstPositions(m), Counted(hits[..m]))
  {
    if m > 0 {
      CountedLast(hits, m - 1);
      AllFit(hits, budget, m - 1);
      PackLast(hits, budget, m - 1);
      assert FirstPositions(m - 1) + [m - 1] == FirstPositions(m);
    }
  }

  lemma {:induction false} NoneFitsLater(hits: seq<Hit>, budget: Size, m: nat, n: nat)
    requires StopsAt(hits, budget, m) && m <= n <= |hits|
    ensures Pack(hits[..n], budget) == Packing(FirstPositions(m), Counted(hits[..m]))
  {
    if n == m {
      AllFit(hits, budget, m);
    } else {
      NoneFitsLater(hits, budget, m, n - 1);
      PackLast(hits, budget, n - 1);
    }
  }

  /** If the accepted positions are the first `m`, the first `m` hits fit together. */
  lemma {:induction false} FirstAcceptedFit(hits: seq<Hit>, budget: Size, n: nat)
    requires n <= |hits| && Pack(hits[..n], budget).accepted == FirstPositions(n)
    ensures Counted(hits[..n]) == Pack(hits[..n], budget).used
  {
    if n > 0 {
      PackLast(hits, budget, n - 1);
      CountedLast(hits, n - 1);
      PackAscends(hits[..n - 1], budget);
      assert |Pack(hits[..n - 1], budget).accepted| == n - 1;
      assert Pack(hits[..n - 1], budget).accepted == FirstPositions(n)[..n - 1] == FirstPositions(n - 1);
      FirstAcceptedFit(hits, budget, n - 1);
    }
  }

  lemma {:induction false} LaterChangesNothing(hits: seq<Hit>, budget: Size, m: nat, n: nat)
    requires m <= n <= |hits|
    requires forall i :: i in Pack(hits[..n], budget).accepted ==> i < m
    ensures Pack(hits[..n], budget) == Pack(hits[..m], budget)
  {
    if m < n {
      PackLast(hits, budget, n - 1);
      var accepted := Pack(hits[..n - 1], budget).accepted;
      assert n - 1 in accepted + [n - 1] && forall i :: i in accepted ==> i in accepted + [n - 1];
      LaterChangesNothing(hits, budget, m, n - 1);
    }
  }

  /** The packer accepts the first `m` hits and no others exactly when it would stop there. */
  lemma PrefixIsAccepted(hits: seq<Hit>, budget: Size, m: nat)
    requires m <= |hits|
    ensures Pack(hits, budget).accepted == FirstPositions(m) <==> StopsAt(hits, budget, m)
  {
    assert hits[..|hits|] == hits;
    if StopsAt(hits, budget, m) {
      NoneFitsLater(hits, budget, m, |hits|);
    }
    if Pack(hits, budget).accepted == FirstPositions(m) {
      LaterChangesNothing(hits, budget, m, |hits|);
      FirstAcceptedFit(hits, budget, m);
      PackAscends(hits, budget);
      forall i | m <= i < |hits| ensures !Counted(hits[..m]).Plus(hits[i].estimate).Fits(budget) {
        NothingSkippedFits(hits, budget, i);
      }
    }
  }

  lemma {:induction false} AscendingAtLeast(positions: seq<nat>, limit: nat, j: nat)
    requires Ascending(positions, limit) && j < |positions|
    ensures j <= positions[j]
  {
    if j > 0 {
      AscendingAtLeast(positions, limit, j - 1);
    }
  }

  /** Whether a hit is accepted is settled once it has been looked at. */
  lemma {:induction false} AcceptedEarly(hits: seq<Hit>, budget: Size, n: nat, i: nat)
    requires i < n <= |hits|
    ensures i in Pack(hits[..n], budget).accepted <==> i in Pack(hits[..i + 1], budget).accepted
    decreases n
  {
    if n > i + 1 {
      PackLast(hits, budget, n - 1);
      AcceptedEarly(hits, budget, n - 1, i);
    }
  }

  /** From `m` up to `n` no hit fits with the first `m`. */
  ghost predicate NoneFits(hits: seq<Hit>, budget: Size, m: nat, n: nat) {
    m <= |hits|
    && forall i :: m <= i < |hits| && i < n ==> !Pack(hits[..m], budget).used.Plus(hits[i].estimate).Fits(budget)
  }

  lemma {:induction false} NoneFitsNoneAccepted(hits: seq<Hit>, budget: Size, m: nat, n: nat)
    requires m <= n <= |hits| && NoneFits(hits, budget, m, n)
    ensures Pack(hits[..n], budget) == Pack(hits[..m], budget)
    decreases n
  {
    if m < n {
      PackLast(hits, budget, n - 1);
      NoneFitsNoneAccepted(hits, budget, m, n - 1);
    }
  }

  /** The positions from `m` up to `n` are free of accepted hits exactly when none of them fits with the first `m`. */
  lemma WindowIsFree(hits: seq<Hit>, budget: Size, m: nat, n: nat)
    requires m <= n <= |hits|
    ensures (forall i :: m <= i < n ==> i !in Pack(hits, budget).accepted) <==> NoneFits(hits, budget, m, n)
  {
    assert hits[..|hits|] == hits;
    var accepted := Pack(hits, budget).accepted;
    if NoneFits(hits, budget, m, n) {
      forall i | m <= i < n ensures i !in accepted {
        AcceptedEarly(hits, budget, |hits|, i);
        NoneFitsNoneAccepted(hits, budget, m, i + 1);
        PackAscends(hits[..m], budget);
      }
    }
    if forall i :: m <= i < n ==> i !in accepted {
      forall i | m <= i < n ensures !Pack(hits[..m], budget).used.Plus(hits[i].estimate).Fits(budget) {
        forall j | j in Pack(hits[..i], budget).accepted ensures j < m {
          AcceptedWithin(hits, budget, i, j);
          AcceptedEarly(hits, budget, i, j);
          AcceptedEarly(hits, budget, |hits|, j);
        }
        LaterChangesNothing(hits, budget, m, i);
        AcceptedEarly(hits, budget, |hits|, i);
        PackLast(hits, budget, i);
      }
    }
  }

  lemma AcceptedWithin(hits: seq<Hit>, budget: Size, n: nat, j: nat)
    requires n <= |hits| && j in Pack(hits[..n], budget).accepted
    ensures j < n
  {
    PackAscends(hits[..n], budget);
  }

  /**
   * Eviction candidates keep clear of the working set exactly when, with as many hits packed as the working
   * set has, none of the next eight fits.
   */
  lemma EvictionClearExactly(hits: seq<Hit>, budget: Size)
    ensures var m := |Pack(hits, budget).accepted|;
      !Overlaps(hits, budget) <==> NoneFits(hits, budget, m, m + EVICTIONS)
  {
    var m := |Pack(hits, budget).accepted|;
    PackAscends(hits, budget);
    var n := Smaller(m + EVICTIONS, |hits|);
    WindowIsFree(hits, budget, m, n);
    forall i | i in Pack(hits, budget).accepted ensures i < |hits| {
      assert hits[..|hits|] == hits;
      AcceptedWithin(hits, budget, |hits|, i);
    }
    hide Pack;
    assert NoneFits(hits, budget, m, n) <==> NoneFits(hits, budget, m, m + EVICTIONS);
  }

  /**
   * In particular they do if packing stops once and for all at some hit. When no more than eight hits were
   * passed over, that is the only way they can.
   */
  lemma EvictionKeepsClear(hits: seq<Hit>, budget: Size)
    ensures (exists m :: StopsAt(hits, budget, m)) ==> !Overlaps(hits, budget)
    ensures |hits| <= |Pack(hits, budget).accepted| + EVICTIONS && !Overlaps(hits, budget) ==>
      StopsAt(hits, budget, |Pack(hits, budget).accepted|)
  {
    var accepted := Pack(hits, budget).accepted;
    PackAscends(hits, budget);
    forall m | StopsAt(hits, budget, m) ensures !Overlaps(hits, budget) {
      PrefixIsAccepted(hits, budget, m);
    }
    if |hits| <= |accepted| + EVICTIONS && !Overlaps(hits, budget) {
      forall j | 0 <= j < |accepted| ensures accepted[j] < |accepted| {
        assert accepted[j] in accepted;
      }
      forall j | 0 <= j < |accepted| ensures accepted[j] == j {
        AscendingAtLeast(accepted, |hits|, j);
        AscendingAtMost(accepted, |accepted|, j);
      }
      assert accepted == FirstPositions(|accepted|);
      PrefixIsAccepted(hits, budget, |accepted|);
    }
  }

  lemma {:induction false} AscendingAtMost(positions: seq<nat>, limit: nat, j: nat)
    requires Ascending(positions, limit) && j < |positions|
    ensures positions[j] + (|positions| - 1 - j) < limit
    decreases |positions| - j
  {
    if j + 1 < |positions| {
      AscendingAtMost(positions, limit, j + 1);
    }
  }

  /**
   * One hit too large for the budget, followed by one that fits: the packer keeps the second and offers it for
   * eviction.
   */
  lemma EvictionCanOverlap()
    ensures exists hits: seq<Hit>, budget :: Overlaps(hits, budget)
  {
    var big, small := Hit("a", Size(9, 0)), Hit("b", Size(1, 0));
    var hits, budget := [big, small], Size(5, 5);
    assert hits[..1] == [big] && [big][..0] == [];
    assert Pack([big], budget) == Packing([], EMPTY);
    assert Pack(hits, budget).accepted == [1];
    assert 1 in Pack(hits, budget).accepted;
    assert Overlaps(hits, budget);
  }
}
