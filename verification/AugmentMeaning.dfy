/** Which recalled packets are added to an assembly, and why the others are not. */
module AugmentMeaning {
  import opened ContextBudget
  import opened ContextAugment

  /** True sums: no number is cut off. */
  ghost predicate FitsWith(used: Size, estimate: Size, reserve: Size) {
    used.tokens + estimate.tokens <= reserve.tokens && used.bytes + estimate.bytes <= reserve.bytes
  }

  ghost predicate IsPart(reserve: Size) {
    reserve.tokens < U64_MAX && reserve.bytes < U64_MAX
  }

  lemma FitsExactly(used: Size, estimate: Size, reserve: Size)
    requires IsPart(reserve)
    ensures used.Plus(estimate).Fits(reserve) <==> FitsWith(used, estimate, reserve)
    ensures FitsWith(used, estimate, reserve) ==>
      used.Plus(estimate) == Size(used.tokens + estimate.tokens, used.bytes + estimate.bytes)
  {
  }

  // ---- one recalled entry ----

  /** The packets of an entry that are new: each key once, none of the seen ones. */
  function Fresh(packets: seq<Packet>, seen: set<string>): seq<Packet> {
    if packets == [] then []
    else if packets[0].key in seen then Fresh(packets[1..], seen)
    else [packets[0]] + Fresh(packets[1..], seen + {packets[0].key})
  }

  /** A packet is new exactly if its key is not seen and no packet before it has the key. */
  lemma {:induction false} FreshExactly(packets: seq<Packet>, seen: set<string>, p: Packet)
    ensures p in Fresh(packets, seen) <==> p.key !in seen && IsFirstOfKey(packets, p)
  {
    hide IsFirstOfKey;
    if packets == [] {
      NoFirst(p);
    } else {
      var first, rest := packets[0], packets[1..];
      FreshExactly(rest, if first.key in seen then seen else seen + {first.key}, p);
      FirstOfKeyCons(packets, p);
    }
  }

  ghost predicate IsFirstOfKey(packets: seq<Packet>, p: Packet) {
    exists i :: 0 <= i < |packets| && packets[i] == p && forall j :: 0 <= j < i ==> packets[j].key != p.key
  }

  lemma NoFirst(p: Packet)
    ensures !IsFirstOfKey([], p)
  {
  }

  lemma FirstOfKeyCons(packets: seq<Packet>, p: Packet)
    requires packets != []
    ensures IsFirstOfKey(packets, p) <==>
      packets[0] == p || (packets[0].key != p.key && IsFirstOfKey(packets[1..], p))
  {
    var rest := packets[1..];
    if i :| 0 <= i < |packets| && packets[i] == p && forall j :: 0 <= j < i ==> packets[j].key != p.key {
      assert i > 0 ==> rest[i - 1] == p;
      assert forall j :: 0 <= j < i - 1 ==> rest[j] == packets[j + 1];
    }
    if i :| 0 <= i < |rest| && rest[i] == p && forall j :: 0 <= j < i ==> rest[j].key != p.key {
      assert packets[i + 1] == p && forall j :: 0 < j <= i ==> packets[j] == rest[j - 1];
    }
  }

  function Charge(packets: seq<Packet>, estimate: Size): (pushed: seq<(Packet, Size)>)
    ensures |pushed| == |packets| && forall i :: 0 <= i < |packets| ==> pushed[i] == (packets[i], estimate)
  {
    seq(|packets|, i requires 0 <= i < |packets| => (packets[i], estimate))
  }

  /** The first `m` of the new packets are added, and the next one, if there is one, no longer fits. */
  ghost predicate AddsFirst(f: Filling, estimate: Size, unseen: seq<Packet>, reserve: Size, m: nat, g: Filling) {
    && m <= |unseen|
    && g.pushed == f.pushed + Charge(unseen[..m], estimate)
    && g.used.Fits(reserve)
    && (m < |unseen| ==> !FitsWith(g.used, estimate, reserve))
    && g.seen == f.seen + Keys(unseen[..if m < |unseen| then m + 1 else m])
  }

  lemma {:induction false} EntryExactly(f: Filling, estimate: Size, packets: seq<Packet>, reserve: Size)
    returns (m: nat)
    requires IsPart(reserve) && f.used.Fits(reserve)
    ensures AddsFirst(f, estimate, Fresh(packets, f.seen), reserve, m, FillEntry(f, estimate, packets, reserve))
    decreases |packets|
  {
    hide IsPart, FitsWith;
    var unseen := Fresh(packets, f.seen);
    FitsExactly(f.used, estimate, reserve);
    if packets == [] {
      m := 0;
      assert f.pushed + Charge(unseen[..0], estimate) == f.pushed;
    } else if packets[0].key in f.seen {
      m := EntryExactly(f, estimate, packets[1..], reserve);
    } else if !f.used.Plus(estimate).Fits(reserve) {
      m := 0;
      assert f.pushed + Charge(unseen[..0], estimate) == f.pushed;
      assert unseen[..1] == [packets[0]];
    } else {
      var g := Filling(f.seen + {packets[0].key}, f.used.Plus(estimate), f.pushed + [(packets[0], estimate)]);
      var n := EntryExactly(g, estimate, packets[1..], reserve);
      m := n + 1;
      AddsOneMore(f, estimate, packets[0], Fresh(packets[1..], g.seen), reserve, n, g,
        FillEntry(g, estimate, packets[1..], reserve));
    }
  }

  lemma AddsOneMore(f: Filling, estimate: Size, first: Packet, rest: seq<Packet>, reserve: Size, n: nat, g: Filling,
      end: Filling)
    requires g.seen == f.seen + {first.key} && g.pushed == f.pushed + [(first, estimate)]
    requires AddsFirst(g, estimate, rest, reserve, n, end)
    ensures AddsFirst(f, estimate, [first] + rest, reserve, n + 1, end)
  {
    hide FitsWith, Charge, Keys;
    var unseen, k := [first] + rest, if n < |rest| then n + 1 else n;
    OneMoreCharged(first, rest, estimate, n);
    OneMoreKey(first, rest, k);
  }

  lemma OneMoreCharged(first: Packet, rest: seq<Packet>, estimate: Size, n: nat)
    requires n <= |rest|
    ensures Charge(([first] + rest)[..n + 1], estimate) == [(first, estimate)] + Charge(rest[..n], estimate)
  {
    assert ([first] + rest)[..n + 1] == [first] + rest[..n];
  }

  lemma OneMoreKey(first: Packet, rest: seq<Packet>, k: nat)
    requires k <= |rest|
    ensures Keys(([first] + rest)[..k + 1]) == {first.key} + Keys(rest[..k])
  {
    assert ([first] + rest)[..k + 1] == [first] + rest[..k];
    assert forall p :: p in [first] + rest[..k] <==> p == first || p in rest[..k];
  }

  // ---- all recalled hits ----

  /** Recalled hit `i` finds an entry with a packet of this key. */
  ghost predicate Offers(hits: seq<Hit>, entries: map<string, seq<Packet>>, i: nat, key: string) {
    i < |hits| && hits[i].cacheKey in entries && HasKey(entries[hits[i].cacheKey], key)
  }

  ghost predicate HasKey(packets: seq<Packet>, key: string) {
    exists p :: p in packets && p.key == key
  }

  ghost predicate Added(pushed: seq<(Packet, Size)>, key: string) {
    exists i :: 0 <= i < |pushed| && pushed[i].0.key == key
  }

  ghost predicate NoLess(a: Size, b: Size) {
    a.tokens <= b.tokens && a.bytes <= b.bytes
  }

  lemma {:induction false} EntryGrows(f: Filling, estimate: Size, packets: seq<Packet>, reserve: Size)
    requires IsPart(reserve) && f.used.Fits(reserve)
    ensures var g := FillEntry(f, estimate, packets, reserve);
      && f.pushed <= g.pushed && NoLess(f.used, g.used) && g.used.Fits(reserve)
      && forall key :: key in g.seen ==> key in f.seen || HasKey(packets, key)
    decreases |packets|
  {
    if packets != [] {
      assert packets == [packets[0]] + packets[1..] && packets[0] in packets;
      FitsExactly(f.used, estimate, reserve);
      if packets[0].key in f.seen {
        EntryGrows(f, estimate, packets[1..], reserve);
      } else if f.used.Plus(estimate).Fits(reserve) {
        EntryGrows(Filling(f.seen + {packets[0].key}, f.used.Plus(estimate), f.pushed + [(packets[0], estimate)]),
          estimate, packets[1..], reserve);
      }
    }
  }

  lemma {:induction false} HitsGrow(f: Filling, hits: seq<Hit>, entries: map<string, seq<Packet>>, reserve: Size)
    requires IsPart(reserve) && f.used.Fits(reserve)
    ensures var g := FillHits(f, hits, entries, reserve);
      f.pushed <= g.pushed && NoLess(f.used, g.used) && g.used.Fits(reserve)
    decreases |hits|
  {
    hide FillEntry;
    if hits != [] && !Full(f.used, reserve) {
      if hits[0].cacheKey in entries {
        var packets := entries[hits[0].cacheKey];
        EntryGrows(f, hits[0].estimate, packets, reserve);
        HitsGrow(FillEntry(f, hits[0].estimate, packets, reserve), hits[1..], entries, reserve);
      } else {
        HitsGrow(f, hits[1..], entries, reserve);
      }
    }
  }

  /** Among packets of one key the first is found. */
  lemma {:induction false} FirstWithKey(packets: seq<Packet>, key: string) returns (p: Packet)
    requires HasKey(packets, key)
    ensures p.key == key && IsFirstOfKey(packets, p)
  {
    hide IsFirstOfKey;
    FirstOfKeyCons(packets, packets[0]);
    if packets[0].key == key {
      p := packets[0];
    } else {
      assert packets == [packets[0]] + packets[1..];
      p := FirstWithKey(packets[1..], key);
      FirstOfKeyCons(packets, p);
    }
  }

  /** A new packet that an entry offers is added, or what is left does not hold another of its size. */
  lemma EntryAddsOrIsFull(f: Filling, estimate: Size, packets: seq<Packet>, reserve: Size, key: string)
    requires IsPart(reserve) && f.used.Fits(reserve) && key !in f.seen && HasKey(packets, key)
    ensures var g := FillEntry(f, estimate, packets, reserve);
      Added(g.pushed, key) || !FitsWith(g.used, estimate, reserve)
  {
    hide FillEntry, FitsWith, IsFirstOfKey, HasKey, Fresh;
    var g, unseen := FillEntry(f, estimate, packets, reserve), Fresh(packets, f.seen);
    var m := EntryExactly(f, estimate, packets, reserve);
    var p := FirstWithKey(packets, key);
    FreshExactly(packets, f.seen, p);
    var x :| 0 <= x < |unseen| && unseen[x] == p;
    if x < m {
      assert g.pushed[|f.pushed| + x] == Charge(unseen[..m], estimate)[x] == (p, estimate);
    }
  }

  /** `key` would not fit at the size of some hit that offered it. */
  ghost predicate Refused(hits: seq<Hit>, entries: map<string, seq<Packet>>, key: string, used: Size, reserve: Size) {
    exists j: nat :: Offers(hits, entries, j, key) && !FitsWith(used, hits[j].estimate, reserve)
  }

  lemma RefusedLater(hits: seq<Hit>, entries: map<string, seq<Packet>>, key: string, used: Size, reserve: Size)
    requires hits != [] && Refused(hits[1..], entries, key, used, reserve)
    ensures Refused(hits, entries, key, used, reserve)
  {
    hide HasKey;
    var j: nat :| Offers(hits[1..], entries, j, key) && !FitsWith(used, hits[1..][j].estimate, reserve);
    assert hits[j + 1] == hits[1..][j];
    assert Offers(hits, entries, j + 1, key);
  }

  /** A recalled packet is added, unless the reserve is full in the end or lacks the room some hit offering it asks. */
  lemma {:induction false} NothingRecalledFits(f: Filling, hits: seq<Hit>, entries: map<string, seq<Packet>>,
      reserve: Size, i: nat, key: string)
    requires IsPart(reserve) && f.used.Fits(reserve)
    requires Offers(hits, entries, i, key) && key !in f.seen
    ensures var g := FillHits(f, hits, entries, reserve);
      Added(g.pushed, key) || Full(g.used, reserve) || Refused(hits, entries, key, g.used, reserve)
    decreases |hits|
  {
    hide FillEntry, Refused, Added, HasKey;
    var g := FillHits(f, hits, entries, reserve);
    if !Full(f.used, reserve) {
      var rest := hits[1..];
      assert i > 0 ==> Offers(rest, entries, i - 1, key);
      if hits[0].cacheKey !in entries {
        NothingRecalledFits(f, rest, entries, reserve, i - 1, key);
      } else {
        var packets := entries[hits[0].cacheKey];
        var h := FillEntry(f, hits[0].estimate, packets, reserve);
        EntryGrows(f, hits[0].estimate, packets, reserve);
        HitsGrow(h, rest, entries, reserve);
        if HasKey(packets, key) {
          EntryAddsOrIsFull(f, hits[0].estimate, packets, reserve, key);
          FirstHitSettles(hits, entries, key, h, g, reserve);
        } else {
          NothingRecalledFits(h, rest, entries, reserve, i - 1, key);
        }
      }
      if rest != [] && Refused(rest, entries, key, g.used, reserve) {
        RefusedLater(hits, entries, key, g.used, reserve);
      }
    }
  }

  lemma FirstHitSettles(hits: seq<Hit>, entries: map<string, seq<Packet>>, key: string, h: Filling, g: Filling,
      reserve: Size)
    requires Offers(hits, entries, 0, key) && h.pushed <= g.pushed && NoLess(h.used, g.used)
    requires Added(h.pushed, key) || !FitsWith(h.used, hits[0].estimate, reserve)
    ensures Added(g.pushed, key) || Refused(hits, entries, key, g.used, reserve)
  {
    hide HasKey;
    if Added(h.pushed, key) {
      var i :| 0 <= i < |h.pushed| && h.pushed[i].0.key == key;
      assert g.pushed[i] == h.pushed[i];
    } else {
      assert !FitsWith(g.used, hits[0].estimate, reserve);
    }
  }

  // ---- in what order, and at what charge ----

  /** An added packet is in the entry of its hit, and charged at that hit's estimate. */
  ghost predicate ComesFrom(hits: seq<Hit>, entries: map<string, seq<Packet>>, i: nat, added: (Packet, Size)) {
    i < |hits| && hits[i].cacheKey in entries && added.0 in entries[hits[i].cacheKey] && added.1 == hits[i].estimate
  }

  ghost predicate HasRoom(used: Exact, reserve: Size) {
    used.tokens < reserve.tokens && used.bytes < reserve.bytes
  }

  /** The packets added after the first `n` come from the hits in turn, and a hit adds only while there is room. */
  ghost predicate InTurn(hits: seq<Hit>, entries: map<string, seq<Packet>>, reserve: Size, n: nat,
      pushed: seq<(Packet, Size)>, origins: seq<nat>) {
    && n + |origins| == |pushed|
    && (forall k :: 0 <= k < |origins| ==> ComesFrom(hits, entries, origins[k], pushed[n + k]))
    && (forall k :: 0 < k < |origins| ==> origins[k - 1] <= origins[k])
    && forall k :: StartsHit(origins, k) ==> HasRoom(Charged(pushed[..n + k]), reserve)
  }

  /** The first packet that a hit adds. */
  ghost predicate StartsHit(origins: seq<nat>, k: int) {
    0 <= k < |origins| && (k == 0 || origins[k - 1] < origins[k])
  }

  function Shifted(origins: seq<nat>): (later: seq<nat>)
    ensures |later| == |origins| && forall k :: 0 <= k < |origins| ==> later[k] == origins[k] + 1
  {
    seq(|origins|, k requires 0 <= k < |origins| => origins[k] + 1)
  }

  lemma LaterInTurn(hits: seq<Hit>, entries: map<string, seq<Packet>>, reserve: Size, n: nat,
      pushed: seq<(Packet, Size)>, later: seq<nat>)
    requires hits != [] && InTurn(hits[1..], entries, reserve, n, pushed, later)
    ensures InTurn(hits, entries, reserve, n, pushed, Shifted(later))
  {
    hide Charged, HasRoom;
    var origins := Shifted(later);
    forall k | 0 <= k < |origins| ensures ComesFrom(hits, entries, origins[k], pushed[n + k]) {
      assert ComesFrom(hits[1..], entries, later[k], pushed[n + k]);
    }
    hide ComesFrom;
    forall k | StartsHit(origins, k) ensures HasRoom(Charged(pushed[..n + k]), reserve) {
      assert StartsHit(later, k);
    }
  }

  lemma SoundFits(f: Filling, known: set<string>, reserve: Size)
    requires Sound(f, known, reserve)
    ensures f.used.Fits(reserve) && Charged(f.pushed) == Exact(f.used.tokens, f.used.bytes)
  {
  }

  lemma EntryComesFrom(f: Filling, hits: seq<Hit>, entries: map<string, seq<Packet>>, reserve: Size)
    requires IsPart(reserve) && f.used.Fits(reserve) && hits != [] && hits[0].cacheKey in entries
    ensures var h := FillEntry(f, hits[0].estimate, entries[hits[0].cacheKey], reserve);
      forall k :: |f.pushed| <= k < |h.pushed| ==> ComesFrom(hits, entries, 0, h.pushed[k])
  {
    hide FillEntry, FitsWith, Fresh;
    var estimate, packets := hits[0].estimate, entries[hits[0].cacheKey];
    var h, unseen := FillEntry(f, estimate, packets, reserve), Fresh(packets, f.seen);
    var m := EntryExactly(f, estimate, packets, reserve);
    forall k | |f.pushed| <= k < |h.pushed| ensures ComesFrom(hits, entries, 0, h.pushed[k]) {
      var p := unseen[k - |f.pushed|];
      assert h.pushed[k] == Charge(unseen[..m], estimate)[k - |f.pushed|] == (p, estimate);
      FreshExactly(packets, f.seen, p);
    }
  }

  lemma FirstInTurn(hits: seq<Hit>, entries: map<string, seq<Packet>>, reserve: Size, n: nat, m: nat,
      pushed: seq<(Packet, Size)>, later: seq<nat>)
    requires InTurn(hits, entries, reserve, n + m, pushed, later)
    requires forall k :: 0 <= k < |later| ==> later[k] > 0
    requires forall k :: n <= k < n + m ==> ComesFrom(hits, entries, 0, pushed[k])
    requires HasRoom(Charged(pushed[..n]), reserve)
    ensures InTurn(hits, entries, reserve, n, pushed, seq(m, _ => 0) + later)
  {
    hide Charged, HasRoom, ComesFrom;
    var origins := seq(m, _ => 0) + later;
    forall k | StartsHit(origins, k) ensures HasRoom(Charged(pushed[..n + k]), reserve) {
      if k >= m {
        assert k > m ==> origins[k - 1] == later[k - m - 1];
        assert StartsHit(later, k - m);
        assert n + m + (k - m) == n + k;
      }
    }
    forall k | 0 <= k < |origins| ensures ComesFrom(hits, entries, origins[k], pushed[n + k]) {
      if k >= m {
        assert ComesFrom(hits, entries, later[k - m], pushed[n + m + (k - m)]);
      }
    }
  }

  lemma {:induction false} AddedInTurn(f: Filling, known: set<string>, hits: seq<Hit>,
      entries: map<string, seq<Packet>>, reserve: Size) returns (origins: seq<nat>)
    requires IsPart(reserve) && Sound(f, known, reserve)
    ensures InTurn(hits, entries, reserve, |f.pushed|, FillHits(f, hits, entries, reserve).pushed, origins)
    decreases |hits|
  {
    hide FillEntry, Sound, Charged, ComesFrom, InTurn;
    var g := FillHits(f, hits, entries, reserve);
    if hits == [] || Full(f.used, reserve) {
      origins := [];
      NothingInTurn(hits, entries, reserve, f.pushed);
    } else if hits[0].cacheKey !in entries {
      var later := AddedInTurn(f, known, hits[1..], entries, reserve);
      origins := Shifted(later);
      LaterInTurn(hits, entries, reserve, |f.pushed|, g.pushed, later);
    } else {
      var packets, estimate, rest := entries[hits[0].cacheKey], hits[0].estimate, hits[1..];
      var h := FillEntry(f, estimate, packets, reserve);
      SoundFits(f, known, reserve);
      EntryKeepsSound(f, known, estimate, packets, reserve);
      EntryGrows(f, estimate, packets, reserve);
      HitsGrow(h, rest, entries, reserve);
      EntryComesFrom(f, hits, entries, reserve);
      var later := AddedInTurn(h, known, rest, entries, reserve);
      LaterInTurn(hits, entries, reserve, |h.pushed|, g.pushed, later);
      var n, m := |f.pushed|, |h.pushed| - |f.pushed|;
      origins := seq(m, _ => 0) + Shifted(later);
      assert g.pushed[..n] == f.pushed;
      FirstInTurn(hits, entries, reserve, n, m, g.pushed, Shifted(later));
    }
  }

  lemma NothingInTurn(hits: seq<Hit>, entries: map<string, seq<Packet>>, reserve: Size, pushed: seq<(Packet, Size)>)
    ensures InTurn(hits, entries, reserve, |pushed|, pushed, [])
  {
  }

  // ---- the whole run ----

  /** The entry is the last of those stored under its key. */
  ghost predicate IsLastOfKey(entries: seq<CacheEntry>, entry: CacheEntry) {
    exists i :: 0 <= i < |entries| && entries[i] == entry
      && forall j :: i < j < |entries| ==> entries[j].cacheKey != entry.cacheKey
  }

  lemma LastOfKeyStep(entries: seq<CacheEntry>, entry: CacheEntry)
    requires entries != []
    ensures var before, last := entries[..|entries| - 1], entries[|entries| - 1];
      IsLastOfKey(entries, entry) <==>
        last == entry || (last.cacheKey != entry.cacheKey && IsLastOfKey(before, entry))
  {
    var before := entries[..|entries| - 1];
    if IsLastOfKey(before, entry) {
      var i :| 0 <= i < |before| && before[i] == entry
        && forall j :: i < j < |before| ==> before[j].cacheKey != entry.cacheKey;
      assert entries[i] == before[i] && forall j :: i < j < |before| ==> entries[j] == before[j];
    }
    if IsLastOfKey(entries, entry) {
      var i :| 0 <= i < |entries| && entries[i] == entry
        && forall j :: i < j < |entries| ==> entries[j].cacheKey != entry.cacheKey;
      assert i < |before| ==> before[i] == entry;
      assert forall j :: i < j < |before| ==> before[j] == entries[j];
    }
  }

  /** The entry found under a cache key is the last one stored under it. */
  lemma {:induction false} LastEntryExactly(entries: seq<CacheEntry>, entry: CacheEntry)
    ensures entry.cacheKey in ByKey(entries) && ByKey(entries)[entry.cacheKey] == entry.packets <==>
      IsLastOfKey(entries, entry)
  {
    hide IsLastOfKey;
    if entries == [] {
      assert !IsLastOfKey([], entry) by {
        NoneIsLast(entry);
      }
    } else {
      LastEntryExactly(entries[..|entries| - 1], entry);
      LastOfKeyStep(entries, entry);
    }
  }

  lemma NoneIsLast(entry: CacheEntry)
    ensures !IsLastOfKey([], entry)
  {
  }

  /** The reserve is a quarter of the budget and no less than 256 tokens and 4096 bytes. */
  lemma ReserveExactly(budget: Size)
    ensures Reserve(budget).tokens == if budget.tokens >= 1024 then budget.tokens / 4 else 256
    ensures Reserve(budget).bytes == if budget.bytes >= 16384 then budget.bytes / 4 else 4096
    ensures IsPart(Reserve(budget))
  {
  }

  /** Task memory adds packets in the order of the hits, and every new one recalled while there is room. */
  lemma AugmentingExactly(hits: seq<Hit>, entries: seq<CacheEntry>, assembled: seq<Packet>, budget: Size)
    returns (origins: seq<nat>)
    ensures var g := FillHits(Filling(Keys(assembled), EMPTY, []), hits, ByKey(entries), Reserve(budget));
      && InTurn(hits, ByKey(entries), Reserve(budget), 0, g.pushed, origins)
      && forall i: nat, key :: Offers(hits, ByKey(entries), i, key) && !HasKey(assembled, key) ==>
           || Added(g.pushed, key) || Full(g.used, Reserve(budget))
           || Refused(hits, ByKey(entries), key, g.used, Reserve(budget))
  {
    hide FillHits, ByKey, Refused, Added, Offers, InTurn;
    var f, byKey, reserve := Filling(Keys(assembled), EMPTY, []), ByKey(entries), Reserve(budget);
    ReserveExactly(budget);
    hide Reserve;
    assert Sound(f, Keys(assembled), reserve);
    origins := AddedInTurn(f, Keys(assembled), hits, byKey, reserve);
    forall i: nat, key | Offers(hits, byKey, i, key) && !HasKey(assembled, key)
      ensures var g := FillHits(f, hits, byKey, reserve);
        Added(g.pushed, key) || Full(g.used, reserve) || Refused(hits, byKey, key, g.used, reserve)
    {
      NothingRecalledFits(f, hits, byKey, reserve, i, key);
    }
  }

  /** A packet refused at one hit's size is not tried again at the smaller size of another. */
  lemma RefusedIsNotTriedAgain()
    ensures var p := Packet("p", "k");
      var hits := [Hit("a", Size(1000, 0)), Hit("b", Size(10, 0))];
      var g := FillHits(Filling({}, EMPTY, []), hits, map["a" := [p], "b" := [p]], Size(256, 4096));
      g.pushed == [] && FitsWith(g.used, Size(10, 0), Size(256, 4096))
  {
    var p := Packet("p", "k");
    var hits := [Hit("a", Size(1000, 0)), Hit("b", Size(10, 0))];
    var entries, reserve := map["a" := [p], "b" := [p]], Size(256, 4096);
    var f, g := Filling({}, EMPTY, []), Filling({"k"}, EMPTY, []);
    assert FillEntry(f, Size(1000, 0), [p], reserve) == g;
    assert FillEntry(g, Size(10, 0), [p], reserve) == FillEntry(g, Size(10, 0), [], reserve) == g;
    assert hits[1..] == [hits[1]] && hits[1..][1..] == [];
    assert FillHits(g, [hits[1]], entries, reserve) == FillHits(g, [], entries, reserve) == g;
  }
}
