/** Adding recalled task memory to an assembly, within the share of the budget reserved for it. */
module ContextAugment {
  import opened ContextBudget

  /** `key` is the hash of the packet's value. */
  datatype Packet = Packet(packetId: string, key: string)

  datatype CacheEntry = CacheEntry(cacheKey: string, packets: seq<Packet>)

  const MIN_RESERVE := Size(256, 4096)

  function Reserve(budget: Size): Size {
    Size(
      if budget.tokens / 4 > MIN_RESERVE.tokens then budget.tokens / 4 else MIN_RESERVE.tokens,
      if budget.bytes / 4 > MIN_RESERVE.bytes then budget.bytes / 4 else MIN_RESERVE.bytes)
  }

  /** `pushed` holds each added packet with the estimate of the hit it was charged at. */
  datatype Filling = Filling(seen: set<string>, used: Size, pushed: seq<(Packet, Size)>)

  /** The packets of one recalled entry: seen ones are passed over, and the first that does not fit ends the entry. */
  function FillEntry(f: Filling, estimate: Size, packets: seq<Packet>, reserve: Size): Filling
    decreases |packets|
  {
    if packets == [] then f
    else if packets[0].key in f.seen then FillEntry(f, estimate, packets[1..], reserve)
    else
      var marked := f.(seen := f.seen + {packets[0].key});
      var next := f.used.Plus(estimate);
      if !next.Fits(reserve) then marked
      else
        var filled := marked.(used := next, pushed := f.pushed + [(packets[0], estimate)]);
        FillEntry(filled, estimate, packets[1..], reserve)
  }

  predicate Full(used: Size, reserve: Size) {
    used.tokens >= reserve.tokens || used.bytes >= reserve.bytes
  }

  /** The recalled hits in turn, until the reserve is full in one dimension. */
  function FillHits(f: Filling, hits: seq<Hit>, entries: map<string, seq<Packet>>, reserve: Size): Filling
    decreases |hits|
  {
    if hits == [] || Full(f.used, reserve) then f
    else if hits[0].cacheKey !in entries then FillHits(f, hits[1..], entries, reserve)
    else FillHits(FillEntry(f, hits[0].estimate, entries[hits[0].cacheKey], reserve), hits[1..], entries, reserve)
  }

  function Keys(packets: seq<Packet>): set<string> {
    set p | p in packets :: p.key
  }

  function PacketsOf(pushed: seq<(Packet, Size)>): (packets: seq<Packet>)
    ensures |packets| == |pushed| && forall i :: 0 <= i < |pushed| ==> packets[i] == pushed[i].0
  {
    seq(|pushed|, i requires 0 <= i < |pushed| => pushed[i].0)
  }

  /** The later of two entries with one cache key is the one found. */
  function ByKey(entries: seq<CacheEntry>): map<string, seq<Packet>> {
    if entries == [] then map[]
    else ByKey(entries[..|entries| - 1])[entries[|entries| - 1].cacheKey := entries[|entries| - 1].packets]
  }

  method FillFromEntry(f: Filling, estimate: Size, packets: seq<Packet>, reserve: Size) returns (g: Filling)
    ensures g == FillEntry(f, estimate, packets, reserve)
  {
    var seen, used, pushed := f.seen, f.used, f.pushed;
    for i := 0 to |packets|
      invariant FillEntry(Filling(seen, used, pushed), estimate, packets[i..], reserve) ==
        FillEntry(f, estimate, packets, reserve)
    {
      var packet := packets[i];
      assert packets[i..][0] == packet && packets[i..][1..] == packets[i + 1..];
      if packet.key in seen {
        continue;
      }
      seen := seen + {packet.key};
      var next := used.Plus(estimate);
      if !next.Fits(reserve) {
        return Filling(seen, used, pushed);
      }
      used := next;
      pushed := pushed + [(packet, estimate)];
    }
    g := Filling(seen, used, pushed);
  }

  method AugmentAssembleWithTaskMemory(requested: bool, hits: seq<Hit>, entries: seq<CacheEntry>,
      assembled: seq<Packet>, budget: Size)
    returns (packets: seq<Packet>)
    ensures !requested ==> packets == assembled
    ensures var filled := FillHits(Filling(Keys(assembled), EMPTY, []), hits, ByKey(entries), Reserve(budget));
      requested ==> packets == assembled + PacketsOf(filled.pushed)
  {
    packets := assembled;
    if !requested || hits == [] {
      return;
    }
    var reserve := Reserve(budget);
    hide FillEntry, Full, Reserve, Keys;
    var byKey: map<string, seq<Packet>> := map[];
    for i := 0 to |entries|
      invariant byKey == ByKey(entries[..i])
    {
      assert entries[..i + 1][..i] == entries[..i];
      byKey := byKey[entries[i].cacheKey := entries[i].packets];
    }
    assert entries[..|entries|] == entries;
    var start := Filling(Keys(assembled), EMPTY, []);
    var f := start;
    for i := 0 to |hits|
      invariant FillHits(f, hits[i..], byKey, reserve) == FillHits(start, hits, byKey, reserve)
    {
      var hit := hits[i];
      assert hits[i..][0] == hit && hits[i..][1..] == hits[i + 1..];
      if Full(f.used, reserve) {
        break;
      }
      if hit.cacheKey in byKey {
        f := FillFromEntry(f, hit.estimate, byKey[hit.cacheKey], reserve);
      }
    }
    packets := assembled + PacketsOf(f.pushed);
  }

  // ---- what is added is safe ----

  function Charged(pushed: seq<(Packet, Size)>): Exact {
    if pushed == [] then Exact(0, 0)
    else
      var before, last := Charged(pushed[..|pushed| - 1]), pushed[|pushed| - 1].1;
      Exact(before.tokens + last.tokens, before.bytes + last.bytes)
  }

  /** Distinct new packets only, charged exactly, within the reserve. */
  ghost predicate Sound(f: Filling, known: set<string>, reserve: Size) {
    && f.used.Fits(reserve)
    && Charged(f.pushed) == Exact(f.used.tokens, f.used.bytes)
    && known <= f.seen
    && (forall i :: 0 <= i < |f.pushed| ==> f.pushed[i].0.key in f.seen - known)
    && forall i, j :: 0 <= i < j < |f.pushed| ==> f.pushed[i].0.key != f.pushed[j].0.key
  }

  lemma PushKeepsSound(f: Filling, known: set<string>, estimate: Size, packet: Packet, reserve: Size)
    requires Sound(f, known, reserve) && packet.key !in f.seen
    requires reserve.tokens < U64_MAX && reserve.bytes < U64_MAX && f.used.Plus(estimate).Fits(reserve)
    ensures var filled := Filling(f.seen + {packet.key}, f.used.Plus(estimate), f.pushed + [(packet, estimate)]);
      Sound(filled, known, reserve)
  {
    assert (f.pushed + [(packet, estimate)])[..|f.pushed|] == f.pushed;
  }

  lemma {:induction false} EntryKeepsSound(f: Filling, known: set<string>, estimate: Size, packets: seq<Packet>,
      reserve: Size)
    requires Sound(f, known, reserve) && reserve.tokens < U64_MAX && reserve.bytes < U64_MAX
    ensures Sound(FillEntry(f, estimate, packets, reserve), known, reserve)
    decreases |packets|
  {
    if packets != [] {
      if packets[0].key in f.seen {
        EntryKeepsSound(f, known, estimate, packets[1..], reserve);
      } else if f.used.Plus(estimate).Fits(reserve) {
        PushKeepsSound(f, known, estimate, packets[0], reserve);
        EntryKeepsSound(Filling(f.seen + {packets[0].key}, f.used.Plus(estimate), f.pushed + [(packets[0], estimate)]),
          known, estimate, packets[1..], reserve);
      }
    }
  }

  lemma {:induction false} HitsKeepSound(f: Filling, known: set<string>, hits: seq<Hit>, entries: map<string,
      seq<Packet>>, reserve: Size)
    requires Sound(f, known, reserve) && reserve.tokens < U64_MAX && reserve.bytes < U64_MAX
    ensures Sound(FillHits(f, hits, entries, reserve), known, reserve)
    decreases |hits|
  {
    hide Sound;
    if hits != [] && !Full(f.used, reserve) {
      if hits[0].cacheKey in entries {
        EntryKeepsSound(f, known, hits[0].estimate, entries[hits[0].cacheKey], reserve);
        HitsKeepSound(FillEntry(f, hits[0].estimate, entries[hits[0].cacheKey], reserve), known, hits[1..], entries,
          reserve);
      } else {
        HitsKeepSound(f, known, hits[1..], entries, reserve);
      }
    }
  }

  /**
   * Whatever is recalled, the packets added differ from those assembled and from each other, and their true size stays
   * within the reserve.
   */
  lemma AugmentingIsSafe(hits: seq<Hit>, entries: seq<CacheEntry>, assembled: seq<Packet>, budget: Size)
    ensures var filled := FillHits(Filling(Keys(assembled), EMPTY, []), hits, ByKey(entries), Reserve(budget));
      Sound(filled, Keys(assembled), Reserve(budget))
  {
    hide FillHits, ByKey;
    HitsKeepSound(Filling(Keys(assembled), EMPTY, []), Keys(assembled), hits, ByKey(entries), Reserve(budget));
  }

  /** The reserve is part of the budget exactly when the budget is no smaller than the least reserve. */
  lemma ReserveWithinBudget(budget: Size)
    ensures Reserve(budget).Fits(budget) <==> MIN_RESERVE.Fits(budget)
  {
  }

  /** It is the quarter it is meant to be exactly from four times the least reserve on. */
  lemma ReserveIsQuarter(budget: Size)
    ensures Reserve(budget).tokens == budget.tokens / 4 <==> budget.tokens >= 1024
    ensures Reserve(budget).bytes == budget.bytes / 4 <==> budget.bytes >= 16384
  {
  }

  lemma ReserveCanExceedBudget()
    ensures var budget := Size(100, 8192);
      Reserve(budget) == Size(256, 4096) && !Reserve(budget).Fits(budget)
  {
  }
}
