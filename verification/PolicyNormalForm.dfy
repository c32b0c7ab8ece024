/** The canonical form under which policy configurations are hashed into cache keys. */
module PolicyNormalForm {
  import opened Wrappers
  import opened Text
  import opened Order
  import opened Sequences
  import opened Sorting

  datatype Json =
    | Null
    | Bool(flag: bool)
    | Number(digits: string)
    | Str(text: string)
    | Arr(items: seq<Json>)
    | Obj(fields: map<string, Json>)

  predicate AllStrings(items: seq<Json>) {
    forall i :: 0 <= i < |items| ==> items[i].Str?
  }

  function TextOf(item: Json): seq<string> {
    if item.Str? then [item.text] else []
  }

  function Trimmed(text: string): seq<string> {
    if IsBlank(text) then [] else [Trim(text)]
  }

  function Dedup(s: seq<string>): seq<string> {
    if |s| <= 1 then s
    else if s[0] == s[1] then Dedup(s[1..])
    else [s[0]] + Dedup(s[1..])
  }

  /** Trim, drop the blank ones, sort, drop repeats. */
  function CanonicalTexts(texts: seq<string>): seq<string> {
    Dedup(Sort(StrLe, FlatMap(Trimmed, texts)))
  }

  function Strings(texts: seq<string>): (r: seq<Json>)
    ensures |r| == |texts|
    ensures forall i :: 0 <= i < |r| ==> r[i] == Str(texts[i])
  {
    if texts == [] then [] else [Str(texts[0])] + Strings(texts[1..])
  }

  function Normal(value: Json): Json
    decreases value
  {
    match value
    case Arr(items) =>
      var normal := NormalItems(items);
      if AllStrings(normal) then Arr(Strings(CanonicalTexts(FlatMap(TextOf, normal)))) else Arr(normal)
    case Obj(fields) => Obj(map k | k in fields :: Normal(fields[k]))
    case _ => value
  }

  function NormalItems(items: seq<Json>): (r: seq<Json>)
    ensures |r| == |items|
    ensures forall i :: 0 <= i < |items| ==> r[i] == Normal(items[i])
    decreases items
  {
    if items == [] then [] else [Normal(items[0])] + NormalItems(items[1..])
  }

  // ---- the congruence ----

  /** A semantic set: the trimmed, non-blank texts. */
  ghost function TextSet(items: seq<Json>): set<string> {
    set item | item in items && item.Str? && !IsBlank(item.text) :: Trim(item.text)
  }

  /** Arrays of strings count as sets of trimmed, non-blank texts; everything else counts pointwise. */
  ghost predicate Congruent(a: Json, b: Json)
    decreases a
  {
    if a.Arr? && b.Arr? then
      if AllStrings(a.items) || AllStrings(b.items) then
        AllStrings(a.items) && AllStrings(b.items) && TextSet(a.items) == TextSet(b.items)
      else
        |a.items| == |b.items| && forall i :: 0 <= i < |a.items| ==> Congruent(a.items[i], b.items[i])
    else if a.Obj? && b.Obj? then
      a.fields.Keys == b.fields.Keys && forall k :: k in a.fields ==> Congruent(a.fields[k], b.fields[k])
    else
      a == b
  }

  // ---- canonical text lists ----

  ghost predicate Ascending(s: seq<string>) {
    forall i, j :: 0 <= i < j < |s| ==> StrLe(s[i], s[j]) && s[i] != s[j]
  }

  lemma {:induction false} DedupOfSorted(s: seq<string>)
    requires Sorted(StrLe, s)
    ensures Ascending(Dedup(s))
    ensures forall x :: x in Dedup(s) <==> x in s
    ensures s != [] ==> Dedup(s) != [] && Dedup(s)[0] == s[0]
  {
    if |s| > 1 {
      var rest := s[1..];
      DedupOfSorted(rest);
      assert s == [s[0]] + rest;
      if s[0] != s[1] {
        var d := Dedup(rest);
        forall j | 0 <= j < |d| ensures StrLe(s[0], d[j]) && s[0] != d[j] {
          assert d[j] in rest;
          var k :| 0 <= k < |rest| && rest[k] == d[j];
          assert StrLe(s[0], s[k + 1]) && StrLe(s[1], s[k + 1]) by { StrLeReflexive(s[1]); }
          if s[0] == d[j] {
            assert StrLe(s[0], s[1]);
            StrLeAntisymmetric(s[0], s[1]);
          }
        }
      }
    }
  }

  lemma {:induction false} DedupOfAscending(s: seq<string>)
    requires Ascending(s)
    ensures Dedup(s) == s
  {
    if |s| > 1 {
      assert s[0] != s[1];
      DedupOfAscending(s[1..]);
    }
  }

  /** An ascending list is determined by its elements. */
  lemma {:induction false} AscendingUnique(a: seq<string>, b: seq<string>)
    requires Ascending(a) && Ascending(b)
    requires forall x :: x in a <==> x in b
    ensures a == b
  {
    if b != [] {
      assert b[0] in b;
    }
    if a != [] {
      assert a[0] in b && a[0] in a;
      assert b[0] in a && b[0] in b;
      var i :| 0 <= i < |b| && b[i] == a[0];
      var j :| 0 <= j < |a| && a[j] == b[0];
      if i > 0 && j > 0 {
        assert StrLe(b[0], b[i]) && StrLe(a[0], a[j]);
        StrLeAntisymmetric(a[0], b[0]);
      }
      assert a[0] == b[0];
      assert a == [a[0]] + a[1..] && b == [b[0]] + b[1..];
      forall x ensures x in a[1..] <==> x in b[1..] {
        if x in a[1..] {
          var k :| 0 <= k < |a| - 1 && a[1..][k] == x;
          assert a[k + 1] == x && x != a[0] && x in b;
        }
        if x in b[1..] {
          var k :| 0 <= k < |b| - 1 && b[1..][k] == x;
          assert b[k + 1] == x && x != b[0] && x in a;
        }
      }
      AscendingUnique(a[1..], b[1..]);
    }
  }

  lemma TrimmedMembers(texts: seq<string>, x: string)
    ensures x in FlatMap(Trimmed, texts) <==> exists t :: t in texts && !IsBlank(t) && x == Trim(t)
  {
    FlatMapMembers(Trimmed, texts);
    hide IsBlank, Trim, FlatMap;
    if t :| t in texts && !IsBlank(t) && x == Trim(t) {
      assert x in Trimmed(t);
    }
  }

  lemma CanonicalMembers(texts: seq<string>)
    ensures Ascending(CanonicalTexts(texts))
    ensures forall x :: x in CanonicalTexts(texts) <==> exists t :: t in texts && !IsBlank(t) && x == Trim(t)
  {
    var kept := FlatMap(Trimmed, texts);
    StrLeIsTotalPreorder();
    SortSorts(StrLe, kept);
    DedupOfSorted(Sort(StrLe, kept));
    SortPermutes(StrLe, kept);
    forall x ensures x in kept <==> exists t :: t in texts && !IsBlank(t) && x == Trim(t) {
      TrimmedMembers(texts, x);
    }
    hide IsBlank, Trim, Sort, Dedup, FlatMap, StrLe, Sorted, Ascending, TotalPreorder;
  }

  lemma CanonicalOfItems(items: seq<Json>)
    requires AllStrings(items)
    ensures Ascending(CanonicalTexts(FlatMap(TextOf, items)))
    ensures forall x :: x in CanonicalTexts(FlatMap(TextOf, items)) <==> x in TextSet(items)
  {
    var texts := FlatMap(TextOf, items);
    CanonicalMembers(texts);
    FlatMapMembers(TextOf, items);
    hide IsBlank, Trim, CanonicalTexts, FlatMap;
    forall x ensures x in CanonicalTexts(texts) <==> x in TextSet(items) {
      if t :| t in texts && !IsBlank(t) && x == Trim(t) {
        var item :| item in items && t in TextOf(item);
        assert item.text == t;
      }
      if item :| item in items && item.Str? && !IsBlank(item.text) && x == Trim(item.text) {
        assert item.text in TextOf(item) && item.text in texts;
      }
    }
  }

  /** Two arrays of strings have one canonical list exactly when they are one set. */
  lemma CanonicalDecides(a: seq<Json>, b: seq<Json>)
    requires AllStrings(a) && AllStrings(b)
    ensures CanonicalTexts(FlatMap(TextOf, a)) == CanonicalTexts(FlatMap(TextOf, b)) <==> TextSet(a) == TextSet(b)
  {
    CanonicalOfItems(a);
    CanonicalOfItems(b);
    var x, y := CanonicalTexts(FlatMap(TextOf, a)), CanonicalTexts(FlatMap(TextOf, b));
    hide CanonicalTexts, FlatMap, IsBlank, Trim;
    if TextSet(a) == TextSet(b) {
      AscendingUnique(x, y);
    }
    if x == y {
      forall t ensures t in TextSet(a) <==> t in TextSet(b) {
        assert t in x <==> t in y;
      }
    }
  }

  // ---- normalisation decides the congruence ----

  lemma NormalKeepsKind(v: Json)
    ensures v.Str? <==> Normal(v).Str?
    ensures v.Arr? <==> Normal(v).Arr?
    ensures v.Obj? <==> Normal(v).Obj?
    ensures v.Str? ==> Normal(v) == v
    ensures !v.Arr? && !v.Obj? ==> Normal(v) == v
  {
  }

  lemma NormalItemsStrings(items: seq<Json>)
    ensures AllStrings(NormalItems(items)) <==> AllStrings(items)
    ensures AllStrings(items) ==> NormalItems(items) == items
  {
    forall i | 0 <= i < |items| ensures NormalItems(items)[i].Str? <==> items[i].Str? {
      NormalKeepsKind(items[i]);
    }
    if AllStrings(items) {
      forall i | 0 <= i < |items| ensures NormalItems(items)[i] == items[i] {
        NormalKeepsKind(items[i]);
      }
    }
  }

  lemma NormalArray(items: seq<Json>)
    ensures Normal(Arr(items)) ==
      if AllStrings(items) then Arr(Strings(CanonicalTexts(FlatMap(TextOf, items)))) else Arr(NormalItems(items))
  {
    NormalItemsStrings(items);
  }

  lemma {:induction false} StringsInjective(a: seq<string>, b: seq<string>)
    ensures Strings(a) == Strings(b) <==> a == b
    ensures FlatMap(TextOf, Strings(a)) == a
  {
    if a != [] {
      StringsInjective(a[1..], if b == [] then b else b[1..]);
    }
    if Strings(a) == Strings(b) {
      forall i | 0 <= i < |a| ensures a[i] == b[i] {
        assert Strings(a)[i] == Strings(b)[i];
      }
    }
  }

  /**
   * Canonical form: two configurations normalise to the same value exactly when they are congruent.
   */
  lemma {:induction false} NormalDecidesCongruence(a: Json, b: Json)
    ensures Normal(a) == Normal(b) <==> Congruent(a, b)
    decreases a, 1
  {
    NormalKeepsKind(a);
    NormalKeepsKind(b);
    if a.Arr? && b.Arr? {
      NormalArray(a.items);
      NormalArray(b.items);
      NormalItemsStrings(a.items);
      NormalItemsStrings(b.items);
      if AllStrings(a.items) && AllStrings(b.items) {
        CanonicalDecides(a.items, b.items);
        StringsInjective(CanonicalTexts(FlatMap(TextOf, a.items)), CanonicalTexts(FlatMap(TextOf, b.items)));
      } else if AllStrings(a.items) || AllStrings(b.items) {
        assert Normal(a) != Normal(b);
      } else {
        NormalItemsDecide(a.items, b.items);
      }
    } else if a.Obj? && b.Obj? {
      NormalFieldsDecide(a, b);
    }
  }

  lemma {:induction false} NormalItemsDecide(a: seq<Json>, b: seq<Json>)
    ensures NormalItems(a) == NormalItems(b) <==>
      |a| == |b| && forall i :: 0 <= i < |a| ==> Congruent(a[i], b[i])
    decreases a, 0
  {
    var na, nb := NormalItems(a), NormalItems(b);
    if |a| == |b| {
      forall i | 0 <= i < |a| ensures Normal(a[i]) == Normal(b[i]) <==> Congruent(a[i], b[i]) {
        NormalDecidesCongruence(a[i], b[i]);
      }
      assert na == nb <==> forall i :: 0 <= i < |a| ==> na[i] == nb[i];
      assert forall i :: 0 <= i < |a| ==> (na[i] == nb[i] <==> Congruent(a[i], b[i]));
    }
  }

  lemma {:induction false} NormalFieldsDecide(a: Json, b: Json)
    requires a.Obj? && b.Obj?
    ensures Normal(a) == Normal(b) <==>
      a.fields.Keys == b.fields.Keys && forall k :: k in a.fields ==> Congruent(a.fields[k], b.fields[k])
    decreases a, 0
  {
    var na, nb := Normal(a).fields, Normal(b).fields;
    assert na.Keys == a.fields.Keys && nb.Keys == b.fields.Keys;
    if a.fields.Keys == b.fields.Keys {
      forall k | k in a.fields
        ensures Normal(a.fields[k]) == Normal(b.fields[k]) <==> Congruent(a.fields[k], b.fields[k])
      {
        NormalDecidesCongruence(a.fields[k], b.fields[k]);
      }
      assert na == nb <==> forall k :: k in a.fields ==> na[k] == nb[k];
    }
  }

  /** A canonical form is its own canonical form. */
  lemma {:induction false} NormalIdempotent(v: Json)
    ensures Normal(Normal(v)) == Normal(v)
    decreases v
  {
    match v
    case Arr(items) =>
      NormalArray(items);
      if AllStrings(items) {
        var texts := CanonicalTexts(FlatMap(TextOf, items));
        StringsInjective(texts, texts);
        NormalArray(Strings(texts));
        CanonicalIdempotent(FlatMap(TextOf, items));
      } else {
        var normal := NormalItems(items);
        NormalItemsStrings(items);
        NormalArray(normal);
        forall i | 0 <= i < |items| ensures Normal(normal[i]) == normal[i] {
          NormalIdempotent(items[i]);
        }
        assert NormalItems(normal) == normal;
      }
    case Obj(fields) =>
      forall k | k in fields ensures Normal(Normal(fields[k])) == Normal(fields[k]) {
        NormalIdempotent(fields[k]);
      }
    case _ =>
  }

  /** Normalising keeps the meaning. */
  lemma NormalIsCongruent(v: Json)
    ensures Congruent(v, Normal(v))
  {
    NormalIdempotent(v);
    NormalDecidesCongruence(v, Normal(v));
  }

  lemma CanonicalIdempotent(texts: seq<string>)
    ensures CanonicalTexts(CanonicalTexts(texts)) == CanonicalTexts(texts)
  {
    var once := CanonicalTexts(texts);
    CanonicalMembers(texts);
    CanonicalMembers(once);
    hide CanonicalTexts;
    forall x ensures x in once <==> x in CanonicalTexts(once) {
      if x in once {
        var t :| t in texts && !IsBlank(t) && x == Trim(t);
        TrimIdempotent(t);
        assert !IsBlank(x) && x == Trim(x);
      }
      if x in CanonicalTexts(once) {
        var t :| t in once && !IsBlank(t) && x == Trim(t);
        var u :| u in texts && !IsBlank(u) && t == Trim(u);
        TrimIdempotent(u);
      }
    }
    AscendingUnique(once, CanonicalTexts(once));
  }

  // ---- the in-place pass ----

  method NormalizeSemanticSetArrays(value: Json) returns (normal: Json)
    ensures normal == Normal(value)
    decreases value
  {
    match value {
      case Arr(items) =>
        var done: seq<Json> := [];
        for i := 0 to |items|
          invariant |done| == i && forall j :: 0 <= j < i ==> done[j] == Normal(items[j])
        {
          var item := NormalizeSemanticSetArrays(items[i]);
          done := done + [item];
        }
        assert done == NormalItems(items);
        if AllStrings(done) {
          var texts := Sort(StrLe, FlatMap(Trimmed, FlatMap(TextOf, done)));
          done := Strings(Dedup(texts));
        }
        normal := Arr(done);
      case Obj(fields) =>
        var done: map<string, Json> := map[];
        var left := fields.Keys;
        while left != {}
          invariant left <= fields.Keys && done.Keys == fields.Keys - left
          invariant forall k :: k in done ==> done[k] == Normal(fields[k])
          decreases left
        {
          var k :| k in left;
          var item := NormalizeSemanticSetArrays(fields[k]);
          done := done[k := item];
          left := left - {k};
        }
        normal := Obj(done);
      case _ =>
        normal := value;
    }
  }

  // ---- the cache key ----

  datatype Request = Request(inputPackets: Json, budget: Json, policyContext: Json, reducerInput: Json)

  const SUMMARIZE := "packet28.instruction.summarize"

  /** The policy context without the path its configuration was loaded from. */
  function ContextOverrides(context: Json): Json {
    match context
    case Obj(fields) => Obj(fields - {"config_path"})
    case _ => context
  }

  function PolicyHash(config: Option<Json>, hash: Json -> string): Json {
    match config
    case Some(c) => Str(hash(Normal(c)))
    case None => Null
  }

  /** What the cache key is computed from; `stable` is the instruction summariser's own reduction of its input. */
  function CacheInput(r: Request, target: string, config: Option<Json>, hash: Json -> string,
      stable: Json -> Json): Json {
    if target == SUMMARIZE then Obj(map["target" := Str(target), "instruction" := stable(r.reducerInput)])
    else
      Obj(map["target" := Str(target),
              "input_packets" := r.inputPackets,
              "budget" := r.budget,
              "governance" := Obj(map["enabled" := Bool(config.Some?),
                                      "policy_hash" := PolicyHash(config, hash),
                                      "context_overrides" := ContextOverrides(r.policyContext)]),
              "reducer_input" := r.reducerInput])
  }

  /** The contexts agree in everything but the path the configuration was loaded from. */
  ghost predicate SameContext(a: Json, b: Json) {
    if a.Obj? && b.Obj? then
      forall k :: k != "config_path" ==>
        (k in a.fields <==> k in b.fields) && (k in a.fields && k in b.fields ==> a.fields[k] == b.fields[k])
    else a == b
  }

  lemma SameContextExactly(a: Json, b: Json)
    ensures ContextOverrides(a) == ContextOverrides(b) <==> SameContext(a, b)
  {
    if a.Obj? && b.Obj? {
      var x, y := a.fields - {"config_path"}, b.fields - {"config_path"};
      assert forall k :: k in x <==> k in a.fields && k != "config_path";
      assert forall k :: k in y <==> k in b.fields && k != "config_path";
      if SameContext(a, b) {
        assert x.Keys == y.Keys;
        assert x == y;
      }
    }
  }

  ghost predicate SamePolicy(a: Option<Json>, b: Option<Json>) {
    (a.None? && b.None?) || (a.Some? && b.Some? && Congruent(a.value, b.value))
  }

  /**
   * With a collision-free hash, two governed requests share a cache entry exactly when they agree on
   * everything but the policy's path and its spelling: the configurations need only be congruent.
   */
  lemma CacheKeyMeansCongruentPolicy(
      a: Request, b: Request, s: string, t: string, ca: Option<Json>, cb: Option<Json>,
      hash: Json -> string, stable: Json -> Json)
    requires s != SUMMARIZE && t != SUMMARIZE
    requires forall x, y :: hash(x) == hash(y) ==> x == y
    ensures CacheInput(a, s, ca, hash, stable) == CacheInput(b, t, cb, hash, stable) <==>
      && s == t && a.inputPackets == b.inputPackets && a.budget == b.budget && a.reducerInput == b.reducerInput
      && SameContext(a.policyContext, b.policyContext)
      && SamePolicy(ca, cb)
  {
    SameContextExactly(a.policyContext, b.policyContext);
    hide SameContext, ContextOverrides;
    if ca.Some? && cb.Some? {
      NormalDecidesCongruence(ca.value, cb.value);
    }
    hide Normal, Congruent;
    var x, y := CacheInput(a, s, ca, hash, stable), CacheInput(b, t, cb, hash, stable);
    if x == y {
      assert x.fields["target"] == y.fields["target"];
      assert x.fields["input_packets"] == y.fields["input_packets"];
      assert x.fields["budget"] == y.fields["budget"];
      assert x.fields["reducer_input"] == y.fields["reducer_input"];
      var g, h := x.fields["governance"], y.fields["governance"];
      assert g.fields["policy_hash"] == h.fields["policy_hash"];
      assert g.fields["context_overrides"] == h.fields["context_overrides"];
    }
  }

  /** The instruction summariser shares entries by its own reduction of its input, and never with other targets. */
  lemma SummariserCacheKey(a: Request, b: Request, t: string, ca: Option<Json>, cb: Option<Json>,
      hash: Json -> string, stable: Json -> Json)
    ensures CacheInput(a, "packet28.instruction.summarize", ca, hash, stable) == CacheInput(b, t, cb, hash, stable) <==>
      t == "packet28.instruction.summarize" && stable(a.reducerInput) == stable(b.reducerInput)
  {
    var x, y := CacheInput(a, SUMMARIZE, ca, hash, stable), CacheInput(b, t, cb, hash, stable);
    hide PolicyHash, ContextOverrides;
    if x == y {
      assert x.fields["target"] == y.fields["target"];
      assert x.fields["instruction"] == y.fields["instruction"];
    }
  }
}
