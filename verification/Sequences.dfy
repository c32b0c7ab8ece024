/** What the reducers' iterator chains do to a vector: `filter`, `flat_map`, `rev`, `split_off`. */
module Sequences {

  function Filter<T>(p: T -> bool, s: seq<T>): (r: seq<T>) {
    if s == [] then []
    else if p(s[0]) then [s[0]] + Filter(p, s[1..])
    else Filter(p, s[1..])
  }

  // ---- filters ----

  lemma {:induction false} FilterAppend<T>(p: T -> bool, a: seq<T>, b: seq<T>)
    ensures Filter(p, a + b) == Filter(p, a) + Filter(p, b)
  {
    if a == [] {
      assert a + b == b;
    } else {
      assert (a + b)[1..] == a[1..] + b;
      FilterAppend(p, a[1..], b);
    }
  }

  lemma ConcatAssociates<T>(a: seq<T>, b: seq<T>, c: seq<T>)
    ensures (a + b) + c == a + (b + c)
  {
  }

  lemma ConcatEmpty<T>(a: seq<T>)
    ensures [] + a == a && a + [] == a
  {
  }

  lemma {:induction false} FilterMembers<T>(p: T -> bool, s: seq<T>)
    ensures |Filter(p, s)| <= |s|
    ensures forall x :: x in Filter(p, s) <==> x in s && p(x)
  {
    if s != [] {
      FilterMembers(p, s[1..]);
      assert s == [s[0]] + s[1..];
    }
  }

  lemma {:induction false} FilterAll<T>(p: T -> bool, s: seq<T>)
    requires forall x :: x in s ==> p(x)
    ensures Filter(p, s) == s
  {
    if s != [] {
      FilterAll(p, s[1..]);
    }
  }

  lemma {:induction false} FilterNone<T>(p: T -> bool, s: seq<T>)
    requires forall x :: x in s ==> !p(x)
    ensures Filter(p, s) == []
  {
    if s != [] {
      FilterNone(p, s[1..]);
    }
  }

  /** Filtering looks only at what the predicate says of the elements present. */
  lemma {:induction false} FilterCongruent<T>(p: T -> bool, q: T -> bool, s: seq<T>)
    requires forall x :: x in s ==> p(x) == q(x)
    ensures Filter(p, s) == Filter(q, s)
  {
    if s != [] {
      FilterCongruent(p, q, s[1..]);
    }
  }

  /** Two filters in a row keep what both keep. */
  lemma {:induction false} FilterTwice<T>(p: T -> bool, q: T -> bool, both: T -> bool, s: seq<T>)
    requires forall x :: x in s ==> both(x) == (p(x) && q(x))
    ensures Filter(q, Filter(p, s)) == Filter(both, s)
  {
    if s != [] {
      FilterTwice(p, q, both, s[1..]);
    }
  }

  lemma {:induction false} FilterMultiset<T>(p: T -> bool, s: seq<T>)
    ensures forall x :: multiset(Filter(p, s))[x] == if p(x) then multiset(s)[x] else 0
  {
    if s != [] {
      FilterMultiset(p, s[1..]);
      assert s == [s[0]] + s[1..];
    }
  }

  lemma {:induction false} FilterPermuted<T>(p: T -> bool, a: seq<T>, b: seq<T>)
    requires multiset(a) == multiset(b)
    ensures multiset(Filter(p, a)) == multiset(Filter(p, b))
  {
    PermutedMembers(a, b);
    if a != [] {
      assert a[0] in b;
      var k :| 0 <= k < |b| && b[k] == a[0];
      RemoveAt(b, k);
      TailMultiset(a);
      FilterPermuted(p, a[1..], b[..k] + b[k + 1..]);
      FilterAppend(p, b[..k], b[k + 1..]);
      FilterAppend(p, b[..k], b[k..]);
    }
  }

  lemma RemoveAt<T>(b: seq<T>, k: nat)
    requires k < |b|
    ensures multiset(b[..k] + b[k + 1..]) == multiset(b) - multiset{b[k]}
    ensures b == b[..k] + b[k..] && b[k..] == [b[k]] + b[k + 1..]
  {
    assert b == b[..k] + b[k..] && b[k..] == [b[k]] + b[k + 1..];
    assert multiset(b) == multiset(b[..k]) + multiset{b[k]} + multiset(b[k + 1..]);
  }

  lemma PermutedMembers<T>(a: seq<T>, b: seq<T>)
    requires multiset(a) == multiset(b)
    ensures |a| == |b|
    ensures forall x :: x in a <==> x in b
  {
    assert |a| == |multiset(a)| && |b| == |multiset(b)|;
    forall x ensures x in a <==> x in b {
      assert x in a <==> x in multiset(a);
      assert x in b <==> x in multiset(b);
    }
  }

  lemma TailMultiset<T>(a: seq<T>)
    requires a != []
    ensures multiset(a[1..]) == multiset(a) - multiset{a[0]}
  {
    assert a == [a[0]] + a[1..];
  }

  // ---- flat_map ----

  function FlatMap<A, B>(f: A -> seq<B>, s: seq<A>): seq<B> {
    if s == [] then [] else f(s[0]) + FlatMap(f, s[1..])
  }

  lemma {:induction false} FlatMapAppend<A, B>(f: A -> seq<B>, a: seq<A>, b: seq<A>)
    ensures FlatMap(f, a + b) == FlatMap(f, a) + FlatMap(f, b)
  {
    if a == [] {
      assert a + b == b;
    } else {
      assert (a + b)[1..] == a[1..] + b;
      FlatMapAppend(f, a[1..], b);
    }
  }

  lemma FlatMapLast<A, B>(f: A -> seq<B>, s: seq<A>, x: A)
    ensures FlatMap(f, s + [x]) == FlatMap(f, s) + f(x)
  {
    FlatMapAppend(f, s, [x]);
    assert FlatMap(f, [x]) == f(x) + FlatMap(f, []);
  }

  lemma {:induction false} FlatMapMembers<A, B>(f: A -> seq<B>, s: seq<A>)
    ensures forall y :: y in FlatMap(f, s) <==> exists x :: x in s && y in f(x)
  {
    if s != [] {
      FlatMapMembers(f, s[1..]);
      assert s == [s[0]] + s[1..];
    }
  }

  /** Rearranging the input, and what each element yields, only rearranges the output. */
  lemma {:induction false} FlatMapPermuted<A, B>(f: A -> seq<B>, a: seq<A>, b: seq<A>)
    requires multiset(a) == multiset(b)
    ensures multiset(FlatMap(f, a)) == multiset(FlatMap(f, b))
  {
    PermutedMembers(a, b);
    if a != [] {
      assert a[0] in b;
      var k :| 0 <= k < |b| && b[k] == a[0];
      RemoveAt(b, k);
      TailMultiset(a);
      FlatMapPermuted(f, a[1..], b[..k] + b[k + 1..]);
      FlatMapAppend(f, b[..k], b[k + 1..]);
      FlatMapAppend(f, b[..k], b[k..]);
    }
  }

  lemma {:induction false} FlatMapPointwisePermuted<A, B>(f: A -> seq<B>, a: seq<A>, b: seq<A>)
    requires |a| == |b|
    requires forall i :: 0 <= i < |a| ==> multiset(f(a[i])) == multiset(f(b[i]))
    ensures multiset(FlatMap(f, a)) == multiset(FlatMap(f, b))
  {
    if a != [] {
      FlatMapPointwisePermuted(f, a[1..], b[1..]);
    }
  }

  /** Dropping elements that yield nothing changes nothing. */
  lemma {:induction false} FlatMapFilter<A, B>(f: A -> seq<B>, p: A -> bool, s: seq<A>)
    requires forall x :: x in s && !p(x) ==> f(x) == []
    ensures FlatMap(f, Filter(p, s)) == FlatMap(f, s)
  {
    if s != [] {
      FlatMapFilter(f, p, s[1..]);
    }
  }

  lemma {:induction false} FlatMapCongruent<A, B>(f: A -> seq<B>, g: A -> seq<B>, s: seq<A>)
    requires forall x :: x in s ==> f(x) == g(x)
    ensures FlatMap(f, s) == FlatMap(g, s)
  {
    if s != [] {
      FlatMapCongruent(f, g, s[1..]);
    }
  }

  // ---- weighing ----

  function Weigh<T>(w: T -> nat, s: seq<T>): nat {
    if s == [] then 0 else w(s[0]) + Weigh(w, s[1..])
  }

  lemma {:induction false} WeighAppend<T>(w: T -> nat, a: seq<T>, b: seq<T>)
    ensures Weigh(w, a + b) == Weigh(w, a) + Weigh(w, b)
  {
    if a == [] {
      assert a + b == b;
    } else {
      assert (a + b)[1..] == a[1..] + b;
      WeighAppend(w, a[1..], b);
    }
  }

  lemma {:induction false} WeighPermuted<T>(w: T -> nat, a: seq<T>, b: seq<T>)
    requires multiset(a) == multiset(b)
    ensures Weigh(w, a) == Weigh(w, b)
  {
    PermutedMembers(a, b);
    if a != [] {
      assert a[0] in b;
      var k :| 0 <= k < |b| && b[k] == a[0];
      RemoveAt(b, k);
      TailMultiset(a);
      WeighPermuted(w, a[1..], b[..k] + b[k + 1..]);
      WeighAppend(w, b[..k], b[k + 1..]);
      WeighAppend(w, b[..k], b[k..]);
    }
  }

  /** What two selections weigh together is their union and, once more, their overlap. */
  lemma {:induction false} WeighUnion<T>(w: T -> nat, p: T -> bool, q: T -> bool, either: T -> bool, both: T -> bool,
      s: seq<T>)
    requires forall x :: x in s ==> either(x) == (p(x) || q(x)) && both(x) == (p(x) && q(x))
    ensures Weigh(w, Filter(p, s)) + Weigh(w, Filter(q, s)) == Weigh(w, Filter(either, s)) + Weigh(w, Filter(both, s))
  {
    if s != [] {
      WeighUnion(w, p, q, either, both, s[1..]);
    }
  }

  lemma {:induction false} FilterLast<T>(p: T -> bool, s: seq<T>, x: T)
    ensures Filter(p, s + [x]) == Filter(p, s) + (if p(x) then [x] else [])
  {
    FilterAppend(p, s, [x]);
    assert Filter(p, [x]) == if p(x) then [x] + Filter(p, []) else Filter(p, []);
  }

  // ---- reversal ----

  function Reverse<T>(s: seq<T>): (r: seq<T>) {
    if s == [] then [] else Reverse(s[1..]) + [s[0]]
  }

  lemma {:induction false} ReverseAt<T>(s: seq<T>)
    ensures |Reverse(s)| == |s|
    ensures forall i :: 0 <= i < |s| ==> Reverse(s)[i] == s[|s| - 1 - i]
  {
    if s != [] {
      ReverseAt(s[1..]);
    }
  }

  // ---- keeping the newest entries ----

  /** `split_off(len - n)`: the last n elements, or all of them. */
  function LastN<T>(n: nat, s: seq<T>): (r: seq<T>) {
    if |s| > n then s[|s| - n..] else s
  }

  /** Truncating early loses nothing that a later truncation would keep. */
  lemma LastNOfLastN<T>(n: nat, a: seq<T>, b: seq<T>)
    ensures LastN(n, LastN(n, a) + b) == LastN(n, a + b)
  {
    if |a| > n {
      assert LastN(n, a) + b == (a + b)[|a| - n..];
    }
  }

  // ---- sequences without repetition ----

  lemma {:induction false} DistinctPermuted<T>(a: seq<T>, b: seq<T>)
    requires forall i, j :: 0 <= i < j < |a| ==> a[i] != a[j]
    requires forall i, j :: 0 <= i < j < |b| ==> b[i] != b[j]
    requires forall x :: x in a <==> x in b
    ensures multiset(a) == multiset(b)
  {
    forall x ensures multiset(a)[x] == multiset(b)[x] {
      DistinctOnce(a, x);
      DistinctOnce(b, x);
    }
  }

  lemma {:induction false} DistinctOnce<T>(a: seq<T>, x: T)
    requires forall i, j :: 0 <= i < j < |a| ==> a[i] != a[j]
    ensures multiset(a)[x] == if x in a then 1 else 0
  {
    if a != [] {
      assert a == [a[0]] + a[1..];
      DistinctOnce(a[1..], x);
    }
  }

  lemma DistinctByPermutation<T>(a: seq<T>, b: seq<T>)
    requires multiset(a) == multiset(b)
    requires forall i, j :: 0 <= i < j < |a| ==> a[i] != a[j]
    ensures forall i, j :: 0 <= i < j < |b| ==> b[i] != b[j]
  {
    forall i, j | 0 <= i < j < |b| ensures b[i] != b[j] {
      DistinctOnce(a, b[i]);
      assert multiset(b)[b[i]] <= 1;
      assert b == b[..j] + b[j..];
      assert b[i] in b[..j];
      assert b[j] in b[j..];
      assert multiset(b)[b[i]] == multiset(b[..j])[b[i]] + multiset(b[j..])[b[i]];
    }
  }
}
