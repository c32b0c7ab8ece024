/** Rust's stable `sort_by`, and the laws the reducers rely on. */
module Sorting {
  import opened Order
  import opened Sequences

  ghost predicate Sorted<T>(leq: (T, T) -> bool, s: seq<T>) {
    forall i, j :: 0 <= i < j < |s| ==> leq(s[i], s[j])
  }

  function Insert<T>(leq: (T, T) -> bool, x: T, s: seq<T>): seq<T> {
    if s == [] then [x]
    else if leq(x, s[0]) then [x] + s
    else [s[0]] + Insert(leq, x, s[1..])
  }

  /** The stable sort: an element is put in front of the later elements it ties with. */
  function Sort<T>(leq: (T, T) -> bool, s: seq<T>): seq<T> {
    if s == [] then [] else Insert(leq, s[0], Sort(leq, s[1..]))
  }

  lemma {:induction false} InsertPermutes<T>(leq: (T, T) -> bool, x: T, s: seq<T>)
    ensures multiset(Insert(leq, x, s)) == multiset([x] + s)
  {
    if s != [] && !leq(x, s[0]) {
      InsertPermutes(leq, x, s[1..]);
      assert s == [s[0]] + s[1..];
    }
  }

  lemma {:induction false} SortPermutes<T>(leq: (T, T) -> bool, s: seq<T>)
    ensures multiset(Sort(leq, s)) == multiset(s)
    ensures |Sort(leq, s)| == |s|
    ensures forall x :: x in Sort(leq, s) <==> x in s
  {
    if s != [] {
      SortPermutes(leq, s[1..]);
      InsertPermutes(leq, s[0], Sort(leq, s[1..]));
      assert s == [s[0]] + s[1..];
      assert multiset([s[0]] + Sort(leq, s[1..])) == multiset(s);
    }
    PermutedMembers(Sort(leq, s), s);
  }

  lemma SortedCons<T>(leq: (T, T) -> bool, x: T, s: seq<T>)
    requires Sorted(leq, s) && forall y :: y in s ==> leq(x, y)
    ensures Sorted(leq, [x] + s)
  {
  }

  lemma {:induction false} InsertKeepsSorted<T(!new)>(leq: (T, T) -> bool, x: T, s: seq<T>)
    requires TotalPreorder(leq) && Sorted(leq, s)
    ensures Sorted(leq, Insert(leq, x, s))
  {
    if s != [] {
      var head, tail := s[0], s[1..];
      assert leq(head, head) && forall y :: y in s ==> leq(head, y);
      if leq(x, head) {
        SortedCons(leq, x, s);
      } else {
        var inserted := Insert(leq, x, tail);
        InsertKeepsSorted(leq, x, tail);
        forall y | y in inserted ensures leq(head, y) {
          InsertMember(leq, x, tail, y);
        }
        SortedCons(leq, head, inserted);
      }
    }
  }

  lemma InsertMember<T>(leq: (T, T) -> bool, x: T, s: seq<T>, y: T)
    requires y in Insert(leq, x, s)
    ensures y == x || y in s
  {
    InsertPermutes(leq, x, s);
    PermutedMembers(Insert(leq, x, s), [x] + s);
  }

  lemma {:induction false} SortSorts<T(!new)>(leq: (T, T) -> bool, s: seq<T>)
    requires TotalPreorder(leq)
    ensures Sorted(leq, Sort(leq, s))
  {
    if s != [] {
      SortSorts(leq, s[1..]);
      InsertKeepsSorted(leq, s[0], Sort(leq, s[1..]));
    }
  }

  lemma {:induction false} SortOfSorted<T>(leq: (T, T) -> bool, s: seq<T>)
    requires Sorted(leq, s)
    ensures Sort(leq, s) == s
  {
    if s != [] {
      SortOfSorted(leq, s[1..]);
      if |s| > 1 {
        assert leq(s[0], s[1]);
      }
    }
  }

  lemma SortMember<T>(leq: (T, T) -> bool, s: seq<T>, x: T)
    requires x in Sort(leq, s)
    ensures x in s
  {
    SortPermutes(leq, s);
  }

  /** A sort only asks about pairs of its elements. */
  lemma {:induction false} SortCongruent<T>(leq: (T, T) -> bool, leq': (T, T) -> bool, s: seq<T>)
    requires forall x, y :: x in s && y in s ==> leq(x, y) == leq'(x, y)
    ensures Sort(leq, s) == Sort(leq', s)
  {
    if s != [] {
      SortCongruent(leq, leq', s[1..]);
      var u := s[1..];
      forall y | y in Sort(leq, u) ensures leq(s[0], y) == leq'(s[0], y) {
        SortMember(leq, u, y);
        assert y in s;
      }
      InsertCongruent(leq, leq', s[0], Sort(leq, u));
    }
  }

  lemma {:induction false} InsertCongruent<T>(leq: (T, T) -> bool, leq': (T, T) -> bool, x: T, s: seq<T>)
    requires forall y :: y in s ==> leq(x, y) == leq'(x, y)
    ensures Insert(leq, x, s) == Insert(leq', x, s)
  {
    if s != [] {
      InsertCongruent(leq, leq', x, s[1..]);
    }
  }

  lemma {:induction false} InsertFilter<T(!new)>(leq: (T, T) -> bool, p: T -> bool, x: T, s: seq<T>)
    requires TotalPreorder(leq) && Sorted(leq, s)
    ensures Filter(p, Insert(leq, x, s)) == if p(x) then Insert(leq, x, Filter(p, s)) else Filter(p, s)
  {
    if s != [] {
      if leq(x, s[0]) {
        assert ([x] + s)[1..] == s;
        FilterMembers(p, s);
        assert forall y :: y in s ==> leq(s[0], y) by {
          assert leq(s[0], s[0]);
        }
        var kept := Filter(p, s);
        if p(x) && kept != [] {
          assert kept[0] in s;
        }
      } else {
        InsertFilter(leq, p, x, s[1..]);
      }
    }
  }

  /** Filtering a sorted sequence is sorting the filtered one. */
  lemma {:induction false} SortFilter<T(!new)>(leq: (T, T) -> bool, p: T -> bool, s: seq<T>)
    requires TotalPreorder(leq)
    ensures Filter(p, Sort(leq, s)) == Sort(leq, Filter(p, s))
  {
    if s != [] {
      SortFilter(leq, p, s[1..]);
      SortSorts(leq, s[1..]);
      InsertFilter(leq, p, s[0], Sort(leq, s[1..]));
    }
  }

  lemma {:induction false} SortedFilter<T(!new)>(leq: (T, T) -> bool, p: T -> bool, s: seq<T>)
    requires TotalPreorder(leq) && Sorted(leq, s)
    ensures Sorted(leq, Filter(p, s))
  {
    SortOfSorted(leq, s);
    SortFilter(leq, p, s);
    SortSorts(leq, Filter(p, s));
  }

  /** If ties are equalities, a sorted arrangement is unique: storage order cannot show. */
  lemma {:induction false} SortedUnique<T>(leq: (T, T) -> bool, a: seq<T>, b: seq<T>)
    requires Sorted(leq, a) && Sorted(leq, b)
    requires multiset(a) == multiset(b)
    requires forall x, y :: x in a && y in a && leq(x, y) && leq(y, x) ==> x == y
    ensures a == b
  {
    PermutedMembers(a, b);
    if a != [] {
      SortedSameHead(leq, a, b);
      TailMultiset(a);
      TailMultiset(b);
      forall x, y | x in a[1..] && y in a[1..] && leq(x, y) && leq(y, x) ensures x == y {
        assert x in a && y in a;
      }
      SortedUnique(leq, a[1..], b[1..]);
      assert a == [a[0]] + a[1..] && b == [b[0]] + b[1..];
    }
  }

  lemma SortedSameHead<T>(leq: (T, T) -> bool, a: seq<T>, b: seq<T>)
    requires Sorted(leq, a) && Sorted(leq, b) && a != [] && b != []
    requires forall x :: x in a <==> x in b
    requires forall x, y :: x in a && y in a && leq(x, y) && leq(y, x) ==> x == y
    ensures a[0] == b[0]
  {
    assert a[0] in b && b[0] in a;
    var i :| 0 <= i < |b| && b[i] == a[0];
    var j :| 0 <= j < |a| && a[j] == b[0];
    if i > 0 && j > 0 {
      assert leq(b[0], b[i]) && leq(a[0], a[j]);
    }
  }

  lemma SortCanonical<T(!new)>(leq: (T, T) -> bool, a: seq<T>, b: seq<T>)
    requires TotalPreorder(leq) && multiset(a) == multiset(b)
    requires forall x, y :: x in a && y in a && leq(x, y) && leq(y, x) ==> x == y
    ensures Sort(leq, a) == Sort(leq, b)
  {
    SortSorts(leq, a);
    SortSorts(leq, b);
    SortPermutes(leq, a);
    SortPermutes(leq, b);
    SortedUnique(leq, Sort(leq, a), Sort(leq, b));
  }

  /** Elements of one class all sorting strictly before the rest: the sort is two sorts in a row. */
  lemma {:induction false} SortSplits<T(!new)>(leq: (T, T) -> bool, first: T -> bool, rest: T -> bool, s: seq<T>)
    requires TotalPreorder(leq)
    requires forall x :: x in s ==> rest(x) == !first(x)
    requires forall x, y :: x in s && y in s && first(x) && rest(y) ==> !leq(y, x)
    ensures Sort(leq, s) == Sort(leq, Filter(first, s)) + Sort(leq, Filter(rest, s))
  {
    var t := Sort(leq, s);
    SortPermutes(leq, s);
    SortSorts(leq, s);
    SortFilter(leq, first, s);
    SortFilter(leq, rest, s);
    SplitSorted(leq, first, rest, t);
  }

  lemma {:induction false} SplitSorted<T>(leq: (T, T) -> bool, first: T -> bool, rest: T -> bool, t: seq<T>)
    requires Sorted(leq, t)
    requires forall x :: x in t ==> rest(x) == !first(x)
    requires forall x, y :: x in t && y in t && first(x) && rest(y) ==> !leq(y, x)
    ensures t == Filter(first, t) + Filter(rest, t)
  {
    if t != [] {
      SplitSorted(leq, first, rest, t[1..]);
      if rest(t[0]) {
        forall y | y in t ensures rest(y) {
          if y != t[0] {
            assert leq(t[0], y);
          }
        }
        FilterNone(first, t);
        FilterAll(rest, t);
      }
    }
  }

  /** A stable sort of an already split input sorts the halves. */
  lemma SortConcat<T(!new)>(leq: (T, T) -> bool, first: T -> bool, rest: T -> bool, a: seq<T>, b: seq<T>)
    requires TotalPreorder(leq)
    requires forall x :: x in a ==> first(x) && !rest(x)
    requires forall y :: y in b ==> rest(y) && !first(y)
    requires forall x, y :: x in a && y in b ==> !leq(y, x)
    ensures Sort(leq, a + b) == Sort(leq, a) + Sort(leq, b)
  {
    FilterAppend(first, a, b);
    FilterAppend(rest, a, b);
    FilterAll(first, a);
    FilterNone(first, b);
    FilterNone(rest, a);
    FilterAll(rest, b);
    assert Filter(first, a + b) == a && Filter(rest, a + b) == b;
    forall x, y | x in a + b && y in a + b && first(x) && rest(y) ensures !leq(y, x) {
      assert x in a && y in b;
    }
    SortSplits(leq, first, rest, a + b);
  }

  // ---- why insertion sort stands for any stable sort ----

  ghost function Class<T>(leq: (T, T) -> bool, x: T): T -> bool {
    y => leq(x, y) && leq(y, x)
  }

  /** Sorted, and keeping each class of ties in its original order: that is `Sort`. */
  lemma StableSortIsSort<T(!new)>(leq: (T, T) -> bool, s: seq<T>, t: seq<T>)
    requires TotalPreorder(leq)
    requires Sorted(leq, t)
    requires forall x :: Filter(Class(leq, x), t) == Filter(Class(leq, x), s)
    ensures t == Sort(leq, s)
  {
    SortSorts(leq, s);
    forall x ensures Filter(Class(leq, x), Sort(leq, s)) == Filter(Class(leq, x), t) {
      SortFilter(leq, Class(leq, x), s);
      ClassIsSorted(leq, x, s);
      SortOfSorted(leq, Filter(Class(leq, x), s));
    }
    SortedByClasses(leq, t, Sort(leq, s));
  }

  lemma ClassIsSorted<T(!new)>(leq: (T, T) -> bool, x: T, s: seq<T>)
    requires TotalPreorder(leq)
    ensures Sorted(leq, Filter(Class(leq, x), s))
  {
    var c := Filter(Class(leq, x), s);
    FilterMembers(Class(leq, x), s);
    forall i, j | 0 <= i < j < |c| ensures leq(c[i], c[j]) {
      assert c[i] in c && c[j] in c;
      assert leq(c[i], x) && leq(x, c[j]);
    }
  }

  lemma {:induction false} SortedByClasses<T(!new)>(leq: (T, T) -> bool, a: seq<T>, b: seq<T>)
    requires TotalPreorder(leq) && Sorted(leq, a) && Sorted(leq, b)
    requires forall x :: Filter(Class(leq, x), a) == Filter(Class(leq, x), b)
    ensures a == b
  {
    if b != [] {
      FilterMembers(Class(leq, b[0]), b);
      assert b[0] in Filter(Class(leq, b[0]), b) by { assert leq(b[0], b[0]); }
      FilterMembers(Class(leq, b[0]), a);
      assert b[0] in a;
    }
    if a != [] {
      FilterMembers(Class(leq, a[0]), b);
      assert leq(a[0], a[0]);
      assert a[0] in Filter(Class(leq, a[0]), b);
      assert leq(b[0], a[0]) by { if a[0] != b[0] { assert a[0] in b; } }
      FilterMembers(Class(leq, b[0]), a);
      assert leq(b[0], b[0]);
      assert b[0] in Filter(Class(leq, b[0]), b);
      assert leq(a[0], b[0]) by { if a[0] != b[0] { assert b[0] in a; } }
      assert Filter(Class(leq, a[0]), a)[0] == a[0];
      assert Filter(Class(leq, a[0]), b)[0] == b[0];
      forall x ensures Filter(Class(leq, x), a[1..]) == Filter(Class(leq, x), b[1..]) {
        assert Filter(Class(leq, x), a) == Filter(Class(leq, x), b);
        if Class(leq, x)(a[0]) {
          assert Filter(Class(leq, x), a)[1..] == Filter(Class(leq, x), a[1..]);
          assert Filter(Class(leq, x), b)[1..] == Filter(Class(leq, x), b[1..]);
        }
      }
      SortedByClasses(leq, a[1..], b[1..]);
    }
  }
}
