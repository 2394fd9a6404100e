/**
 * The model of JavaScript's `Array.prototype.sort(compare)`, which the
 * language has required to be stable since ES2019: a stable insertion sort.
 * `leq(a, b)` stands for `compare(a, b) <= 0`. The lemmas show that the
 * result is a permutation of the input, is sorted whenever `leq` is a total
 * preorder, and keeps every class of equivalent elements in input order.
 */
module Sorting {

  import Text

  /** `leq` is total and transitive: the comparator of a consistent sort. */
  ghost predicate TotalPreorder<T(!new)>(leq: (T, T) -> bool) {
    && (forall a, b :: leq(a, b) || leq(b, a))
    && (forall a, b, c :: leq(a, b) && leq(b, c) ==> leq(a, c))
  }

  ghost predicate Sorted<T>(s: seq<T>, leq: (T, T) -> bool) {
    forall i, j :: 0 <= i < j < |s| ==> leq(s[i], s[j])
  }

  /** `a` and `b` compare equal: a stable sort keeps such elements in input order. */
  predicate Equiv<T>(leq: (T, T) -> bool, a: T, b: T) {
    leq(a, b) && leq(b, a)
  }

  /** The test "compares equal to `x0`", as a filter predicate. */
  function EquivTo<T>(leq: (T, T) -> bool, x0: T): T -> bool {
    e => Equiv(leq, e, x0)
  }

  /** The elements of `s` satisfying `p`, in order (`s.filter(p)`). */
  function Filter<T>(s: seq<T>, p: T -> bool): (r: seq<T>)
    ensures |r| <= |s|
  {
    if s == [] then [] else (if p(s[0]) then [s[0]] else []) + Filter(s[1..], p)
  }

  lemma {:induction false} FilterAppend<T>(a: seq<T>, b: seq<T>, p: T -> bool)
    ensures Filter(a + b, p) == Filter(a, p) + Filter(b, p)
  {
    if a != [] {
      assert (a + b)[0] == a[0] && (a + b)[1..] == a[1..] + b;
      FilterAppend(a[1..], b, p);
    } else {
      assert a + b == b;
    }
  }

  /** `Filter` keeps exactly the elements of `s` that satisfy `p`. */
  lemma {:induction false} FilterMembers<T>(s: seq<T>, p: T -> bool)
    ensures forall x :: x in Filter(s, p) <==> x in s && p(x)
  {
    if s != [] {
      FilterMembers(s[1..], p);
      assert s == [s[0]] + s[1..];
    }
  }

  /** `a` is `b` with some elements left out, the rest in their order. */
  predicate Subsequence<T(==)>(a: seq<T>, b: seq<T>)
    decreases |b|
  {
    if a == [] then true
    else if b == [] then false
    else (a[0] == b[0] && Subsequence(a[1..], b[1..])) || Subsequence(a, b[1..])
  }

  /** Filters that agree on every element keep the same elements. */
  lemma {:induction false} FilterExt<T>(s: seq<T>, p: T -> bool, q: T -> bool)
    requires forall x :: x in s ==> p(x) == q(x)
    ensures Filter(s, p) == Filter(s, q)
  {
    if s != [] {
      assert s[0] in s;
      assert forall x :: x in s[1..] ==> x in s;
      FilterExt(s[1..], p, q);
    }
  }

  /** A filter keeps everything exactly when everything passes. */
  lemma {:induction false} FilterAll<T>(s: seq<T>, p: T -> bool)
    ensures |Filter(s, p)| == |s| <==> forall x :: x in s ==> p(x)
  {
    if s != [] {
      FilterAll(s[1..], p);
      assert forall x :: x in s <==> x == s[0] || x in s[1..];
    }
  }

  /** A filter keeps the order of what it keeps. */
  lemma {:induction false} FilterSubsequence<T>(s: seq<T>, p: T -> bool)
    ensures Subsequence(Filter(s, p), s)
  {
    if s != [] {
      FilterSubsequence(s[1..], p);
      if !p(s[0]) && Filter(s, p) != [] {
        assert Filter(s, p) == Filter(s[1..], p);
      }
    }
  }

  /** A stricter filter keeps a subsequence of what a looser one keeps. */
  lemma {:induction false} FilterMonotone<T>(s: seq<T>, p: T -> bool, q: T -> bool)
    requires forall x :: x in s && p(x) ==> q(x)
    ensures Subsequence(Filter(s, p), Filter(s, q))
  {
    if s != [] {
      assert s[0] in s;
      assert forall x :: x in s[1..] ==> x in s;
      FilterMonotone(s[1..], p, q);
      var fp, fq := Filter(s, p), Filter(s, q);
      if p(s[0]) {
        assert fp == [s[0]] + Filter(s[1..], p) && fq == [s[0]] + Filter(s[1..], q);
        assert fp[1..] == Filter(s[1..], p) && fq[1..] == Filter(s[1..], q);
      } else if q(s[0]) {
        assert fp == Filter(s[1..], p);
        assert fq == [s[0]] + Filter(s[1..], q) && fq[1..] == Filter(s[1..], q);
      } else {
        assert fp == Filter(s[1..], p) && fq == Filter(s[1..], q);
      }
    }
  }

  /** The negation of a filter predicate. */
  function Not<T>(p: T -> bool): T -> bool {
    x => !p(x)
  }

  /** The elements that pass and the elements that fail make up the whole input. */
  lemma {:induction false} FilterPartition<T>(s: seq<T>, p: T -> bool)
    ensures multiset(Filter(s, p)) + multiset(Filter(s, Not(p))) == multiset(s)
  {
    if s != [] {
      var h, t := s[0], s[1..];
      FilterPartition(t, p);
      assert s == [h] + t;
      if p(h) {
        assert Filter(s, p) == [h] + Filter(t, p);
        assert Filter(s, Not(p)) == Filter(t, Not(p));
      } else {
        assert Filter(s, p) == Filter(t, p);
        assert Filter(s, Not(p)) == [h] + Filter(t, Not(p));
      }
    }
  }

  /** `s.flatMap(f)` */
  function FlatMap<T, U>(s: seq<T>, f: T -> seq<U>): seq<U> {
    if s == [] then [] else f(s[0]) + FlatMap(s[1..], f)
  }

  lemma {:induction false} FlatMapAppend<T, U>(a: seq<T>, b: seq<T>, f: T -> seq<U>)
    ensures FlatMap(a + b, f) == FlatMap(a, f) + FlatMap(b, f)
  {
    if a != [] {
      assert (a + b)[0] == a[0] && (a + b)[1..] == a[1..] + b;
      FlatMapAppend(a[1..], b, f);
    } else {
      assert a + b == b;
    }
  }

  /** What an element of `s` expands to is part of `s.flatMap(f)`. */
  lemma {:induction false} FlatMapMember<T, U>(s: seq<T>, f: T -> seq<U>, k: int, x: U)
    requires 0 <= k < |s| && x in f(s[k])
    ensures x in FlatMap(s, f)
  {
    if k > 0 {
      FlatMapMember(s[1..], f, k - 1, x);
    }
  }

  /** Insert `x` after every element that does not compare greater than it. */
  function Insert<T>(x: T, s: seq<T>, leq: (T, T) -> bool): (r: seq<T>)
    ensures |r| == |s| + 1
    ensures multiset(r) == multiset(s) + multiset{x}
  {
    if s == [] then [x]
    else if leq(s[0], x) then
      assert s == [s[0]] + s[1..];
      [s[0]] + Insert(x, s[1..], leq)
    else [x] + s
  }

  /** The stable sort of `s` under `leq`. */
  function SortBy<T>(s: seq<T>, leq: (T, T) -> bool): (r: seq<T>)
    ensures |r| == |s|
    ensures multiset(r) == multiset(s)
  {
    if s == [] then []
    else
      assert s == s[..|s| - 1] + [s[|s| - 1]];
      Insert(s[|s| - 1], SortBy(s[..|s| - 1], leq), leq)
  }

  lemma {:induction false} InsertSorted<T(!new)>(x: T, s: seq<T>, leq: (T, T) -> bool)
    requires TotalPreorder(leq) && Sorted(s, leq)
    ensures Sorted(Insert(x, s, leq), leq)
  {
    if s != [] && leq(s[0], x) {
      InsertSorted(x, s[1..], leq);
      var r := Insert(x, s, leq);
      assert r == [s[0]] + Insert(x, s[1..], leq);
      assert multiset(Insert(x, s[1..], leq)) == multiset(s[1..]) + multiset{x};
      forall j | 0 < j < |r| ensures leq(s[0], r[j]) {
        assert r[j] in multiset(Insert(x, s[1..], leq));
        assert r[j] in s[1..] || r[j] == x;
      }
    }
  }

  /** A consistent comparator yields a sorted result. */
  lemma {:induction false} SortBySorted<T(!new)>(s: seq<T>, leq: (T, T) -> bool)
    requires TotalPreorder(leq)
    ensures Sorted(SortBy(s, leq), leq)
  {
    if s != [] {
      SortBySorted(s[..|s| - 1], leq);
      InsertSorted(s[|s| - 1], SortBy(s[..|s| - 1], leq), leq);
    }
  }

  lemma {:induction false} FilterNone<T>(s: seq<T>, p: T -> bool)
    requires forall e :: e in s ==> !p(e)
    ensures Filter(s, p) == []
  {
    if s != [] {
      FilterNone(s[1..], p);
    }
  }

  /** In a sorted list headed by an element greater than `x`, nothing compares equal to `x`. */
  lemma {:induction false} NoneEquivAfterGreater<T(!new)>(x: T, s: seq<T>, leq: (T, T) -> bool, x0: T)
    requires TotalPreorder(leq) && Sorted(s, leq)
    requires s != [] && !leq(s[0], x) && Equiv(leq, x, x0)
    ensures forall e :: e in s ==> !Equiv(leq, e, x0)
  {
    var head := s[0];
    assert leq(head, head);
    forall e | e in s ensures !Equiv(leq, e, x0) {
      var j :| 0 <= j < |s| && s[j] == e;
      assert leq(head, e) by { assert j == 0 || leq(s[0], s[j]); }
      assert leq(e, x0) ==> leq(e, x) && leq(head, x);
    }
  }

  /** Putting the same element in front of two lists with equal filtered views keeps them equal. */
  lemma {:induction false} ConsFilterStep<T>(h: T, a: seq<T>, b: seq<T>, p: T -> bool, extra: seq<T>)
    requires Filter(a, p) == Filter(b, p) + extra
    ensures Filter([h] + a, p) == Filter([h] + b, p) + extra
  {
    var e := if p(h) then [h] else [];
    assert ([h] + a)[0] == h && ([h] + a)[1..] == a;
    assert ([h] + b)[0] == h && ([h] + b)[1..] == b;
    assert Filter([h] + a, p) == e + Filter(a, p);
    assert Filter([h] + b, p) == e + Filter(b, p);
  }

  /** `x` placed in front of a sorted list whose head is greater than it. */
  lemma {:induction false} InsertFront<T(!new)>(x: T, s: seq<T>, leq: (T, T) -> bool, x0: T)
    requires TotalPreorder(leq) && Sorted(s, leq)
    requires s != [] && !leq(s[0], x)
    ensures Filter([x] + s, EquivTo(leq, x0)) == Filter(s, EquivTo(leq, x0)) + (if Equiv(leq, x, x0) then [x] else [])
  {
    var p := EquivTo(leq, x0);
    FilterAppend([x], s, p);
    if Equiv(leq, x, x0) {
      NoneEquivAfterGreater(x, s, leq, x0);
      FilterNone(s, p);
    }
  }

  /** Inserting `x` adds it at the end of its own class and leaves other classes alone. */
  lemma {:induction false} InsertFilter<T(!new)>(x: T, s: seq<T>, leq: (T, T) -> bool, x0: T)
    requires TotalPreorder(leq) && Sorted(s, leq)
    ensures Filter(Insert(x, s, leq), EquivTo(leq, x0))
         == Filter(s, EquivTo(leq, x0)) + (if Equiv(leq, x, x0) then [x] else [])
  {
    if s == [] {
      assert Insert(x, s, leq) == [x];
    } else if leq(s[0], x) {
      InsertFilter(x, s[1..], leq, x0);
      assert Insert(x, s, leq) == [s[0]] + Insert(x, s[1..], leq);
      assert s == [s[0]] + s[1..];
      ConsFilterStep(s[0], Insert(x, s[1..], leq), s[1..], EquivTo(leq, x0), if Equiv(leq, x, x0) then [x] else []);
    } else {
      assert Insert(x, s, leq) == [x] + s;
      InsertFront(x, s, leq, x0);
    }
  }

  /** The filtered view of `init + [last]` once `last` went to the end of its class. */
  lemma {:induction false} FilterSnoc<T>(init: seq<T>, last: T, sortedInit: seq<T>, inserted: seq<T>, p: T -> bool)
    requires Filter(sortedInit, p) == Filter(init, p)
    requires Filter(inserted, p) == Filter(sortedInit, p) + (if p(last) then [last] else [])
    ensures Filter(inserted, p) == Filter(init + [last], p)
  {
    FilterAppend(init, [last], p);
    assert Filter([last], p) == (if p(last) then [last] else []) + Filter([], p);
  }

  lemma {:induction false} StableStep<T(!new)>(init: seq<T>, last: T, leq: (T, T) -> bool, x0: T)
    requires TotalPreorder(leq)
    requires Filter(SortBy(init, leq), EquivTo(leq, x0)) == Filter(init, EquivTo(leq, x0))
    ensures Filter(Insert(last, SortBy(init, leq), leq), EquivTo(leq, x0)) == Filter(init + [last], EquivTo(leq, x0))
  {
    SortBySorted(init, leq);
    InsertFilter(last, SortBy(init, leq), leq, x0);
    FilterSnoc(init, last, SortBy(init, leq), Insert(last, SortBy(init, leq), leq), EquivTo(leq, x0));
  }

  /** Stability: each class of equivalent elements keeps its input order. */
  lemma {:induction false} SortByStable<T(!new)>(s: seq<T>, leq: (T, T) -> bool, x0: T)
    requires TotalPreorder(leq)
    ensures Filter(SortBy(s, leq), EquivTo(leq, x0)) == Filter(s, EquivTo(leq, x0))
  {
    if s != [] {
      var init, last := s[..|s| - 1], s[|s| - 1];
      assert s == init + [last];
      SortByStable(init, leq, x0);
      StableStep(init, last, leq, x0);
    }
  }

  lemma {:induction false} FlatMapCons<T, U>(h: T, t: seq<T>, f: T -> seq<U>)
    ensures FlatMap([h] + t, f) == f(h) + FlatMap(t, f)
  {
    assert ([h] + t)[0] == h && ([h] + t)[1..] == t;
  }

  lemma {:induction false} InsertFlatMap<T, U>(x: T, s: seq<T>, leq: (T, T) -> bool, f: T -> seq<U>)
    ensures multiset(FlatMap(Insert(x, s, leq), f)) == multiset(FlatMap(s, f)) + multiset(f(x))
  {
    if s != [] && leq(s[0], x) {
      var t := Insert(x, s[1..], leq);
      InsertFlatMap(x, s[1..], leq, f);
      assert Insert(x, s, leq) == [s[0]] + t;
      assert s == [s[0]] + s[1..];
      FlatMapCons(s[0], t, f);
      FlatMapCons(s[0], s[1..], f);
      calc {
        multiset(FlatMap(Insert(x, s, leq), f));
        multiset(f(s[0])) + multiset(FlatMap(t, f));
        multiset(f(s[0])) + multiset(FlatMap(s[1..], f)) + multiset(f(x));
        multiset(FlatMap(s, f)) + multiset(f(x));
      }
    } else {
      assert Insert(x, s, leq) == [x] + s;
      FlatMapCons(x, s, f);
    }
  }

  /** Sorting does not change what the elements expand to, counted with multiplicity. */
  lemma {:induction false} SortByFlatMap<T, U>(s: seq<T>, leq: (T, T) -> bool, f: T -> seq<U>)
    ensures multiset(FlatMap(SortBy(s, leq), f)) == multiset(FlatMap(s, f))
  {
    if s != [] {
      var init, last := s[..|s| - 1], s[|s| - 1];
      SortByFlatMap(init, leq, f);
      InsertFlatMap(last, SortBy(init, leq), leq, f);
      assert s == init + [last];
      FlatMapAppend(init, [last], f);
      assert FlatMap([last], f) == f(last);
    }
  }

  /** No element occurs twice. */
  predicate NoDup<T(==)>(s: seq<T>) {
    forall i, j :: 0 <= i < j < |s| ==> s[i] != s[j]
  }

  /** The distinct elements of `s` in order of first occurrence (`[...new Set(s)]`). */
  function Dedup<T(==, !new)>(s: seq<T>): (r: seq<T>)
    ensures forall x :: x in r <==> x in s
    ensures NoDup(r)
    ensures |r| <= |s|
  {
    if s == [] then []
    else
      var init, x := s[..|s| - 1], s[|s| - 1];
      assert s == init + [x];
      var d := Dedup(init);
      if x in d then d else d + [x]
  }

  /** How many elements `p` keeps is decided element by element: its multiset is the restriction of `s`'s. */
  lemma {:induction false} FilterMultiset<T>(s: seq<T>, p: T -> bool)
    ensures forall x :: multiset(Filter(s, p))[x] == if p(x) then multiset(s)[x] else 0
  {
    if s != [] {
      FilterMultiset(s[1..], p);
      assert s == [s[0]] + s[1..];
    }
  }

  lemma {:induction false} MultisetExt<T>(a: multiset<T>, b: multiset<T>)
    requires forall x :: a[x] == b[x]
    ensures a == b
  {
  }

  lemma {:induction false} MultisetSize<T>(s: seq<T>)
    ensures |multiset(s)| == |s|
  {
    if s != [] {
      MultisetSize(s[1..]);
      assert s == [s[0]] + s[1..];
    }
  }

  /** Reordering the input does not change what a filter keeps, counted with multiplicity. */
  lemma {:induction false} FilterPermutation<T>(s: seq<T>, t: seq<T>, p: T -> bool)
    requires multiset(s) == multiset(t)
    ensures multiset(Filter(s, p)) == multiset(Filter(t, p))
    ensures |Filter(s, p)| == |Filter(t, p)|
  {
    var ms, mt := multiset(Filter(s, p)), multiset(Filter(t, p));
    FilterMultiset(s, p);
    FilterMultiset(t, p);
    assert forall x :: ms[x] == mt[x];
    MultisetExt(ms, mt);
    MultisetSize(Filter(s, p));
    MultisetSize(Filter(t, p));
  }
  /** No duplicates means every element occurs once in the multiset. */
  lemma {:induction false} NoDupMultiset<T>(s: seq<T>)
    ensures NoDup(s) <==> forall x :: multiset(s)[x] <= 1
  {
    if s != [] {
      var h, t := s[0], s[1..];
      assert s == [h] + t;
      NoDupMultiset(t);
      if NoDup(s) {
        assert NoDup(t) by {
          forall i, j | 0 <= i < j < |t| ensures t[i] != t[j] {
            assert t[i] == s[i + 1] && t[j] == s[j + 1];
          }
        }
        assert h !in t by {
          forall k | 0 <= k < |t| ensures t[k] != h {
            assert t[k] == s[k + 1];
          }
        }
      }
      if forall x :: multiset(s)[x] <= 1 {
        assert multiset(s)[h] == multiset(t)[h] + 1;
        assert forall x :: multiset(t)[x] <= multiset(s)[x];
        forall i, j | 0 <= i < j < |s| ensures s[i] != s[j] {
          if i == 0 {
            assert s[j] == t[j - 1];
          } else {
            assert s[i] == t[i - 1] && s[j] == t[j - 1];
          }
        }
      }
    }
  }

  /** A permutation of a duplicate-free sequence is duplicate-free. */
  lemma {:induction false} NoDupPermutation<T>(s: seq<T>, t: seq<T>)
    requires multiset(s) == multiset(t) && NoDup(s)
    ensures NoDup(t)
  {
    NoDupMultiset(s);
    NoDupMultiset(t);
  }
  /** The default comparator of `sort()`, string order, is consistent. */
  lemma {:induction false} DefaultOrderTotalPreorder()
    ensures TotalPreorder(Text.StrLeq)
  {
    forall a, b ensures Text.StrLeq(a, b) || Text.StrLeq(b, a) {
      Text.StrLeqTotal(a, b);
    }
    forall a, b, c | Text.StrLeq(a, b) && Text.StrLeq(b, c) ensures Text.StrLeq(a, c) {
      Text.StrLeqTransitive(a, b, c);
    }
  }

  /** `[...new Set(s)].sort()`: the distinct strings in first-seen order, then in string order. */
  function UniqueSorted(s: seq<string>): seq<string> {
    SortBy(Dedup(s), Text.StrLeq)
  }

  /** The result holds exactly the strings of `s`, each once, in strictly increasing order. */
  lemma {:induction false} UniqueSortedFacts(s: seq<string>)
    ensures var r := UniqueSorted(s);
      && (forall t :: t in r <==> t in s)
      && NoDup(r)
      && (forall i, j :: 0 <= i < j < |r| ==> Text.StrLt(r[i], r[j]))
  {
    var d := Dedup(s);
    var r := UniqueSorted(s);
    forall t ensures t in r <==> t in d {
      assert multiset(r)[t] == multiset(d)[t];
    }
    NoDupPermutation(d, r);
    DefaultOrderTotalPreorder();
    SortBySorted(d, Text.StrLeq);
  }
}
