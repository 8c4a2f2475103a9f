/** Order-preserving filtering, sums and a comparator-driven insertion sort over sequences. */
module Seqs {

  /** The list comprehension `[x for x in s if p(x)]`. */
  function Filter<T>(s: seq<T>, p: T -> bool): (r: seq<T>)
    ensures |r| <= |s|
  {
    if |s| == 0 then []
    else
      var rest := Filter(s[1..], p);
      if p(s[0]) then [s[0]] + rest else rest
  }

  /** Filtering keeps every occurrence of an element satisfying `p` and drops all others. */
  lemma {:induction false} FilterCounts<T(!new)>(s: seq<T>, p: T -> bool)
    ensures forall x :: multiset(Filter(s, p))[x] == (if p(x) then multiset(s)[x] else 0)
  {
    if |s| > 0 {
      FilterCounts(s[1..], p);
      assert s == [s[0]] + s[1..];
    }
  }

  lemma FilterMembership<T(!new)>(s: seq<T>, p: T -> bool, x: T)
    ensures x in Filter(s, p) <==> x in s && p(x)
  {
    FilterCounts(s, p);
    var r := Filter(s, p);
    assert x in r <==> multiset(r)[x] > 0;
    assert x in s <==> multiset(s)[x] > 0;
  }

  /** Filtering distributes over concatenation, which is what keeps relative order. */
  lemma {:induction false} FilterAppend<T(!new)>(a: seq<T>, b: seq<T>, p: T -> bool)
    ensures Filter(a + b, p) == Filter(a, p) + Filter(b, p)
  {
    if |a| == 0 {
      assert a + b == b;
    } else {
      assert (a + b)[1..] == a[1..] + b;
      assert (a + b)[0] == a[0];
      FilterAppend(a[1..], b, p);
    }
  }

  /** Filtering by `p` and by its negation splits a sequence into two parts that together are the whole. */
  lemma FilterPartition<T(!new)>(s: seq<T>, p: T -> bool)
    ensures multiset(Filter(s, p)) + multiset(Filter(s, x => !p(x))) == multiset(s)
    ensures |Filter(s, p)| + |Filter(s, x => !p(x))| == |s|
  {
    var a, b := Filter(s, p), Filter(s, x => !p(x));
    FilterCounts(s, p);
    FilterCounts(s, x => !p(x));
    assert multiset(a) + multiset(b) == multiset(s);
    assert |multiset(a) + multiset(b)| == |multiset(s)|;
  }

  function Sum(s: seq<int>): int {
    if |s| == 0 then 0 else s[0] + Sum(s[1..])
  }

  lemma {:induction false} SumAppend(a: seq<int>, b: seq<int>)
    ensures Sum(a + b) == Sum(a) + Sum(b)
  {
    if |a| == 0 {
      assert a + b == b;
    } else {
      assert (a + b)[1..] == a[1..] + b;
      SumAppend(a[1..], b);
    }
  }

  /** Every element occurs at most once. */
  predicate Distinct<T(==)>(s: seq<T>) {
    forall i, j :: 0 <= i < |s| && 0 <= j < |s| && i != j ==> s[i] != s[j]
  }

  /** A sequence is repetition-free exactly when no element occurs twice in its multiset. */
  lemma {:induction false} DistinctCounts<T>(s: seq<T>)
    ensures Distinct(s) <==> forall x :: multiset(s)[x] <= 1
  {
    if |s| > 0 {
      DistinctCounts(s[1..]);
      assert s == [s[0]] + s[1..];
      if Distinct(s) {
        assert Distinct(s[1..]) by {
          forall i, j | 0 <= i < |s[1..]| && 0 <= j < |s[1..]| && i != j ensures s[1..][i] != s[1..][j] {
            assert s[1..][i] == s[i + 1] && s[1..][j] == s[j + 1];
          }
        }
        assert s[0] !in s[1..] by {
          forall j | 0 <= j < |s[1..]| ensures s[1..][j] != s[0] {
            assert s[1..][j] == s[j + 1];
          }
        }
      } else {
        var i, j :| 0 <= i < |s| && 0 <= j < |s| && i != j && s[i] == s[j];
        if i == 0 || j == 0 {
          var k := if i == 0 then j else i;
          assert s[k] == s[0] && s[1..][k - 1] == s[k];
          assert multiset(s)[s[0]] >= 2;
        } else {
          assert s[1..][i - 1] == s[i] && s[1..][j - 1] == s[j];
          assert !Distinct(s[1..]);
          var x :| multiset(s[1..])[x] > 1;
          assert multiset(s)[x] >= multiset(s[1..])[x];
        }
      }
    }
  }

  /** Two sequences with the same elements and multiplicities are both repetition-free or neither is. */
  lemma DistinctPermutation<T>(a: seq<T>, b: seq<T>)
    requires multiset(a) == multiset(b)
    ensures Distinct(a) <==> Distinct(b)
  {
    DistinctCounts(a);
    DistinctCounts(b);
  }

  /** Filtering a repetition-free sequence leaves it repetition-free. */
  lemma FilterDistinct<T(!new)>(s: seq<T>, p: T -> bool)
    requires Distinct(s)
    ensures Distinct(Filter(s, p))
  {
    FilterCounts(s, p);
    DistinctCounts(s);
    DistinctCounts(Filter(s, p));
  }

  /** A repetition-free sequence has as many elements as the set of its elements. */
  lemma {:induction false} DistinctCard<T>(s: seq<T>)
    requires Distinct(s)
    ensures |set x | x in s| == |s|
  {
    if |s| > 0 {
      var rest := s[1..];
      assert Distinct(rest) by {
        forall i, j | 0 <= i < |rest| && 0 <= j < |rest| && i != j ensures rest[i] != rest[j] {
          assert rest[i] == s[i + 1] && rest[j] == s[j + 1];
        }
      }
      DistinctCard(rest);
      assert s[0] !in rest by {
        forall j | 0 <= j < |rest| ensures rest[j] != s[0] {
          assert rest[j] == s[j + 1];
        }
      }
      assert (set x | x in s) == (set x | x in rest) + {s[0]} by {
        assert s == [s[0]] + rest;
      }
    }
  }

  /** `le` is a total preorder: every pair is comparable and `le` is transitive. */
  ghost predicate TotalPreorder<T(!new)>(le: (T, T) -> bool) {
    && (forall a, b :: le(a, b) || le(b, a))
    && (forall a, b, c :: le(a, b) && le(b, c) ==> le(a, c))
  }

  predicate SortedBy<T>(s: seq<T>, le: (T, T) -> bool) {
    forall i, j :: 0 <= i < j < |s| ==> le(s[i], s[j])
  }

  /** Inserts `x` in front of the first element it is `le` to. */
  function Insert<T(!new)>(x: T, s: seq<T>, le: (T, T) -> bool): (r: seq<T>)
    ensures multiset(r) == multiset(s) + multiset{x}
    ensures |r| == |s| + 1
  {
    if |s| == 0 then [x]
    else if le(x, s[0]) then [x] + s
    else
      assert s == [s[0]] + s[1..];
      [s[0]] + Insert(x, s[1..], le)
  }

  lemma {:induction false} InsertSorted<T(!new)>(x: T, s: seq<T>, le: (T, T) -> bool)
    requires TotalPreorder(le)
    requires SortedBy(s, le)
    ensures SortedBy(Insert(x, s, le), le)
  {
    if |s| == 0 {
    } else if le(x, s[0]) {
      var r := [x] + s;
      forall i, j | 0 <= i < j < |r| ensures le(r[i], r[j]) {
        if i == 0 {
          assert le(x, s[0]);
          if j > 1 { assert le(s[0], s[j - 1]); }
        } else {
          assert r[i] == s[i - 1] && r[j] == s[j - 1];
        }
      }
    } else {
      var tail := Insert(x, s[1..], le);
      InsertSorted(x, s[1..], le);
      assert le(s[0], x);
      var r := [s[0]] + tail;
      assert r == Insert(x, s, le);
      forall i, j | 0 <= i < j < |r| ensures le(r[i], r[j]) {
        if i == 0 {
          var e := tail[j - 1];
          assert r[j] == e;
          assert e in multiset(tail);
          if e != x {
            assert e in multiset(s[1..]);
            var k :| 0 <= k < |s[1..]| && s[1..][k] == e;
            assert le(s[0], s[k + 1]);
          }
        } else {
          assert r[i] == tail[i - 1] && r[j] == tail[j - 1];
        }
      }
    }
  }
  /** Insertion sort by a comparator; the result is a permutation of `s`. */
  function InsertionSort<T(!new)>(s: seq<T>, le: (T, T) -> bool): (r: seq<T>)
    ensures multiset(r) == multiset(s)
    ensures |r| == |s|
  {
    if |s| == 0 then []
    else
      assert s == [s[0]] + s[1..];
      Insert(s[0], InsertionSort(s[1..], le), le)
  }

  lemma {:induction false} InsertionSortSorted<T(!new)>(s: seq<T>, le: (T, T) -> bool)
    requires TotalPreorder(le)
    ensures SortedBy(InsertionSort(s, le), le)
  {
    if |s| > 0 {
      InsertionSortSorted(s[1..], le);
      InsertSorted(s[0], InsertionSort(s[1..], le), le);
    }
  }

  /** The elements of `s` satisfying `p`, inserted one by one into `le` order. */
  function SortedFilter<T(!new)>(s: seq<T>, p: T -> bool, le: (T, T) -> bool): (r: seq<T>)
    ensures |r| <= |s|
  {
    if |s| == 0 then []
    else
      var rest := SortedFilter(s[1..], p, le);
      if p(s[0]) then Insert(s[0], rest, le) else rest
  }

  lemma {:induction false} SortedFilterCounts<T(!new)>(s: seq<T>, p: T -> bool, le: (T, T) -> bool)
    ensures multiset(SortedFilter(s, p, le)) == multiset(Filter(s, p))
  {
    if |s| > 0 {
      SortedFilterCounts(s[1..], p, le);
    }
  }

  lemma {:induction false} SortedFilterSorted<T(!new)>(s: seq<T>, p: T -> bool, le: (T, T) -> bool)
    requires TotalPreorder(le)
    ensures SortedBy(SortedFilter(s, p, le), le)
  {
    if |s| > 0 {
      SortedFilterSorted(s[1..], p, le);
      if p(s[0]) {
        InsertSorted(s[0], SortedFilter(s[1..], p, le), le);
      }
    }
  }

  /**
   * Sorting the elements of a repetition-free sequence that satisfy `p`
   * yields each such element exactly once, in `le` order.
   */
  lemma SortFilterFacts<T(!new)>(s: seq<T>, p: T -> bool, le: (T, T) -> bool)
    requires Distinct(s)
    requires TotalPreorder(le)
    ensures var r := SortedFilter(s, p, le);
      && (forall x :: x in r <==> x in s && p(x))
      && (forall i :: 0 <= i < |r| ==> r[i] in s && p(r[i]))
      && Distinct(r)
      && SortedBy(r, le)
      && |set x | x in r| == |r|
  {
    var hits := Filter(s, p);
    var r := SortedFilter(s, p, le);
    SortedFilterSorted(s, p, le);
    SortedFilterCounts(s, p, le);
    FilterCounts(s, p);
    DistinctCounts(s);
    DistinctCounts(hits);
    DistinctPermutation(r, hits);
    forall x ensures x in r <==> x in s && p(x) {
      assert x in r <==> x in multiset(r);
      assert x in hits <==> x in multiset(hits);
      FilterMembership(s, p, x);
    }
    forall i | 0 <= i < |r| ensures r[i] in s && p(r[i]) {
      assert r[i] in r;
    }
    DistinctCard(r);
  }

  /** Both predicates hold. */
  function Both<T>(p: T -> bool, q: T -> bool): T -> bool {
    x => p(x) && q(x)
  }

  /** Filtering twice is filtering once by both predicates. */
  lemma {:induction false} FilterFilter<T>(s: seq<T>, p: T -> bool, q: T -> bool)
    ensures Filter(Filter(s, p), q) == Filter(s, Both(p, q))
  {
    if |s| > 0 {
      FilterFilter(s[1..], p, q);
      var rest := Filter(s[1..], p);
      if p(s[0]) {
        assert Filter(s, p) == [s[0]] + rest;
        assert ([s[0]] + rest)[1..] == rest;
      }
    }
  }

  /** A predicate that holds of every element filters nothing out. */
  lemma {:induction false} FilterKeepsAll<T>(s: seq<T>, p: T -> bool)
    requires forall i :: 0 <= i < |s| ==> p(s[i])
    ensures Filter(s, p) == s
  {
    if |s| > 0 {
      assert forall i :: 0 <= i < |s[1..]| ==> s[1..][i] == s[i + 1];
      FilterKeepsAll(s[1..], p);
      assert s == [s[0]] + s[1..];
    }
  }

  /** `s[::-1]`. */
  function Reverse<T>(s: seq<T>): (r: seq<T>)
    ensures |r| == |s|
    ensures forall i :: 0 <= i < |s| ==> r[i] == s[|s| - 1 - i]
  {
    seq(|s|, i requires 0 <= i < |s| => s[|s| - 1 - i])
  }

  /** Python's `s[:n]`: the first `n` elements, or all but the last `-n` when `n` is negative. */
  function SliceTo<T>(s: seq<T>, n: int): (r: seq<T>)
    ensures n >= 0 ==> |r| == if n < |s| then n else |s|
    ensures n < 0 ==> |r| == if |s| + n > 0 then |s| + n else 0
    ensures r == s[..|r|]
  {
    if n >= 0 then (if n < |s| then s[..n] else s)
    else if |s| + n > 0 then s[..|s| + n]
    else []
  }
}
