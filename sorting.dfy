/**
 * Python's built-in `sorted`, which is a stable sort: the result is ordered by
 * the comparison, is a permutation of the input, and keeps equal elements in
 * their input order. Modelled as insertion sort under a comparison `le`
 * ("may come before"), which for `sorted(xs, key=f)` is `f(a) <= f(b)`.
 */
module Sorting {

  import opened Lists

  ghost predicate TotalPreorder<T(!new)>(le: (T, T) -> bool)
  {
    && (forall a, b :: le(a, b) || le(b, a))
    && (forall a, b, c :: le(a, b) && le(b, c) ==> le(a, c))
  }

  predicate SortedBy<T>(s: seq<T>, le: (T, T) -> bool)
  {
    forall i, j :: 0 <= i < j < |s| ==> le(s[i], s[j])
  }

  predicate Distinct<T(==)>(s: seq<T>)
  {
    forall i, j :: 0 <= i < j < |s| ==> s[i] != s[j]
  }

  lemma DistinctAt<T>(s: seq<T>, i: nat, j: nat)
    requires Distinct(s) && i < |s| && j < |s| && i != j
    ensures s[i] != s[j]
  {
    if j < i {
      assert s[j] != s[i];
    }
  }

  /** Inserts `x` after every element that may come before it. */
  function Insert<T>(x: T, s: seq<T>, le: (T, T) -> bool): (r: seq<T>)
    ensures multiset(r) == multiset(s) + multiset{x}
    ensures |r| == |s| + 1
  {
    if s == [] then [x]
    else if le(s[0], x) then
      assert s == [s[0]] + s[1..];
      [s[0]] + Insert(x, s[1..], le)
    else [x] + s
  }

  /** `sorted(s)` under the comparison `le`. */
  function SortBy<T>(s: seq<T>, le: (T, T) -> bool): (r: seq<T>)
    ensures |r| == |s|
  {
    if s == [] then [] else Insert(s[|s| - 1], SortBy(s[..|s| - 1], le), le)
  }

  lemma {:induction false} InsertSorted<T(!new)>(x: T, s: seq<T>, le: (T, T) -> bool)
    requires TotalPreorder(le) && SortedBy(s, le)
    ensures SortedBy(Insert(x, s, le), le)
  {
    if s != [] && le(s[0], x) {
      InsertSorted(x, s[1..], le);
      var r := Insert(x, s, le);
      var tail := Insert(x, s[1..], le);
      assert r == [s[0]] + tail;
      assert multiset(tail) == multiset(s[1..]) + multiset{x};
      forall j | 0 < j < |r| ensures le(r[0], r[j]) {
        assert r[j] in multiset(tail);
        assert r[j] == x || r[j] in s[1..];
      }
    }
  }

  /** The result of `sorted` is in order. */
  lemma {:induction false} SortBySorted<T(!new)>(s: seq<T>, le: (T, T) -> bool)
    requires TotalPreorder(le)
    ensures SortedBy(SortBy(s, le), le)
  {
    if s != [] {
      SortBySorted(s[..|s| - 1], le);
      InsertSorted(s[|s| - 1], SortBy(s[..|s| - 1], le), le);
    }
  }

  /** The result of `sorted` is a permutation of its input. */
  lemma {:induction false} SortByPermutes<T>(s: seq<T>, le: (T, T) -> bool)
    ensures multiset(SortBy(s, le)) == multiset(s)
  {
    if s != [] {
      SortByPermutes(s[..|s| - 1], le);
      assert s == s[..|s| - 1] + [s[|s| - 1]];
    }
  }

  /**
   * Inserting into a sorted sequence puts `x` after every element it ties
   * with: among elements that `p` singles out as mutually tied, `x` comes last.
   */
  lemma {:induction false} InsertStable<T(!new)>(x: T, s: seq<T>, le: (T, T) -> bool, p: T -> bool)
    requires TotalPreorder(le) && SortedBy(s, le)
    requires forall a, b :: p(a) && p(b) ==> le(a, b)
    ensures Filter(Insert(x, s, le), p) == Filter(s, p) + (if p(x) then [x] else [])
  {
    var r := Insert(x, s, le);
    if s == [] {
      assert r == [x] && r[1..] == [];
    } else if le(s[0], x) {
      InsertStable(x, s[1..], le, p);
      assert r[0] == s[0] && r[1..] == Insert(x, s[1..], le);
    } else {
      assert r == [x] + s && r[1..] == s;
      if p(x) {
        // Everything in `s` comes strictly after `x`, so nothing ties with it.
        forall k | 0 <= k < |s| ensures !p(s[k]) {
          assert k == 0 || le(s[0], s[k]);
        }
        FilterNone(s, p);
      }
    }
  }

  /**
   * `sorted` is stable: restricted to any set of elements that tie with one
   * another, the result lists them in their input order.
   */
  lemma {:induction false} SortByStable<T(!new)>(s: seq<T>, le: (T, T) -> bool, p: T -> bool)
    requires TotalPreorder(le)
    requires forall a, b :: p(a) && p(b) ==> le(a, b)
    ensures Filter(SortBy(s, le), p) == Filter(s, p)
  {
    if s != [] {
      var init, last := s[..|s| - 1], s[|s| - 1];
      SortByStable(init, le, p);
      SortBySorted(init, le);
      InsertStable(last, SortBy(init, le), le, p);
      assert init + [last] == s;
      FilterAppend(init, [last], p);
      assert [last][1..] == [];
    }
  }

  lemma {:induction false} DistinctCounts<T>(s: seq<T>)
    requires Distinct(s)
    ensures forall v :: multiset(s)[v] <= 1
  {
    if s != [] {
      assert s == [s[0]] + s[1..];
      assert Distinct(s[1..]);
      DistinctCounts(s[1..]);
      assert s[0] !in s[1..];
    }
  }

  lemma {:induction false} CountsDistinct<T>(r: seq<T>)
    requires forall v :: multiset(r)[v] <= 1
    ensures Distinct(r)
  {
    if r != [] {
      assert r == [r[0]] + r[1..];
      assert multiset(r) == multiset{r[0]} + multiset(r[1..]);
      assert multiset(r)[r[0]] <= 1;
      assert multiset(r)[r[0]] == 1 + multiset(r[1..])[r[0]];
      forall v ensures multiset(r[1..])[v] <= 1 {
        assert multiset(r)[v] == multiset{r[0]}[v] + multiset(r[1..])[v];
      }
      CountsDistinct(r[1..]);
      forall j | 0 < j < |r| ensures r[0] != r[j] {
        assert r[j] in multiset(r[1..]);
      }
    }
  }

  /** A permutation of a sequence without repetitions has none either. */
  lemma PermutationDistinct<T>(s: seq<T>, r: seq<T>)
    requires Distinct(s) && multiset(r) == multiset(s)
    ensures Distinct(r)
  {
    DistinctCounts(s);
    CountsDistinct(r);
  }

  /** A sequence without repetitions has as many distinct elements as positions. */
  lemma {:induction false} DistinctCard<T>(s: seq<T>)
    requires Distinct(s)
    ensures |set x | x in s| == |s|
  {
    if s != [] {
      var init := s[..|s| - 1];
      DistinctCard(init);
      assert (set x | x in s) == (set x | x in init) + {s[|s| - 1]};
      assert s[|s| - 1] !in init;
    }
  }

  /** The natural order of integers, the comparison of a plain `sorted` on them. */
  predicate IntLe(a: int, b: int)
  {
    a <= b
  }

  /** `sorted` of a sequence of distinct integers is strictly increasing. */
  lemma SortedIntsIncrease(s: seq<int>)
    requires Distinct(s)
    ensures var r := SortBy(s, IntLe);
            multiset(r) == multiset(s) && forall i, j :: 0 <= i < j < |r| ==> r[i] < r[j]
  {
    assert TotalPreorder(IntLe);
    SortBySorted(s, IntLe);
    SortByPermutes(s, IntLe);
    PermutationDistinct(s, SortBy(s, IntLe));
  }

  /**
   * Python's comparison of strings: lexicographic on code points, a proper
   * prefix coming first.
   */
  predicate StrLe(a: string, b: string)
  {
    a == [] || (b != [] && (a[0] < b[0] || (a[0] == b[0] && StrLe(a[1..], b[1..]))))
  }

  lemma {:induction false} StrLeTotal(a: string, b: string)
    ensures StrLe(a, b) || StrLe(b, a)
  {
    if a != [] && b != [] && a[0] == b[0] {
      StrLeTotal(a[1..], b[1..]);
    }
  }

  lemma {:induction false} StrLeTransitive(a: string, b: string, c: string)
    requires StrLe(a, b) && StrLe(b, c)
    ensures StrLe(a, c)
  {
    if a != [] && b != [] && c != [] && a[0] == b[0] && b[0] == c[0] {
      StrLeTransitive(a[1..], b[1..], c[1..]);
    }
  }

  /** `sorted` on strings orders by a total preorder. */
  lemma StrLePreorder()
    ensures TotalPreorder(StrLe)
  {
    forall a, b ensures StrLe(a, b) || StrLe(b, a) {
      StrLeTotal(a, b);
    }
    forall a, b, c | StrLe(a, b) && StrLe(b, c) ensures StrLe(a, c) {
      StrLeTransitive(a, b, c);
    }
  }
}
