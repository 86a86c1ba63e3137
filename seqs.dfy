/**
 * Sequence operations behind the source's loops and sorts. `Filter` stands
 * for a loop that pushes the elements passing a test, in order.
 * `Sort` stands for `Array.prototype.sort` and is modelled by insertion sort.
 * For the comparators the source sorts with, any correct sort yields the same
 * array (see SortedPermutationsEqual).
 */
module Seqs {

  /** The elements of `s` satisfying `p`, in their original order. */
  function Filter<T>(s: seq<T>, p: T -> bool): (r: seq<T>)
    ensures |r| <= |s|
    ensures forall x :: x in r ==> x in s && p(x)
  {
    if s == [] then [] else Filter(s[..|s| - 1], p) + (if p(s[|s| - 1]) then [s[|s| - 1]] else [])
  }

  /** Splitting by a predicate and by its negation loses no element. */
  lemma {:induction false} FilterSplitMultiset<T>(s: seq<T>, p: T -> bool, q: T -> bool)
    requires forall x :: q(x) == !p(x)
    ensures multiset(Filter(s, p)) + multiset(Filter(s, q)) == multiset(s)
  {
    if s != [] {
      FilterSplitMultiset(s[..|s| - 1], p, q);
      assert s == s[..|s| - 1] + [s[|s| - 1]];
    }
  }

  // ---------------------------------------------------------------------------
  // Sorting
  // ---------------------------------------------------------------------------

  /** Every two elements, equal ones included, are related one way or the other. */
  ghost predicate StronglyConnected<T(!new)>(le: (T, T) -> bool)
  {
    forall a, b :: le(a, b) || le(b, a)
  }

  ghost predicate Transitive<T(!new)>(le: (T, T) -> bool)
  {
    forall a, b, c :: le(a, b) && le(b, c) ==> le(a, c)
  }

  predicate SortedBy<T>(s: seq<T>, le: (T, T) -> bool)
  {
    forall i, j :: 0 <= i < j < |s| ==> le(s[i], s[j])
  }

  function Insert<T>(x: T, s: seq<T>, le: (T, T) -> bool): (r: seq<T>)
    ensures multiset(r) == multiset(s) + multiset{x}
  {
    if s == [] then [x]
    else if le(x, s[0]) then [x] + s
    else
      assert s == [s[0]] + s[1..];
      [s[0]] + Insert(x, s[1..], le)
  }

  /** `s.sort(cmp)`, where `le(a, b)` stands for `cmp(a, b) <= 0`. */
  function Sort<T>(s: seq<T>, le: (T, T) -> bool): (r: seq<T>)
    ensures multiset(r) == multiset(s)
  {
    if s == [] then []
    else
      assert s == [s[0]] + s[1..];
      Insert(s[0], Sort(s[1..], le), le)
  }

  lemma {:induction false} InsertSorted<T(!new)>(x: T, s: seq<T>, le: (T, T) -> bool)
    requires StronglyConnected(le) && Transitive(le)
    requires SortedBy(s, le)
    ensures SortedBy(Insert(x, s, le), le)
  {
    if s != [] && !le(x, s[0]) {
      InsertSorted(x, s[1..], le);
      var r := Insert(x, s[1..], le);
      assert multiset(r) == multiset(s[1..]) + multiset{x};
      forall k | 0 <= k < |r| ensures le(s[0], r[k]) {
        assert r[k] in multiset(r);
        if r[k] != x {
          assert r[k] in multiset(s[1..]);
          assert r[k] in s[1..];
        }
      }
    }
  }

  lemma {:induction false} SortSorted<T(!new)>(s: seq<T>, le: (T, T) -> bool)
    requires StronglyConnected(le) && Transitive(le)
    ensures SortedBy(Sort(s, le), le)
  {
    if s != [] {
      SortSorted(s[1..], le);
      InsertSorted(s[0], Sort(s[1..], le), le);
    }
  }

  lemma SortedTail<T>(s: seq<T>, le: (T, T) -> bool)
    requires s != [] && SortedBy(s, le)
    ensures SortedBy(s[1..], le)
  {
    forall i, j | 0 <= i < j < |s| - 1 ensures le(s[1..][i], s[1..][j]) {
      assert s[1..][i] == s[i + 1] && s[1..][j] == s[j + 1];
    }
  }

  lemma SortedPermutationsSameHead<T>(s: seq<T>, t: seq<T>, le: (T, T) -> bool)
    requires s != [] && multiset(s) == multiset(t)
    requires SortedBy(s, le) && SortedBy(t, le)
    requires forall a, b :: a in s && b in s && le(a, b) && le(b, a) ==> a == b
    ensures t != [] && s[0] == t[0]
    ensures multiset(s[1..]) == multiset(t[1..])
  {
    assert s[0] in multiset(t);
    assert t[0] in multiset(s);
    assert s[0] == t[0] by {
      var j :| 0 <= j < |s| && s[j] == t[0];
      var k :| 0 <= k < |t| && t[k] == s[0];
      assert j == 0 || le(s[0], t[0]);
      assert k == 0 || le(t[0], s[0]);
    }
    assert s == [s[0]] + s[1..] && t == [t[0]] + t[1..];
    assert multiset(s[1..]) == multiset(s) - multiset{s[0]};
    assert multiset(t[1..]) == multiset(t) - multiset{t[0]};
  }

  /**
   * Two arrays sorted by `le` with the same elements are equal when `le`
   * never relates two distinct elements both ways: the sorted order of such
   * data does not depend on which sort algorithm produced it.
   */
  lemma {:induction false} SortedPermutationsEqual<T>(s: seq<T>, t: seq<T>, le: (T, T) -> bool)
    requires multiset(s) == multiset(t)
    requires SortedBy(s, le) && SortedBy(t, le)
    requires forall a, b :: a in s && b in s && le(a, b) && le(b, a) ==> a == b
    ensures s == t
  {
    if s != [] {
      SortedPermutationsSameHead(s, t, le);
      SortedTail(s, le);
      SortedTail(t, le);
      forall a, b | a in s[1..] && b in s[1..] && le(a, b) && le(b, a) ensures a == b {
        assert a in s && b in s;
      }
      SortedPermutationsEqual(s[1..], t[1..], le);
      assert s == [s[0]] + s[1..] && t == [t[0]] + t[1..];
    } else {
      assert |t| == |multiset(t)| == 0;
    }
  }

  // ---------------------------------------------------------------------------
  // Distinct keys survive a permutation
  // ---------------------------------------------------------------------------

  predicate DistinctKeys<T, K(==)>(s: seq<T>, key: T -> K)
  {
    forall i, j :: 0 <= i < j < |s| ==> key(s[i]) != key(s[j])
  }

  lemma {:induction false} DistinctCount<T>(s: seq<T>, x: T)
    requires forall i, j :: 0 <= i < j < |s| ==> s[i] != s[j]
    ensures multiset(s)[x] <= 1
  {
    if s != [] {
      var init := s[..|s| - 1];
      DistinctCount(init, x);
      assert s == init + [s[|s| - 1]];
      assert s[|s| - 1] !in init;
    }
  }

  lemma RepeatCount<T>(s: seq<T>, i: int, j: int)
    requires 0 <= i < j < |s|
    ensures s[i] == s[j] ==> multiset(s)[s[j]] >= 2
  {
    assert s == s[..j] + [s[j]] + s[j + 1..];
    assert s[i] in s[..j];
  }

  /** Reordering an array whose elements have distinct keys keeps the keys distinct. */
  lemma DistinctKeysPermutation<T, K>(s: seq<T>, t: seq<T>, key: T -> K)
    requires multiset(s) == multiset(t)
    requires DistinctKeys(s, key)
    ensures DistinctKeys(t, key)
  {
    forall i, j | 0 <= i < j < |t| ensures key(t[i]) != key(t[j]) {
      assert t[i] in multiset(s) && t[j] in multiset(s);
      var a :| 0 <= a < |s| && s[a] == t[i];
      var b :| 0 <= b < |s| && s[b] == t[j];
      DistinctCount(s, t[j]);
      RepeatCount(t, i, j);
      assert key(s[a]) != key(s[b]) || a == b;
    }
  }

  // ---------------------------------------------------------------------------
  // Filter keeps its elements in their original order
  // ---------------------------------------------------------------------------

  /** The positions in `s` of the elements `Filter(s, p)` keeps. */
  function FilterIndices<T>(s: seq<T>, p: T -> bool): seq<nat>
  {
    if s == [] then [] else FilterIndices(s[..|s| - 1], p) + (if p(s[|s| - 1]) then [|s| - 1] else [])
  }

  /**
   * The filter result lists, in increasing order of position, exactly the
   * elements of `s` that satisfy `p`.
   */
  lemma {:induction false} FilterIsOrderedSelection<T>(s: seq<T>, p: T -> bool)
    ensures |FilterIndices(s, p)| == |Filter(s, p)|
    ensures forall k :: 0 <= k < |FilterIndices(s, p)| ==>
      FilterIndices(s, p)[k] < |s| && Filter(s, p)[k] == s[FilterIndices(s, p)[k]]
    ensures forall k, k' :: 0 <= k < k' < |FilterIndices(s, p)| ==> FilterIndices(s, p)[k] < FilterIndices(s, p)[k']
    ensures forall i :: 0 <= i < |s| && p(s[i]) ==> i in FilterIndices(s, p)
  {
    if s != [] {
      var init := s[..|s| - 1];
      FilterIsOrderedSelection(init, p);
      forall k | 0 <= k < |FilterIndices(init, p)| ensures FilterIndices(init, p)[k] < |init| && s[FilterIndices(init, p)[k]] == init[FilterIndices(init, p)[k]] {
      }
    }
  }
}
