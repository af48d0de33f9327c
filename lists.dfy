/** Generic list operations shared by the queries and the pages: `Array.prototype.filter`,
    and a stable sort under a caller-given order (the model of `ORDER BY` and of
    `Array.prototype.sort` with a comparator). */
module Lists {

  function Filter<T>(s: seq<T>, p: T -> bool): (r: seq<T>)
    ensures |r| <= |s|
    ensures forall i :: 0 <= i < |r| ==> r[i] in s && p(r[i])
    ensures forall i :: 0 <= i < |s| && p(s[i]) ==> s[i] in r
  {
    if s == [] then [] else (if p(s[0]) then [s[0]] else []) + Filter(s[1..], p)
  }

  /** The position in the filtered list of an element that passes. */
  lemma FilterKeeps<T>(s: seq<T>, p: T -> bool, j: nat)
    requires j < |s| && p(s[j])
    ensures exists k :: 0 <= k < |Filter(s, p)| && Filter(s, p)[k] == s[j]
  {
    assert s[j] in Filter(s, p);
  }

  /** The first element kept is the first element of `s` that passes. */
  lemma {:induction false} FilterFirst<T>(s: seq<T>, p: T -> bool)
    requires Filter(s, p) != []
    ensures exists j :: 0 <= j < |s| && s[j] == Filter(s, p)[0] && p(s[j]) && forall k :: 0 <= k < j ==> !p(s[k])
  {
    if p(s[0]) {
      assert Filter(s, p)[0] == s[0];
    } else {
      assert Filter(s, p) == Filter(s[1..], p);
      FilterFirst(s[1..], p);
      var j :| 0 <= j < |s[1..]| && s[1..][j] == Filter(s[1..], p)[0] && p(s[1..][j]) && forall k :: 0 <= k < j ==> !p(s[1..][k]);
      assert forall k :: 1 <= k < j + 1 ==> s[k] == s[1..][k - 1];
      assert s[j + 1] == Filter(s, p)[0];
    }
  }

  /** A filter that every element passes keeps the whole list, in its order. */
  lemma {:induction false} FilterAll<T>(s: seq<T>, p: T -> bool)
    requires forall i :: 0 <= i < |s| ==> p(s[i])
    ensures Filter(s, p) == s
  {
    if s != [] {
      FilterAll(s[1..], p);
      assert s == [s[0]] + s[1..];
    }
  }

  lemma {:induction false} FilterMultiset<T>(s: seq<T>, p: T -> bool)
    ensures multiset(Filter(s, p)) <= multiset(s)
  {
    if s != [] {
      FilterMultiset(s[1..], p);
      var head := if p(s[0]) then [s[0]] else [];
      assert Filter(s, p) == head + Filter(s[1..], p);
      assert multiset(Filter(s, p)) == multiset(head) + multiset(Filter(s[1..], p));
      assert s == [s[0]] + s[1..];
      assert multiset(s) == multiset([s[0]]) + multiset(s[1..]);
    }
  }

  /** Filtering twice is filtering once by the conjunction `both`. */
  lemma {:induction false} FilterFilter<T>(s: seq<T>, p: T -> bool, q: T -> bool, both: T -> bool)
    requires forall x :: both(x) == (p(x) && q(x))
    ensures Filter(Filter(s, p), q) == Filter(s, both)
  {
    if s != [] {
      FilterFilter(s[1..], p, q, both);
      var head := if p(s[0]) then [s[0]] else [];
      assert Filter(s, p) == head + Filter(s[1..], p);
      FilterAppend(head, Filter(s[1..], p), q);
    }
  }

  /** Filters by two tests that agree everywhere give the same list. */
  lemma {:induction false} FilterSame<T>(s: seq<T>, p: T -> bool, q: T -> bool)
    requires forall x :: p(x) == q(x)
    ensures Filter(s, p) == Filter(s, q)
  {
    if s != [] { FilterSame(s[1..], p, q); }
  }

  lemma {:induction false} FilterAppend<T>(a: seq<T>, b: seq<T>, p: T -> bool)
    ensures Filter(a + b, p) == Filter(a, p) + Filter(b, p)
  {
    if a == [] {
      assert a + b == b;
    } else {
      assert (a + b)[1..] == a[1..] + b;
      FilterAppend(a[1..], b, p);
    }
  }

  lemma FilterSingle<T>(x: T, p: T -> bool)
    ensures Filter([x], p) == if p(x) then [x] else []
  {
    assert [x][1..] == [];
  }

  /** Filtering out one element that fails the test, between two runs that pass it, leaves
      the two runs joined. */
  lemma {:induction false} FilterDropOne<T>(a: seq<T>, x: T, b: seq<T>, p: T -> bool)
    requires forall i :: 0 <= i < |a| ==> p(a[i])
    requires forall i :: 0 <= i < |b| ==> p(b[i])
    requires !p(x)
    ensures Filter(a + [x] + b, p) == a + b
  {
    FilterSingle(x, p);
    calc {
      Filter(a + [x] + b, p);
      { FilterAppend(a + [x], b, p); }
      Filter(a + [x], p) + Filter(b, p);
      { FilterAppend(a, [x], p); }
      Filter(a, p) + Filter([x], p) + Filter(b, p);
      Filter(a, p) + Filter(b, p);
      { FilterAll(a, p); FilterAll(b, p); }
      a + b;
    }
  }

  /** A relation that holds between every earlier and later element still holds after
      filtering: filtering keeps the relative order (used for uniqueness constraints). */
  lemma {:induction false} FilterPairwise<T>(s: seq<T>, p: T -> bool, rel: (T, T) -> bool)
    requires forall i, j :: 0 <= i < j < |s| ==> rel(s[i], s[j])
    ensures forall i, j :: 0 <= i < j < |Filter(s, p)| ==> rel(Filter(s, p)[i], Filter(s, p)[j])
  {
    if s != [] {
      var tail := s[1..];
      assert forall i, j :: 0 <= i < j < |tail| ==> rel(tail[i], tail[j]) by {
        forall i, j | 0 <= i < j < |tail| ensures rel(tail[i], tail[j]) {
          assert tail[i] == s[i + 1] && tail[j] == s[j + 1];
        }
      }
      FilterPairwise(tail, p, rel);
      var rest := Filter(tail, p);
      if p(s[0]) {
        assert Filter(s, p) == [s[0]] + rest;
        assert forall k :: 0 <= k < |tail| ==> rel(s[0], tail[k]) by {
          forall k | 0 <= k < |tail| ensures rel(s[0], tail[k]) { assert tail[k] == s[k + 1]; }
        }
        HeadBeforeFiltered(s[0], tail, p, rel);
        PairwiseCons(s[0], rest, rel);
      } else {
        assert Filter(s, p) == rest;
      }
    }
  }

  /** What an element relates to in a list, it relates to in the list filtered. */
  lemma HeadBeforeFiltered<T>(a: T, s: seq<T>, p: T -> bool, rel: (T, T) -> bool)
    requires forall k :: 0 <= k < |s| ==> rel(a, s[k])
    ensures forall k :: 0 <= k < |Filter(s, p)| ==> rel(a, Filter(s, p)[k])
  {
    var r := Filter(s, p);
    forall k | 0 <= k < |r| ensures rel(a, r[k]) {
      assert r[k] in s;
      var m :| 0 <= m < |s| && s[m] == r[k];
    }
  }

  /** An element related to everything after it, in front of a pairwise related list. */
  lemma PairwiseCons<T>(a: T, s: seq<T>, rel: (T, T) -> bool)
    requires forall k :: 0 <= k < |s| ==> rel(a, s[k])
    requires forall i, j :: 0 <= i < j < |s| ==> rel(s[i], s[j])
    ensures forall i, j :: 0 <= i < j < |[a] + s| ==> rel(([a] + s)[i], ([a] + s)[j])
  {
    var r := [a] + s;
    forall i, j | 0 <= i < j < |r| ensures rel(r[i], r[j]) {
      assert r[j] == s[j - 1];
      if i > 0 { assert r[i] == s[i - 1]; }
    }
  }

  /** `le(a, b)`: `a` may stand before `b`. */
  predicate SortedBy<T>(s: seq<T>, le: (T, T) -> bool) {
    forall i :: 0 <= i < |s| - 1 ==> le(s[i], s[i + 1])
  }

  ghost predicate Total<T(!new)>(le: (T, T) -> bool) {
    forall a, b :: le(a, b) || le(b, a)
  }

  /** Put `x` before the first element it may precede. */
  function Insert<T>(x: T, s: seq<T>, le: (T, T) -> bool): (r: seq<T>)
    ensures multiset(r) == multiset(s) + multiset{x}
    ensures |r| == |s| + 1
  {
    if s == [] then [x]
    else if le(x, s[0]) then [x] + s
    else
      var r := [s[0]] + Insert(x, s[1..], le);
      assert s == [s[0]] + s[1..];
      r
  }

  /** Stable insertion sort: an element is placed before the later elements it may precede. */
  function SortBy<T>(s: seq<T>, le: (T, T) -> bool): (r: seq<T>)
    ensures multiset(r) == multiset(s)
  {
    if s == [] then []
    else
      assert s == [s[0]] + s[1..];
      Insert(s[0], SortBy(s[1..], le), le)
  }

  /** Sorting loses no element. */
  lemma SortByKeeps<T>(s: seq<T>, le: (T, T) -> bool, k: nat)
    requires k < |s|
    ensures exists i :: 0 <= i < |SortBy(s, le)| && SortBy(s, le)[i] == s[k]
  {
    assert s[k] in multiset(SortBy(s, le));
  }

  lemma {:induction false} InsertSorted<T(!new)>(x: T, s: seq<T>, le: (T, T) -> bool)
    requires Total(le) && SortedBy(s, le)
    ensures SortedBy(Insert(x, s, le), le)
    ensures s != [] ==> Insert(x, s, le)[0] == x || Insert(x, s, le)[0] == s[0]
  {
    if s != [] && !le(x, s[0]) {
      InsertSorted(x, s[1..], le);
      var r := Insert(x, s[1..], le);
      assert le(s[0], x);
      assert |s| > 1 ==> le(s[0], s[1]);
      assert le(s[0], r[0]);
    }
  }

  /** Under a total order the result is sorted; with `SortBy`'s ensures it is a sorted permutation. */
  lemma {:induction false} SortBySorted<T(!new)>(s: seq<T>, le: (T, T) -> bool)
    requires Total(le)
    ensures SortedBy(SortBy(s, le), le)
    ensures |SortBy(s, le)| == |s|
  {
    if s != [] {
      SortBySorted(s[1..], le);
      InsertSorted(s[0], SortBy(s[1..], le), le);
    }
  }

  /** An order under which everything may precede everything (a comparator that always
      answers 0) leaves the list as it is. */
  lemma {:induction false} SortByIndifferent<T>(s: seq<T>, le: (T, T) -> bool)
    requires forall a, b :: le(a, b)
    ensures SortBy(s, le) == s
  {
    if s != [] {
      SortByIndifferent(s[1..], le);
      assert s == [s[0]] + s[1..];
    }
  }
}
