/** frontend/src/pages/dashboard/StoreOwnerDashboard.jsx: the figures the store owner's
    dashboard derives from the ratings of their store. The distribution and the average are
    the ones in `ClientRatings`; here are the recent activity (the five newest ratings) and
    the "needs attention" count. */
module OwnerDashboard {
  import opened Common
  import opened Lists
  import opened ClientRatings

  /** The comparator `new Date(b.created_at) - new Date(a.created_at)` as "may stand
      before": newer first. */
  predicate Newer(a: RatingEntry, b: RatingEntry) {
    b.createdAt - a.createdAt <= 0
  }

  /** `[...ratings].sort(newer first).slice(0, 5)`: the copy is sorted, the list itself is
      left as it is. */
  function RecentActivity(ratings: seq<RatingEntry>): seq<RatingEntry> {
    var sorted := SortBy(ratings, Newer);
    SortBySorted(ratings, Newer);
    sorted[..if |sorted| < 5 then |sorted| else 5]
  }

  /** In a list sorted newer-first, each entry is at least as new as every later one. */
  lemma {:induction false} NewerAll(s: seq<RatingEntry>, i: nat, j: nat)
    requires SortedBy(s, Newer) && i <= j < |s|
    ensures s[i].createdAt >= s[j].createdAt
    decreases j - i
  {
    if i < j {
      NewerAll(s, i + 1, j);
    }
  }

  /** At most five ratings (all of them when there are fewer), each drawn from the list,
      newest first; and no rating left out is newer than any shown. */
  lemma RecentActivityCorrect(ratings: seq<RatingEntry>)
    ensures var r := RecentActivity(ratings);
      && |r| == (if |ratings| < 5 then |ratings| else 5)
      && multiset(r) <= multiset(ratings)
      && (forall i :: 0 <= i < |r| - 1 ==> r[i].createdAt >= r[i + 1].createdAt)
      && (forall x, i :: x in multiset(ratings) - multiset(r) && 0 <= i < |r| ==> r[i].createdAt >= x.createdAt)
  {
    var sorted := SortBy(ratings, Newer);
    SortBySorted(ratings, Newer);
    var n := if |ratings| < 5 then |ratings| else 5;
    assert RecentActivity(ratings) == sorted[..n];
    PrefixNewest(sorted, n);
  }

  /** A prefix of a newer-first list: sorted, drawn from the list, and no newer than any
      entry it leaves behind. */
  lemma PrefixNewest(sorted: seq<RatingEntry>, n: nat)
    requires SortedBy(sorted, Newer) && n <= |sorted|
    ensures var r := sorted[..n];
      && multiset(r) <= multiset(sorted)
      && (forall i :: 0 <= i < |r| - 1 ==> r[i].createdAt >= r[i + 1].createdAt)
      && (forall x, i :: x in multiset(sorted) - multiset(r) && 0 <= i < |r| ==> r[i].createdAt >= x.createdAt)
  {
    var r, rest := sorted[..n], sorted[n..];
    assert sorted == r + rest;
    assert multiset(sorted) == multiset(r) + multiset(rest);
    forall x, i | x in multiset(sorted) - multiset(r) && 0 <= i < |r|
      ensures r[i].createdAt >= x.createdAt
    {
      assert x in rest;
      var k :| 0 <= k < |rest| && rest[k] == x;
      NewerAll(sorted, i, n + k);
    }
  }

  /** `ratingDistribution[1] + ratingDistribution[2]`: the one- and two-star ratings. Both
      buckets always exist, so the sum is a plain count. */
  function NeedsAttention(ratings: seq<RatingEntry>): (n: nat)
    ensures n == |Filter(ratings, (r: RatingEntry) => r.rating == 1 || r.rating == 2)|
  {
    var d := Tally(Values(ratings));
    TallyCorrect(Values(ratings));
    LowCount(ratings);
    d[1].v + d[2].v
  }

  /** The one- and two-star ratings are the occurrences of 1 and of 2 among the values. */
  lemma {:induction false} LowCount(ratings: seq<RatingEntry>)
    ensures |Filter(ratings, (r: RatingEntry) => r.rating == 1 || r.rating == 2)|
         == Occurrences(Values(ratings), 1) + Occurrences(Values(ratings), 2)
  {
    if ratings != [] {
      LowCount(ratings[1..]);
      assert Values(ratings)[1..] == Values(ratings[1..]);
    }
  }
}
