/** The ratings as the rating pages receive them, and the two summaries both
    frontend/src/pages/ratings/MyRatings.jsx and
    frontend/src/pages/dashboard/StoreOwnerDashboard.jsx compute the same way: the star
    distribution (a `{5: 0, ..., 1: 0}` object whose entry `distribution[r.rating]` is
    incremented per rating) and the average (0 for no ratings, else sum over count). */
module ClientRatings {
  import opened Common
  import opened JsValues

  /** One rating of the list: its id, store, star value, store name and address (joined
      in by the server; `null` reads as `None`) and its creation time. */
  datatype RatingEntry = RatingEntry(id: int, storeId: int, rating: int, storeName: Option<string>,
                                     storeAddress: Option<string>, createdAt: int)

  function Values(ratings: seq<RatingEntry>): (vs: seq<int>)
    ensures |vs| == |ratings| && forall i :: 0 <= i < |ratings| ==> vs[i] == ratings[i].rating
  {
    seq(|ratings|, i requires 0 <= i < |ratings| => ratings[i].rating)
  }

  /* ------------------------------------------------------------ distribution */

  /** `{ 5: 0, 4: 0, 3: 0, 2: 0, 1: 0 }` */
  const Buckets: map<int, Num> := map[5 := Int(0), 4 := Int(0), 3 := Int(0), 2 := Int(0), 1 := Int(0)]

  /** `n++` on a JavaScript number. */
  function Increment(n: Num): Num {
    match n
    case Int(v) => Int(v + 1)
    case Frac(f) => Frac(f + 1)
    case Inf(neg) => Inf(neg)
    case NaN => NaN
  }

  /** `d[v]++`: a key not yet present reads `undefined`, which increments to NaN. */
  function Bump(d: map<int, Num>, v: int): map<int, Num> {
    d[v := Increment(if v in d then d[v] else NaN)]
  }

  /** The object after the `forEach` has visited `values` in order. */
  function Tally(values: seq<int>): map<int, Num>
    decreases |values|
  {
    if values == [] then Buckets else Bump(Tally(values[..|values| - 1]), values[|values| - 1])
  }

  /** The `forEach` loop. */
  method Distribution(ratings: seq<RatingEntry>) returns (dist: map<int, Num>)
    ensures dist == Tally(Values(ratings))
  {
    ghost var vs := Values(ratings);
    dist := Buckets;
    for i := 0 to |ratings|
      invariant dist == Tally(vs[..i])
    {
      assert vs[..i + 1][..i] == vs[..i];
      dist := Bump(dist, ratings[i].rating);
    }
    assert vs[..|ratings|] == vs;
  }

  /** The keys are 1..5 and every value that occurs; each of 1..5 counts its occurrences, and
      a value outside 1..5 (which the ratings table refuses) holds NaN. */
  lemma {:induction false} TallyCorrect(values: seq<int>)
    ensures var d := Tally(values);
      && (forall k :: k in d <==> (1 <= k <= 5 || k in values))
      && (forall k :: 1 <= k <= 5 ==> d[k] == Int(Occurrences(values, k)))
      && (forall k :: k in d && !(1 <= k <= 5) ==> d[k] == NaN)
    decreases |values|
  {
    if values != [] {
      var init, last := values[..|values| - 1], values[|values| - 1];
      TallyCorrect(init);
      assert values == init + [last];
      forall k ensures Occurrences(values, k) == Occurrences(init, k) + (if last == k then 1 else 0) {
        OccurrencesAppend(init, [last], k);
        assert [last][1..] == [];
      }
    }
  }

  /** For stars in 1..5 the five buckets add up to the number of ratings. */
  lemma TallySums(values: seq<int>)
    requires forall i :: 0 <= i < |values| ==> 1 <= values[i] <= 5
    ensures var d := Tally(values);
      && d.Keys == {1, 2, 3, 4, 5}
      && d[1].Int? && d[2].Int? && d[3].Int? && d[4].Int? && d[5].Int?
      && d[1].v + d[2].v + d[3].v + d[4].v + d[5].v == |values|
  {
    TallyCorrect(values);
    OccurrencesPartition(values);
  }

  /* ----------------------------------------------------------------- average */

  /** The average as the pages compute it before `toFixed(1)` formats it: the literal 0 for
      no ratings, otherwise the quotient of the sum by the count. */
  datatype Average = Zero | Quotient(sum: int, count: nat)

  /** `ratings.length === 0 ? 0 : ratings.reduce((s, r) => s + r.rating, 0) / ratings.length` */
  function AverageRating(ratings: seq<RatingEntry>): Average {
    if |ratings| == 0 then Zero else Quotient(Sum(Values(ratings)), |ratings|)
  }

  /** No ratings give 0; otherwise the quotient is over all ratings and, for stars in 1..5,
      lies between 1 and 5. */
  lemma AverageCorrect(ratings: seq<RatingEntry>)
    ensures var a := AverageRating(ratings);
      && (a == Zero <==> ratings == [])
      && (a.Quotient? ==> a.count == |ratings| > 0 && a.sum == Sum(Values(ratings)))
    ensures (forall i :: 0 <= i < |ratings| ==> 1 <= ratings[i].rating <= 5) && ratings != [] ==>
      var a := AverageRating(ratings);
      a.count <= a.sum <= 5 * a.count
  {
    if (forall i :: 0 <= i < |ratings| ==> 1 <= ratings[i].rating <= 5) && ratings != [] {
      SumBounds(Values(ratings), 1, 5);
    }
  }
}
