/** frontend/src/pages/ratings/MyRatings.jsx: the caller's own ratings, searched by store
    name or address, narrowed to one star value and sorted (`filterAndSortRatings`); the
    list after an edit or a removal; and the summary above the list (`getRatingStats`). */
module MyRatings {
  import opened Common
  import opened Lists
  import opened JsValues
  import opened ClientRatings
  import StoreModel
  import Guards

  /** `r.store_name?.toLowerCase().includes(term) || r.store_address?.toLowerCase().includes(term)`
      for a lower-cased `term`. */
  predicate MatchesTerm(r: RatingEntry, term: string) {
    || (r.storeName.Some? && Contains(Lower(r.storeName.value), term))
    || (r.storeAddress.Some? && Contains(Lower(r.storeAddress.value), term))
  }

  /** `r.rating === parseInt(ratingFilter)`: a filter that reads as NaN matches nothing. */
  predicate HasStars(r: RatingEntry, ratingFilter: string) {
    ParseIntAuto(ratingFilter) == Some(r.rating)
  }

  /** A rating stays in the list: it matches the search term, if there is one, and the star
      filter, unless that is `"all"`. */
  predicate Kept(r: RatingEntry, searchTerm: string, ratingFilter: string) {
    && (searchTerm == "" || MatchesTerm(r, Lower(searchTerm)))
    && (ratingFilter == "all" || HasStars(r, ratingFilter))
  }

  /** The comparator of `filtered.sort` as "may stand before": its value is at most 0.
      `localeCompare` is taken as code-point order; an unknown `sortBy` compares all equal. */
  function Order(sortBy: string): (RatingEntry, RatingEntry) -> bool {
    (a: RatingEntry, b: RatingEntry) =>
      if sortBy == "newest" then b.createdAt - a.createdAt <= 0
      else if sortBy == "oldest" then a.createdAt - b.createdAt <= 0
      else if sortBy == "highest" then b.rating - a.rating <= 0
      else if sortBy == "lowest" then a.rating - b.rating <= 0
      else if sortBy == "store_name" then StoreModel.TextLe(a.storeName.GetOr(""), b.storeName.GetOr(""))
      else true
  }

  /** Every choice of `sortBy` orders any two ratings one way or the other. */
  lemma OrderTotal(sortBy: string)
    ensures Total(Order(sortBy))
  {
    forall a: RatingEntry, b: RatingEntry ensures Order(sortBy)(a, b) || Order(sortBy)(b, a) {
      StoreModel.TextLeTotal(a.storeName.GetOr(""), b.storeName.GetOr(""));
    }
  }

  /** The first narrowing: by the lower-cased search term, if there is one. */
  function BySearch(ratings: seq<RatingEntry>, searchTerm: string): seq<RatingEntry> {
    if searchTerm == "" then ratings
    else
      var term := Lower(searchTerm);
      Filter(ratings, (r: RatingEntry) => MatchesTerm(r, term))
  }

  /** The second narrowing: by the star value, unless the filter is `"all"`. */
  function ByStars(ratings: seq<RatingEntry>, ratingFilter: string): seq<RatingEntry> {
    if ratingFilter == "all" then ratings
    else Filter(ratings, (r: RatingEntry) => HasStars(r, ratingFilter))
  }

  /** `filterAndSortRatings`: the copy is narrowed by the search term, then by the star
      filter, then sorted (stably), so the result is a permutation of the ratings
      `Kept` selects, in the chosen order. */
  method FilterAndSortRatings(ratings: seq<RatingEntry>, searchTerm: string, ratingFilter: string, sortBy: string)
    returns (filtered: seq<RatingEntry>)
    ensures filtered == SortBy(Filter(ratings, (r: RatingEntry) => Kept(r, searchTerm, ratingFilter)), Order(sortBy))
    ensures multiset(filtered) == multiset(Filter(ratings, (r: RatingEntry) => Kept(r, searchTerm, ratingFilter)))
    ensures SortedBy(filtered, Order(sortBy))
  {
    filtered := ratings;
    if searchTerm != "" {
      filtered := BySearch(filtered, searchTerm);
    }
    if ratingFilter != "all" {
      filtered := ByStars(filtered, ratingFilter);
    }
    Narrowings(ratings, searchTerm, ratingFilter);
    OrderTotal(sortBy);
    SortBySorted(filtered, Order(sortBy));
    filtered := SortBy(filtered, Order(sortBy));
  }

  /** The two narrowings in turn keep exactly the ratings `Kept` selects, in their order. */
  lemma Narrowings(ratings: seq<RatingEntry>, searchTerm: string, ratingFilter: string)
    ensures ByStars(BySearch(ratings, searchTerm), ratingFilter)
         == Filter(ratings, (r: RatingEntry) => Kept(r, searchTerm, ratingFilter))
  {
    var p1 := (r: RatingEntry) => searchTerm == "" || MatchesTerm(r, Lower(searchTerm));
    var p2 := (r: RatingEntry) => ratingFilter == "all" || HasStars(r, ratingFilter);
    SearchStage(ratings, searchTerm, p1);
    StarStage(BySearch(ratings, searchTerm), ratingFilter, p2);
    FilterFilter(ratings, p1, p2, (r: RatingEntry) => Kept(r, searchTerm, ratingFilter));
  }

  lemma SearchStage(ratings: seq<RatingEntry>, searchTerm: string, p: RatingEntry -> bool)
    requires forall r :: p(r) == (searchTerm == "" || MatchesTerm(r, Lower(searchTerm)))
    ensures BySearch(ratings, searchTerm) == Filter(ratings, p)
  {
    if searchTerm == "" {
      FilterAll(ratings, p);
    } else {
      var term := Lower(searchTerm);
      FilterSame(ratings, (r: RatingEntry) => MatchesTerm(r, term), p);
    }
  }

  lemma StarStage(ratings: seq<RatingEntry>, ratingFilter: string, p: RatingEntry -> bool)
    requires forall r :: p(r) == (ratingFilter == "all" || HasStars(r, ratingFilter))
    ensures ByStars(ratings, ratingFilter) == Filter(ratings, p)
  {
    if ratingFilter == "all" {
      FilterAll(ratings, p);
    } else {
      FilterSame(ratings, (r: RatingEntry) => HasStars(r, ratingFilter), p);
    }
  }

  /** With no search term and the filter `all`, the list is a permutation of all the ratings. */
  lemma NoFilterKeepsAll(ratings: seq<RatingEntry>, sortBy: string)
    ensures multiset(SortBy(Filter(ratings, r => Kept(r, "", "all")), Order(sortBy))) == multiset(ratings)
  {
    FilterAll(ratings, r => Kept(r, "", "all"));
  }

  /** A search term keeps exactly the ratings whose store name or address contains it, in
      lower case; a star filter keeps exactly the ratings with that value. */
  lemma KeptCorrect(r: RatingEntry, searchTerm: string, stars: nat)
    ensures searchTerm != "" ==> (Kept(r, searchTerm, "all") <==>
      || (r.storeName.Some? && exists i :: OccursAt(Lower(searchTerm), Lower(r.storeName.value), i))
      || (r.storeAddress.Some? && exists i :: OccursAt(Lower(searchTerm), Lower(r.storeAddress.value), i)))
    ensures Kept(r, "", NatToString(stars)) <==> r.rating == stars
  {
    StarsKept(r, stars);
  }

  /** A star filter written in decimal keeps exactly the ratings with that many stars. */
  lemma StarsKept(r: RatingEntry, stars: nat)
    ensures Kept(r, "", NatToString(stars)) <==> r.rating == stars
  {
    var f := NatToString(stars);
    assert f != "all" by {
      assert IsDigit(f[0]);
    }
    assert ParseIntAuto(f) == Some(stars) by {
      Guards.DecimalParses(stars);
    }
  }

  /** Each order the page offers is the one it names. */
  lemma OrdersNamed(a: RatingEntry, b: RatingEntry)
    ensures Order("newest")(a, b) <==> a.createdAt >= b.createdAt
    ensures Order("oldest")(a, b) <==> a.createdAt <= b.createdAt
    ensures Order("highest")(a, b) <==> a.rating >= b.rating
    ensures Order("lowest")(a, b) <==> a.rating <= b.rating
    ensures Order("store_name")(a, b) <==> StoreModel.TextLe(a.storeName.GetOr(""), b.storeName.GetOr(""))
  {
  }

  /* ------------------------------------------------------ edit and removal */

  /** `ratings.find(r => r.id === ratingId)` */
  function Find(ratings: seq<RatingEntry>, ratingId: int): (r: Option<RatingEntry>)
    ensures r.Some? <==> exists i :: 0 <= i < |ratings| && ratings[i].id == ratingId
    ensures r.Some? ==> r.value in ratings && r.value.id == ratingId
  {
    if ratings == [] then None
    else if ratings[0].id == ratingId then Some(ratings[0])
    else
      var r := Find(ratings[1..], ratingId);
      assert forall i :: 1 <= i < |ratings| ==> ratings[i] == ratings[1..][i - 1];
      r
  }

  /** The `(store_id, rating)` resubmitted for an edit, if the rating is in the list. */
  function UpdateRequest(ratings: seq<RatingEntry>, ratingId: int, newRating: int): Option<(int, int)> {
    match Find(ratings, ratingId)
    case None => None
    case Some(r) => Some((r.storeId, newRating))
  }

  /** `handleUpdateRating`: nothing without a rating of that id, or when the resubmission
      fails (`submitted` is false); otherwise each entry with that id gets the new value. */
  function UpdateRating(ratings: seq<RatingEntry>, ratingId: int, newRating: int, submitted: bool): seq<RatingEntry> {
    if Find(ratings, ratingId).None? || !submitted then ratings
    else
      seq(|ratings|, i requires 0 <= i < |ratings| =>
        if ratings[i].id == ratingId then ratings[i].(rating := newRating) else ratings[i])
  }

  /** An edit changes only the star value of the entries with that id, keeps every other
      entry and the order, and asks the server about the store of the first such entry. */
  lemma UpdateRatingCorrect(ratings: seq<RatingEntry>, ratingId: int, newRating: int, submitted: bool)
    ensures var r := UpdateRating(ratings, ratingId, newRating, submitted);
      var found := exists i :: 0 <= i < |ratings| && ratings[i].id == ratingId;
      && |r| == |ratings|
      && (forall i :: 0 <= i < |ratings| && ratings[i].id != ratingId ==> r[i] == ratings[i])
      && (forall i :: 0 <= i < |ratings| && ratings[i].id == ratingId ==>
            r[i] == (if submitted then ratings[i].(rating := newRating) else ratings[i]))
      && (UpdateRequest(ratings, ratingId, newRating).Some? <==> found)
      && (!found ==> r == ratings)
  {
  }

  /** `handleDeleteRating`: nothing unless the user confirms and the server deletes;
      then every entry with that id leaves the list. */
  function DeleteRating(ratings: seq<RatingEntry>, ratingId: int, confirmed: bool, deleted: bool): seq<RatingEntry> {
    if !confirmed || !deleted then ratings else Filter(ratings, (r: RatingEntry) => r.id != ratingId)
  }

  /** After a removal no entry has that id, every entry with another id stays, and nothing
      new appears; a refused confirmation or a failed request leaves the list as it was. */
  lemma DeleteRatingCorrect(ratings: seq<RatingEntry>, ratingId: int)
    ensures var r := DeleteRating(ratings, ratingId, true, true);
      && (forall i :: 0 <= i < |r| ==> r[i].id != ratingId && r[i] in ratings)
      && (forall i :: 0 <= i < |ratings| && ratings[i].id != ratingId ==> ratings[i] in r)
      && multiset(r) <= multiset(ratings)
    ensures DeleteRating(ratings, ratingId, false, true) == ratings
    ensures DeleteRating(ratings, ratingId, true, false) == ratings
  {
    FilterMultiset(ratings, (r: RatingEntry) => r.id != ratingId);
  }

  /* ------------------------------------------------------------------ stats */

  /** `getRatingStats`: the count, the average and the distribution of all the ratings. */
  method GetRatingStats(ratings: seq<RatingEntry>) returns (total: nat, average: Average, distribution: map<int, Num>)
    ensures total == |ratings|
    ensures average == AverageRating(ratings)
    ensures distribution == Tally(Values(ratings))
  {
    total := |ratings|;
    average := if total > 0 then Quotient(Sum(Values(ratings)), total) else Zero;
    distribution := Distribution(ratings);
  }

  /** For stars in 1..5 the distribution's five buckets add up to the total, and the average
      of an empty list is 0. */
  lemma StatsAgree(ratings: seq<RatingEntry>)
    requires forall i :: 0 <= i < |ratings| ==> 1 <= ratings[i].rating <= 5
    ensures var d := Tally(Values(ratings));
      && d.Keys == {1, 2, 3, 4, 5}
      && d[1].Int? && d[2].Int? && d[3].Int? && d[4].Int? && d[5].Int?
      && d[1].v + d[2].v + d[3].v + d[4].v + d[5].v == |ratings|
    ensures ratings == [] ==> AverageRating(ratings) == Zero
  {
    TallySums(Values(ratings));
  }
}
