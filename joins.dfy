/** The inner joins of the ratings read queries (`JOIN users` and `JOIN stores`), and what
    they keep when every rating has its partner row. */
module Joins {
  import opened Lists
  import opened Schema

  /** A rating joined with the user who wrote it (`JOIN users u ON u.id = r.user_id`). */
  datatype RatingWithUser = RatingWithUser(rating: RatingRow, user: UserRow)

  /** A rating joined with the store it is about (`JOIN stores s ON s.id = r.store_id`). */
  datatype RatingWithStore = RatingWithStore(rating: RatingRow, store: StoreRow)

  /** The inner join of ratings with their users, in rating order. */
  function JoinUsers(ratings: seq<RatingRow>, users: seq<UserRow>): (r: seq<RatingWithUser>)
    ensures |r| <= |ratings|
    ensures forall i :: 0 <= i < |r| ==> r[i].rating in ratings && r[i].user in users && r[i].user.id == r[i].rating.userId
  {
    if ratings == [] then []
    else
      (match FindUser(users, ratings[0].userId)
       case Some(u) => [RatingWithUser(ratings[0], u)]
       case None => []) + JoinUsers(ratings[1..], users)
  }

  /** The inner join of ratings with their stores, in rating order. */
  function JoinStores(ratings: seq<RatingRow>, stores: seq<StoreRow>): (r: seq<RatingWithStore>)
    ensures |r| <= |ratings|
    ensures forall i :: 0 <= i < |r| ==> r[i].rating in ratings && r[i].store in stores && r[i].store.id == r[i].rating.storeId
  {
    if ratings == [] then []
    else
      (match FindStore(stores, ratings[0].storeId)
       case Some(s) => [RatingWithStore(ratings[0], s)]
       case None => []) + JoinStores(ratings[1..], stores)
  }

  /** The ratings a join result is made of, in order. */
  function UserJoinRatings(r: seq<RatingWithUser>): (xs: seq<RatingRow>)
    ensures |xs| == |r| && forall i :: 0 <= i < |r| ==> xs[i] == r[i].rating
  {
    if r == [] then [] else [r[0].rating] + UserJoinRatings(r[1..])
  }

  /** When every rating has its user, the join loses no rating and keeps the order. */
  lemma {:induction false} JoinUsersComplete(ratings: seq<RatingRow>, users: seq<UserRow>)
    requires forall i :: 0 <= i < |ratings| ==> HasUser(users, ratings[i].userId)
    ensures UserJoinRatings(JoinUsers(ratings, users)) == ratings
  {
    if ratings != [] {
      var rest := ratings[1..];
      forall i | 0 <= i < |rest| ensures HasUser(users, rest[i].userId) {
        assert rest[i] == ratings[i + 1];
      }
      JoinUsersComplete(rest, users);
      JoinUsersCons(ratings, users);
      UserJoinRatingsCons(ratings[0], FindUser(users, ratings[0].userId).value, JoinUsers(rest, users));
      assert ratings == [ratings[0]] + rest;
    }
  }

  /** Unfolding the join at a first rating whose partner exists. */
  lemma JoinUsersCons(ratings: seq<RatingRow>, users: seq<UserRow>)
    requires ratings != [] && HasUser(users, ratings[0].userId)
    ensures JoinUsers(ratings, users) == [RatingWithUser(ratings[0], FindUser(users, ratings[0].userId).value)] + JoinUsers(ratings[1..], users)
  {
  }

  lemma UserJoinRatingsCons(x: RatingRow, y: UserRow, r: seq<RatingWithUser>)
    ensures UserJoinRatings([RatingWithUser(x, y)] + r) == [x] + UserJoinRatings(r)
  {
    assert ([RatingWithUser(x, y)] + r)[1..] == r;
  }


  /** The ratings a join result is made of, in order. */
  function StoreJoinRatings(r: seq<RatingWithStore>): (xs: seq<RatingRow>)
    ensures |xs| == |r| && forall i :: 0 <= i < |r| ==> xs[i] == r[i].rating
  {
    if r == [] then [] else [r[0].rating] + StoreJoinRatings(r[1..])
  }

  /** When every rating has its store, the join loses no rating and keeps the order. */
  lemma {:induction false} JoinStoresComplete(ratings: seq<RatingRow>, stores: seq<StoreRow>)
    requires forall i :: 0 <= i < |ratings| ==> HasStore(stores, ratings[i].storeId)
    ensures StoreJoinRatings(JoinStores(ratings, stores)) == ratings
  {
    if ratings != [] {
      var rest := ratings[1..];
      forall i | 0 <= i < |rest| ensures HasStore(stores, rest[i].storeId) {
        assert rest[i] == ratings[i + 1];
      }
      JoinStoresComplete(rest, stores);
      JoinStoresCons(ratings, stores);
      StoreJoinRatingsCons(ratings[0], FindStore(stores, ratings[0].storeId).value, JoinStores(rest, stores));
      assert ratings == [ratings[0]] + rest;
    }
  }

  /** Unfolding the join at a first rating whose partner exists. */
  lemma JoinStoresCons(ratings: seq<RatingRow>, stores: seq<StoreRow>)
    requires ratings != [] && HasStore(stores, ratings[0].storeId)
    ensures JoinStores(ratings, stores) == [RatingWithStore(ratings[0], FindStore(stores, ratings[0].storeId).value)] + JoinStores(ratings[1..], stores)
  {
  }

  lemma StoreJoinRatingsCons(x: RatingRow, y: StoreRow, r: seq<RatingWithStore>)
    ensures StoreJoinRatings([RatingWithStore(x, y)] + r) == [x] + StoreJoinRatings(r)
  {
    assert ([RatingWithStore(x, y)] + r)[1..] == r;
  }


  /** The ratings that pass `p`, joined with their authors and sorted by `le`: one entry per
      such rating, in `le` order, each with its author. */
  lemma JoinedWithUsers(ratings: seq<RatingRow>, users: seq<UserRow>, p: RatingRow -> bool, le: (RatingWithUser, RatingWithUser) -> bool)
    requires Total(le) && forall i :: 0 <= i < |ratings| ==> HasUser(users, ratings[i].userId)
    ensures var r := SortBy(JoinUsers(Filter(ratings, p), users), le);
      && SortedBy(r, le)
      && |r| == |Filter(ratings, p)|
      && (forall i :: 0 <= i < |r| ==> p(r[i].rating) && r[i].rating in ratings && r[i].user.id == r[i].rating.userId)
  {
    var mine := Filter(ratings, p);
    forall i | 0 <= i < |mine| ensures HasUser(users, mine[i].userId) {
      var j :| 0 <= j < |ratings| && ratings[j] == mine[i];
    }
    var joined := JoinUsers(mine, users);
    JoinUsersComplete(mine, users);
    assert |UserJoinRatings(joined)| == |joined|;
    SortBySorted(joined, le);
    var r := SortBy(joined, le);
    forall i | 0 <= i < |r| ensures p(r[i].rating) && r[i].rating in ratings && r[i].user.id == r[i].rating.userId {
      assert r[i] in multiset(joined);
    }
  }

  /** A join that finds every partner loses no rating, and neither does the sort after it. */
  lemma JoinedUsersKeeps(ratings: seq<RatingRow>, users: seq<UserRow>, le: (RatingWithUser, RatingWithUser) -> bool, k: nat)
    requires forall i :: 0 <= i < |ratings| ==> HasUser(users, ratings[i].userId)
    requires k < |ratings|
    ensures exists i :: 0 <= i < |SortBy(JoinUsers(ratings, users), le)| && SortBy(JoinUsers(ratings, users), le)[i].rating == ratings[k]
  {
    JoinUsersComplete(ratings, users);
    var joined := JoinUsers(ratings, users);
    assert UserJoinRatings(joined)[k] == ratings[k];
    SortByKeeps(joined, le, k);
  }

  /** `x` is the rating of some entry of `r`. */
  predicate HasUserJoined(r: seq<RatingWithUser>, x: RatingRow) {
    exists i :: 0 <= i < |r| && r[i].rating == x
  }

  /** No rating that passes `p` is missing from the joined and sorted list. */
  lemma JoinedWithUsersAll(ratings: seq<RatingRow>, users: seq<UserRow>, p: RatingRow -> bool, le: (RatingWithUser, RatingWithUser) -> bool)
    requires forall i :: 0 <= i < |ratings| ==> HasUser(users, ratings[i].userId)
    ensures var r := SortBy(JoinUsers(Filter(ratings, p), users), le);
      forall j :: 0 <= j < |ratings| && p(ratings[j]) ==> exists i :: 0 <= i < |r| && r[i].rating == ratings[j]
  {
    var mine := Filter(ratings, p);
    forall i | 0 <= i < |mine| ensures HasUser(users, mine[i].userId) {
      var j :| 0 <= j < |ratings| && ratings[j] == mine[i];
    }
    var r := SortBy(JoinUsers(mine, users), le);
    forall j | 0 <= j < |ratings| && p(ratings[j]) ensures HasUserJoined(r, ratings[j]) {
      FilterKeeps(ratings, p, j);
      var k :| 0 <= k < |mine| && mine[k] == ratings[j];
      JoinedUsersKeeps(mine, users, le, k);
    }
  }

  /** The ratings that pass `p`, joined with their stores and sorted by `le`: one entry per
      such rating, in `le` order, each with its store. */
  lemma JoinedWithStores(ratings: seq<RatingRow>, stores: seq<StoreRow>, p: RatingRow -> bool, le: (RatingWithStore, RatingWithStore) -> bool)
    requires Total(le) && forall i :: 0 <= i < |ratings| ==> HasStore(stores, ratings[i].storeId)
    ensures var r := SortBy(JoinStores(Filter(ratings, p), stores), le);
      && SortedBy(r, le)
      && |r| == |Filter(ratings, p)|
      && (forall i :: 0 <= i < |r| ==> p(r[i].rating) && r[i].rating in ratings && r[i].store.id == r[i].rating.storeId)
  {
    var mine := Filter(ratings, p);
    forall i | 0 <= i < |mine| ensures HasStore(stores, mine[i].storeId) {
      var j :| 0 <= j < |ratings| && ratings[j] == mine[i];
    }
    var joined := JoinStores(mine, stores);
    JoinStoresComplete(mine, stores);
    assert |StoreJoinRatings(joined)| == |joined|;
    SortBySorted(joined, le);
    var r := SortBy(joined, le);
    forall i | 0 <= i < |r| ensures p(r[i].rating) && r[i].rating in ratings && r[i].store.id == r[i].rating.storeId {
      assert r[i] in multiset(joined);
    }
  }

  /** A join that finds every partner loses no rating, and neither does the sort after it. */
  lemma JoinedStoresKeeps(ratings: seq<RatingRow>, stores: seq<StoreRow>, le: (RatingWithStore, RatingWithStore) -> bool, k: nat)
    requires forall i :: 0 <= i < |ratings| ==> HasStore(stores, ratings[i].storeId)
    requires k < |ratings|
    ensures exists i :: 0 <= i < |SortBy(JoinStores(ratings, stores), le)| && SortBy(JoinStores(ratings, stores), le)[i].rating == ratings[k]
  {
    JoinStoresComplete(ratings, stores);
    var joined := JoinStores(ratings, stores);
    assert StoreJoinRatings(joined)[k] == ratings[k];
    SortByKeeps(joined, le, k);
  }

  /** `x` is the rating of some entry of `r`. */
  predicate HasStoreJoined(r: seq<RatingWithStore>, x: RatingRow) {
    exists i :: 0 <= i < |r| && r[i].rating == x
  }

  /** No rating that passes `p` is missing from the joined and sorted list. */
  lemma JoinedWithStoresAll(ratings: seq<RatingRow>, stores: seq<StoreRow>, p: RatingRow -> bool, le: (RatingWithStore, RatingWithStore) -> bool)
    requires forall i :: 0 <= i < |ratings| ==> HasStore(stores, ratings[i].storeId)
    ensures var r := SortBy(JoinStores(Filter(ratings, p), stores), le);
      forall j :: 0 <= j < |ratings| && p(ratings[j]) ==> exists i :: 0 <= i < |r| && r[i].rating == ratings[j]
  {
    var mine := Filter(ratings, p);
    forall i | 0 <= i < |mine| ensures HasStore(stores, mine[i].storeId) {
      var j :| 0 <= j < |ratings| && ratings[j] == mine[i];
    }
    var r := SortBy(JoinStores(mine, stores), le);
    forall j | 0 <= j < |ratings| && p(ratings[j]) ensures HasStoreJoined(r, ratings[j]) {
      FilterKeeps(ratings, p, j);
      var k :| 0 <= k < |mine| && mine[k] == ratings[j];
      JoinedStoresKeeps(mine, stores, le, k);
    }
  }
}
