/** backend/controllers/ratingController.js: submitting a rating (with its own second
    recomputation of the average), deleting one's own rating, and the two read endpoints. */
module RatingController {
  import opened Common
  import opened JsValues
  import opened Lists
  import opened Schema
  import opened Joins
  import StoreModel
  import RatingModel
  import StoreController
  import Guards

  /** The body of a successful submission: the store's new average (in hundredths) and its
      number of ratings. */
  datatype SubmitReply = SubmitReply(message: string, averageRating: int, totalRatings: nat)

  const SubmitFailed := "Failed to submit rating"
  const InternalError := "Internal server error"
  const RatingNotOwned := "Rating not found or not owned by this user"
  const StoreNotFound := "Store not found"

  /** `submitRating`: `Rating.createOrUpdate` (its upsert at `now`, its average update at
      `averagedAt`), then `ROUND(AVG(rating)::numeric, 2)` and `COUNT(*)` over the store's
      ratings, the rounded value (0 for SQL NULL) written back by a third statement whose own
      `updated_at = NOW()` is `stampedAt`, and both numbers reported. Every error becomes the
      one failure reply; what was written before the error stays written. */
  function SubmitRating(t: Tables, userId: int, storeId: int, rating: JsValue, comment: Option<string>,
                        now: int, averagedAt: int, stampedAt: int)
    : (Tables, Reply<SubmitReply>)
  {
    var (t1, r) := RatingModel.CreateOrUpdate(t, userId, storeId, rating, comment, now, averagedAt);
    if r.Err? then (t1, Failure(500, SubmitFailed))
    else
      var xs := RatingValues(t1.ratings, storeId);
      var newAverage := RoundAverage(xs).GetOr(0);
      match Numeric32(newAverage)
      case None => (t1, Failure(500, SubmitFailed))
      case Some(v) =>
        (t1.(stores := StoreModel.SetAverage(t1.stores, storeId, v, Some(stampedAt))),
         Json(SubmitReply("Rating submitted successfully", newAverage, |xs|), false))
  }

  /** Under the schema the controller's own recomputation writes back exactly the average that
      `createOrUpdate` already stored, so the tables after the request are those after
      `createOrUpdate` except that the rated store's `updated_at` is the later statement's
      time; the reply reports the rounded mean and the count of the store's ratings after the
      write, and there is at least one. */
  lemma SubmitRatingAgrees(t: Tables, userId: int, storeId: int, rating: JsValue, comment: Option<string>,
                           now: int, averagedAt: int, stampedAt: int)
    requires SchemaOk(t)
    requires RatingModel.CreateOrUpdate(t, userId, storeId, rating, comment, now, averagedAt).1.Ok?
    ensures var u := SubmitRating(t, userId, storeId, rating, comment, now, averagedAt, stampedAt).0;
      var c := RatingModel.CreateOrUpdate(t, userId, storeId, rating, comment, now, averagedAt).0;
      && u == c.(stores := u.stores)
      && |u.stores| == |c.stores|
      && (forall i :: 0 <= i < |c.stores| && c.stores[i].id == storeId ==> u.stores[i] == c.stores[i].(updatedAt := stampedAt))
      && (forall i :: 0 <= i < |c.stores| && c.stores[i].id != storeId ==> u.stores[i] == c.stores[i])
    ensures var u := SubmitRating(t, userId, storeId, rating, comment, now, averagedAt, stampedAt).0;
      var reply := SubmitRating(t, userId, storeId, rating, comment, now, averagedAt, stampedAt).1;
      && reply.Json?
      && reply.body.averageRating == StoreAverage(u.ratings, storeId)
      && reply.body.totalRatings == |RatingValues(u.ratings, storeId)| >= 1
      && 100 <= reply.body.averageRating <= 500
  {
    var t1 := RatingModel.CreateOrUpdate(t, userId, storeId, rating, comment, now, averagedAt).0;
    RatingModel.CreateOrUpdateCorrect(t, userId, storeId, rating, comment, now, averagedAt);
    RatingModel.CreateOrUpdateAverage(t, userId, storeId, rating, comment, now, averagedAt);
    var xs := RatingValues(t1.ratings, storeId);
    RatingValuesInRange(t1.ratings, storeId);
    AverageSpellingsAgree(xs);
    var k := RatingModel.PairIndex(t1.ratings, userId, storeId).value;
    assert xs != [] by { RatingValuesHas(t1.ratings, storeId, k); }
  }

  /** A store's rating values are not empty when one of its ratings is in the table. */
  lemma {:induction false} RatingValuesHas(ratings: seq<RatingRow>, storeId: int, k: nat)
    requires k < |ratings| && ratings[k].storeId == storeId
    ensures RatingValues(ratings, storeId) != []
  {
    if k > 0 {
      RatingValuesHas(ratings[1..], storeId, k - 1);
      RatingValuesAppend(if ratings[0].storeId == storeId then [ratings[0]] else [], ratings[1..], storeId);
    }
  }

  /** Every failure is the single "Failed to submit rating" reply, and under the schema it
      happens exactly when `createOrUpdate` fails, leaving every row as it was. */
  lemma SubmitRatingFailure(t: Tables, userId: int, storeId: int, rating: JsValue, comment: Option<string>,
                            now: int, averagedAt: int, stampedAt: int)
    ensures var reply := SubmitRating(t, userId, storeId, rating, comment, now, averagedAt, stampedAt).1;
      reply.Failure? ==> reply == Failure(500, SubmitFailed)
    ensures SchemaOk(t) ==>
      var (u, reply) := SubmitRating(t, userId, storeId, rating, comment, now, averagedAt, stampedAt);
      && (reply.Failure? <==> RatingModel.CreateOrUpdate(t, userId, storeId, rating, comment, now, averagedAt).1.Err?)
      && (reply.Failure? ==> u.users == t.users && u.stores == t.stores && u.ratings == t.ratings)
  {
    RatingModel.CreateOrUpdateOutcome(t, userId, storeId, rating, comment, now, averagedAt);
    if SchemaOk(t) && RatingModel.CreateOrUpdate(t, userId, storeId, rating, comment, now, averagedAt).1.Ok? {
      SubmitRatingAgrees(t, userId, storeId, rating, comment, now, averagedAt, stampedAt);
    }
  }

  /** The request against the live database, statement by statement, each at its own time. */
  method SubmitRatingOn(db: Database, userId: int, storeId: int, rating: JsValue, comment: Option<string>,
                        now: int, averagedAt: int, stampedAt: int)
    returns (reply: Reply<SubmitReply>)
    modifies db
    ensures (db.Contents(), reply) == SubmitRating(old(db.Contents()), userId, storeId, rating, comment, now, averagedAt, stampedAt)
  {
    var r := RatingModel.CreateOrUpdateRating(db, userId, storeId, rating, comment, now, averagedAt);
    if r.Err? {
      return Failure(500, SubmitFailed);
    }
    var xs := RatingValues(db.ratings, storeId);
    var newAverage := RoundAverage(xs).GetOr(0);
    var cast := Numeric32(newAverage);
    if cast.None? {
      return Failure(500, SubmitFailed);
    }
    db.stores := StoreModel.SetAverage(db.stores, storeId, cast.value, Some(stampedAt));
    reply := Json(SubmitReply("Rating submitted successfully", newAverage, |xs|), false);
  }

  /* ----------------------------------------------------------- deleteRating */

  /** `deleteRating`: the ownership check, the delete, and the average written back as
      `ROUND(COALESCE(AVG(rating), 0)::numeric, 2)` into the `NUMERIC(3,2)` column, without
      touching `updated_at`. The path id goes to PostgreSQL as text: one it cannot read as an
      `INTEGER` fails the first query and ends in the catch-all reply. */
  function DeleteRating(t: Tables, ratingId: string, userId: int): (Tables, Reply<string>) {
    match Guards.PgInteger(Str(ratingId))
    case None => (t, Failure(500, InternalError))
    case Some(id) =>
      match RatingModel.OwnedRating(t.ratings, id, userId)
      case None => (t, Failure(404, RatingNotOwned))
      case Some(row) =>
        var t1 := t.(ratings := RatingModel.WithoutOwned(t.ratings, id, userId));
        match CastAverage(RatingValues(t1.ratings, row.storeId))
        case None => (t1, Failure(500, InternalError))
        case Some(v) => (t1.(stores := StoreModel.SetAverage(t1.stores, row.storeId, v, None)),
                         Json("Rating deleted successfully", false))
  }

  /** A path id that is not an `INTEGER` gets 500 and changes nothing. Otherwise an absent
      rating and another user's rating get the same 404 reply and change nothing, and under
      the schema no other failure occurs. */
  lemma DeleteRatingNotOwned(t: Tables, ratingId: string, userId: int)
    requires SchemaOk(t)
    ensures var (u, reply) := DeleteRating(t, ratingId, userId);
      && (Guards.PgInteger(Str(ratingId)).None? ==> reply == Failure(500, InternalError) && u == t)
      && (Guards.PgInteger(Str(ratingId)).Some? ==>
            var id := Guards.PgInteger(Str(ratingId)).value;
            && ((forall i :: 0 <= i < |t.ratings| ==> t.ratings[i].id != id || t.ratings[i].userId != userId) <==>
                reply == Failure(404, RatingNotOwned))
            && (reply.Failure? ==> reply == Failure(404, RatingNotOwned) && u == t))
  {
    if Guards.PgInteger(Str(ratingId)).Some? {
      var id := Guards.PgInteger(Str(ratingId)).value;
      var owned := RatingModel.OwnedRating(t.ratings, id, userId);
      if owned.Some? {
        var t1 := t.(ratings := RatingModel.WithoutOwned(t.ratings, id, userId));
        RatingModel.WithoutOwnedKeepsSchema(t, id, userId);
        RatingValuesInRange(t1.ratings, owned.value.storeId);
        AverageSpellingsAgree(RatingValues(t1.ratings, owned.value.storeId));
      }
    }
  }

  /** Deleting one's own rating removes the row; its store's average becomes the rounded mean
      of the remaining ratings (0 when none remain) with its `updated_at` kept, every other
      store is untouched, and the schema and current averages are kept. */
  lemma DeleteRatingRemoves(t: Tables, ratingId: string, userId: int)
    requires SchemaOk(t) && Guards.PgInteger(Str(ratingId)).Some?
    requires RatingModel.OwnedRating(t.ratings, Guards.PgInteger(Str(ratingId)).value, userId).Some?
    ensures var u := DeleteRating(t, ratingId, userId).0;
      var id := Guards.PgInteger(Str(ratingId)).value;
      var storeId := RatingModel.OwnedRating(t.ratings, id, userId).value.storeId;
      && DeleteRating(t, ratingId, userId).1.Json?
      && SchemaOk(u) && u.users == t.users
      && |u.ratings| == |t.ratings| - 1
      && (forall i :: 0 <= i < |u.ratings| ==> u.ratings[i].id != id)
      && |u.stores| == |t.stores|
      && (forall i :: 0 <= i < |t.stores| && t.stores[i].id == storeId ==>
            u.stores[i] == t.stores[i].(averageRating := StoreAverage(u.ratings, storeId)))
      && (forall i :: 0 <= i < |t.stores| && t.stores[i].id != storeId ==> u.stores[i] == t.stores[i])
  {
    var id := Guards.PgInteger(Str(ratingId)).value;
    var storeId := RatingModel.OwnedRating(t.ratings, id, userId).value.storeId;
    RatingModel.WithoutOwnedKeepsSchema(t, id, userId);
    RatingModel.WithoutOwnedRemovesOne(t, id, userId);
    var t1 := t.(ratings := RatingModel.WithoutOwned(t.ratings, id, userId));
    var xs := RatingValues(t1.ratings, storeId);
    RatingValuesInRange(t1.ratings, storeId);
    AverageSpellingsAgree(xs);
    var stores := StoreModel.SetAverage(t1.stores, storeId, RoundedMean(xs), None);
    assert DeleteRating(t, ratingId, userId) == (t1.(stores := stores), Json("Rating deleted successfully", false));
    AverageKeepsStores(t1, storeId, RoundedMean(xs));
  }

  /** Writing an in-range average into one store, without touching `updated_at`, changes only
      that store's average and keeps every constraint. */
  lemma AverageKeepsStores(t: Tables, storeId: int, average: int)
    requires SchemaOk(t) && -999 <= average <= 999
    ensures var stores := StoreModel.SetAverage(t.stores, storeId, average, None);
      && SchemaOk(t.(stores := stores))
      && (forall i :: 0 <= i < |t.stores| && t.stores[i].id == storeId ==>
            stores[i] == t.stores[i].(averageRating := average))
      && (forall i :: 0 <= i < |t.stores| && t.stores[i].id != storeId ==> stores[i] == t.stores[i])
  {
    StoreModel.SameKeysKeepSchema(t, StoreModel.SetAverage(t.stores, storeId, average, None));
  }

  /** Every delete request, refused or not, keeps current averages current. */
  lemma DeleteRatingKeepsAverages(t: Tables, ratingId: string, userId: int)
    requires SchemaOk(t) && AveragesCurrent(t)
    ensures AveragesCurrent(DeleteRating(t, ratingId, userId).0)
  {
    DeleteRatingNotOwned(t, ratingId, userId);
    var id := Guards.PgInteger(Str(ratingId));
    if id.None? || RatingModel.OwnedRating(t.ratings, id.value, userId).None? {
      return;
    }
    var storeId := RatingModel.OwnedRating(t.ratings, id.value, userId).value.storeId;
    RatingModel.WithoutOwnedRemovesOne(t, id.value, userId);
    DeleteRatingRemoves(t, ratingId, userId);
    var t1 := t.(ratings := RatingModel.WithoutOwned(t.ratings, id.value, userId));
    var u := DeleteRating(t, ratingId, userId).0;
    forall i | 0 <= i < |u.stores| ensures u.stores[i].averageRating == StoreAverage(u.ratings, u.stores[i].id) {
      if t.stores[i].id != storeId {
        assert RatingValues(t1.ratings, t.stores[i].id) == RatingValues(t.ratings, t.stores[i].id);
      }
    }
  }

  /** The request against the live database. */
  method DeleteRatingOn(db: Database, ratingId: string, userId: int) returns (reply: Reply<string>)
    modifies db
    ensures (db.Contents(), reply) == DeleteRating(old(db.Contents()), ratingId, userId)
  {
    var id := Guards.PgInteger(Str(ratingId));
    if id.None? {
      return Failure(500, InternalError);
    }
    var check := RatingModel.OwnedRating(db.ratings, id.value, userId);
    if check.None? {
      return Failure(404, RatingNotOwned);
    }
    var storeId := check.value.storeId;
    db.ratings := RatingModel.WithoutOwned(db.ratings, id.value, userId);
    var average := CastAverage(RatingValues(db.ratings, storeId));
    if average.None? {
      return Failure(500, InternalError);
    }
    db.stores := StoreModel.SetAverage(db.stores, storeId, average.value, None);
    reply := Json("Rating deleted successfully", false);
  }

  /* ------------------------------------------------------------------ reads */

  /** "`a` may come before `b`" for `ORDER BY r.created_at DESC`. */
  function NewestCreatedWithStore(a: RatingWithStore, b: RatingWithStore): bool {
    a.rating.createdAt >= b.rating.createdAt
  }

  /** `getUserRatings`: the caller's ratings with their stores, newest first. */
  function GetUserRatings(t: Tables, userId: int): seq<RatingWithStore> {
    SortBy(JoinStores(Filter(t.ratings, (r: RatingRow) => r.userId == userId), t.stores), NewestCreatedWithStore)
  }

  /** Exactly the caller's ratings, each once and with its store, newest first. */
  lemma GetUserRatingsCorrect(t: Tables, userId: int)
    requires SchemaOk(t)
    ensures var r := GetUserRatings(t, userId);
      && SortedBy(r, NewestCreatedWithStore)
      && |r| == |Filter(t.ratings, (x: RatingRow) => x.userId == userId)|
      && (forall i :: 0 <= i < |r| ==> r[i].rating.userId == userId && r[i].rating in t.ratings && r[i].store.id == r[i].rating.storeId)
      && (forall j :: 0 <= j < |t.ratings| && t.ratings[j].userId == userId ==> exists i :: 0 <= i < |r| && r[i].rating == t.ratings[j])
  {
    JoinedWithStores(t.ratings, t.stores, (x: RatingRow) => x.userId == userId, NewestCreatedWithStore);
    JoinedWithStoresAll(t.ratings, t.stores, (x: RatingRow) => x.userId == userId, NewestCreatedWithStore);
  }

  /** The body of `getStoreWithUserRating`: the store's row, its ratings with their authors,
      and its stored average. */
  datatype StoreWithRatings = StoreWithRatings(store: StoreRow, ratings: seq<RatingWithUser>, averageRating: int)

  /** `getStoreWithUserRating`: 404 for an absent store; otherwise the row, its ratings newest
      first, and `average_rating` taken from the row (`|| 0` only replaces a NULL). A path id
      PostgreSQL cannot read as an `INTEGER` ends in the catch-all reply. */
  function GetStoreWithUserRating(t: Tables, storeId: string): Reply<StoreWithRatings> {
    match Guards.PgInteger(Str(storeId))
    case None => Failure(500, InternalError)
    case Some(id) =>
      match FindStore(t.stores, id)
      case None => Failure(404, StoreNotFound)
      case Some(s) => Json(StoreWithRatings(s, StoreModel.GetStoreRatings(t, id), s.averageRating), false)
  }

  /** 500 for a path id that is not an `INTEGER`; otherwise 404 exactly for an absent store,
      and else the reply carries that store, exactly its ratings newest first (as many entries
      as the store has ratings, each a row of the table joined with its author, and every
      rating of the store among them), and an average that is the rounded mean of its ratings
      when the averages are current. */
  lemma GetStoreWithUserRatingCorrect(t: Tables, path: string)
    requires SchemaOk(t)
    ensures var reply := GetStoreWithUserRating(t, path);
      && (Guards.PgInteger(Str(path)).None? ==> reply == Failure(500, InternalError))
      && (Guards.PgInteger(Str(path)).Some? ==>
            var storeId := Guards.PgInteger(Str(path)).value;
            && (reply.Failure? <==> !HasStore(t.stores, storeId))
            && (reply.Failure? ==> reply == Failure(404, StoreNotFound))
            && (reply.Json? ==>
                  && reply.body.store in t.stores && reply.body.store.id == storeId
                  && SortedBy(reply.body.ratings, StoreModel.NewestCreatedFirst)
                  && |reply.body.ratings| == |RatingValues(t.ratings, storeId)|
                  && (forall i :: 0 <= i < |reply.body.ratings| ==>
                        && reply.body.ratings[i].rating in t.ratings
                        && reply.body.ratings[i].rating.storeId == storeId
                        && reply.body.ratings[i].user.id == reply.body.ratings[i].rating.userId)
                  && (forall j :: 0 <= j < |t.ratings| && t.ratings[j].storeId == storeId ==>
                        exists i :: 0 <= i < |reply.body.ratings| && reply.body.ratings[i].rating == t.ratings[j])
                  && (AveragesCurrent(t) ==> reply.body.averageRating == StoreAverage(t.ratings, storeId))))
  {
    var id := Guards.PgInteger(Str(path));
    if id.Some? && HasStore(t.stores, id.value) {
      var storeId := id.value;
      StoreModel.GetStoreRatingsCorrect(t, storeId);
      StoreController.FilterCountsValues(t.ratings, storeId);
      var s := FindStore(t.stores, storeId).value;
      var k :| 0 <= k < |t.stores| && t.stores[k] == s;
    }
  }
}
