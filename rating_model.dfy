/** backend/models/Rating.js: the checked upsert of a rating, the owned delete, both followed
    by the store-average update, the two ratings lists and the count. */
module RatingModel {
  import opened Common
  import opened Lists
  import opened JsValues
  import opened Schema
  import opened Joins
  import StoreModel

  /** What a rating write can fail with: the model's own "Invalid rating value" error, or an
      error raised by the database (a foreign key, the integer column, a numeric cast). */
  datatype WriteError = InvalidRating | DbError

  /** `comment || null`: a missing or empty comment is stored as NULL. */
  function StoredComment(comment: Option<string>): (c: Option<string>)
    ensures c.None? <==> comment.None? || comment == Some("")
    ensures c.Some? ==> c == comment
  {
    match comment
    case Some(s) => if s != "" then Some(s) else None
    case None => None
  }

  /** `Number(rating)` must be a number in 1..5; a non-integer that passes is then refused by
      the `INTEGER` column. */
  function CheckedRating(rating: JsValue): Result<int, WriteError> {
    var n := ToNumber(rating);
    if n.NaN? || Below(n, 1) || Above(n, 5) then Err(InvalidRating)
    else if n.Frac? then Err(DbError)
    else Ok(n.v)
  }

  /** The model rejects exactly the values that are not numbers in [1, 5]; what it accepts
      is an integer in 1..5 that `Number` reads from the value. */
  lemma CheckedRatingCorrect(rating: JsValue)
    ensures CheckedRating(rating) == Err(InvalidRating) <==>
      match ToNumber(rating)
      case NaN => true
      case Int(v) => v < 1 || v > 5
      case Frac(f) => f < 1 || f >= 5
      case Inf(_) => true
    ensures CheckedRating(rating).Ok? ==>
      1 <= CheckedRating(rating).value <= 5 && ToNumber(rating) == Int(CheckedRating(rating).value)
  {
  }

  /** Request values as they arrive: a number is taken as it is, `null` reads as 0 and
      `true` as 1, `undefined` is NaN, and 4.5 passes the check but not the column. */
  lemma CheckedRatingExamples()
    ensures CheckedRating(Number(Int(4))) == Ok(4)
    ensures CheckedRating(Null) == Err(InvalidRating)
    ensures CheckedRating(Undefined) == Err(InvalidRating)
    ensures CheckedRating(Bool(true)) == Ok(1)
    ensures CheckedRating(Number(Frac(4))) == Err(DbError)
  {
  }

  /** A form field arrives as a string: its digits are read, and the empty string reads as 0. */
  lemma CheckedRatingStrings(n: nat)
    ensures CheckedRating(Str(NatToString(n))) == if 1 <= n <= 5 then Ok(n) else Err(InvalidRating)
    ensures CheckedRating(Str("")) == Err(InvalidRating)
  {
    assert ToNumber(Str(NatToString(n))) == Int(n) by { NatToStringParses(n); }
    assert ToNumber(Str("")) == Int(0) by { assert Trim("") == ""; }
  }

  /** The position of the row for the pair `(userId, storeId)`, if there is one. */
  function PairIndex(ratings: seq<RatingRow>, userId: int, storeId: int): (k: Option<nat>)
    ensures k.Some? ==> k.value < |ratings| && ratings[k.value].userId == userId && ratings[k.value].storeId == storeId
    ensures k.None? ==> forall i :: 0 <= i < |ratings| ==> ratings[i].userId != userId || ratings[i].storeId != storeId
  {
    if ratings == [] then None
    else if ratings[0].userId == userId && ratings[0].storeId == storeId then Some(0)
    else
      match PairIndex(ratings[1..], userId, storeId)
      case None => None
      case Some(k) => Some(k + 1)
  }

  /** `INSERT ... ON CONFLICT (user_id, store_id) DO UPDATE SET rating, comment, updated_at
      RETURNING id`: the new tables and the returned id. The `SERIAL` default draws the next
      id before the conflict is found, so an update also advances the sequence. */
  function Upsert(t: Tables, userId: int, storeId: int, value: int, comment: Option<string>, now: int): (Tables, int) {
    match PairIndex(t.ratings, userId, storeId)
    case Some(k) =>
      (t.(ratings := t.ratings[k := t.ratings[k].(rating := value, comment := comment, updatedAt := now)],
          nextRatingId := t.nextRatingId + 1),
       t.ratings[k].id)
    case None =>
      (t.(ratings := t.ratings + [RatingRow(t.nextRatingId, userId, storeId, value, comment, now, now)],
          nextRatingId := t.nextRatingId + 1),
       t.nextRatingId)
  }

  /** `createOrUpdate`: the tables afterwards and the outcome. The upsert runs at time `now`
      and the average update, a separate statement with its own `NOW()`, at `averagedAt`; an
      error in the second leaves the first in place. A missing user or store fails the
      foreign key after the `SERIAL` default has drawn its id, so the sequence still advances. */
  function CreateOrUpdate(t: Tables, userId: int, storeId: int, rating: JsValue, comment: Option<string>,
                          now: int, averagedAt: int)
    : (Tables, Result<int, WriteError>)
  {
    match CheckedRating(rating)
    case Err(e) => (t, Err(e))
    case Ok(v) =>
      if !HasUser(t.users, userId) || !HasStore(t.stores, storeId) then
        (t.(nextRatingId := t.nextRatingId + 1), Err(DbError))
      else
        var (t1, id) := Upsert(t, userId, storeId, v, StoredComment(comment), now);
        match StoreModel.UpdateAverage(t1, storeId, averagedAt)
        case None => (t1, Err(DbError))
        case Some(t2) => (t2, Ok(id))
  }

  /** A changed row of one store leaves every other store's rating values as they were. */
  lemma RatingValuesUpdateOther(ratings: seq<RatingRow>, k: nat, row: RatingRow, other: int)
    requires k < |ratings| && ratings[k].storeId != other && row.storeId != other
    ensures RatingValues(ratings[k := row], other) == RatingValues(ratings, other)
  {
    var a := ratings[..k];
    var b := ratings[k + 1..];
    assert ratings == a + [ratings[k]] + b;
    assert ratings[k := row] == a + [row] + b;
    RatingValuesAppend(a + [ratings[k]], b, other);
    RatingValuesAppend(a, [ratings[k]], other);
    RatingValuesAppend(a + [row], b, other);
    RatingValuesAppend(a, [row], other);
  }

  /** Under `UNIQUE (user_id, store_id)` the row of a pair is the one `PairIndex` finds. */
  lemma PairIndexUnique(ratings: seq<RatingRow>, k: nat)
    requires UniquePairs(ratings) && k < |ratings|
    ensures PairIndex(ratings, ratings[k].userId, ratings[k].storeId) == Some(k)
  {
    var p := PairIndex(ratings, ratings[k].userId, ratings[k].storeId);
    if p.None? {
      assert false;
    } else if p.value < k {
      assert false;
    } else if p.value > k {
      assert false;
    }
  }

  /** The pair's row holds the given id, rating and comment. */
  predicate HoldsRating(ratings: seq<RatingRow>, userId: int, storeId: int, id: int, value: int, comment: Option<string>) {
    match PairIndex(ratings, userId, storeId)
    case None => false
    case Some(k) => ratings[k].id == id && ratings[k].rating == value && ratings[k].comment == comment
  }

  /** A resubmission rewrites the pair's row in place: the schema holds, the row keeps its id
      and creation time, every other row is as it was, and no other store's values change. */
  lemma UpsertResubmission(t: Tables, userId: int, storeId: int, value: int, comment: Option<string>, now: int)
    requires SchemaOk(t) && 1 <= value <= 5 && PairIndex(t.ratings, userId, storeId).Some?
    ensures var k := PairIndex(t.ratings, userId, storeId).value;
      var u := Upsert(t, userId, storeId, value, comment, now).0;
      && SchemaOk(u) && u.users == t.users && u.stores == t.stores
      && |u.ratings| == |t.ratings| && u.nextRatingId == t.nextRatingId + 1
      && Upsert(t, userId, storeId, value, comment, now).1 == t.ratings[k].id
      && u.ratings[k].createdAt == t.ratings[k].createdAt
      && (forall i :: 0 <= i < |t.ratings| && i != k ==> u.ratings[i] == t.ratings[i])
      && HoldsRating(u.ratings, userId, storeId, t.ratings[k].id, value, comment)
      && (forall other :: other != storeId ==> RatingValues(u.ratings, other) == RatingValues(t.ratings, other))
  {
    var k := PairIndex(t.ratings, userId, storeId).value;
    var u := Upsert(t, userId, storeId, value, comment, now).0;
    forall other | other != storeId ensures RatingValues(u.ratings, other) == RatingValues(t.ratings, other) {
      RatingValuesUpdateOther(t.ratings, k, u.ratings[k], other);
    }
    assert RatingsOk(u.ratings, u.users, u.stores, u.nextRatingId);
    PairIndexUnique(u.ratings, k);
  }

  /** A first submission appends a row: the schema holds, the earlier rows stay in place, the
      new row's id is fresh, and no other store's values change. */
  lemma UpsertFirst(t: Tables, userId: int, storeId: int, value: int, comment: Option<string>, now: int)
    requires SchemaOk(t) && 1 <= value <= 5 && HasUser(t.users, userId) && HasStore(t.stores, storeId)
    requires PairIndex(t.ratings, userId, storeId).None?
    ensures var u := Upsert(t, userId, storeId, value, comment, now).0;
      var id := Upsert(t, userId, storeId, value, comment, now).1;
      && SchemaOk(u) && u.users == t.users && u.stores == t.stores
      && |u.ratings| == |t.ratings| + 1 && u.ratings[..|t.ratings|] == t.ratings
      && id == t.nextRatingId && u.nextRatingId == t.nextRatingId + 1
      && (forall i :: 0 <= i < |t.ratings| ==> t.ratings[i].id != id)
      && HoldsRating(u.ratings, userId, storeId, id, value, comment)
      && (forall other :: other != storeId ==> RatingValues(u.ratings, other) == RatingValues(t.ratings, other))
  {
    var row := RatingRow(t.nextRatingId, userId, storeId, value, comment, now, now);
    var u := Upsert(t, userId, storeId, value, comment, now).0;
    assert u.ratings == t.ratings + [row];
    forall other | other != storeId ensures RatingValues(u.ratings, other) == RatingValues(t.ratings, other) {
      RatingValuesAppend(t.ratings, [row], other);
    }
    assert u.ratings[..|t.ratings|] == t.ratings;
    AppendRatingOk(t.ratings, t.users, t.stores, t.nextRatingId, row);
    assert SchemaOk(u);
    PairIndexUnique(u.ratings, |t.ratings|);
  }

  /** Appending a row with the next id, a rating in 1..5, existing references and a new pair
      keeps every constraint of the ratings table. */
  lemma AppendRatingOk(ratings: seq<RatingRow>, users: seq<UserRow>, stores: seq<StoreRow>, nextId: int, row: RatingRow)
    requires RatingsOk(ratings, users, stores, nextId)
    requires 1 <= nextId && row.id == nextId && 1 <= row.rating <= 5 && HasUser(users, row.userId) && HasStore(stores, row.storeId)
    requires forall i :: 0 <= i < |ratings| ==> ratings[i].userId != row.userId || ratings[i].storeId != row.storeId
    ensures RatingsOk(ratings + [row], users, stores, nextId + 1)
  {
    var r := ratings + [row];
    forall i | 0 <= i < |r| ensures 1 <= r[i].id < nextId + 1 && 1 <= r[i].rating <= 5
      ensures HasUser(users, r[i].userId) && HasStore(stores, r[i].storeId)
    {
      if i < |ratings| { assert r[i] == ratings[i]; } else { assert r[i] == row; }
    }
    forall i, j | 0 <= i < j < |r| ensures r[i].id != r[j].id
      ensures r[i].userId != r[j].userId || r[i].storeId != r[j].storeId
    {
      assert r[i] == ratings[i];
      if j < |ratings| { assert r[j] == ratings[j]; } else { assert r[j] == row; }
    }
  }

  /** Both cases of the upsert: the schema holds, the pair's row carries the new rating and
      comment and the returned id, and no other store's values change. */
  lemma UpsertCorrect(t: Tables, userId: int, storeId: int, value: int, comment: Option<string>, now: int)
    requires SchemaOk(t) && 1 <= value <= 5 && HasUser(t.users, userId) && HasStore(t.stores, storeId)
    ensures var u := Upsert(t, userId, storeId, value, comment, now).0;
      && SchemaOk(u) && u.users == t.users && u.stores == t.stores
      && HoldsRating(u.ratings, userId, storeId, Upsert(t, userId, storeId, value, comment, now).1, value, comment)
      && (forall other :: other != storeId ==> RatingValues(u.ratings, other) == RatingValues(t.ratings, other))
  {
    if PairIndex(t.ratings, userId, storeId).Some? {
      UpsertResubmission(t, userId, storeId, value, comment, now);
    } else {
      UpsertFirst(t, userId, storeId, value, comment, now);
    }
  }

  /** Every rejected or unstorable rating leaves the tables as they were, the model's own error
      being raised exactly for values outside [1, 5]; a missing user or store writes no row but
      uses up one id of the sequence. Under the schema every failure writes no row, and the
      write succeeds exactly when the rating is an integer in 1..5 and both the user and the
      store exist. */
  lemma CreateOrUpdateOutcome(t: Tables, userId: int, storeId: int, rating: JsValue, comment: Option<string>,
                              now: int, averagedAt: int)
    ensures var r := CreateOrUpdate(t, userId, storeId, rating, comment, now, averagedAt).1;
      (r == Err(InvalidRating) <==> CheckedRating(rating) == Err(InvalidRating))
    ensures CheckedRating(rating).Err? ==> CreateOrUpdate(t, userId, storeId, rating, comment, now, averagedAt).0 == t
    ensures CheckedRating(rating).Ok? && (!HasUser(t.users, userId) || !HasStore(t.stores, storeId)) ==>
      CreateOrUpdate(t, userId, storeId, rating, comment, now, averagedAt)
        == (t.(nextRatingId := t.nextRatingId + 1), Err(DbError))
    ensures SchemaOk(t) ==>
      var u := CreateOrUpdate(t, userId, storeId, rating, comment, now, averagedAt).0;
      var r := CreateOrUpdate(t, userId, storeId, rating, comment, now, averagedAt).1;
      && (r.Err? ==> u.users == t.users && u.stores == t.stores && u.ratings == t.ratings)
      && (r.Ok? <==> CheckedRating(rating).Ok? && HasUser(t.users, userId) && HasStore(t.stores, storeId))
  {
    if CheckedRating(rating).Err? {
      RejectedWritesNothing(t, userId, storeId, rating, comment, now, averagedAt);
    } else if !HasUser(t.users, userId) || !HasStore(t.stores, storeId) {
      MissingReferenceWritesNoRow(t, userId, storeId, rating, comment, now, averagedAt);
    } else {
      ValidWriteSucceeds(t, userId, storeId, rating, comment, now, averagedAt);
    }
  }

  /** A refused value is answered with the refusal and writes nothing. */
  lemma RejectedWritesNothing(t: Tables, userId: int, storeId: int, rating: JsValue, comment: Option<string>,
                              now: int, averagedAt: int)
    requires CheckedRating(rating).Err?
    ensures CreateOrUpdate(t, userId, storeId, rating, comment, now, averagedAt) == (t, CheckedRating(rating))
  {
  }

  /** A valid value for a missing user or store only uses up one id of the sequence. */
  lemma MissingReferenceWritesNoRow(t: Tables, userId: int, storeId: int, rating: JsValue, comment: Option<string>,
                                    now: int, averagedAt: int)
    requires CheckedRating(rating).Ok? && (!HasUser(t.users, userId) || !HasStore(t.stores, storeId))
    ensures CreateOrUpdate(t, userId, storeId, rating, comment, now, averagedAt)
      == (t.(nextRatingId := t.nextRatingId + 1), Err(DbError))
  {
    var r := CreateOrUpdate(t, userId, storeId, rating, comment, now, averagedAt);
    assert r.1 == Err(DbError);
    assert r.0 == t.(nextRatingId := t.nextRatingId + 1);
  }

  /** A valid value for an existing user and store is never refused as a value, and under the
      schema it is written. */
  lemma ValidWriteSucceeds(t: Tables, userId: int, storeId: int, rating: JsValue, comment: Option<string>,
                           now: int, averagedAt: int)
    requires CheckedRating(rating).Ok? && HasUser(t.users, userId) && HasStore(t.stores, storeId)
    ensures CreateOrUpdate(t, userId, storeId, rating, comment, now, averagedAt).1 != Err(InvalidRating)
    ensures SchemaOk(t) ==> CreateOrUpdate(t, userId, storeId, rating, comment, now, averagedAt).1.Ok?
  {
    if SchemaOk(t) {
      UpsertThenAverage(t, userId, storeId, CheckedRating(rating).value, StoredComment(comment), now, averagedAt);
    }
  }

  /** Under the schema the average update that follows a valid upsert finds its store. */
  lemma UpsertThenAverage(t: Tables, userId: int, storeId: int, value: int, comment: Option<string>,
                          now: int, averagedAt: int)
    requires SchemaOk(t) && 1 <= value <= 5 && HasUser(t.users, userId) && HasStore(t.stores, storeId)
    ensures StoreModel.UpdateAverage(Upsert(t, userId, storeId, value, comment, now).0, storeId, averagedAt).Some?
  {
    UpsertCorrect(t, userId, storeId, value, comment, now);
    StoreModel.UpdateAverageCorrect(Upsert(t, userId, storeId, value, comment, now).0, storeId, averagedAt);
  }

  /** After a successful write the schema still holds, and the pair's only row (the schema
      keeps pairs unique) has the new rating, the stored form of the comment and the returned
      id; and if every average was current before, every average is current after. */
  lemma CreateOrUpdateCorrect(t: Tables, userId: int, storeId: int, rating: JsValue, comment: Option<string>,
                              now: int, averagedAt: int)
    requires SchemaOk(t)
    requires CreateOrUpdate(t, userId, storeId, rating, comment, now, averagedAt).1.Ok?
    ensures var u := CreateOrUpdate(t, userId, storeId, rating, comment, now, averagedAt).0;
      var r := CreateOrUpdate(t, userId, storeId, rating, comment, now, averagedAt).1;
      && SchemaOk(u) && u.users == t.users
      && HoldsRating(u.ratings, userId, storeId, r.value, CheckedRating(rating).value, StoredComment(comment))
      && (AveragesCurrent(t) ==> AveragesCurrent(u))
  {
    var v, c := CheckedRating(rating).value, StoredComment(comment);
    var (t1, id) := Upsert(t, userId, storeId, v, c, now);
    UpsertCorrect(t, userId, storeId, v, c, now);
    StoreModel.UpdateAverageCorrect(t1, storeId, averagedAt);
    var t2 := StoreModel.UpdateAverage(t1, storeId, averagedAt).value;
    assert CreateOrUpdate(t, userId, storeId, rating, comment, now, averagedAt) == (t2, Ok(id));
    if AveragesCurrent(t) {
      UpsertOthersCurrent(t, t1, storeId);
    }
  }

  /** A write that changes only one store's rating values leaves every other average current. */
  lemma UpsertOthersCurrent(t: Tables, t1: Tables, storeId: int)
    requires AveragesCurrent(t) && t1.stores == t.stores
    requires forall other :: other != storeId ==> RatingValues(t1.ratings, other) == RatingValues(t.ratings, other)
    ensures StoreModel.OthersCurrent(t1, storeId)
  {
    forall i | 0 <= i < |t1.stores| && t1.stores[i].id != storeId
      ensures t1.stores[i].averageRating == StoreAverage(t1.ratings, t1.stores[i].id)
    {
      assert RatingValues(t1.ratings, t.stores[i].id) == RatingValues(t.ratings, t.stores[i].id);
    }
  }

  /** After a successful write the rated store's average is the rounded mean of its ratings
      after the write, stamped with the time of the average update, and every other store is
      unchanged. */
  lemma CreateOrUpdateAverage(t: Tables, userId: int, storeId: int, rating: JsValue, comment: Option<string>,
                              now: int, averagedAt: int)
    requires SchemaOk(t)
    requires CreateOrUpdate(t, userId, storeId, rating, comment, now, averagedAt).1.Ok?
    ensures var u := CreateOrUpdate(t, userId, storeId, rating, comment, now, averagedAt).0;
      && |u.stores| == |t.stores|
      && (forall i :: 0 <= i < |u.stores| && t.stores[i].id == storeId ==>
            u.stores[i] == t.stores[i].(averageRating := StoreAverage(u.ratings, storeId), updatedAt := averagedAt))
      && (forall i :: 0 <= i < |u.stores| && t.stores[i].id != storeId ==> u.stores[i] == t.stores[i])
  {
    var v := CheckedRating(rating).value;
    UpsertCorrect(t, userId, storeId, v, StoredComment(comment), now);
    StoreModel.UpdateAverageCorrect(Upsert(t, userId, storeId, v, StoredComment(comment), now).0, storeId, averagedAt);
  }

  /** A resubmission by the same user for the same store returns the id of the first
      submission and adds no row. */
  lemma ResubmissionKeepsId(t: Tables, userId: int, storeId: int, r1: JsValue, c1: Option<string>, n1: int, a1: int,
                            r2: JsValue, c2: Option<string>, n2: int, a2: int)
    requires SchemaOk(t)
    requires CreateOrUpdate(t, userId, storeId, r1, c1, n1, a1).1.Ok?
    requires CreateOrUpdate(CreateOrUpdate(t, userId, storeId, r1, c1, n1, a1).0, userId, storeId, r2, c2, n2, a2).1.Ok?
    ensures var u1 := CreateOrUpdate(t, userId, storeId, r1, c1, n1, a1).0;
      && CreateOrUpdate(u1, userId, storeId, r2, c2, n2, a2).1 == CreateOrUpdate(t, userId, storeId, r1, c1, n1, a1).1
      && |CreateOrUpdate(u1, userId, storeId, r2, c2, n2, a2).0.ratings| == |u1.ratings|
  {
    var u1 := CreateOrUpdate(t, userId, storeId, r1, c1, n1, a1).0;
    CreateOrUpdateCorrect(t, userId, storeId, r1, c1, n1, a1);
    var v := CheckedRating(r2).value;
    UpsertResubmission(u1, userId, storeId, v, StoredComment(c2), n2);
    StoreModel.UpdateAverageCorrect(Upsert(u1, userId, storeId, v, StoredComment(c2), n2).0, storeId, a2);
  }

  /** The write as run against the live database, statement by statement: the upsert at time
      `now`, then the average update at `averagedAt`. */
  method CreateOrUpdateRating(db: Database, userId: int, storeId: int, rating: JsValue, comment: Option<string>,
                              now: int, averagedAt: int)
    returns (r: Result<int, WriteError>)
    modifies db
    ensures (db.Contents(), r) == CreateOrUpdate(old(db.Contents()), userId, storeId, rating, comment, now, averagedAt)
  {
    ghost var t := db.Contents();
    var checked := CheckedRating(rating);
    if checked.Err? {
      RejectedWritesNothing(t, userId, storeId, rating, comment, now, averagedAt);
      return Err(checked.error);
    }
    if !HasUser(db.users, userId) || !HasStore(db.stores, storeId) {
      MissingReferenceWritesNoRow(t, userId, storeId, rating, comment, now, averagedAt);
      db.nextRatingId := db.nextRatingId + 1;
      return Err(DbError);
    }
    var id := UpsertRating(db, userId, storeId, checked.value, StoredComment(comment), now);
    ghost var t1 := db.Contents();
    assert (t1, id) == Upsert(t, userId, storeId, checked.value, StoredComment(comment), now);
    var ok := StoreModel.UpdateAverageRating(db, storeId, averagedAt);
    r := if ok then Ok(id) else Err(DbError);
    assert CreateOrUpdate(t, userId, storeId, rating, comment, now, averagedAt)
      == (if ok then (db.Contents(), Ok(id)) else (t1, Err(DbError)));
  }

  /** The upsert statement against the live database: the pair's row rewritten in place, or a
      new row appended, and the sequence advanced either way. */
  method UpsertRating(db: Database, userId: int, storeId: int, value: int, comment: Option<string>, now: int)
    returns (id: int)
    modifies db
    ensures (db.Contents(), id) == Upsert(old(db.Contents()), userId, storeId, value, comment, now)
  {
    var k := PairIndex(db.ratings, userId, storeId);
    if k.Some? {
      id := db.ratings[k.value].id;
      db.ratings := db.ratings[k.value := db.ratings[k.value].(rating := value, comment := comment, updatedAt := now)];
    } else {
      id := db.nextRatingId;
      db.ratings := db.ratings + [RatingRow(id, userId, storeId, value, comment, now, now)];
    }
    db.nextRatingId := db.nextRatingId + 1;
  }

  /* ------------------------------------------------------------- deleteRating */

  /** The row a user's delete request names, if it exists and belongs to the user. */
  function OwnedRating(ratings: seq<RatingRow>, ratingId: int, userId: int): (r: Option<RatingRow>)
    ensures r.Some? <==> exists i :: 0 <= i < |ratings| && ratings[i].id == ratingId && ratings[i].userId == userId
    ensures r.Some? ==> r.value in ratings && r.value.id == ratingId && r.value.userId == userId
  {
    if ratings == [] then None
    else if ratings[0].id == ratingId && ratings[0].userId == userId then Some(ratings[0])
    else
      var r := OwnedRating(ratings[1..], ratingId, userId);
      assert forall i :: 1 <= i < |ratings| ==> ratings[i] == ratings[1..][i - 1];
      r
  }

  /** The ratings table after `DELETE FROM ratings WHERE id = ratingId AND user_id = userId`. */
  function WithoutOwned(ratings: seq<RatingRow>, ratingId: int, userId: int): seq<RatingRow> {
    Filter(ratings, (r: RatingRow) => !(r.id == ratingId && r.userId == userId))
  }

  /** `deleteRating(ratingId, userId)`: the tables afterwards and the deleted row's store id,
      or null when no row matched. */
  function DeleteRating(t: Tables, ratingId: int, userId: int, now: int): (Tables, Result<Option<int>, WriteError>) {
    match OwnedRating(t.ratings, ratingId, userId)
    case None => (t, Ok(None))
    case Some(row) =>
      var t1 := t.(ratings := WithoutOwned(t.ratings, ratingId, userId));
      match StoreModel.UpdateAverage(t1, row.storeId, now)
      case None => (t1, Err(DbError))
      case Some(t2) => (t2, Ok(Some(row.storeId)))
  }

  /** With unique ids the delete removes exactly the named row. */
  lemma WithoutOwnedSplit(ratings: seq<RatingRow>, ratingId: int, userId: int, k: nat)
    requires k < |ratings| && ratings[k].id == ratingId && ratings[k].userId == userId
    requires IdsUnique(ratings)
    ensures WithoutOwned(ratings, ratingId, userId) == ratings[..k] + ratings[k + 1..]
  {
    var keep := (r: RatingRow) => !(r.id == ratingId && r.userId == userId);
    var a, x, b := ratings[..k], ratings[k], ratings[k + 1..];
    assert ratings == a + [x] + b;
    forall i | 0 <= i < |a| ensures keep(a[i]) {
      DistinctIds(ratings, i, k);
    }
    forall i | 0 <= i < |b| ensures keep(b[i]) {
      DistinctIds(ratings, k + 1 + i, k);
    }
    FilterDropOne(a, x, b, keep);
  }

  /** Deleting rows never breaks a constraint of the ratings table. */
  lemma WithoutOwnedKeepsSchema(t: Tables, ratingId: int, userId: int)
    requires SchemaOk(t)
    ensures SchemaOk(t.(ratings := WithoutOwned(t.ratings, ratingId, userId)))
  {
    FilterKeepsRatingsOk(t.ratings, t.users, t.stores, t.nextRatingId, (r: RatingRow) => !(r.id == ratingId && r.userId == userId));
  }

  /** Any subsequence a filter leaves keeps every constraint of the ratings table. */
  lemma FilterKeepsRatingsOk(ratings: seq<RatingRow>, users: seq<UserRow>, stores: seq<StoreRow>, nextId: int, keep: RatingRow -> bool)
    requires RatingsOk(ratings, users, stores, nextId)
    ensures RatingsOk(Filter(ratings, keep), users, stores, nextId)
  {
    var rest := Filter(ratings, keep);
    FilterRatingRows(ratings, keep, nextId);
    forall i | 0 <= i < |rest| ensures HasUser(users, rest[i].userId) && HasStore(stores, rest[i].storeId) {
      var m :| 0 <= m < |ratings| && ratings[m] == rest[i];
    }
  }

  /** Deleting the owned row removes that row and no other, and leaves every other store's
      rating values as they were. */
  lemma WithoutOwnedRemovesOne(t: Tables, ratingId: int, userId: int)
    requires SchemaOk(t) && OwnedRating(t.ratings, ratingId, userId).Some?
    ensures var row := OwnedRating(t.ratings, ratingId, userId).value;
      var rest := WithoutOwned(t.ratings, ratingId, userId);
      && |rest| == |t.ratings| - 1
      && (forall i :: 0 <= i < |rest| ==> rest[i].id != ratingId)
      && (forall i :: 0 <= i < |t.ratings| && t.ratings[i].id != ratingId ==> t.ratings[i] in rest)
      && (forall other :: other != row.storeId ==> RatingValues(rest, other) == RatingValues(t.ratings, other))
  {
    var row := OwnedRating(t.ratings, ratingId, userId).value;
    var k :| 0 <= k < |t.ratings| && t.ratings[k] == row;
    WithoutOwnedRows(t.ratings, ratingId, userId, k);
  }

  /** No two rows share an id. */
  predicate IdsUnique(ratings: seq<RatingRow>) {
    forall i, j :: 0 <= i < j < |ratings| ==> ratings[i].id != ratings[j].id
  }

  /** Two different rows have different ids. */
  lemma DistinctIds(ratings: seq<RatingRow>, i: nat, k: nat)
    requires IdsUnique(ratings) && i < |ratings| && k < |ratings| && i != k
    ensures ratings[i].id != ratings[k].id
  {
    if i < k {
      assert ratings[i].id != ratings[k].id;
    } else {
      assert ratings[k].id != ratings[i].id;
    }
  }

  /** Two rows with the same id are the same row. */
  lemma SameIdSameRow(ratings: seq<RatingRow>, i: nat, k: nat)
    requires IdsUnique(ratings) && i < |ratings| && k < |ratings| && ratings[i].id == ratings[k].id
    ensures i == k
  {
    if i != k { DistinctIds(ratings, i, k); }
  }

  /** The sequence-level facts behind `WithoutOwnedRemovesOne`. */
  lemma WithoutOwnedRows(ratings: seq<RatingRow>, ratingId: int, userId: int, k: nat)
    requires IdsUnique(ratings) && k < |ratings| && ratings[k].id == ratingId && ratings[k].userId == userId
    ensures var rest := WithoutOwned(ratings, ratingId, userId);
      && |rest| == |ratings| - 1
      && (forall i :: 0 <= i < |rest| ==> rest[i].id != ratingId)
      && (forall i :: 0 <= i < |ratings| && ratings[i].id != ratingId ==> ratings[i] in rest)
      && (forall other :: other != ratings[k].storeId ==> RatingValues(rest, other) == RatingValues(ratings, other))
  {
    var rest := WithoutOwned(ratings, ratingId, userId);
    WithoutOwnedSplit(ratings, ratingId, userId, k);
    forall i | 0 <= i < |rest| ensures rest[i].id != ratingId {
      var j := if i < k then i else i + 1;
      assert rest[i] == ratings[j];
      DistinctIds(ratings, j, k);
    }
    forall i | 0 <= i < |ratings| && ratings[i].id != ratingId ensures ratings[i] in rest {
      if i < k {
        assert rest[i] == ratings[i];
      } else {
        assert rest[i - 1] == ratings[i];
      }
    }
    forall other | other != ratings[k].storeId
      ensures RatingValues(rest, other) == RatingValues(ratings, other)
    {
      WithoutOwnedOtherValues(ratings, ratingId, userId, k, other);
    }
  }

  /** The store of the only deleted row is the only store whose rating values can change. */
  lemma WithoutOwnedOtherValues(ratings: seq<RatingRow>, ratingId: int, userId: int, k: nat, other: int)
    requires IdsUnique(ratings)
    requires k < |ratings| && ratings[k].id == ratingId && ratings[k].storeId != other
    ensures RatingValues(WithoutOwned(ratings, ratingId, userId), other) == RatingValues(ratings, other)
  {
    var keep := (r: RatingRow) => !(r.id == ratingId && r.userId == userId);
    forall i | 0 <= i < |ratings| && !keep(ratings[i]) ensures ratings[i].storeId != other {
      SameIdSameRow(ratings, i, k);
    }
    RatingValuesFilterOthers(ratings, keep, other);
  }

  /** A request that names no row of the user's returns null and changes nothing; otherwise
      exactly that row goes, its store id is returned, that store's average becomes the
      rounded mean of the remaining ratings, and current averages stay current. */
  lemma DeleteRatingCorrect(t: Tables, ratingId: int, userId: int, now: int)
    requires SchemaOk(t)
    ensures var (u, r) := DeleteRating(t, ratingId, userId, now);
      && r.Ok?
      && (r.value.None? <==> forall i :: 0 <= i < |t.ratings| ==> t.ratings[i].id != ratingId || t.ratings[i].userId != userId)
      && (r.value.None? ==> u == t)
      && (r.value.Some? ==>
            && SchemaOk(u) && u.users == t.users
            && r.value.value == OwnedRating(t.ratings, ratingId, userId).value.storeId
            && |u.ratings| == |t.ratings| - 1
            && (forall i :: 0 <= i < |u.ratings| ==> u.ratings[i].id != ratingId)
            && (forall i :: 0 <= i < |t.ratings| && t.ratings[i].id != ratingId ==> t.ratings[i] in u.ratings)
            && (forall i :: 0 <= i < |u.stores| && u.stores[i].id == r.value.value ==>
                  u.stores[i].averageRating == StoreAverage(u.ratings, r.value.value))
            && (AveragesCurrent(t) ==> AveragesCurrent(u)))
  {
    if OwnedRating(t.ratings, ratingId, userId).Some? {
      DeleteOwnedEffects(t, ratingId, userId, now);
    }
  }

  /** The delete of an owned row, step by step: the row goes, then the average update. */
  lemma DeleteOwnedEffects(t: Tables, ratingId: int, userId: int, now: int)
    requires SchemaOk(t) && OwnedRating(t.ratings, ratingId, userId).Some?
    ensures var row := OwnedRating(t.ratings, ratingId, userId).value;
      var rest := WithoutOwned(t.ratings, ratingId, userId);
      var (u, r) := DeleteRating(t, ratingId, userId, now);
      && r == Ok(Some(row.storeId))
      && SchemaOk(u) && u.users == t.users && u.ratings == rest
      && |rest| == |t.ratings| - 1
      && (forall i :: 0 <= i < |rest| ==> rest[i].id != ratingId)
      && (forall i :: 0 <= i < |t.ratings| && t.ratings[i].id != ratingId ==> t.ratings[i] in rest)
      && (forall i :: 0 <= i < |u.stores| && u.stores[i].id == row.storeId ==>
            u.stores[i].averageRating == StoreAverage(rest, row.storeId))
      && (AveragesCurrent(t) ==> AveragesCurrent(u))
  {
    var row := OwnedRating(t.ratings, ratingId, userId).value;
    var t1 := t.(ratings := WithoutOwned(t.ratings, ratingId, userId));
    WithoutOwnedKeepsSchema(t, ratingId, userId);
    StoreModel.UpdateAverageCorrect(t1, row.storeId, now);
    DeleteOwnedStep(t, ratingId, userId, now);
    WithoutOwnedRemovesOne(t, ratingId, userId);
    if AveragesCurrent(t) {
      DeleteKeepsOthersCurrent(t, ratingId, userId);
    }
  }

  /** The delete of an owned row is the average update over the table without it. */
  lemma DeleteOwnedStep(t: Tables, ratingId: int, userId: int, now: int)
    requires SchemaOk(t) && OwnedRating(t.ratings, ratingId, userId).Some?
    ensures var row := OwnedRating(t.ratings, ratingId, userId).value;
      var t1 := t.(ratings := WithoutOwned(t.ratings, ratingId, userId));
      && StoreModel.UpdateAverage(t1, row.storeId, now).Some?
      && DeleteRating(t, ratingId, userId, now) == (StoreModel.UpdateAverage(t1, row.storeId, now).value, Ok(Some(row.storeId)))
  {
    var row := OwnedRating(t.ratings, ratingId, userId).value;
    var t1 := t.(ratings := WithoutOwned(t.ratings, ratingId, userId));
    WithoutOwnedKeepsSchema(t, ratingId, userId);
    StoreModel.UpdateAverageCorrect(t1, row.storeId, now);
  }

  /** Removing the owned row leaves every other store's average current. */
  lemma DeleteKeepsOthersCurrent(t: Tables, ratingId: int, userId: int)
    requires SchemaOk(t) && AveragesCurrent(t) && OwnedRating(t.ratings, ratingId, userId).Some?
    ensures StoreModel.OthersCurrent(t.(ratings := WithoutOwned(t.ratings, ratingId, userId)),
                                     OwnedRating(t.ratings, ratingId, userId).value.storeId)
  {
    WithoutOwnedRemovesOne(t, ratingId, userId);
  }

  /** The delete as run against the live database. */
  method DeleteOwnedRating(db: Database, ratingId: int, userId: int, now: int) returns (r: Result<Option<int>, WriteError>)
    modifies db
    ensures (db.Contents(), r) == DeleteRating(old(db.Contents()), ratingId, userId, now)
  {
    var row := OwnedRating(db.ratings, ratingId, userId);
    if row.None? {
      return Ok(None);
    }
    db.ratings := WithoutOwned(db.ratings, ratingId, userId);
    var ok := StoreModel.UpdateAverageRating(db, row.value.storeId, now);
    r := if ok then Ok(Some(row.value.storeId)) else Err(DbError);
  }

  /* ------------------------------------------------------------------ queries */

  function NewestUpdatedWithStore(a: RatingWithStore, b: RatingWithStore): bool {
    a.rating.updatedAt >= b.rating.updatedAt
  }

  function NewestUpdatedWithUser(a: RatingWithUser, b: RatingWithUser): bool {
    a.rating.updatedAt >= b.rating.updatedAt
  }

  /** `getUserRatings(userId)`: the user's ratings with their stores, most recently updated first. */
  function GetUserRatings(t: Tables, userId: int): seq<RatingWithStore> {
    SortBy(JoinStores(Filter(t.ratings, (r: RatingRow) => r.userId == userId), t.stores), NewestUpdatedWithStore)
  }

  /** `getStoreRatings(storeId)`: the store's ratings with their authors, most recently updated first. */
  function GetStoreRatings(t: Tables, storeId: int): seq<RatingWithUser> {
    SortBy(JoinUsers(Filter(t.ratings, (r: RatingRow) => r.storeId == storeId), t.users), NewestUpdatedWithUser)
  }

  /** Exactly the user's ratings, each with its store, one entry per rating, most recently
      updated first. */
  lemma GetUserRatingsCorrect(t: Tables, userId: int)
    requires SchemaOk(t)
    ensures var r := GetUserRatings(t, userId);
      && SortedBy(r, NewestUpdatedWithStore)
      && |r| == |Filter(t.ratings, (x: RatingRow) => x.userId == userId)|
      && (forall i :: 0 <= i < |r| ==> r[i].rating.userId == userId && r[i].rating in t.ratings && r[i].store.id == r[i].rating.storeId)
      && (forall j :: 0 <= j < |t.ratings| && t.ratings[j].userId == userId ==> exists i :: 0 <= i < |r| && r[i].rating == t.ratings[j])
  {
    JoinedWithStores(t.ratings, t.stores, (x: RatingRow) => x.userId == userId, NewestUpdatedWithStore);
    JoinedWithStoresAll(t.ratings, t.stores, (x: RatingRow) => x.userId == userId, NewestUpdatedWithStore);
  }

  /** Exactly the store's ratings, each with its author, one entry per rating, most recently
      updated first. */
  lemma GetStoreRatingsCorrect(t: Tables, storeId: int)
    requires SchemaOk(t)
    ensures var r := GetStoreRatings(t, storeId);
      && SortedBy(r, NewestUpdatedWithUser)
      && |r| == |Filter(t.ratings, (x: RatingRow) => x.storeId == storeId)|
      && (forall i :: 0 <= i < |r| ==> r[i].rating.storeId == storeId && r[i].rating in t.ratings && r[i].user.id == r[i].rating.userId)
      && (forall j :: 0 <= j < |t.ratings| && t.ratings[j].storeId == storeId ==> exists i :: 0 <= i < |r| && r[i].rating == t.ratings[j])
  {
    JoinedWithUsers(t.ratings, t.users, (x: RatingRow) => x.storeId == storeId, NewestUpdatedWithUser);
    JoinedWithUsersAll(t.ratings, t.users, (x: RatingRow) => x.storeId == storeId, NewestUpdatedWithUser);
  }

  /** `getRatingsCount`: `COUNT(*)` of the ratings table. */
  function GetRatingsCount(t: Tables): nat {
    |t.ratings|
  }

  /** The count rises by one for a first rating of a pair, stays for a resubmission and for a
      failed write, and falls by one for a delete. */
  lemma RatingsCountAfterWrites(t: Tables, userId: int, storeId: int, rating: JsValue, comment: Option<string>,
                                ratingId: int, now: int, averagedAt: int)
    requires SchemaOk(t)
    ensures var (u, r) := CreateOrUpdate(t, userId, storeId, rating, comment, now, averagedAt);
      && (r.Ok? ==> GetRatingsCount(u) == GetRatingsCount(t) + (if PairIndex(t.ratings, userId, storeId).Some? then 0 else 1))
      && (r.Err? ==> GetRatingsCount(u) == GetRatingsCount(t))
    ensures var (u, r) := DeleteRating(t, ratingId, userId, now);
      r.Ok? && r.value.Some? ==> GetRatingsCount(u) == GetRatingsCount(t) - 1
  {
    var (u, r) := CreateOrUpdate(t, userId, storeId, rating, comment, now, averagedAt);
    CreateOrUpdateOutcome(t, userId, storeId, rating, comment, now, averagedAt);
    if r.Ok? {
      var v := CheckedRating(rating).value;
      UpsertCorrect(t, userId, storeId, v, StoredComment(comment), now);
      var (t1, id) := Upsert(t, userId, storeId, v, StoredComment(comment), now);
      StoreModel.UpdateAverageCorrect(t1, storeId, averagedAt);
    }
    DeleteRatingCorrect(t, ratingId, userId, now);
  }
}
