/** The three tables of backend/config/database.js (`users`, `stores`, `ratings`), their
    constraints, the numeric rounding PostgreSQL applies to averages, the cascading deletes
    the foreign keys declare, and the idempotent default-admin insert. */
module Schema {
  import opened Common
  import opened Lists

  /** `role TEXT CHECK (role IN ('admin', 'user', 'store_owner'))`: the CHECK is the type. */
  datatype Role = Admin | User | StoreOwner

  function RoleName(r: Role): string {
    match r
    case Admin => "admin"
    case User => "user"
    case StoreOwner => "store_owner"
  }

  /** The role a request string names, if any. */
  function ParseRole(s: string): (r: Option<Role>)
    ensures r.Some? ==> RoleName(r.value) == s
    ensures r.None? ==> forall x: Role :: RoleName(x) != s
  {
    if s == "admin" then Some(Admin)
    else if s == "user" then Some(User)
    else if s == "store_owner" then Some(StoreOwner)
    else None
  }

  /** bcrypt, idealised: a salted hash that compares equal exactly for the password it was made from. */
  datatype PasswordHash = Bcrypt(salt: int, secret: string)

  function BcryptHash(plain: string, salt: int): PasswordHash { Bcrypt(salt, plain) }

  predicate BcryptCompare(plain: string, hash: PasswordHash) { hash.secret == plain }

  lemma HashThenCompare(plain: string, other: string, salt: int)
    ensures BcryptCompare(other, BcryptHash(plain, salt)) <==> other == plain
  {
  }

  /* Rows. Timestamps are integers; `average_rating NUMERIC(3,2)` is kept in hundredths. */
  datatype UserRow = UserRow(id: int, name: string, email: string, password: PasswordHash,
                             address: string, role: Role, createdAt: int, updatedAt: int)

  datatype StoreRow = StoreRow(id: int, name: string, email: string, address: string,
                               ownerId: Option<int>, averageRating: int, createdAt: int, updatedAt: int)

  datatype RatingRow = RatingRow(id: int, userId: int, storeId: int, rating: int,
                                 comment: Option<string>, createdAt: int, updatedAt: int)

  /** A user as the queries that leave out the `password` column return it. */
  datatype PublicUser = PublicUser(id: int, name: string, email: string, address: string,
                                   role: Role, createdAt: int, updatedAt: int)

  /** The row without its password hash. */
  function Public(u: UserRow): (p: PublicUser)
    ensures p.id == u.id && p.role == u.role && p.email == u.email
  {
    PublicUser(u.id, u.name, u.email, u.address, u.role, u.createdAt, u.updatedAt)
  }

  /** The whole database: three tables and the next value of each `SERIAL` sequence. */
  datatype Tables = Tables(users: seq<UserRow>, stores: seq<StoreRow>, ratings: seq<RatingRow>,
                           nextUserId: int, nextStoreId: int, nextRatingId: int)

  /* ---------------------------------------------------------------- lookups */

  /** `SELECT ... FROM users WHERE id = $1` followed by `rows[0] || null`. */
  function FindUser(users: seq<UserRow>, id: int): (r: Option<UserRow>)
    ensures r.Some? <==> exists i :: 0 <= i < |users| && users[i].id == id
    ensures r.Some? ==> r.value in users && r.value.id == id
  {
    if users == [] then None
    else if users[0].id == id then Some(users[0])
    else
      var r := FindUser(users[1..], id);
      assert forall i :: 1 <= i < |users| ==> users[i] == users[1..][i - 1];
      r
  }

  /** `SELECT ... FROM users WHERE email = $1` followed by `rows[0] || null`. */
  function FindUserByEmail(users: seq<UserRow>, email: string): (r: Option<UserRow>)
    ensures r.Some? <==> exists i :: 0 <= i < |users| && users[i].email == email
    ensures r.Some? ==> r.value in users && r.value.email == email
  {
    if users == [] then None
    else if users[0].email == email then Some(users[0])
    else
      var r := FindUserByEmail(users[1..], email);
      assert forall i :: 1 <= i < |users| ==> users[i] == users[1..][i - 1];
      r
  }

  /** `SELECT * FROM stores WHERE id = $1`, first row or null. */
  function FindStore(stores: seq<StoreRow>, id: int): (r: Option<StoreRow>)
    ensures r.Some? <==> exists i :: 0 <= i < |stores| && stores[i].id == id
    ensures r.Some? ==> r.value in stores && r.value.id == id
  {
    if stores == [] then None
    else if stores[0].id == id then Some(stores[0])
    else
      var r := FindStore(stores[1..], id);
      assert forall i :: 1 <= i < |stores| ==> stores[i] == stores[1..][i - 1];
      r
  }

  /** `SELECT * FROM stores WHERE email = $1`, first row or null. */
  function FindStoreByEmail(stores: seq<StoreRow>, email: string): (r: Option<StoreRow>)
    ensures r.Some? <==> exists i :: 0 <= i < |stores| && stores[i].email == email
    ensures r.Some? ==> r.value in stores && r.value.email == email
  {
    if stores == [] then None
    else if stores[0].email == email then Some(stores[0])
    else
      var r := FindStoreByEmail(stores[1..], email);
      assert forall i :: 1 <= i < |stores| ==> stores[i] == stores[1..][i - 1];
      r
  }

  predicate HasUser(users: seq<UserRow>, id: int) { exists i :: 0 <= i < |users| && users[i].id == id }

  predicate HasStore(stores: seq<StoreRow>, id: int) { exists i :: 0 <= i < |stores| && stores[i].id == id }

  /* ----------------------------------------------------------- constraints */

  /** `VARCHAR(60)` name, `VARCHAR(255)` email, `VARCHAR(400)` address. */
  predicate UserFits(u: UserRow) { |u.name| <= 60 && |u.email| <= 255 && |u.address| <= 400 }

  /** The VARCHAR bounds, and `NUMERIC(3,2)`: at most 9.99 in magnitude. */
  predicate StoreFits(s: StoreRow) {
    |s.name| <= 60 && |s.email| <= 255 && |s.address| <= 400 && -999 <= s.averageRating <= 999
  }

  predicate UsersOk(users: seq<UserRow>, nextId: int) {
    && (forall i :: 0 <= i < |users| ==> 1 <= users[i].id < nextId && UserFits(users[i]))
    && (forall i, j :: 0 <= i < j < |users| ==> users[i].id != users[j].id)
    && (forall i, j :: 0 <= i < j < |users| ==> users[i].email != users[j].email)
  }

  predicate StoresOk(stores: seq<StoreRow>, users: seq<UserRow>, nextId: int) {
    && (forall i :: 0 <= i < |stores| ==> 1 <= stores[i].id < nextId && StoreFits(stores[i]))
    && (forall i, j :: 0 <= i < j < |stores| ==> stores[i].id != stores[j].id)
    && (forall i, j :: 0 <= i < j < |stores| ==> stores[i].email != stores[j].email)
    && (forall i :: 0 <= i < |stores| && stores[i].ownerId.Some? ==> HasUser(users, stores[i].ownerId.value))
  }

  /** `CHECK (rating >= 1 AND rating <= 5)`, the two `REFERENCES` and `UNIQUE (user_id, store_id)`. */
  predicate RatingsOk(ratings: seq<RatingRow>, users: seq<UserRow>, stores: seq<StoreRow>, nextId: int) {
    && (forall i :: 0 <= i < |ratings| ==> 1 <= ratings[i].id < nextId && 1 <= ratings[i].rating <= 5)
    && (forall i :: 0 <= i < |ratings| ==> HasUser(users, ratings[i].userId) && HasStore(stores, ratings[i].storeId))
    && (forall i, j :: 0 <= i < j < |ratings| ==> ratings[i].id != ratings[j].id)
    && UniquePairs(ratings)
  }

  /** At most one rating per (user, store). */
  predicate UniquePairs(ratings: seq<RatingRow>) {
    forall i, j :: 0 <= i < j < |ratings| ==>
      ratings[i].userId != ratings[j].userId || ratings[i].storeId != ratings[j].storeId
  }

  /** Every constraint the schema declares. */
  predicate SchemaOk(t: Tables) {
    && t.nextUserId >= 1 && t.nextStoreId >= 1 && t.nextRatingId >= 1
    && UsersOk(t.users, t.nextUserId)
    && StoresOk(t.stores, t.users, t.nextStoreId)
    && RatingsOk(t.ratings, t.users, t.stores, t.nextRatingId)
  }

  /* ------------------------------------------------------------- averages */

  /** The rating values of one store, in table order. */
  function RatingValues(ratings: seq<RatingRow>, storeId: int): (xs: seq<int>)
    ensures |xs| <= |ratings|
  {
    if ratings == [] then []
    else (if ratings[0].storeId == storeId then [ratings[0].rating] else []) + RatingValues(ratings[1..], storeId)
  }

  lemma {:induction false} RatingValuesAppend(a: seq<RatingRow>, b: seq<RatingRow>, storeId: int)
    ensures RatingValues(a + b, storeId) == RatingValues(a, storeId) + RatingValues(b, storeId)
  {
    if a == [] {
      assert a + b == b;
    } else {
      var h := if a[0].storeId == storeId then [a[0].rating] else [];
      assert (a + b)[0] == a[0] && (a + b)[1..] == a[1..] + b;
      assert RatingValues(a + b, storeId) == h + RatingValues(a[1..] + b, storeId);
      RatingValuesAppend(a[1..], b, storeId);
      assert RatingValues(a, storeId) == h + RatingValues(a[1..], storeId);
    }
  }

  lemma {:induction false} RatingValuesInRange(ratings: seq<RatingRow>, storeId: int)
    requires forall i :: 0 <= i < |ratings| ==> 1 <= ratings[i].rating <= 5
    ensures forall i :: 0 <= i < |RatingValues(ratings, storeId)| ==> 1 <= RatingValues(ratings, storeId)[i] <= 5
  {
    if ratings != [] { RatingValuesInRange(ratings[1..], storeId); }
  }

  /** `num / den` rounded to the nearest integer, halves away from zero (PostgreSQL `numeric` rounding). */
  function RoundHalfAway(num: int, den: int): (r: int)
    requires den > 0
    ensures num >= 0 ==> r >= 0 && 2 * den * r - den <= 2 * num < 2 * den * r + den
    ensures num < 0 ==> r <= 0 && 2 * den * r - den < 2 * num <= 2 * den * r + den
  {
    if num >= 0 then
      var q := (2 * num + den) / (2 * den);
      assert 2 * num + den == q * (2 * den) + (2 * num + den) % (2 * den);
      q
    else
      var q := (-2 * num + den) / (2 * den);
      assert -2 * num + den == q * (2 * den) + (-2 * num + den) % (2 * den);
      -q
  }

  /** The mean of `xs` in hundredths, rounded to two decimals; 0 for no values. This is the
      value the stores' `average_rating` column is meant to hold. */
  function RoundedMean(xs: seq<int>): int {
    if xs == [] then 0 else RoundHalfAway(100 * Sum(xs), |xs|)
  }

  /** A cast to `NUMERIC(3,2)` of a value already rounded to hundredths: anything of magnitude
      10 or more is a "numeric field overflow". */
  function Numeric32(hundredths: int): Option<int> {
    if -999 <= hundredths <= 999 then Some(hundredths) else None
  }

  /** `COALESCE(AVG(rating), 0)::numeric(3,2)` (Store.updateAverageRating and findById). */
  function CastAverage(xs: seq<int>): Option<int> {
    if xs == [] then Numeric32(0) else Numeric32(RoundHalfAway(100 * Sum(xs), |xs|))
  }

  /** `ROUND(AVG(rating)::numeric, 2)`; SQL NULL (`None`) over no rows. */
  function RoundAverage(xs: seq<int>): Option<int> {
    if xs == [] then None else Some(RoundHalfAway(100 * Sum(xs), |xs|))
  }

  /** The stored average of a store: the rounded mean of its current ratings. */
  function StoreAverage(ratings: seq<RatingRow>, storeId: int): int {
    RoundedMean(RatingValues(ratings, storeId))
  }

  /** Ratings in 1..5 have a rounded mean in 1.00..5.00, so every SQL spelling of the average
      succeeds and they all agree: the cast never overflows, and `ROUND(...)` defaulted to 0 is
      the same value. */
  lemma AverageSpellingsAgree(xs: seq<int>)
    requires forall i :: 0 <= i < |xs| ==> 1 <= xs[i] <= 5
    ensures xs != [] ==> 100 <= RoundedMean(xs) <= 500
    ensures CastAverage(xs) == Some(RoundedMean(xs))
    ensures RoundAverage(xs).GetOr(0) == RoundedMean(xs)
    ensures Numeric32(RoundAverage(xs).GetOr(0)) == Some(RoundedMean(xs))
  {
    if xs != [] {
      var n := |xs|;
      SumBounds(xs, 1, 5);
      var r := RoundedMean(xs);
      assert 2 * n * r - n <= 200 * Sum(xs) < 2 * n * r + n;
      assert 200 * n <= 200 * Sum(xs) <= 1000 * n;
      MulMonoWhen(2 * n, r, 99);
      MulMonoWhen(2 * n, 501, r);
    }
  }

  lemma MulMono(k: int, a: int, b: int)
    requires k >= 0 && a <= b
    ensures k * a <= k * b
  {
  }

  lemma MulMonoWhen(k: int, a: int, b: int)
    requires k >= 0
    ensures a <= b ==> k * a <= k * b
  {
    if a <= b { MulMono(k, a, b); }
  }

  /** Every store's `average_rating` is the rounded mean of its current ratings: the invariant
      the rating writes maintain. */
  predicate AveragesCurrent(t: Tables) {
    forall i :: 0 <= i < |t.stores| ==> t.stores[i].averageRating == StoreAverage(t.ratings, t.stores[i].id)
  }

  /* ------------------------------------------------------- cascading deletes */

  /** `ON DELETE SET NULL` on `stores.owner_id`. */
  function Disown(stores: seq<StoreRow>, userId: int): (r: seq<StoreRow>)
    ensures |r| == |stores|
    ensures forall i :: 0 <= i < |r| ==>
      r[i] == if stores[i].ownerId == Some(userId) then stores[i].(ownerId := None) else stores[i]
  {
    if stores == [] then []
    else [if stores[0].ownerId == Some(userId) then stores[0].(ownerId := None) else stores[0]] + Disown(stores[1..], userId)
  }

  /** `DELETE FROM users WHERE id = $1` with the declared reactions: the user's stores lose
      their owner and the user's ratings go. */
  function DeleteUserCascade(t: Tables, id: int): Tables {
    t.(users := Filter(t.users, (u: UserRow) => u.id != id),
       stores := Disown(t.stores, id),
       ratings := Filter(t.ratings, (r: RatingRow) => r.userId != id))
  }

  /** `DELETE FROM stores WHERE id = $1` with `ON DELETE CASCADE` on `ratings.store_id`. */
  function DeleteStoreCascade(t: Tables, id: int): Tables {
    t.(stores := Filter(t.stores, (s: StoreRow) => s.id != id),
       ratings := Filter(t.ratings, (r: RatingRow) => r.storeId != id))
  }

  /** Removing only ratings of other stores leaves a store's rating values as they were. */
  lemma {:induction false} RatingValuesFilterOthers(ratings: seq<RatingRow>, keep: RatingRow -> bool, storeId: int)
    requires forall i :: 0 <= i < |ratings| && !keep(ratings[i]) ==> ratings[i].storeId != storeId
    ensures RatingValues(Filter(ratings, keep), storeId) == RatingValues(ratings, storeId)
  {
    if ratings != [] {
      RatingValuesFilterOthers(ratings[1..], keep, storeId);
      var head := if keep(ratings[0]) then [ratings[0]] else [];
      assert Filter(ratings, keep) == head + Filter(ratings[1..], keep);
      RatingValuesAppend(head, Filter(ratings[1..], keep), storeId);
      if head != [] {
        assert head[1..] == [];
      }
    }
  }

  /** Deleting a store keeps every constraint, leaves no rating of it behind, and keeps every
      other store's average current. */
  lemma DeleteStoreKeepsSchema(t: Tables, id: int)
    requires SchemaOk(t)
    ensures SchemaOk(DeleteStoreCascade(t, id))
    ensures !HasStore(DeleteStoreCascade(t, id).stores, id)
    ensures forall i :: 0 <= i < |DeleteStoreCascade(t, id).ratings| ==> DeleteStoreCascade(t, id).ratings[i].storeId != id
    ensures AveragesCurrent(t) ==> AveragesCurrent(DeleteStoreCascade(t, id))
  {
    var u := DeleteStoreCascade(t, id);
    StoresAfterStoreDelete(t.stores, t.users, id, t.nextStoreId);
    RatingsAfterStoreDelete(t, id);
    assert u.users == t.users && u.nextUserId == t.nextUserId && u.nextStoreId == t.nextStoreId;
    assert UsersOk(u.users, u.nextUserId);
    assert StoresOk(u.stores, u.users, u.nextStoreId);
    if AveragesCurrent(t) {
      AveragesAfterStoreDelete(t, id);
    }
  }

  lemma StoresAfterStoreDelete(stores: seq<StoreRow>, users: seq<UserRow>, id: int, nextId: int)
    requires StoresOk(stores, users, nextId)
    ensures StoresOk(Filter(stores, (s: StoreRow) => s.id != id), users, nextId)
    ensures !HasStore(Filter(stores, (s: StoreRow) => s.id != id), id)
  {
    var keepS := (s: StoreRow) => s.id != id;
    FilterPairwise(stores, keepS, (a: StoreRow, b: StoreRow) => a.id != b.id);
    FilterPairwise(stores, keepS, (a: StoreRow, b: StoreRow) => a.email != b.email);
  }

  lemma RatingsAfterStoreDelete(t: Tables, id: int)
    requires SchemaOk(t)
    ensures var u := DeleteStoreCascade(t, id);
      RatingsOk(u.ratings, u.users, u.stores, u.nextRatingId)
    ensures var u := DeleteStoreCascade(t, id);
      forall i :: 0 <= i < |u.ratings| ==> u.ratings[i].storeId != id
  {
    var keepR := (r: RatingRow) => r.storeId != id;
    FilterPairwise(t.ratings, keepR, (a: RatingRow, b: RatingRow) => a.id != b.id);
    FilterPairwise(t.ratings, keepR, (a: RatingRow, b: RatingRow) => a.userId != b.userId || a.storeId != b.storeId);
    DeleteStoreKeepsRefs(t, id);
  }

  lemma AveragesAfterStoreDelete(t: Tables, id: int)
    requires AveragesCurrent(t)
    ensures AveragesCurrent(DeleteStoreCascade(t, id))
  {
    var keepR := (r: RatingRow) => r.storeId != id;
    var u := DeleteStoreCascade(t, id);
    forall i | 0 <= i < |u.stores| ensures u.stores[i].averageRating == StoreAverage(u.ratings, u.stores[i].id) {
      assert u.stores[i] in t.stores && u.stores[i].id != id;
      RatingValuesFilterOthers(t.ratings, keepR, u.stores[i].id);
    }
  }

  /** Every rating left after a store delete still refers to a store that is left. */
  lemma DeleteStoreKeepsRefs(t: Tables, id: int)
    requires SchemaOk(t)
    ensures var u := DeleteStoreCascade(t, id);
      forall i :: 0 <= i < |u.ratings| ==> HasStore(u.stores, u.ratings[i].storeId)
  {
    StoreRefsAfterFilter(t.ratings, t.stores, id);
  }

  /** The sequence-level form of `DeleteStoreKeepsRefs`. */
  lemma StoreRefsAfterFilter(ratings: seq<RatingRow>, stores: seq<StoreRow>, id: int)
    requires forall i :: 0 <= i < |ratings| ==> HasStore(stores, ratings[i].storeId)
    ensures var rs := Filter(ratings, (r: RatingRow) => r.storeId != id);
      forall i :: 0 <= i < |rs| ==> HasStore(Filter(stores, (s: StoreRow) => s.id != id), rs[i].storeId)
  {
    var keepS := (s: StoreRow) => s.id != id;
    var rs := Filter(ratings, (r: RatingRow) => r.storeId != id);
    var ss := Filter(stores, keepS);
    forall i | 0 <= i < |rs| ensures HasStore(ss, rs[i].storeId) {
      var m :| 0 <= m < |ratings| && ratings[m] == rs[i];
      var j :| 0 <= j < |stores| && stores[j].id == ratings[m].storeId;
      FilterKeeps(stores, keepS, j);
      var k :| 0 <= k < |ss| && ss[k] == stores[j];
    }
  }

  /** Deleting a user keeps every constraint and leaves neither a rating by the user nor a
      store owned by the user. */
  lemma DeleteUserKeepsSchema(t: Tables, id: int)
    requires SchemaOk(t)
    ensures SchemaOk(DeleteUserCascade(t, id))
    ensures !HasUser(DeleteUserCascade(t, id).users, id)
    ensures forall i :: 0 <= i < |DeleteUserCascade(t, id).ratings| ==> DeleteUserCascade(t, id).ratings[i].userId != id
    ensures forall i :: 0 <= i < |DeleteUserCascade(t, id).stores| ==> DeleteUserCascade(t, id).stores[i].ownerId != Some(id)
  {
    var keepU := (u: UserRow) => u.id != id;
    FilterPairwise(t.users, keepU, (a: UserRow, b: UserRow) => a.id != b.id);
    FilterPairwise(t.users, keepU, (a: UserRow, b: UserRow) => a.email != b.email);
    DisownKeepsStores(t.stores, t.users, id, t.nextStoreId);
    RatingsAfterUserDelete(t.ratings, t.users, t.stores, id, t.nextRatingId);
  }

  lemma DisownKeepsStores(stores: seq<StoreRow>, users: seq<UserRow>, id: int, nextId: int)
    requires StoresOk(stores, users, nextId)
    ensures StoresOk(Disown(stores, id), Filter(users, (u: UserRow) => u.id != id), nextId)
  {
    DisownKeepsColumns(stores, id, nextId);
    DisownOwnersExist(stores, users, id, nextId);
  }

  /** Clearing owners keeps every store's id in range, its columns within their sizes, and
      ids and emails distinct. */
  lemma DisownKeepsColumns(stores: seq<StoreRow>, id: int, nextId: int)
    requires forall i :: 0 <= i < |stores| ==> 1 <= stores[i].id < nextId && StoreFits(stores[i])
    requires forall i, j :: 0 <= i < j < |stores| ==> stores[i].id != stores[j].id
    requires forall i, j :: 0 <= i < j < |stores| ==> stores[i].email != stores[j].email
    ensures var r := Disown(stores, id);
      && (forall i :: 0 <= i < |r| ==> 1 <= r[i].id < nextId && StoreFits(r[i]))
      && (forall i, j :: 0 <= i < j < |r| ==> r[i].id != r[j].id)
      && (forall i, j :: 0 <= i < j < |r| ==> r[i].email != r[j].email)
  {
    var r := Disown(stores, id);
    DisownKeepsRows(stores, id);
    forall i | 0 <= i < |r| ensures 1 <= r[i].id < nextId && StoreFits(r[i]) {
      assert StoreFits(stores[i]);
    }
  }

  /** Clearing owners changes no other column. */
  lemma DisownKeepsRows(stores: seq<StoreRow>, id: int)
    ensures var r := Disown(stores, id);
      forall i :: 0 <= i < |r| ==> r[i] == stores[i].(ownerId := r[i].ownerId)
  {
  }

  lemma DisownOwnersExist(stores: seq<StoreRow>, users: seq<UserRow>, id: int, nextId: int)
    requires StoresOk(stores, users, nextId)
    ensures var r := Disown(stores, id);
      forall i :: 0 <= i < |r| && r[i].ownerId.Some? ==> HasUser(Filter(users, (u: UserRow) => u.id != id), r[i].ownerId.value)
  {
    var keep := (u: UserRow) => u.id != id;
    var users' := Filter(users, keep);
    var stores' := Disown(stores, id);
    forall i | 0 <= i < |stores'| && stores'[i].ownerId.Some? ensures HasUser(users', stores'[i].ownerId.value) {
      assert stores'[i] == stores[i];
      var o := stores'[i].ownerId.value;
      var j :| 0 <= j < |users| && users[j].id == o;
      FilterKeeps(users, keep, j);
      var k :| 0 <= k < |users'| && users'[k] == users[j];
    }
  }

  lemma RatingsAfterUserDelete(ratings: seq<RatingRow>, users: seq<UserRow>, stores: seq<StoreRow>, id: int, nextId: int)
    requires RatingsOk(ratings, users, stores, nextId)
    ensures RatingsOk(Filter(ratings, (r: RatingRow) => r.userId != id),
                      Filter(users, (u: UserRow) => u.id != id), Disown(stores, id), nextId)
  {
    FilterRatingRows(ratings, (r: RatingRow) => r.userId != id, nextId);
    RaterRefsAfterUserDelete(ratings, users, stores, id, nextId);
    StoreRefsAfterUserDelete(ratings, users, stores, id, nextId);
  }

  /** The constraints of the ratings table that do not refer to other tables survive any filter. */
  lemma FilterRatingRows(ratings: seq<RatingRow>, keep: RatingRow -> bool, nextId: int)
    requires forall i :: 0 <= i < |ratings| ==> 1 <= ratings[i].id < nextId && 1 <= ratings[i].rating <= 5
    requires forall i, j :: 0 <= i < j < |ratings| ==> ratings[i].id != ratings[j].id
    requires UniquePairs(ratings)
    ensures var r := Filter(ratings, keep);
      && (forall i :: 0 <= i < |r| ==> 1 <= r[i].id < nextId && 1 <= r[i].rating <= 5)
      && (forall i, j :: 0 <= i < j < |r| ==> r[i].id != r[j].id)
      && UniquePairs(r)
  {
    var r := Filter(ratings, keep);
    FilterPairwise(ratings, keep, (a: RatingRow, b: RatingRow) => a.id != b.id);
    FilterPairwise(ratings, keep, (a: RatingRow, b: RatingRow) => a.userId != b.userId || a.storeId != b.storeId);
    forall i | 0 <= i < |r| ensures 1 <= r[i].id < nextId && 1 <= r[i].rating <= 5 {
      var m :| 0 <= m < |ratings| && ratings[m] == r[i];
    }
  }

  lemma RaterRefsAfterUserDelete(ratings: seq<RatingRow>, users: seq<UserRow>, stores: seq<StoreRow>, id: int, nextId: int)
    requires RatingsOk(ratings, users, stores, nextId)
    ensures var ratings' := Filter(ratings, (r: RatingRow) => r.userId != id);
      forall i :: 0 <= i < |ratings'| ==> HasUser(Filter(users, (u: UserRow) => u.id != id), ratings'[i].userId)
  {
    var keepU := (u: UserRow) => u.id != id;
    var users' := Filter(users, keepU);
    var ratings' := Filter(ratings, (r: RatingRow) => r.userId != id);
    forall i | 0 <= i < |ratings'| ensures HasUser(users', ratings'[i].userId) {
      var r := ratings'[i];
      assert r in ratings && r.userId != id;
      var j :| 0 <= j < |users| && users[j].id == r.userId;
      FilterKeeps(users, keepU, j);
      var m :| 0 <= m < |users'| && users'[m] == users[j];
    }
  }

  lemma StoreRefsAfterUserDelete(ratings: seq<RatingRow>, users: seq<UserRow>, stores: seq<StoreRow>, id: int, nextId: int)
    requires RatingsOk(ratings, users, stores, nextId)
    ensures var ratings' := Filter(ratings, (r: RatingRow) => r.userId != id);
      forall i :: 0 <= i < |ratings'| ==> HasStore(Disown(stores, id), ratings'[i].storeId)
  {
    var stores' := Disown(stores, id);
    var ratings' := Filter(ratings, (r: RatingRow) => r.userId != id);
    forall i | 0 <= i < |ratings'| ensures HasStore(stores', ratings'[i].storeId) {
      var r := ratings'[i];
      assert r in ratings;
      var k :| 0 <= k < |stores| && stores[k].id == r.storeId;
      assert stores'[k].id == r.storeId;
    }
  }

  /* ------------------------------------------------------------ default admin */

  const AdminName: string := "System Administrator"
  const AdminEmail: string := "admin@store.com"
  const AdminPassword: string := "Admin123!"
  const AdminAddress: string := "123 Main St, Springfield"

  /** The start-up `INSERT ... ON CONFLICT (email) DO NOTHING` of the administrator account.
      On a conflict no row is written, but the `SERIAL` default has already drawn the next id. */
  function InsertDefaultAdmin(t: Tables, salt: int, now: int): Tables {
    if FindUserByEmail(t.users, AdminEmail).Some? then t.(nextUserId := t.nextUserId + 1)
    else
      t.(users := t.users + [UserRow(t.nextUserId, AdminName, AdminEmail, BcryptHash(AdminPassword, salt),
                                     AdminAddress, Admin, now, now)],
         nextUserId := t.nextUserId + 1)
  }

  /** The insert keeps the constraints, leaves an account with the administrator's
      email, changes no store or rating, and a second run adds no row: it only draws
      one more user id. */
  lemma DefaultAdminIdempotent(t: Tables, salt1: int, now1: int, salt2: int, now2: int)
    requires SchemaOk(t)
    ensures SchemaOk(InsertDefaultAdmin(t, salt1, now1))
    ensures FindUserByEmail(InsertDefaultAdmin(t, salt1, now1).users, AdminEmail).Some?
    ensures var t1 := InsertDefaultAdmin(t, salt1, now1);
      InsertDefaultAdmin(t1, salt2, now2) == t1.(nextUserId := t1.nextUserId + 1)
    ensures InsertDefaultAdmin(t, salt1, now1).stores == t.stores && InsertDefaultAdmin(t, salt1, now1).ratings == t.ratings
  {
    var t1 := InsertDefaultAdmin(t, salt1, now1);
    if FindUserByEmail(t.users, AdminEmail).None? {
      var a := t1.users[|t.users|];
      AppendUserOk(t.users, a, t.nextUserId);
      StoresOkMoreUsers(t.stores, t.users, [a], t.nextStoreId);
      RatingsOkMoreUsers(t.ratings, t.users, [a], t.stores, t.nextRatingId);
      assert FindUserByEmail(t1.users, AdminEmail).Some?;
    }
  }

  /** Appending a fresh account whose email is not taken keeps the users table's constraints. */
  lemma AppendUserOk(users: seq<UserRow>, u: UserRow, nextId: int)
    requires UsersOk(users, nextId) && nextId >= 1 && u.id == nextId && UserFits(u)
    requires FindUserByEmail(users, u.email).None?
    ensures UsersOk(users + [u], nextId + 1)
  {
    var us := users + [u];
    forall i, j | 0 <= i < j < |us| ensures us[i].email != us[j].email {
      if j == |users| { assert us[i] == users[i]; }
    }
  }

  lemma StoresOkMoreUsers(stores: seq<StoreRow>, users: seq<UserRow>, more: seq<UserRow>, nextId: int)
    requires StoresOk(stores, users, nextId)
    ensures StoresOk(stores, users + more, nextId)
  {
    forall i | 0 <= i < |stores| && stores[i].ownerId.Some? ensures HasUser(users + more, stores[i].ownerId.value) {
      var j :| 0 <= j < |users| && users[j].id == stores[i].ownerId.value;
      assert (users + more)[j] == users[j];
    }
  }

  lemma RatingsOkMoreUsers(ratings: seq<RatingRow>, users: seq<UserRow>, more: seq<UserRow>, stores: seq<StoreRow>, nextId: int)
    requires RatingsOk(ratings, users, stores, nextId)
    ensures RatingsOk(ratings, users + more, stores, nextId)
  {
    forall i | 0 <= i < |ratings| ensures HasUser(users + more, ratings[i].userId) {
      var j :| 0 <= j < |users| && users[j].id == ratings[i].userId;
      assert (users + more)[j] == users[j];
    }
  }

  lemma RatingsOkMoreStores(ratings: seq<RatingRow>, users: seq<UserRow>, stores: seq<StoreRow>, more: seq<StoreRow>, nextId: int)
    requires RatingsOk(ratings, users, stores, nextId)
    ensures RatingsOk(ratings, users, stores + more, nextId)
  {
    forall i | 0 <= i < |ratings| ensures HasStore(stores + more, ratings[i].storeId) {
      var j :| 0 <= j < |stores| && stores[j].id == ratings[i].storeId;
      assert (stores + more)[j] == stores[j];
    }
  }

  /* ----------------------------------------------------------- the database */

  /** The live database: the three tables and their sequences, changed in place by the
      models' write operations. */
  class Database {
    var users: seq<UserRow>
    var stores: seq<StoreRow>
    var ratings: seq<RatingRow>
    var nextUserId: int
    var nextStoreId: int
    var nextRatingId: int

    function Contents(): Tables
      reads this
    {
      Tables(users, stores, ratings, nextUserId, nextStoreId, nextRatingId)
    }

    predicate Valid()
      reads this
    {
      SchemaOk(Contents())
    }

    /** `initializeDatabase`: empty tables, then the default administrator. */
    constructor Initialize(salt: int, now: int)
      ensures Valid()
      ensures Contents() == InsertDefaultAdmin(Tables([], [], [], 1, 1, 1), salt, now)
    {
      users := [];
      stores := [];
      ratings := [];
      nextUserId := 1;
      nextStoreId := 1;
      nextRatingId := 1;
      new;
      InsertAdmin(salt, now);
    }

    /** The default-admin insert of every start-up. */
    method InsertAdmin(salt: int, now: int)
      modifies this
      ensures Contents() == InsertDefaultAdmin(old(Contents()), salt, now)
      ensures old(Valid()) ==> Valid()
    {
      if old(Valid()) { DefaultAdminIdempotent(Contents(), salt, now, salt, now); }
      if FindUserByEmail(users, AdminEmail).None? {
        users := users + [UserRow(nextUserId, AdminName, AdminEmail, BcryptHash(AdminPassword, salt),
                                  AdminAddress, Admin, now, now)];
      }
      nextUserId := nextUserId + 1;
    }

    /** Replace the whole state (the result of one statement). */
    method Store(t: Tables)
      modifies this
      ensures Contents() == t
    {
      users, stores, ratings := t.users, t.stores, t.ratings;
      nextUserId, nextStoreId, nextRatingId := t.nextUserId, t.nextStoreId, t.nextRatingId;
    }
  }
}
