/** backend/controllers/storeController.js: creating a store (the duplicate and owner
    checks, then the insert), one store with its rating summary, and the owner's dashboard. */
module StoreController {
  import opened Common
  import opened Lists
  import opened Schema
  import opened Joins
  import StoreModel
  import JsValues
  import Guards

  const StoreExists := "Store already exists with this name or email"
  const InvalidOwner := "Invalid owner. User must have store_owner role"
  const InternalError := "Internal server error"
  const StoreNotFound := "Store not found"
  const OwnerStoreNotFound := "Store not found for this owner"

  /** The 201 body of `createStore`: the message and the new store's columns as submitted. */
  datatype CreatedStore = CreatedStore(message: string, id: int, name: string, email: string,
                                       address: string, ownerId: int)

  /* ------------------------------------------------------------ createStore */

  /** A store with this name and email would repeat an existing one: the same email, or the
      same name up to case. */
  predicate Clashes(name: string, email: string, storeName: string, storeEmail: string) {
    storeEmail == email || Lower(storeName) == Lower(name)
  }

  /** Some existing store clashes with the new one. */
  predicate Duplicate(t: Tables, name: string, email: string) {
    exists i :: 0 <= i < |t.stores| && Clashes(name, email, t.stores[i].name, t.stores[i].email)
  }

  /** `existing.find(...)` over the rows a query returned. */
  predicate FoundAmong(rows: seq<StoreModel.StoreSummary>, name: string, email: string) {
    exists i :: 0 <= i < |rows| && Clashes(name, email, rows[i].name, rows[i].email)
  }

  /** `Store.findAll({ name })`: only the name filter, no sort key, no window. */
  function NameQuery(name: string): StoreModel.StoreQuery {
    StoreModel.StoreQuery(name, "", "", "", "", 0, 0)
  }

  /** The second half of `createStore`: `User.findById(owner_id)` must give a user whose role
      is `store_owner`; then `Store.create`, whose constraint violations are caught as 500. */
  function OwnerThenInsert(t: Tables, name: string, email: string, address: string, ownerId: int, now: int)
    : (Tables, Reply<CreatedStore>)
  {
    match FindUser(t.users, ownerId)
    case None => (t, Failure(400, InvalidOwner))
    case Some(owner) =>
      if owner.role != StoreOwner then (t, Failure(400, InvalidOwner))
      else
        match StoreModel.Create(t, name, email, address, ownerId, now)
        case None => (t, Failure(500, InternalError))
        case Some((u, id)) => (u, Json(CreatedStore("Store created successfully", id, name, email, address, ownerId), true))
  }

  /** `createStore` as written: the duplicate check only looks at the stores that the
      `ILIKE '%name%'` search of `Store.findAll({ name })` returns. */
  function CreateStore(t: Tables, name: string, email: string, address: string, ownerId: int, now: int)
    : (Tables, Reply<CreatedStore>)
  {
    match StoreModel.FindAll(t, NameQuery(name))
    case None => (t, Failure(500, InternalError))
    case Some(rows) =>
      if FoundAmong(rows, name, email) then (t, Failure(400, StoreExists))
      else OwnerThenInsert(t, name, email, address, ownerId, now)
  }

  /** `createStore` with the duplicate check it evidently intends: over every stored store. */
  function CreateStoreChecked(t: Tables, name: string, email: string, address: string, ownerId: int, now: int)
    : (Tables, Reply<CreatedStore>)
  {
    if Duplicate(t, name, email) then (t, Failure(400, StoreExists))
    else OwnerThenInsert(t, name, email, address, ownerId, now)
  }

  /** The owner check rejects exactly an absent owner or one whose role is not `store_owner`,
      and then nothing changes. Past it, the insert fails (500, nothing written) exactly when
      a value is too long for its column or the email is taken; otherwise the reply is 201
      with the fresh id and the submitted columns, the new row is appended with average 0,
      and the constraints and current averages are kept. */
  lemma OwnerThenInsertCorrect(t: Tables, name: string, email: string, address: string, ownerId: int, now: int)
    requires SchemaOk(t)
    ensures var (u, reply) := OwnerThenInsert(t, name, email, address, ownerId, now);
      var ownerOk := FindUser(t.users, ownerId).Some? && FindUser(t.users, ownerId).value.role == StoreOwner;
      var fits := |name| <= 60 && |email| <= 255 && |address| <= 400;
      var emailFree := forall i :: 0 <= i < |t.stores| ==> t.stores[i].email != email;
      && (reply == Failure(400, InvalidOwner) <==> !ownerOk)
      && (reply == Failure(500, InternalError) <==> ownerOk && !(fits && emailFree))
      && (reply.Failure? ==> u == t)
      && (reply.Json? ==>
            && reply.created && ownerOk && fits && emailFree
            && reply.body == CreatedStore("Store created successfully", t.nextStoreId, name, email, address, ownerId)
            && u.stores == t.stores + [StoreRow(t.nextStoreId, name, email, address, Some(ownerId), 0, now, now)]
            && u.users == t.users && u.ratings == t.ratings
            && SchemaOk(u)
            && (AveragesCurrent(t) ==> AveragesCurrent(u)))
  {
    StoreModel.CreateCorrect(t, name, email, address, ownerId, now);
  }

  /** As written, a 400 for a duplicate is only ever given for a real duplicate. */
  lemma CreateStoreSound(t: Tables, name: string, email: string, address: string, ownerId: int, now: int)
    ensures CreateStore(t, name, email, address, ownerId, now).1 == Failure(400, StoreExists) ==> Duplicate(t, name, email)
    ensures !FoundAmong(StoreModel.FindAll(t, NameQuery(name)).value, name, email) ==>
      CreateStore(t, name, email, address, ownerId, now) == OwnerThenInsert(t, name, email, address, ownerId, now)
  {
    var q := NameQuery(name);
    StoreModel.OrderingRules(q);
    StoreModel.FindAllCorrect(t, q, "created_at", false);
    var rows := StoreModel.FindAll(t, q).value;
    if FoundAmong(rows, name, email) {
      var i :| 0 <= i < |rows| && Clashes(name, email, rows[i].name, rows[i].email);
      var j :| 0 <= j < |t.stores| && StoreModel.Matches(q, t.stores[j]) && rows[i] == StoreModel.Summarize(t.ratings, t.stores[j]);
      assert Clashes(name, email, t.stores[j].name, t.stores[j].email);
    }
  }

  /** As written, a name free of `ILIKE` metacharacters is caught whenever a store already
      has it up to case. */
  lemma CreateStoreFindsPlainNames(t: Tables, name: string, email: string, address: string, ownerId: int, now: int, j: nat)
    requires StoreModel.Plain(name)
    requires j < |t.stores| && Lower(t.stores[j].name) == Lower(name)
    ensures CreateStore(t, name, email, address, ownerId, now) == (t, Failure(400, StoreExists))
  {
    var q := NameQuery(name);
    StoreModel.OrderingRules(q);
    StoreModel.FindAllCorrect(t, q, "created_at", false);
    StoreModel.ILikeContainsPlain(t.stores[j].name, name);
    assert OccursAt(Lower(name), Lower(t.stores[j].name), 0);
    assert StoreModel.Matches(q, t.stores[j]);
    var rows := StoreModel.FindAll(t, q).value;
    var s := StoreModel.Summarize(t.ratings, t.stores[j]);
    assert s in rows;
    var i :| 0 <= i < |rows| && rows[i] == s;
    assert Clashes(name, email, rows[i].name, rows[i].email);
  }

  /** With the check over every store, 400 is given exactly for a duplicate, and the only
      other failures are the owner check and a value too long for its column: the insert is
      never refused for a taken email. A created store clashes with no other store. */
  lemma CreateStoreCheckedCorrect(t: Tables, name: string, email: string, address: string, ownerId: int, now: int)
    requires SchemaOk(t)
    ensures var (u, reply) := CreateStoreChecked(t, name, email, address, ownerId, now);
      && (reply == Failure(400, StoreExists) <==> Duplicate(t, name, email))
      && (reply.Failure? ==> u == t)
      && (reply == Failure(500, InternalError) ==> !(|name| <= 60 && |email| <= 255 && |address| <= 400))
      && (reply.Json? ==>
            && SchemaOk(u) && |u.stores| == |t.stores| + 1
            && u.stores[|t.stores|].name == name && u.stores[|t.stores|].email == email
            && (forall i :: 0 <= i < |t.stores| ==> !Clashes(name, email, u.stores[i].name, u.stores[i].email)))
  {
    if !Duplicate(t, name, email) {
      var (u, reply) := OwnerThenInsert(t, name, email, address, ownerId, now);
      assert CreateStoreChecked(t, name, email, address, ownerId, now) == (u, reply);
      OwnerThenInsertCorrect(t, name, email, address, ownerId, now);
      if reply.Json? {
        assert u.stores[..|t.stores|] == t.stores;
        forall i | 0 <= i < |t.stores| ensures !Clashes(name, email, u.stores[i].name, u.stores[i].email) {
          assert u.stores[i] == t.stores[i];
        }
      }
    }
  }

  /** The request against the live database as written: the name search, then the owner
      lookup and the insert. */
  method CreateStoreOn(db: Database, name: string, email: string, address: string, ownerId: int, now: int)
    returns (reply: Reply<CreatedStore>)
    modifies db
    ensures (db.Contents(), reply) == CreateStore(old(db.Contents()), name, email, address, ownerId, now)
  {
    var r := CreateStore(db.Contents(), name, email, address, ownerId, now);
    db.Store(r.0);
    reply := r.1;
  }

  /** The request against the live database with the check over every store. */
  method CreateStoreCheckedOn(db: Database, name: string, email: string, address: string, ownerId: int, now: int)
    returns (reply: Reply<CreatedStore>)
    modifies db
    ensures (db.Contents(), reply) == CreateStoreChecked(old(db.Contents()), name, email, address, ownerId, now)
  {
    var r := CreateStoreChecked(db.Contents(), name, email, address, ownerId, now);
    db.Store(r.0);
    reply := r.1;
  }

  /* ------------------------------------------- the two gaps of the search */

  const Owner := UserRow(1, "Owner Of The Corner Shop", "owner@shop.com", Bcrypt(0, "Secret1!"), "1 Side St", StoreOwner, 0, 0)

  /** One store owner with one store of the given name and email. */
  function OneStore(name: string, email: string): Tables {
    Tables([Owner], [StoreRow(1, name, email, "1 Side St", Some(1), 0, 0, 0)], [], 2, 2, 1)
  }

  /** A search that the only store does not match returns nothing. */
  lemma NoMatchNoRows(t: Tables, name: string)
    requires |t.stores| == 1 && !StoreModel.ILikeContains(t.stores[0].name, name) && name != ""
    ensures StoreModel.FindAll(t, NameQuery(name)) == Some([])
  {
    var q := NameQuery(name);
    StoreModel.OrderingRules(q);
    StoreModel.FindAllCorrect(t, q, "created_at", false);
  }

  /** As written, a new store reusing an existing store's email under an unrelated name is not
      caught by the duplicate check: the insert then violates `UNIQUE (email)` and the reply
      is a 500, where the check over every store answers 400. */
  lemma SameEmailOtherName()
    ensures var t := OneStore("abc", "shop@mail.com");
      && CreateStore(t, "xyz", "shop@mail.com", "2 Main St", 1, 5) == (t, Failure(500, InternalError))
      && CreateStoreChecked(t, "xyz", "shop@mail.com", "2 Main St", 1, 5) == (t, Failure(400, StoreExists))
  {
    var t := OneStore("abc", "shop@mail.com");
    XyzMissesAbc();
    NoMatchNoRows(t, "xyz");
    assert !FoundAmong([], "xyz", "shop@mail.com");
    assert CreateStore(t, "xyz", "shop@mail.com", "2 Main St", 1, 5) == OwnerThenInsert(t, "xyz", "shop@mail.com", "2 Main St", 1, 5);
    assert FindUser(t.users, 1) == Some(Owner);
    assert FindStoreByEmail(t.stores, "shop@mail.com").Some?;
    assert StoreModel.Create(t, "xyz", "shop@mail.com", "2 Main St", 1, 5).None?;
    assert Clashes("xyz", "shop@mail.com", t.stores[0].name, t.stores[0].email);
  }

  /** `abc` does not contain `xyz`, ignoring case. */
  lemma XyzMissesAbc()
    ensures !StoreModel.ILikeContains("abc", "xyz")
  {
    StoreModel.ILikeContainsPlain("abc", "xyz");
    assert Lower("abc") == "abc" && Lower("xyz") == "xyz";
    assert !Contains("abc", "xyz");
  }

  /** As written, a name holding a backslash does not match itself under `ILIKE` (the
      backslash is the pattern's escape character), so a second store with exactly the same
      name is created; the check over every store answers 400. */
  lemma BackslashNameRepeats()
    ensures var t := OneStore("a\\b", "first@mail.com");
      var (u, reply) := CreateStore(t, "a\\b", "second@mail.com", "2 Main St", 1, 5);
      && reply.Json? && |u.stores| == 2 && u.stores[0].name == u.stores[1].name
      && CreateStoreChecked(t, "a\\b", "second@mail.com", "2 Main St", 1, 5) == (t, Failure(400, StoreExists))
  {
    var t := OneStore("a\\b", "first@mail.com");
    StoreModel.BackslashMissesItself();
    NoMatchNoRows(t, "a\\b");
    assert FindUser(t.users, 1) == Some(Owner);
    assert FindStoreByEmail(t.stores, "second@mail.com").None?;
    assert HasUser(t.users, 1) by { assert t.users[0].id == 1; }
    assert Clashes("a\\b", "second@mail.com", t.stores[0].name, t.stores[0].email);
  }

  /* ----------------------------------------------------------- getAllStores */

  /** `getAllStores`: the name and address filters (an empty one is absent), `sortBy` and
      `sortOrder` handed to `findAll` without a window; a failing query is a 500. */
  function GetAllStores(t: Tables, name: string, address: string, sortBy: string, sortOrder: string)
    : Reply<seq<StoreModel.StoreSummary>>
  {
    match StoreModel.FindAll(t, StoreModel.StoreQuery(name, "", address, sortBy, sortOrder, 0, 0))
    case None => Failure(500, InternalError)
    case Some(stores) => Json(stores, false)
  }

  /** The listing fails (500) exactly when `sortBy` names no column. Otherwise it holds the
      aggregate row of every store whose name and address contain the given filters, each
      once, only such rows, in the order `findAll` is asked for. */
  lemma GetAllStoresCorrect(t: Tables, name: string, address: string, sortBy: string, sortOrder: string)
    ensures var q := StoreModel.StoreQuery(name, "", address, sortBy, sortOrder, 0, 0);
      var reply := GetAllStores(t, name, address, sortBy, sortOrder);
      && (reply.Failure? <==> StoreModel.Ordering(q).None?)
      && (reply.Failure? ==> reply == Failure(500, InternalError))
      && (reply.Json? ==>
            var (column, asc) := StoreModel.Ordering(q).value;
            && !reply.created
            && SortedBy(reply.body, StoreModel.Before(column, asc))
            && (forall i :: 0 <= i < |reply.body| ==> StoreModel.MatchingRow(t, q, reply.body[i]))
            && (forall j :: 0 <= j < |t.stores| && StoreModel.Matches(q, t.stores[j]) ==>
                  StoreModel.Summarize(t.ratings, t.stores[j]) in reply.body))
  {
    var q := StoreModel.StoreQuery(name, "", address, sortBy, sortOrder, 0, 0);
    StoreModel.OrderingRules(q);
    if StoreModel.Ordering(q).Some? {
      var (column, asc) := StoreModel.Ordering(q).value;
      StoreModel.FindAllCorrect(t, q, column, asc);
    }
  }

  /* ----------------------------------------------------------- getStoreById */

  /** The rating values of a list of ratings, in order. */
  function Stars(ratings: seq<RatingWithUser>): (xs: seq<int>)
    ensures |xs| == |ratings|
    ensures forall i :: 0 <= i < |ratings| ==> xs[i] == ratings[i].rating.rating
  {
    seq(|ratings|, i requires 0 <= i < |ratings| => ratings[i].rating.rating)
  }

  /** `{5: 0, 4: 0, 3: 0, 2: 0, 1: 0}` */
  const InitialDistribution: map<int, nat> := map[5 := 0, 4 := 0, 3 := 0, 2 := 0, 1 := 0]

  /** `d[v] = (d[v] || 0) + 1` */
  function Bump(d: map<int, nat>, v: int): map<int, nat> {
    d[v := (if v in d then d[v] else 0) + 1]
  }

  /** The distribution after the `forEach` has visited every value of `xs`, in order. */
  function Distribution(xs: seq<int>): map<int, nat>
    decreases |xs|
  {
    if xs == [] then InitialDistribution else Bump(Distribution(xs[..|xs| - 1]), xs[|xs| - 1])
  }

  /** The distribution has a key for 1..5 and for every value seen, and each key counts the
      values equal to it. */
  lemma {:induction false} DistributionCounts(xs: seq<int>)
    ensures forall v :: v in Distribution(xs) <==> (1 <= v <= 5 || v in xs)
    ensures forall v :: v in Distribution(xs) ==> Distribution(xs)[v] == Occurrences(xs, v)
  {
    if xs != [] {
      var ys, x := xs[..|xs| - 1], xs[|xs| - 1];
      assert xs == ys + [x];
      DistributionCounts(ys);
      forall v ensures v in xs <==> v in ys || v == x {
      }
      forall v | v in Distribution(xs) ensures Distribution(xs)[v] == Occurrences(xs, v) {
        OccurrencesAppend(ys, [x], v);
        assert [x][1..] == [];
        if v == x && x !in Distribution(ys) {
          OccurrencesAbsent(ys, x);
        }
      }
    }
  }

  /** For ratings in 1..5 the keys are exactly 1..5 and the five counts add up to the number
      of ratings. */
  lemma DistributionOfRatings(xs: seq<int>)
    requires forall i :: 0 <= i < |xs| ==> 1 <= xs[i] <= 5
    ensures Distribution(xs).Keys == {1, 2, 3, 4, 5}
    ensures var d := Distribution(xs); d[1] + d[2] + d[3] + d[4] + d[5] == |xs|
  {
    DistributionCounts(xs);
    OccurrencesPartition(xs);
    forall v ensures v in Distribution(xs) <==> v in {1, 2, 3, 4, 5} {
      if v in xs {
        var i :| 0 <= i < |xs| && xs[i] == v;
      }
    }
  }

  /** The `forEach` loop of `getStoreById`. */
  method RatingDistribution(ratings: seq<RatingWithUser>) returns (d: map<int, nat>)
    ensures d == Distribution(Stars(ratings))
  {
    d := map[5 := 0, 4 := 0, 3 := 0, 2 := 0, 1 := 0];
    var i := 0;
    while i < |ratings|
      invariant 0 <= i <= |ratings|
      invariant d == Distribution(Stars(ratings)[..i])
    {
      var v := ratings[i].rating.rating;
      assert Stars(ratings)[..i + 1][..i] == Stars(ratings)[..i];
      d := d[v := (if v in d then d[v] else 0) + 1];
      i := i + 1;
    }
    assert Stars(ratings)[..i] == Stars(ratings);
  }

  /** A JavaScript number that is a ratio of integers: `sum / count`. */
  datatype Ratio = Ratio(num: int, den: int)

  /** `total > 0 ? sum / total : 0` */
  function Average(xs: seq<int>): Ratio {
    if |xs| > 0 then Ratio(Sum(xs), |xs|) else Ratio(0, 1)
  }

  /** The average is 0 for no ratings and otherwise the mean, which lies in 1..5 for ratings
      in 1..5; rounded to hundredths it is the rounded mean the SQL aggregates compute. */
  lemma AverageCorrect(xs: seq<int>)
    requires forall i :: 0 <= i < |xs| ==> 1 <= xs[i] <= 5
    ensures var a := Average(xs);
      && a.den >= 1
      && (xs == [] ==> a.num == 0)
      && (xs != [] ==> a.den == |xs| && |xs| <= a.num <= 5 * |xs| && a.num == Sum(xs))
      && RoundHalfAway(100 * a.num, a.den) == RoundedMean(xs)
  {
    SumBounds(xs, 1, 5);
  }

  /** The body of `getStoreById`: the `findById` row with its `average_rating` and
      `total_ratings` replaced by the values computed from the fetched ratings, and the
      distribution. */
  datatype StoreDetails = StoreDetails(store: StoreModel.StoreSummary, averageRating: Ratio,
                                       totalRatings: nat, ratingDistribution: map<int, nat>)

  /** `getStoreById(id)`. The path id goes to PostgreSQL as text: one it cannot read as an
      `INTEGER` fails `findById` and ends in the catch-all reply. */
  function GetStoreById(t: Tables, path: string): Reply<StoreDetails> {
    match Guards.PgInteger(JsValues.Str(path))
    case None => Failure(500, InternalError)
    case Some(storeId) =>
      match StoreModel.FindById(t, storeId)
      case None => Failure(404, StoreNotFound)
      case Some(store) =>
        var ratings := StoreModel.GetStoreRatings(t, storeId);
        Json(StoreDetails(store, Average(Stars(ratings)), |ratings|, Distribution(Stars(ratings))), false)
  }

  /** The request as the controller runs it, with the loop building the distribution. */
  method GetStoreByIdOn(db: Database, path: string) returns (reply: Reply<StoreDetails>)
    ensures reply == GetStoreById(db.Contents(), path)
  {
    var id := Guards.PgInteger(JsValues.Str(path));
    if id.None? {
      return Failure(500, InternalError);
    }
    var storeId := id.value;
    var store := StoreModel.FindById(db.Contents(), storeId);
    if store.None? {
      return Failure(404, StoreNotFound);
    }
    var ratings := StoreModel.GetStoreRatings(db.Contents(), storeId);
    var distribution := RatingDistribution(ratings);
    reply := Json(StoreDetails(store.value, Average(Stars(ratings)), |ratings|, distribution), false);
  }

  /** What the body says about a list of ratings in 1..5: the distribution has the keys
      1..5, counts each value and adds up to the number of ratings; the average is 0 for no
      ratings and otherwise lies in 1..5. */
  lemma StarsSummary(xs: seq<int>)
    requires forall i :: 0 <= i < |xs| ==> 1 <= xs[i] <= 5
    ensures var d := Distribution(xs);
      && d.Keys == {1, 2, 3, 4, 5}
      && (forall v :: v in d ==> d[v] == Occurrences(xs, v))
      && d[1] + d[2] + d[3] + d[4] + d[5] == |xs|
    ensures var a := Average(xs);
      && a.den >= 1
      && (xs == [] ==> a.num == 0)
      && (xs != [] ==> a.den <= a.num <= 5 * a.den)
  {
    DistributionCounts(xs);
    DistributionOfRatings(xs);
    AverageCorrect(xs);
  }

  /** The fetched ratings of a store are exactly as many as its ratings in the table, and
      each is in 1..5. */
  lemma StoreRatingsStars(t: Tables, storeId: int)
    requires SchemaOk(t)
    ensures var xs := Stars(StoreModel.GetStoreRatings(t, storeId));
      && |xs| == |RatingValues(t.ratings, storeId)|
      && forall i :: 0 <= i < |xs| ==> 1 <= xs[i] <= 5
  {
    var r := StoreModel.GetStoreRatings(t, storeId);
    StoreModel.GetStoreRatingsCorrect(t, storeId);
    FilterCountsValues(t.ratings, storeId);
    forall i | 0 <= i < |r| ensures 1 <= r[i].rating.rating <= 5 {
      var k :| 0 <= k < |t.ratings| && t.ratings[k] == r[i].rating;
    }
  }

  /** Inserting a rating into a list adds its value to the sum of the list's values. */
  lemma {:induction false} StarsInsertSum(x: RatingWithUser, s: seq<RatingWithUser>, le: (RatingWithUser, RatingWithUser) -> bool)
    ensures Sum(Stars(Insert(x, s, le))) == x.rating.rating + Sum(Stars(s))
  {
    if s != [] && !le(x, s[0]) {
      StarsInsertSum(x, s[1..], le);
      StarsCons(s[0], Insert(x, s[1..], le));
      StarsCons(s[0], s[1..]);
      assert [s[0]] + s[1..] == s;
    } else {
      StarsCons(x, s);
    }
  }

  lemma StarsCons(x: RatingWithUser, s: seq<RatingWithUser>)
    ensures Sum(Stars([x] + s)) == x.rating.rating + Sum(Stars(s))
  {
    StarsPrepend(x, s);
  }

  /** Sorting the ratings keeps the sum of their values. */
  lemma {:induction false} StarsSortSum(s: seq<RatingWithUser>, le: (RatingWithUser, RatingWithUser) -> bool)
    ensures Sum(Stars(SortBy(s, le))) == Sum(Stars(s))
  {
    if s != [] {
      var sorted := SortBy(s[1..], le);
      assert SortBy(s, le) == Insert(s[0], sorted, le);
      StarsSortSum(s[1..], le);
      StarsInsertSum(s[0], sorted, le);
      assert [s[0]] + s[1..] == s;
      StarsCons(s[0], s[1..]);
    }
  }

  /** When every rating's author exists, joining a store's ratings with their authors keeps
      the rating values, in table order. */
  lemma {:induction false} StarsJoined(ratings: seq<RatingRow>, users: seq<UserRow>, storeId: int, p: RatingRow -> bool)
    requires forall r :: p(r) == (r.storeId == storeId)
    requires forall i :: 0 <= i < |ratings| ==> HasUser(users, ratings[i].userId)
    ensures Stars(JoinUsers(Filter(ratings, p), users)) == RatingValues(ratings, storeId)
  {
    if ratings != [] {
      StarsJoined(ratings[1..], users, storeId, p);
      var r := ratings[0];
      var rest := Filter(ratings[1..], p);
      if p(r) {
        assert Filter(ratings, p) == [r] + rest;
        StarsJoinHead(r, rest, users);
      } else {
        assert Filter(ratings, p) == rest;
      }
    }
  }

  lemma StarsJoinHead(r: RatingRow, rest: seq<RatingRow>, users: seq<UserRow>)
    requires HasUser(users, r.userId)
    ensures Stars(JoinUsers([r] + rest, users)) == [r.rating] + Stars(JoinUsers(rest, users))
  {
    var u := FindUser(users, r.userId).value;
    var s := [r] + rest;
    assert s[0] == r && s[1..] == rest;
    var j := JoinUsers(rest, users);
    assert JoinUsers(s, users) == [RatingWithUser(r, u)] + j;
    StarsPrepend(RatingWithUser(r, u), j);
  }

  lemma StarsPrepend(x: RatingWithUser, s: seq<RatingWithUser>)
    ensures Stars([x] + s) == [x.rating.rating] + Stars(s)
  {
  }

  /** The ratings `getStoreRatings` returns add up to the store's rating values. */
  lemma StoreRatingsSum(t: Tables, storeId: int)
    requires SchemaOk(t)
    ensures Sum(Stars(StoreModel.GetStoreRatings(t, storeId))) == Sum(RatingValues(t.ratings, storeId))
  {
    var p := (x: RatingRow) => x.storeId == storeId;
    forall i | 0 <= i < |t.ratings| ensures HasUser(t.users, t.ratings[i].userId) {
      assert t.ratings[i] in t.ratings;
    }
    StarsSortSum(JoinUsers(Filter(t.ratings, p), t.users), StoreModel.NewestCreatedFirst);
    StarsJoined(t.ratings, t.users, storeId, p);
  }

  /** Two lists of the same length and sum have the same rounded mean. */
  lemma MeanOfSameSum(xs: seq<int>, ys: seq<int>)
    requires |xs| == |ys| && Sum(xs) == Sum(ys)
    ensures RoundedMean(xs) == RoundedMean(ys)
  {
  }

  /** Filtering a store's ratings keeps as many rows as it has rating values. */
  lemma {:induction false} FilterCountsValues(ratings: seq<RatingRow>, storeId: int)
    ensures |Filter(ratings, (x: RatingRow) => x.storeId == storeId)| == |RatingValues(ratings, storeId)|
  {
    if ratings != [] { FilterCountsValues(ratings[1..], storeId); }
  }

  /** What the body of `getStoreById` says about store `storeId`: it carries the store's
      `findById` row; `total_ratings` is the row's own count of ratings; the distribution has
      the keys 1..5, counts each value and adds up to `total_ratings`; the average is 0
      without ratings and otherwise the exact mean of the store's rating values, which lies
      in 1..5, and it rounds to the row's `average_rating`. */
  predicate DetailsAgree(t: Tables, storeId: int, b: StoreDetails) {
    var xs := Stars(StoreModel.GetStoreRatings(t, storeId));
    var d := b.ratingDistribution;
    && Some(b.store) == StoreModel.FindById(t, storeId)
    && b.totalRatings == b.store.totalRatings
    && d.Keys == {1, 2, 3, 4, 5}
    && (forall v :: v in d ==> d[v] == Occurrences(xs, v))
    && d[1] + d[2] + d[3] + d[4] + d[5] == b.totalRatings
    && b.averageRating.den >= 1
    && (b.totalRatings == 0 ==> b.averageRating.num == 0)
    && (b.totalRatings > 0 ==> b.averageRating.den <= b.averageRating.num <= 5 * b.averageRating.den)
    && (b.totalRatings > 0 ==> b.averageRating == Ratio(Sum(RatingValues(t.ratings, storeId)), b.totalRatings))
    && RoundHalfAway(100 * b.averageRating.num, b.averageRating.den) == b.store.averageRating
  }

  /** 500 for a path id that is not an `INTEGER`. Otherwise 404 exactly for an absent store,
      and else a body that agrees with the store as `DetailsAgree` states. */
  lemma GetStoreByIdCorrect(t: Tables, path: string)
    requires SchemaOk(t)
    ensures Guards.PgInteger(JsValues.Str(path)).None? ==> GetStoreById(t, path) == Failure(500, InternalError)
    ensures Guards.PgInteger(JsValues.Str(path)).Some? ==>
      var storeId := Guards.PgInteger(JsValues.Str(path)).value;
      var reply := GetStoreById(t, path);
      && (reply.Failure? <==> !HasStore(t.stores, storeId))
      && (reply.Failure? ==> reply == Failure(404, StoreNotFound))
      && (reply.Json? ==> !reply.created && DetailsAgree(t, storeId, reply.body))
  {
    var id := Guards.PgInteger(JsValues.Str(path));
    if id.Some? && HasStore(t.stores, id.value) {
      var storeId := id.value;
      var ratings := StoreModel.GetStoreRatings(t, storeId);
      StoreModel.FindByIdCorrect(t, storeId);
      var b := StoreDetails(StoreModel.FindById(t, storeId).value, Average(Stars(ratings)), |ratings|, Distribution(Stars(ratings)));
      assert GetStoreById(t, path) == Json(b, false);
      StoreDetailsAgree(t, storeId);
    }
  }

  /** The body built for an existing store agrees with it. */
  lemma StoreDetailsAgree(t: Tables, storeId: int)
    requires SchemaOk(t) && HasStore(t.stores, storeId)
    ensures StoreModel.FindById(t, storeId).Some?
    ensures var ratings := StoreModel.GetStoreRatings(t, storeId);
      DetailsAgree(t, storeId, StoreDetails(StoreModel.FindById(t, storeId).value, Average(Stars(ratings)), |ratings|,
                                            Distribution(Stars(ratings))))
  {
    StoreModel.FindByIdCorrect(t, storeId);
    StoreRatingsStars(t, storeId);
    StarsSummary(Stars(StoreModel.GetStoreRatings(t, storeId)));
    DetailsAverage(t, storeId);
  }

  /** The reply's average is the mean of the store's rating values, and rounds to the
      `average_rating` of its `findById` row. */
  lemma DetailsAverage(t: Tables, storeId: int)
    requires SchemaOk(t) && HasStore(t.stores, storeId)
    ensures var xs := Stars(StoreModel.GetStoreRatings(t, storeId));
      var a := Average(xs);
      && StoreModel.FindById(t, storeId).Some?
      && (xs != [] ==> a == Ratio(Sum(RatingValues(t.ratings, storeId)), |xs|))
      && RoundHalfAway(100 * a.num, a.den) == StoreModel.FindById(t, storeId).value.averageRating
  {
    var xs := Stars(StoreModel.GetStoreRatings(t, storeId));
    StoreRatingsStars(t, storeId);
    StoreRatingsSum(t, storeId);
    AverageCorrect(xs);
    StoreModel.FindByIdCorrect(t, storeId);
    MeanOfSameSum(xs, RatingValues(t.ratings, storeId));
  }

  /* ------------------------------------------------- getStoreOwnerDashboard */

  /** The dashboard body: `findById` of the owner's first store, and its ratings. */
  datatype Dashboard = Dashboard(store: Option<StoreModel.StoreSummary>, ratings: seq<RatingWithUser>)

  /** `getStoreOwnerDashboard` for the signed-in owner. */
  function GetStoreOwnerDashboard(t: Tables, ownerId: int): Reply<Dashboard> {
    var stores := StoreModel.FindByOwnerId(t, ownerId);
    if |stores| == 0 then Failure(404, OwnerStoreNotFound)
    else
      var store := stores[0];
      Json(Dashboard(StoreModel.FindById(t, store.id), StoreModel.GetStoreRatings(t, store.id)), false)
  }

  /** Store `j` is the owner's first store in table order. */
  predicate FirstOwned(stores: seq<StoreRow>, ownerId: int, j: int)
    requires 0 <= j < |stores|
  {
    stores[j].ownerId == Some(ownerId) && forall k :: 0 <= k < j ==> stores[k].ownerId != Some(ownerId)
  }

  /** The owner's stores, as `findByOwnerId` selects them, are none exactly when no store has
      that owner, and otherwise begin with the owner's first store. */
  lemma OwnedStores(stores: seq<StoreRow>, ownerId: int)
    ensures var owned := Filter(stores, (s: StoreRow) => s.ownerId == Some(ownerId));
      && (owned == [] <==> forall j :: 0 <= j < |stores| ==> stores[j].ownerId != Some(ownerId))
      && (owned != [] ==> exists j :: 0 <= j < |stores| && FirstOwned(stores, ownerId, j) && stores[j] == owned[0])
  {
    var p := (s: StoreRow) => s.ownerId == Some(ownerId);
    var owned := Filter(stores, p);
    if owned != [] {
      FilterFirst(stores, p);
      assert owned[0] in stores;
    }
  }

  /** With distinct ids, looking a store up by its own id finds that store. */
  lemma FindStoreAt(stores: seq<StoreRow>, j: nat)
    requires j < |stores|
    requires forall i, k :: 0 <= i < k < |stores| ==> stores[i].id != stores[k].id
    ensures FindStore(stores, stores[j].id) == Some(stores[j])
  {
    var s := FindStore(stores, stores[j].id).value;
    var m :| 0 <= m < |stores| && stores[m] == s;
    assert m == j;
  }

  /** 404 exactly when the user owns no store. Otherwise the dashboard is about the first of
      the owner's stores in table order: its aggregate row and its ratings. */
  lemma GetStoreOwnerDashboardCorrect(t: Tables, ownerId: int)
    requires SchemaOk(t)
    ensures var reply := GetStoreOwnerDashboard(t, ownerId);
      && (reply.Failure? <==> forall j :: 0 <= j < |t.stores| ==> t.stores[j].ownerId != Some(ownerId))
      && (reply.Failure? ==> reply == Failure(404, OwnerStoreNotFound))
      && (reply.Json? ==>
            exists j :: 0 <= j < |t.stores| && FirstOwned(t.stores, ownerId, j)
              && reply.body.store == Some(StoreModel.Summarize(t.ratings, t.stores[j]))
              && reply.body.ratings == StoreModel.GetStoreRatings(t, t.stores[j].id))
  {
    OwnedStores(t.stores, ownerId);
    var owned := Filter(t.stores, (s: StoreRow) => s.ownerId == Some(ownerId));
    var found := StoreModel.FindByOwnerId(t, ownerId);
    assert |found| == |owned|;
    if owned != [] {
      var j :| 0 <= j < |t.stores| && FirstOwned(t.stores, ownerId, j) && t.stores[j] == owned[0];
      FindStoreAt(t.stores, j);
      assert found[0].id == t.stores[j].id;
      var reply := GetStoreOwnerDashboard(t, ownerId);
      assert reply.body.store == Some(StoreModel.Summarize(t.ratings, t.stores[j]));
      assert reply.body.ratings == StoreModel.GetStoreRatings(t, t.stores[j].id);
    }
  }
}
