/** backend/models/Store.js: the stored-average update, the aggregate store queries
    (`findById`, `findAll`, `findByOwnerId`), the store ratings query and the store count. */
module StoreModel {
  import opened Common
  import opened Lists
  import opened Schema
  import opened Joins

  /* ------------------------------------------------------ updateAverageRating */

  /** The stores table after `UPDATE stores SET average_rating = average [, updated_at = now] WHERE id = id`. */
  function SetAverage(stores: seq<StoreRow>, id: int, average: int, touched: Option<int>): (r: seq<StoreRow>)
    ensures |r| == |stores|
    ensures forall i :: 0 <= i < |r| ==> r[i].id == stores[i].id && r[i].email == stores[i].email
  {
    seq(|stores|, i requires 0 <= i < |stores| =>
      if stores[i].id == id then stores[i].(averageRating := average, updatedAt := touched.GetOr(stores[i].updatedAt))
      else stores[i])
  }

  /** `updateAverageRating(storeId)`: the rounded mean of the store's ratings, cast to
      `NUMERIC(3,2)`, with `updated_at = NOW()`. `None` is the error of a failed cast. */
  function UpdateAverage(t: Tables, storeId: int, now: int): Option<Tables> {
    match CastAverage(RatingValues(t.ratings, storeId))
    case None => None
    case Some(v) => Some(t.(stores := SetAverage(t.stores, storeId, v, Some(now))))
  }

  /** Every store whose average is not being rewritten already holds its rounded mean. */
  predicate OthersCurrent(t: Tables, storeId: int) {
    forall i :: 0 <= i < |t.stores| && t.stores[i].id != storeId ==>
      t.stores[i].averageRating == StoreAverage(t.ratings, t.stores[i].id)
  }

  /** Rewriting the stores table without changing ids or emails, and with every row still
      within its column bounds, keeps every constraint. */
  lemma SameKeysKeepSchema(t: Tables, stores: seq<StoreRow>)
    requires SchemaOk(t) && |stores| == |t.stores|
    requires forall i :: 0 <= i < |stores| ==> stores[i].id == t.stores[i].id && stores[i].email == t.stores[i].email
    requires forall i :: 0 <= i < |stores| ==> stores[i].ownerId == t.stores[i].ownerId && StoreFits(stores[i])
    ensures SchemaOk(t.(stores := stores))
  {
    forall i | 0 <= i < |t.ratings| ensures HasStore(stores, t.ratings[i].storeId) {
      var j :| 0 <= j < |t.stores| && t.stores[j].id == t.ratings[i].storeId;
      assert stores[j].id == t.ratings[i].storeId;
    }
  }

  /** Under the schema the update cannot fail. It writes the rounded mean of the store's
      current ratings (0 when it has none) into that store only, stamps it, keeps every
      constraint, and makes all averages current when the other stores' already were. */
  lemma UpdateAverageCorrect(t: Tables, storeId: int, now: int)
    requires SchemaOk(t)
    ensures UpdateAverage(t, storeId, now).Some?
    ensures var u := UpdateAverage(t, storeId, now).value;
      && u.users == t.users && u.ratings == t.ratings && |u.stores| == |t.stores|
      && (forall i :: 0 <= i < |t.stores| && t.stores[i].id == storeId ==>
            u.stores[i] == t.stores[i].(averageRating := StoreAverage(t.ratings, storeId), updatedAt := now))
      && (forall i :: 0 <= i < |t.stores| && t.stores[i].id != storeId ==> u.stores[i] == t.stores[i])
      && SchemaOk(u)
      && (OthersCurrent(t, storeId) ==> AveragesCurrent(u))
  {
    var xs := RatingValues(t.ratings, storeId);
    RatingValuesInRange(t.ratings, storeId);
    AverageSpellingsAgree(xs);
    var u := UpdateAverage(t, storeId, now).value;
    SameKeysKeepSchema(t, u.stores);
  }

  /** Two updates in a row leave the same average as one: only the later timestamp survives. */
  lemma UpdateAverageTwice(t: Tables, storeId: int, now1: int, now2: int)
    requires SchemaOk(t)
    ensures UpdateAverage(t, storeId, now1).Some?
    ensures UpdateAverage(UpdateAverage(t, storeId, now1).value, storeId, now2) == UpdateAverage(t, storeId, now2)
  {
    var xs := RatingValues(t.ratings, storeId);
    RatingValuesInRange(t.ratings, storeId);
    AverageSpellingsAgree(xs);
    var v := RoundedMean(xs);
    var u1 := t.(stores := SetAverage(t.stores, storeId, v, Some(now1)));
    assert UpdateAverage(t, storeId, now1) == Some(u1);
    SetAverageTwice(t.stores, storeId, v, now1, now2);
  }

  /** A second write of the same average into the same store leaves only the later stamp. */
  lemma SetAverageTwice(stores: seq<StoreRow>, id: int, average: int, now1: int, now2: int)
    ensures SetAverage(SetAverage(stores, id, average, Some(now1)), id, average, Some(now2))
         == SetAverage(stores, id, average, Some(now2))
  {
    var a := SetAverage(SetAverage(stores, id, average, Some(now1)), id, average, Some(now2));
    var b := SetAverage(stores, id, average, Some(now2));
    assert |a| == |b|;
    forall i | 0 <= i < |a| ensures a[i] == b[i] {
    }
  }

  /** An id no store has changes nothing. */
  lemma UpdateAverageAbsent(t: Tables, storeId: int, now: int)
    requires !HasStore(t.stores, storeId)
    ensures UpdateAverage(t, storeId, now).Some? ==> UpdateAverage(t, storeId, now).value == t
  {
    if UpdateAverage(t, storeId, now).Some? {
      assert UpdateAverage(t, storeId, now).value.stores == t.stores;
    }
  }

  /** The statement as run against the live database; on a failed cast nothing is written. */
  method UpdateAverageRating(db: Database, storeId: int, now: int) returns (ok: bool)
    modifies db
    ensures ok <==> UpdateAverage(old(db.Contents()), storeId, now).Some?
    ensures ok ==> db.Contents() == UpdateAverage(old(db.Contents()), storeId, now).value
    ensures !ok ==> db.Contents() == old(db.Contents())
  {
    var average := CastAverage(RatingValues(db.ratings, storeId));
    if average.None? {
      return false;
    }
    db.stores := SetAverage(db.stores, storeId, average.value, Some(now));
    return true;
  }

  /* ------------------------------------------------------------------ create */

  /** `create({name, email, address, owner_id})`: `INSERT ... RETURNING id` with the next
      value of the `SERIAL` sequence and the column defaults (average 0, both stamps `NOW()`).
      `None` is a violated constraint: a value too long for its `VARCHAR`, an email already
      taken (`UNIQUE`), or an owner that is no user (`REFERENCES users`). The sequence is only
      advanced by an insert that happens. */
  function Create(t: Tables, name: string, email: string, address: string, ownerId: int, now: int)
    : Option<(Tables, int)>
  {
    var row := StoreRow(t.nextStoreId, name, email, address, Some(ownerId), 0, now, now);
    if !StoreFits(row) || FindStoreByEmail(t.stores, email).Some? || !HasUser(t.users, ownerId) then None
    else Some((t.(stores := t.stores + [row], nextStoreId := t.nextStoreId + 1), t.nextStoreId))
  }

  /** A store id that no rating refers to has no rating values. */
  lemma {:induction false} RatingValuesNone(ratings: seq<RatingRow>, storeId: int)
    requires forall i :: 0 <= i < |ratings| ==> ratings[i].storeId != storeId
    ensures RatingValues(ratings, storeId) == []
  {
    if ratings != [] { RatingValuesNone(ratings[1..], storeId); }
  }

  /** The insert succeeds exactly when the row fits its columns, its email is new and its
      owner exists. It then appends the row under a fresh id, which it returns, keeps every
      constraint, and keeps the averages current (the new store has no ratings and average 0). */
  lemma CreateCorrect(t: Tables, name: string, email: string, address: string, ownerId: int, now: int)
    requires SchemaOk(t)
    ensures var r := Create(t, name, email, address, ownerId, now);
      var row := StoreRow(t.nextStoreId, name, email, address, Some(ownerId), 0, now, now);
      && (r.Some? <==> (&& StoreFits(row)
                        && (forall i :: 0 <= i < |t.stores| ==> t.stores[i].email != email)
                        && HasUser(t.users, ownerId)))
      && (r.Some? ==>
            && r.value.1 == t.nextStoreId && !HasStore(t.stores, r.value.1)
            && r.value.0.stores == t.stores + [row]
            && r.value.0.users == t.users && r.value.0.ratings == t.ratings
            && SchemaOk(r.value.0)
            && (AveragesCurrent(t) ==> AveragesCurrent(r.value.0)))
  {
    var r := Create(t, name, email, address, ownerId, now);
    if r.Some? {
      var row := StoreRow(t.nextStoreId, name, email, address, Some(ownerId), 0, now, now);
      var u := r.value.0;
      assert u == t.(stores := t.stores + [row], nextStoreId := t.nextStoreId + 1);
      assert !HasStore(t.stores, t.nextStoreId);
      AppendStoreOk(t.stores, t.users, row, t.nextStoreId);
      RatingsOkMoreStores(t.ratings, t.users, t.stores, [row], t.nextRatingId);
      NewStoreAverage(t, row);
    }
  }

  /** Appending a fresh store whose email is not taken and whose owner exists keeps the
      stores table's constraints. */
  lemma AppendStoreOk(stores: seq<StoreRow>, users: seq<UserRow>, row: StoreRow, nextId: int)
    requires StoresOk(stores, users, nextId) && nextId >= 1 && row.id == nextId && StoreFits(row)
    requires forall i :: 0 <= i < |stores| ==> stores[i].email != row.email
    requires row.ownerId.Some? ==> HasUser(users, row.ownerId.value)
    ensures StoresOk(stores + [row], users, nextId + 1)
  {
    var ss := stores + [row];
    forall i, j | 0 <= i < j < |ss| ensures ss[i].id != ss[j].id && ss[i].email != ss[j].email {
      assert ss[i] == stores[i];
      if j < |stores| { assert ss[j] == stores[j]; }
    }
  }

  /** A store appended under an id no rating uses has no ratings, so its average 0 is current. */
  lemma NewStoreAverage(t: Tables, row: StoreRow)
    requires SchemaOk(t) && row.id == t.nextStoreId && row.averageRating == 0
    ensures AveragesCurrent(t) ==> AveragesCurrent(t.(stores := t.stores + [row], nextStoreId := t.nextStoreId + 1))
  {
    forall i | 0 <= i < |t.ratings| ensures t.ratings[i].storeId != t.nextStoreId {
      var j :| 0 <= j < |t.stores| && t.stores[j].id == t.ratings[i].storeId;
    }
    RatingValuesNone(t.ratings, t.nextStoreId);
    var ss := t.stores + [row];
    forall i | 0 <= i < |ss| && AveragesCurrent(t) ensures ss[i].averageRating == StoreAverage(t.ratings, ss[i].id) {
      if i < |t.stores| { assert ss[i] == t.stores[i]; }
    }
  }

  /* ----------------------------------------------------- aggregate queries */

  /** One row of the aggregate store queries: the store's columns, the live average of its
      ratings (`COALESCE(AVG(r.rating), 0)::numeric(3,2)`) and their count. */
  datatype StoreSummary = StoreSummary(id: int, name: string, email: string, address: string,
                                       ownerId: Option<int>, createdAt: int, updatedAt: int,
                                       averageRating: int, totalRatings: nat)

  /** `stores s LEFT JOIN ratings r ON r.store_id = s.id ... GROUP BY s.id` for one store. */
  function Summarize(ratings: seq<RatingRow>, s: StoreRow): StoreSummary {
    StoreSummary(s.id, s.name, s.email, s.address, s.ownerId, s.createdAt, s.updatedAt,
                 StoreAverage(ratings, s.id), |RatingValues(ratings, s.id)|)
  }

  function Summaries(ratings: seq<RatingRow>, stores: seq<StoreRow>): (r: seq<StoreSummary>)
    ensures |r| == |stores|
    ensures forall i :: 0 <= i < |r| ==> r[i] == Summarize(ratings, stores[i])
  {
    seq(|stores|, i requires 0 <= i < |stores| => Summarize(ratings, stores[i]))
  }

  /** `findById(storeId)`: the aggregate row of the store, or null. */
  function FindById(t: Tables, storeId: int): Option<StoreSummary> {
    match FindStore(t.stores, storeId)
    case None => None
    case Some(s) => Some(Summarize(t.ratings, s))
  }

  /** Absent stores give null. A present store gives its own columns, the number of its
      ratings, and their rounded mean (0 for none), which lies in 1.00..5.00 when it has
      ratings and is the stored average whenever the averages are current. */
  lemma FindByIdCorrect(t: Tables, storeId: int)
    requires SchemaOk(t)
    ensures FindById(t, storeId).None? <==> !HasStore(t.stores, storeId)
    ensures FindById(t, storeId).Some? ==>
      var r := FindById(t, storeId).value;
      && r.id == storeId
      && FindStore(t.stores, storeId).value.name == r.name
      && r.totalRatings == |RatingValues(t.ratings, storeId)|
      && r.averageRating == RoundedMean(RatingValues(t.ratings, storeId))
      && (r.totalRatings == 0 ==> r.averageRating == 0)
      && (r.totalRatings > 0 ==> 100 <= r.averageRating <= 500)
      && (AveragesCurrent(t) ==> r.averageRating == FindStore(t.stores, storeId).value.averageRating)
  {
    RatingValuesInRange(t.ratings, storeId);
    AverageSpellingsAgree(RatingValues(t.ratings, storeId));
  }

  /** `getStoresCount`: `COUNT(*)` of the stores table. */
  function GetStoresCount(t: Tables): (n: nat)
    ensures n == |t.stores|
  {
    |t.stores|
  }

  /** A store insert that succeeds adds one to the count. */
  lemma StoresCountAfterCreate(t: Tables, name: string, email: string, address: string, ownerId: int, now: int)
    requires SchemaOk(t)
    ensures var r := Create(t, name, email, address, ownerId, now);
      r.Some? ==> GetStoresCount(r.value.0) == GetStoresCount(t) + 1
  {
    CreateCorrect(t, name, email, address, ownerId, now);
  }

  /** `findByOwnerId(ownerId)`: the aggregate rows of the owner's stores, in table order. */
  function FindByOwnerId(t: Tables, ownerId: int): seq<StoreSummary> {
    Summaries(t.ratings, Filter(t.stores, (s: StoreRow) => s.ownerId == Some(ownerId)))
  }

  /** Exactly the owner's stores are returned, each once, with their live aggregates. */
  lemma FindByOwnerIdCorrect(t: Tables, ownerId: int)
    ensures forall i :: 0 <= i < |FindByOwnerId(t, ownerId)| ==>
      FindByOwnerId(t, ownerId)[i].ownerId == Some(ownerId)
      && exists j :: 0 <= j < |t.stores| && FindByOwnerId(t, ownerId)[i] == Summarize(t.ratings, t.stores[j])
    ensures forall j :: 0 <= j < |t.stores| && t.stores[j].ownerId == Some(ownerId) ==>
      Summarize(t.ratings, t.stores[j]) in FindByOwnerId(t, ownerId)
    ensures |FindByOwnerId(t, ownerId)| <= |t.stores|
  {
    var owned := Filter(t.stores, (s: StoreRow) => s.ownerId == Some(ownerId));
    forall j | 0 <= j < |t.stores| && t.stores[j].ownerId == Some(ownerId)
      ensures Summarize(t.ratings, t.stores[j]) in FindByOwnerId(t, ownerId)
    {
      assert t.stores[j] in owned;
      var k :| 0 <= k < |owned| && owned[k] == t.stores[j];
      assert FindByOwnerId(t, ownerId)[k] == Summarize(t.ratings, t.stores[j]);
    }
  }

  /* ----------------------------------------------------------- ILIKE patterns */

  /** A `LIKE` pattern element: `%`, `_`, or a character to match (after a `\` escape, any character). */
  datatype LikeToken = AnyString | AnyChar | Literal(c: char)

  function Prepend(tok: LikeToken, rest: Option<seq<LikeToken>>): Option<seq<LikeToken>> {
    match rest
    case None => None
    case Some(ts) => Some([tok] + ts)
  }

  /** The elements of a pattern; a pattern that ends in a lone escape character is an error (`None`). */
  function LikeTokens(p: string): Option<seq<LikeToken>>
    decreases |p|
  {
    if p == [] then Some([])
    else if p[0] == '\\' then
      if |p| == 1 then None else Prepend(Literal(p[1]), LikeTokens(p[2..]))
    else if p[0] == '%' then Prepend(AnyString, LikeTokens(p[1..]))
    else if p[0] == '_' then Prepend(AnyChar, LikeTokens(p[1..]))
    else Prepend(Literal(p[0]), LikeTokens(p[1..]))
  }

  /** Case-insensitive matching of the whole text against the pattern elements (`ILIKE`). */
  function LikeMatch(toks: seq<LikeToken>, t: string): bool
    decreases |t|, |toks|
  {
    if toks == [] then t == []
    else match toks[0]
      case AnyString => LikeMatch(toks[1..], t) || (t != [] && LikeMatch(toks, t[1..]))
      case AnyChar => t != [] && LikeMatch(toks[1..], t[1..])
      case Literal(c) => t != [] && LowerChar(c) == LowerChar(t[0]) && LikeMatch(toks[1..], t[1..])
  }

  /** `text ILIKE '%' || x || '%'`, the filter `findAll` builds for a search value `x`. */
  predicate ILikeContains(text: string, x: string) {
    match LikeTokens("%" + x + "%")
    case None => false
    case Some(toks) => LikeMatch(toks, text)
  }

  /** A search value with no pattern character in it. */
  predicate Plain(x: string) {
    forall i :: 0 <= i < |x| ==> x[i] != '%' && x[i] != '_' && x[i] != '\\'
  }

  function Literals(x: string): (r: seq<LikeToken>)
    ensures |r| == |x|
  {
    if x == [] then [] else [Literal(x[0])] + Literals(x[1..])
  }

  lemma {:induction false} PlainTokens(x: string, rest: string)
    requires Plain(x)
    ensures LikeTokens(x + rest) == match LikeTokens(rest) case None => None case Some(ts) => Some(Literals(x) + ts)
  {
    if x == [] {
      assert x + rest == rest;
      match LikeTokens(rest) {
        case None =>
        case Some(ts) => assert Literals(x) + ts == ts;
      }
    } else {
      assert (x + rest)[0] == x[0] && (x + rest)[1..] == x[1..] + rest;
      PlainTokens(x[1..], rest);
      assert LikeTokens(x + rest) == Prepend(Literal(x[0]), LikeTokens(x[1..] + rest));
      match LikeTokens(rest) {
        case None =>
        case Some(ts) =>
          assert [Literal(x[0])] + (Literals(x[1..]) + ts) == Literals(x) + ts;
      }
    }
  }

  lemma {:induction false} AnyStringMatchesAll(t: string)
    ensures LikeMatch([AnyString], t)
  {
    if t != [] {
      AnyStringMatchesAll(t[1..]);
    }
  }

  /** A pattern of literals then `%` matches exactly the texts that start with those characters, ignoring case. */
  lemma {:induction false} PrefixMatch(x: string, t: string)
    ensures LikeMatch(Literals(x) + [AnyString], t) <==> |x| <= |t| && Lower(t[..|x|]) == Lower(x)
  {
    if x == [] {
      AnyStringMatchesAll(t);
      assert Literals(x) + [AnyString] == [AnyString];
      assert t[..0] == [];
    } else {
      var toks := Literals(x) + [AnyString];
      var rest := Literals(x[1..]) + [AnyString];
      assert toks[0] == Literal(x[0]) && toks[1..] == rest;
      assert LikeMatch(toks, t) == (t != [] && LowerChar(x[0]) == LowerChar(t[0]) && LikeMatch(rest, t[1..]));
      if t != [] {
        PrefixMatch(x[1..], t[1..]);
        if |x| <= |t| {
          PrefixStep(x, t);
        }
      }
    }
  }

  /** Comparing a prefix ignoring case is comparing its first character, then the rest. */
  lemma PrefixStep(x: string, t: string)
    requires x != [] && |x| <= |t|
    ensures Lower(t[..|x|]) == Lower(x) <==>
      LowerChar(t[0]) == LowerChar(x[0]) && Lower(t[1..][..|x| - 1]) == Lower(x[1..])
  {
    PrefixStepDown(x, t);
    PrefixStepUp(x, t);
  }

  lemma PrefixStepDown(x: string, t: string)
    requires x != [] && |x| <= |t|
    ensures Lower(t[..|x|]) == Lower(x) ==>
      LowerChar(t[0]) == LowerChar(x[0]) && Lower(t[1..][..|x| - 1]) == Lower(x[1..])
  {
    var p, u, y := t[..|x|], t[1..][..|x| - 1], x[1..];
    LowerPointwise(p, x);
    LowerPointwise(u, y);
    if Lower(p) == Lower(x) {
      assert LowerChar(p[0]) == LowerChar(x[0]);
      forall j | 0 <= j < |u| ensures LowerChar(u[j]) == LowerChar(y[j]) {
        assert u[j] == p[j + 1] && y[j] == x[j + 1];
      }
    }
  }

  lemma PrefixStepUp(x: string, t: string)
    requires x != [] && |x| <= |t|
    ensures LowerChar(t[0]) == LowerChar(x[0]) && Lower(t[1..][..|x| - 1]) == Lower(x[1..]) ==>
      Lower(t[..|x|]) == Lower(x)
  {
    var p, u, y := t[..|x|], t[1..][..|x| - 1], x[1..];
    LowerPointwise(p, x);
    LowerPointwise(u, y);
    if LowerChar(p[0]) == LowerChar(x[0]) && Lower(u) == Lower(y) {
      forall i | 0 <= i < |p| ensures LowerChar(p[i]) == LowerChar(x[i]) {
        if i > 0 { assert u[i - 1] == p[i] && y[i - 1] == x[i]; }
      }
    }
  }

  /** Two strings of one length are equal ignoring case exactly when each pair of characters is. */
  lemma LowerPointwise(a: string, b: string)
    requires |a| == |b|
    ensures Lower(a) == Lower(b) <==> forall i :: 0 <= i < |a| ==> LowerChar(a[i]) == LowerChar(b[i])
  {
    if forall i :: 0 <= i < |a| ==> LowerChar(a[i]) == LowerChar(b[i]) {
      forall i | 0 <= i < |a| ensures Lower(a)[i] == Lower(b)[i] { }
    }
  }

  /** A leading `%` matches when the rest of the pattern matches some suffix of the text. */
  lemma {:induction false} AnyThen(r: seq<LikeToken>, t: string)
    ensures LikeMatch([AnyString] + r, t) <==> exists k :: 0 <= k <= |t| && LikeMatch(r, t[k..])
  {
    var toks := [AnyString] + r;
    assert toks[0] == AnyString && toks[1..] == r;
    assert t[0..] == t;
    if t == [] {
      assert LikeMatch(toks, t) == LikeMatch(r, t);
    } else {
      assert LikeMatch(toks, t) == (LikeMatch(r, t) || LikeMatch(toks, t[1..]));
      AnyThen(r, t[1..]);
      if LikeMatch(toks, t[1..]) {
        var k :| 0 <= k <= |t[1..]| && LikeMatch(r, t[1..][k..]);
        assert t[1..][k..] == t[k + 1..];
      }
      if exists k :: 0 <= k <= |t| && LikeMatch(r, t[k..]) {
        var k :| 0 <= k <= |t| && LikeMatch(r, t[k..]);
        if k > 0 {
          assert t[1..][k - 1..] == t[k..];
        }
      }
    }
  }

  lemma LowerSlice(t: string, a: int, b: int)
    requires 0 <= a <= b <= |t|
    ensures Lower(t)[a..b] == Lower(t[a..b])
  {
    var lt, u := Lower(t), t[a..b];
    var l, r := lt[a..b], Lower(u);
    assert |l| == |r| == b - a;
    forall i | 0 <= i < b - a ensures l[i] == r[i] {
      calc {
        l[i];
        lt[a + i];
        LowerChar(t[a + i]);
        { assert u[i] == t[a + i]; }
        LowerChar(u[i]);
        r[i];
      }
    }
  }

  /** For a search value without pattern characters, the `findAll` filter is exactly a
      case-insensitive substring test. */
  lemma ILikeContainsPlain(text: string, x: string)
    requires Plain(x)
    ensures ILikeContains(text, x) <==> Contains(Lower(text), Lower(x))
  {
    var body := Literals(x) + [AnyString];
    SearchTokensPlain(x);
    AnyThen(body, text);
    if ILikeContains(text, x) {
      var k :| 0 <= k <= |text| && LikeMatch(body, text[k..]);
      MatchAtOccurs(text, x, k);
    }
    if Contains(Lower(text), Lower(x)) {
      var k :| OccursAt(Lower(x), Lower(text), k);
      MatchAtOccurs(text, x, k);
    }
  }

  lemma SearchTokensPlain(x: string)
    requires Plain(x)
    ensures LikeTokens("%" + x + "%") == Some([AnyString] + (Literals(x) + [AnyString]))
  {
    PlainTokens(x, "%");
    PercentTokens();
    assert "%" + x + "%" == "%" + (x + "%");
    assert ("%" + (x + "%"))[0] == '%' && ("%" + (x + "%"))[1..] == x + "%";
  }

  /** The literal part of the pattern matches at position `k` exactly where the lower-cased
      search value occurs in the lower-cased text. */
  lemma MatchAtOccurs(text: string, x: string, k: int)
    requires 0 <= k <= |text|
    ensures LikeMatch(Literals(x) + [AnyString], text[k..]) <==> OccursAt(Lower(x), Lower(text), k)
  {
    PrefixMatch(x, text[k..]);
    if k + |x| <= |text| {
      assert text[k..][..|x|] == text[k..k + |x|];
      LowerSlice(text, k, k + |x|);
    }
  }

  lemma PercentTokens()
    ensures LikeTokens("%") == Some([AnyString])
  {
    assert "%"[0] == '%' && "%"[1..] == [];
    assert LikeTokens([]) == Some([]);
    assert [AnyString] + [] == [AnyString];
  }

  /** Every search value `findAll` can build is a well-formed pattern: the added `%` at the end
      can never leave an escape character alone. */
  lemma {:induction false} SearchPatternWellFormed(x: string)
    ensures LikeTokens(x + "%").Some?
    decreases |x|
  {
    if x == [] {
      PercentTokens();
      assert x + "%" == "%";
    } else if x[0] == '\\' {
      if |x| == 1 {
        assert x + "%" == "\\%";
        assert LikeTokens("\\%") == Prepend(Literal('%'), LikeTokens([]));
      } else {
        assert (x + "%")[2..] == x[2..] + "%";
        SearchPatternWellFormed(x[2..]);
      }
    } else {
      assert (x + "%")[1..] == x[1..] + "%";
      SearchPatternWellFormed(x[1..]);
    }
  }

  /** A backslash in the search value escapes the next character: the value `a\b` searches
      for `ab`, so it does not find a text that is `a\b` itself. */
  lemma BackslashMissesItself()
    ensures !ILikeContains("a\\b", "a\\b")
  {
    var body := Literals("ab") + [AnyString];
    PercentTokens();
    assert "b%"[0] == 'b' && "b%"[1..] == "%";
    assert [Literal('b')] + [AnyString] == [Literal('b'), AnyString];
    assert LikeTokens("b%") == Some([Literal('b'), AnyString]);
    assert "\\b%"[0] == '\\' && "\\b%"[1] == 'b' && "\\b%"[2..] == "%";
    assert LikeTokens("\\b%") == Some([Literal('b'), AnyString]);
    assert "a\\b%"[0] == 'a' && "a\\b%"[1..] == "\\b%";
    assert [Literal('a')] + [Literal('b'), AnyString] == [Literal('a'), Literal('b'), AnyString];
    assert LikeTokens("a\\b%") == Some([Literal('a'), Literal('b'), AnyString]);
    assert "%" + "a\\b" + "%" == "%a\\b%";
    assert "%a\\b%"[0] == '%' && "%a\\b%"[1..] == "a\\b%";
    assert [AnyString] + [Literal('a'), Literal('b'), AnyString] == [AnyString, Literal('a'), Literal('b'), AnyString];
    assert LikeTokens("%a\\b%") == Some([AnyString, Literal('a'), Literal('b'), AnyString]);
    assert Literals("ab") == [Literal('a'), Literal('b')];
    assert [AnyString, Literal('a'), Literal('b'), AnyString] == [AnyString] + body;
    var t := "a\\b";
    AnyThen(body, t);
    forall k | 0 <= k <= |t| ensures !LikeMatch(body, t[k..]) {
      PrefixMatch("ab", t[k..]);
      if 2 <= |t[k..]| {
        assert Lower(t[k..][..2])[0] == LowerChar(t[k]) && Lower(t[k..][..2])[1] == LowerChar(t[k + 1]);
        assert Lower("ab")[0] == 'a' && Lower("ab")[1] == 'b';
      }
    }
  }

  /* ------------------------------------------------------------------ findAll */

  /** The sort value of a column: a number, a text, or NULL. */
  datatype SortKey = IntKey(n: int) | TextKey(s: string) | NullKey

  /** Text order by code unit (the collation is not modelled). */
  predicate TextLe(a: string, b: string) {
    a == [] || (b != [] && (a[0] < b[0] || (a[0] == b[0] && TextLe(a[1..], b[1..]))))
  }

  /** Ascending order of keys; NULL sorts after every value, as PostgreSQL's default NULLS LAST for ASC. */
  predicate KeyLe(a: SortKey, b: SortKey) {
    match (a, b)
    case (_, NullKey) => true
    case (NullKey, _) => false
    case (IntKey(x), IntKey(y)) => x <= y
    case (TextKey(x), TextKey(y)) => TextLe(x, y)
    case (IntKey(_), TextKey(_)) => true
    case (TextKey(_), IntKey(_)) => false
  }

  lemma {:induction false} TextLeTotal(a: string, b: string)
    ensures TextLe(a, b) || TextLe(b, a)
  {
    if a != [] && b != [] && a[0] == b[0] {
      TextLeTotal(a[1..], b[1..]);
    }
  }

  lemma KeyLeTotal(a: SortKey, b: SortKey)
    ensures KeyLe(a, b) || KeyLe(b, a)
  {
    if a.TextKey? && b.TextKey? { TextLeTotal(a.s, b.s); }
  }

  /** The output columns `ORDER BY` may name. */
  const SortColumns: set<string> :=
    {"id", "name", "email", "address", "owner_id", "created_at", "updated_at", "average_rating", "total_ratings"}

  function ColumnKey(column: string, s: StoreSummary): SortKey {
    if column == "id" then IntKey(s.id)
    else if column == "name" then TextKey(s.name)
    else if column == "email" then TextKey(s.email)
    else if column == "address" then TextKey(s.address)
    else if column == "owner_id" then (match s.ownerId case Some(o) => IntKey(o) case None => NullKey)
    else if column == "created_at" then IntKey(s.createdAt)
    else if column == "updated_at" then IntKey(s.updatedAt)
    else if column == "average_rating" then IntKey(s.averageRating)
    else IntKey(s.totalRatings)
  }

  /** "`a` may come before `b`" for `ORDER BY column ASC` (or `DESC`). */
  function Before(column: string, asc: bool): (StoreSummary, StoreSummary) -> bool {
    (a: StoreSummary, b: StoreSummary) =>
      if asc then KeyLe(ColumnKey(column, a), ColumnKey(column, b)) else KeyLe(ColumnKey(column, b), ColumnKey(column, a))
  }

  lemma BeforeTotal(column: string, asc: bool)
    ensures Total(Before(column, asc))
  {
    forall a: StoreSummary, b: StoreSummary ensures Before(column, asc)(a, b) || Before(column, asc)(b, a) {
      KeyLeTotal(ColumnKey(column, a), ColumnKey(column, b));
    }
  }

  /** The filters `findAll` understands; an empty string or 0 is an absent (falsy) filter. */
  datatype StoreQuery = StoreQuery(name: string, email: string, address: string,
                                   sortBy: string, sortOrder: string, limit: nat, offset: nat)

  /** The `ORDER BY` clause: a column and ascending or not; `None` when `sortBy` names no column
      (the query fails). */
  function Ordering(q: StoreQuery): Option<(string, bool)> {
    if q.sortBy == "" then Some(("created_at", false))
    else
      var column := if q.sortBy == "rating" then "average_rating" else q.sortBy;
      if column in SortColumns then Some((column, q.sortOrder == "asc")) else None
  }

  /** The `WHERE` clause: each given filter is an `ILIKE '%value%'` on its column. */
  predicate Matches(q: StoreQuery, s: StoreRow) {
    && (q.name == "" || ILikeContains(s.name, q.name))
    && (q.email == "" || ILikeContains(s.email, q.email))
    && (q.address == "" || ILikeContains(s.address, q.address))
  }

  /** `OFFSET offset` then `LIMIT limit`; a 0 leaves the clause out. */
  function Window<T>(s: seq<T>, limit: nat, offset: nat): seq<T> {
    var rest := if offset <= |s| then s[offset..] else [];
    if 0 < limit < |rest| then rest[..limit] else rest
  }

  function Matcher(q: StoreQuery): StoreRow -> bool {
    (s: StoreRow) => Matches(q, s)
  }

  /** The aggregate rows of the stores that pass `p`, in the order `le`. */
  function Select(t: Tables, p: StoreRow -> bool, le: (StoreSummary, StoreSummary) -> bool): seq<StoreSummary> {
    SortBy(Summaries(t.ratings, Filter(t.stores, p)), le)
  }

  /** The matching stores' aggregate rows in the requested order, before the window. */
  function Ordered(t: Tables, q: StoreQuery, column: string, asc: bool): seq<StoreSummary> {
    Select(t, Matcher(q), Before(column, asc))
  }

  /** `findAll(filters)`; `None` is the error of an unknown sort column. */
  function FindAll(t: Tables, q: StoreQuery): Option<seq<StoreSummary>> {
    match Ordering(q)
    case None => None
    case Some((column, asc)) => Some(Window(Ordered(t, q, column, asc), q.limit, q.offset))
  }

  /** `"rating"` sorts by the average, only the exact `"asc"` sorts ascending, no `sortBy`
      sorts newest first, and a name that is no column fails. */
  lemma OrderingRules(q: StoreQuery)
    ensures q.sortBy == "" ==> Ordering(q) == Some(("created_at", false))
    ensures q.sortBy == "rating" ==> Ordering(q) == Some(("average_rating", q.sortOrder == "asc"))
    ensures q.sortBy != "" && q.sortBy != "rating" ==> (Ordering(q).Some? <==> q.sortBy in SortColumns)
    ensures Ordering(q).Some? && q.sortBy != "" ==> (Ordering(q).value.1 <==> q.sortOrder == "asc")
    ensures forall t :: FindAll(t, q).None? <==> Ordering(q).None?
  {
  }

  /** `findAll` is the window of the ordered matching rows. Every row returned is the
      aggregate row of a stored store that passes every given filter; the rows are in the
      requested order; at most `limit` are returned; with no window every matching store is
      returned. (`WindowSlice` says which slice the window is.) */
  lemma FindAllCorrect(t: Tables, q: StoreQuery, column: string, asc: bool)
    requires Ordering(q) == Some((column, asc))
    ensures FindAll(t, q) == Some(Window(Ordered(t, q, column, asc), q.limit, q.offset))
    ensures SortedBy(FindAll(t, q).value, Before(column, asc))
    ensures forall i :: 0 <= i < |FindAll(t, q).value| ==> MatchingRow(t, q, FindAll(t, q).value[i])
    ensures q.limit > 0 ==> |FindAll(t, q).value| <= q.limit
    ensures q.limit == 0 && q.offset == 0 ==>
      forall j :: 0 <= j < |t.stores| && Matches(q, t.stores[j]) ==> Summarize(t.ratings, t.stores[j]) in FindAll(t, q).value
  {
    var all := Ordered(t, q, column, asc);
    var r := Window(all, q.limit, q.offset);
    assert FindAll(t, q) == Some(r);
    OrderedCorrect(t, q, column, asc);
    WindowSorted(all, Before(column, asc), q.limit, q.offset);
    WindowSlice(all, q.limit, q.offset);
    WindowSound(t, q, all, q.limit, q.offset);
  }

  /** `s` is the aggregate row of a stored store that passes every filter of `q`. */
  predicate MatchingRow(t: Tables, q: StoreQuery, s: StoreSummary) {
    exists j :: 0 <= j < |t.stores| && Matches(q, t.stores[j]) && s == Summarize(t.ratings, t.stores[j])
  }

  /** Every row of a window of matching rows is a matching row. */
  lemma WindowSound(t: Tables, q: StoreQuery, all: seq<StoreSummary>, limit: nat, offset: nat)
    requires forall i :: 0 <= i < |all| ==> MatchingRow(t, q, all[i])
    ensures forall i :: 0 <= i < |Window(all, limit, offset)| ==> MatchingRow(t, q, Window(all, limit, offset)[i])
  {
    var r := Window(all, limit, offset);
    WindowSlice(all, limit, offset);
    var lo := if offset <= |all| then offset else |all|;
    forall i | 0 <= i < |r| ensures MatchingRow(t, q, r[i]) {
      assert r[i] == all[lo + i];
    }
  }

  lemma WindowSorted<T>(s: seq<T>, le: (T, T) -> bool, limit: nat, offset: nat)
    requires SortedBy(s, le)
    ensures SortedBy(Window(s, limit, offset), le)
  {
    var lo := if offset <= |s| then offset else |s|;
    WindowSlice(s, limit, offset);
    SortedSlice(s, le, lo, lo + |Window(s, limit, offset)|);
  }

  /** The window is the slice of at most `limit` rows that starts after `offset` rows. */
  lemma WindowSlice<T>(s: seq<T>, limit: nat, offset: nat)
    ensures var r := Window(s, limit, offset);
      var lo := if offset <= |s| then offset else |s|;
      && lo + |r| <= |s| && r == s[lo..lo + |r|]
      && (limit > 0 ==> |r| <= limit)
      && (limit == 0 ==> |r| == |s| - lo)
      && (limit == 0 && offset == 0 ==> r == s)
  {
  }

  /** A sorted list holds exactly the elements of the list it sorts. */
  lemma SortByMembers<T>(s: seq<T>, le: (T, T) -> bool)
    ensures forall i :: 0 <= i < |SortBy(s, le)| ==> SortBy(s, le)[i] in s
    ensures forall i :: 0 <= i < |s| ==> s[i] in SortBy(s, le)
  {
    var r := SortBy(s, le);
    forall i | 0 <= i < |r| ensures r[i] in s {
      assert r[i] in multiset(r);
    }
    forall i | 0 <= i < |s| ensures s[i] in r {
      assert s[i] in multiset(s);
    }
  }

  /** Before the window: the matching stores' rows, sorted, each store present. */
  lemma OrderedCorrect(t: Tables, q: StoreQuery, column: string, asc: bool)
    ensures var all := Ordered(t, q, column, asc);
      && SortedBy(all, Before(column, asc))
      && (forall i :: 0 <= i < |all| ==> MatchingRow(t, q, all[i]))
      && (forall j :: 0 <= j < |t.stores| && Matches(q, t.stores[j]) ==> Summarize(t.ratings, t.stores[j]) in all)
  {
    BeforeTotal(column, asc);
    SelectCorrect(t, Matcher(q), Before(column, asc));
  }

  lemma SelectCorrect(t: Tables, p: StoreRow -> bool, le: (StoreSummary, StoreSummary) -> bool)
    requires Total(le)
    ensures var all := Select(t, p, le);
      && SortedBy(all, le)
      && (forall i :: 0 <= i < |all| ==> exists j :: 0 <= j < |t.stores| && p(t.stores[j]) && all[i] == Summarize(t.ratings, t.stores[j]))
      && (forall j :: 0 <= j < |t.stores| && p(t.stores[j]) ==> Summarize(t.ratings, t.stores[j]) in all)
  {
    var sums := Summaries(t.ratings, Filter(t.stores, p));
    SortBySorted(sums, le);
    SortByMembers(sums, le);
    SelectSound(t, p, le);
    SelectComplete(t, p, le);
  }

  lemma SelectSound(t: Tables, p: StoreRow -> bool, le: (StoreSummary, StoreSummary) -> bool)
    ensures var all := Select(t, p, le);
      forall i :: 0 <= i < |all| ==> exists j :: 0 <= j < |t.stores| && p(t.stores[j]) && all[i] == Summarize(t.ratings, t.stores[j])
  {
    var kept := Filter(t.stores, p);
    var sums := Summaries(t.ratings, kept);
    var all := Select(t, p, le);
    SortByMembers(sums, le);
    forall i | 0 <= i < |all|
      ensures exists j :: 0 <= j < |t.stores| && p(t.stores[j]) && all[i] == Summarize(t.ratings, t.stores[j])
    {
      assert all[i] in sums;
      var k :| 0 <= k < |sums| && sums[k] == all[i];
      assert kept[k] in t.stores && p(kept[k]);
      var j :| 0 <= j < |t.stores| && t.stores[j] == kept[k];
      assert all[i] == Summarize(t.ratings, t.stores[j]);
    }
  }

  lemma SelectComplete(t: Tables, p: StoreRow -> bool, le: (StoreSummary, StoreSummary) -> bool)
    ensures var all := Select(t, p, le);
      forall j :: 0 <= j < |t.stores| && p(t.stores[j]) ==> Summarize(t.ratings, t.stores[j]) in all
  {
    var kept := Filter(t.stores, p);
    var sums := Summaries(t.ratings, kept);
    var all := Select(t, p, le);
    SortByMembers(sums, le);
    forall j | 0 <= j < |t.stores| && p(t.stores[j]) ensures Summarize(t.ratings, t.stores[j]) in all {
      assert t.stores[j] in kept;
      var k :| 0 <= k < |kept| && kept[k] == t.stores[j];
      assert sums[k] == Summarize(t.ratings, t.stores[j]);
      assert sums[k] in all;
    }
  }

  lemma SortedSlice<T>(s: seq<T>, le: (T, T) -> bool, lo: int, hi: int)
    requires SortedBy(s, le) && 0 <= lo <= hi <= |s|
    ensures SortedBy(s[lo..hi], le)
  {
    forall i | 0 <= i < hi - lo - 1 ensures le(s[lo..hi][i], s[lo..hi][i + 1]) {
      assert s[lo..hi][i] == s[lo + i] && s[lo..hi][i + 1] == s[lo + i + 1];
    }
  }

  /* ------------------------------------------------------------ store ratings */

  /** "`a` may come before `b`" for `ORDER BY r.created_at DESC`. */
  function NewestCreatedFirst(a: RatingWithUser, b: RatingWithUser): bool {
    a.rating.createdAt >= b.rating.createdAt
  }

  /** `getStoreRatings(storeId)`: the store's ratings with their authors, newest first. */
  function GetStoreRatings(t: Tables, storeId: int): seq<RatingWithUser> {
    SortBy(JoinUsers(Filter(t.ratings, (r: RatingRow) => r.storeId == storeId), t.users), NewestCreatedFirst)
  }

  /** Exactly the store's ratings, each once and with its author, newest first. */
  lemma GetStoreRatingsCorrect(t: Tables, storeId: int)
    requires SchemaOk(t)
    ensures var r := GetStoreRatings(t, storeId);
      var mine := Filter(t.ratings, (x: RatingRow) => x.storeId == storeId);
      && SortedBy(r, NewestCreatedFirst)
      && |r| == |mine|
      && (forall i :: 0 <= i < |r| ==> r[i].rating.storeId == storeId && r[i].rating in t.ratings && r[i].user.id == r[i].rating.userId)
      && (forall j :: 0 <= j < |t.ratings| && t.ratings[j].storeId == storeId ==> exists i :: 0 <= i < |r| && r[i].rating == t.ratings[j])
  {
    JoinedWithUsers(t.ratings, t.users, (x: RatingRow) => x.storeId == storeId, NewestCreatedFirst);
    JoinedWithUsersAll(t.ratings, t.users, (x: RatingRow) => x.storeId == storeId, NewestCreatedFirst);
  }
}
