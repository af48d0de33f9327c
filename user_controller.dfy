/** backend/controllers/userController.js: the administrator's account management. Creating
    an account, the account list with each store owner's `store_rating`, one account with
    its rating count, the accounts of one role, and the dashboard counts. */
module UserController {
  import opened Common
  import opened Lists
  import opened JsValues
  import opened Schema
  import opened FieldRules
  import opened Guards
  import UserModel
  import StoreModel
  import RatingModel
  import opened AuthController

  /* ------------------------------------------------------------- createUser */

  /** `allowedRoles.includes(role) ? role : "user"` with `["user", "store_owner", "admin"]`. */
  function CreateRole(v: JsValue): Role {
    if v.Str? && ParseRole(v.s).Some? then ParseRole(v.s).value else User
  }

  /** Any of the three role names is kept, administrators included; anything else is `user`. */
  lemma CreateRoleCorrect(v: JsValue)
    ensures forall r: Role :: v == Str(RoleName(r)) ==> CreateRole(v) == r
    ensures (forall r: Role :: v != Str(RoleName(r))) ==> CreateRole(v) == User
    ensures CreateRole(Str("admin")) == Admin
  {
  }

  /** The `user` object of the reply: the stored account, read back by id. */
  datatype CreatedUser = CreatedUser(id: int, name: string, email: string, address: string, role: Role, createdAt: int)

  /** `createUser`: validation, the duplicate check, the insert, then `findById` of the new id.
      A password that is not a string makes `bcrypt.hash` reject before the insert; that and a
      failed insert end in the catch-all reply. */
  function CreateUser(t: Tables, errors: seq<FieldError>, body: Body, salt: int, now: int): (Tables, Answer<CreatedUser>) {
    if errors != [] then (t, Invalid(errors))
    else
      var name, email, password, address := Text(body, "name"), Text(body, "email"), Text(body, "password"), Text(body, "address");
      var role := CreateRole(Field(body, "role"));
      if FindUserByEmail(t.users, email).Some? then (t, Replied(Failure(400, UserExists)))
      else if !Field(body, "password").Str? then (t, Replied(Failure(500, InternalError)))
      else match UserModel.Create(t, name, email, password, address, role, salt, now)
        case None => (t, Replied(Failure(500, InternalError)))
        case Some((u, id)) =>
          match UserModel.FindById(u, id)
          case None => (u, Replied(Failure(500, InternalError)))
          case Some(p) => (u, Replied(Json(CreatedUser(p.id, p.name, p.email, p.address, p.role, p.createdAt), true)))
  }

  /** Validation errors answer 400 with the errors; an email an account already has is
      refused and creates no account; every refusal leaves the tables as they were. A request
      that passes, with a new email, a password that is a string (bcryptjs
      hashes nothing else) and values that fit their columns, always creates. */
  lemma CreateUserCorrect(t: Tables, errors: seq<FieldError>, body: Body, salt: int, now: int)
    requires SchemaOk(t)
    ensures var (u, a) := CreateUser(t, errors, body, salt, now);
      var email := Text(body, "email");
      var taken := exists i :: 0 <= i < |t.users| && t.users[i].email == email;
      && (errors != [] ==> a == Invalid(errors) && u == t)
      && (errors == [] && taken ==> a == Replied(Failure(400, UserExists)) && u == t)
      && (errors == [] && !taken && !Field(body, "password").Str? ==> a == Replied(Failure(500, InternalError)))
      && (!(a.Replied? && a.reply.Json?) ==> u == t)
      && (errors == [] && !taken && Field(body, "password").Str?
            && |Text(body, "name")| <= 60 && |email| <= 255 && |Text(body, "address")| <= 400 <==>
            a.Replied? && a.reply.Json?)
  {
    if errors == [] {
      var name, email, password, address := Text(body, "name"), Text(body, "email"), Text(body, "password"), Text(body, "address");
      UserModel.CreateCorrect(t, name, email, password, address, CreateRole(Field(body, "role")), salt, now);
    }
  }

  /** A created account is appended under a fresh id with the role granted, a creation
      stamp of now and a password that compares equal to exactly the one submitted; every
      constraint still holds, and the reply echoes the stored row. */
  lemma UserCreated(t: Tables, errors: seq<FieldError>, body: Body, salt: int, now: int)
    requires SchemaOk(t)
    requires CreateUser(t, errors, body, salt, now).1.Replied? && CreateUser(t, errors, body, salt, now).1.reply.Json?
    ensures var (u, a) := CreateUser(t, errors, body, salt, now);
      var c := a.reply.body;
      && a.reply.created && c.id == t.nextUserId && c.role == CreateRole(Field(body, "role"))
      && c.email == Text(body, "email") && c.name == Text(body, "name") && c.address == Text(body, "address")
      && c.createdAt == now
      && |u.users| == |t.users| + 1 && u.users[..|t.users|] == t.users
      && u.users[|t.users|] == UserRow(c.id, c.name, c.email, BcryptHash(Text(body, "password"), salt), c.address, c.role, now, now)
      && (forall other :: BcryptCompare(other, u.users[|t.users|].password) <==> other == Text(body, "password"))
      && SchemaOk(u)
  {
    var name, email, password, address := Text(body, "name"), Text(body, "email"), Text(body, "password"), Text(body, "address");
    var role := CreateRole(Field(body, "role"));
    UserModel.CreateCorrect(t, name, email, password, address, role, salt, now);
    var u := CreateUser(t, errors, body, salt, now).0;
    assert u == UserModel.Create(t, name, email, password, address, role, salt, now).value.0;
    assert u.users[..|t.users|] == t.users;
  }

  /** The request against the live database, statement by statement. */
  method CreateUserOn(db: Database, errors: seq<FieldError>, body: Body, salt: int, now: int) returns (a: Answer<CreatedUser>)
    modifies db
    ensures (db.Contents(), a) == CreateUser(old(db.Contents()), errors, body, salt, now)
  {
    if errors != [] {
      return Invalid(errors);
    }
    var name, email, password, address := Text(body, "name"), Text(body, "email"), Text(body, "password"), Text(body, "address");
    var role := CreateRole(Field(body, "role"));
    if FindUserByEmail(db.users, email).Some? {
      return Replied(Failure(400, UserExists));
    }
    if !Field(body, "password").Str? {
      return Replied(Failure(500, InternalError));
    }
    var id := db.nextUserId;
    var row := UserRow(id, name, email, BcryptHash(password, salt), address, role, now, now);
    if !UserFits(row) {
      return Replied(Failure(500, InternalError));
    }
    db.users := db.users + [row];
    db.nextUserId := id + 1;
    var created := UserModel.FindById(db.Contents(), id);
    if created.None? {
      return Replied(Failure(500, InternalError));
    }
    var p := created.value;
    a := Replied(Json(CreatedUser(p.id, p.name, p.email, p.address, p.role, p.createdAt), true));
  }

  /* ------------------------------------------------------------ getAllUsers */

  /** One entry of the list: the account, and `store_rating`, which only store owners carry. */
  datatype Listed = Listed(user: PublicUser, storeRating: Option<int>)

  /** `store_rating` of a store owner: the live average of the first of their stores, or 0
      when they have none. */
  function StoreRating(t: Tables, u: PublicUser): int {
    var stores := StoreModel.FindByOwnerId(t, u.id);
    if |stores| == 0 then 0
    else match StoreModel.FindById(t, stores[0].id)
      case None => 0
      case Some(d) => d.averageRating
  }

  /** A store owner's `store_rating` is the rounded mean of the ratings of their first store,
      in 1.00..5.00 when it has ratings and 0 when it has none or they own no store. */
  lemma StoreRatingCorrect(t: Tables, u: PublicUser)
    requires SchemaOk(t)
    ensures var stores := StoreModel.FindByOwnerId(t, u.id);
      && (|stores| == 0 ==> StoreRating(t, u) == 0)
      && (|stores| > 0 ==>
            && stores[0].ownerId == Some(u.id)
            && StoreRating(t, u) == stores[0].averageRating
            && StoreRating(t, u) == RoundedMean(RatingValues(t.ratings, stores[0].id))
            && (stores[0].totalRatings == 0 ==> StoreRating(t, u) == 0)
            && (stores[0].totalRatings > 0 ==> 100 <= StoreRating(t, u) <= 500))
  {
    var stores := StoreModel.FindByOwnerId(t, u.id);
    StoreModel.FindByOwnerIdCorrect(t, u.id);
    if |stores| > 0 {
      var j :| 0 <= j < |t.stores| && stores[0] == StoreModel.Summarize(t.ratings, t.stores[j]);
      StoreModel.FindByIdCorrect(t, t.stores[j].id);
      StoreIdFound(t, j);
    }
  }

  /** The store found by the id of a row is that row. */
  lemma StoreIdFound(t: Tables, j: nat)
    requires SchemaOk(t) && j < |t.stores|
    ensures FindStore(t.stores, t.stores[j].id) == Some(t.stores[j])
  {
    var s := FindStore(t.stores, t.stores[j].id).value;
    var k :| 0 <= k < |t.stores| && t.stores[k] == s;
  }

  /** The body of the `map` callback: a store owner gains `store_rating`, anyone else is
      passed on untouched. */
  function WithStoreRating(t: Tables, l: Listed): Listed {
    if l.user.role == StoreOwner then l.(storeRating := Some(StoreRating(t, l.user))) else l
  }

  function AttachAll(t: Tables, ls: seq<Listed>): (r: seq<Listed>)
    ensures |r| == |ls| && forall i :: 0 <= i < |ls| ==> r[i] == WithStoreRating(t, ls[i])
  {
    seq(|ls|, i requires 0 <= i < |ls| => WithStoreRating(t, ls[i]))
  }

  /** The callback over the list, each entry changed in place. */
  method AttachStoreRatings(t: Tables, a: array<Listed>)
    modifies a
    ensures a[..] == AttachAll(t, old(a[..]))
  {
    for i := 0 to a.Length
      invariant a[..i] == AttachAll(t, old(a[..]))[..i]
      invariant a[i..] == old(a[..])[i..]
    {
      if a[i].user.role == StoreOwner {
        a[i] := a[i].(storeRating := Some(StoreRating(t, a[i].user)));
      }
    }
  }

  /** Every entry keeps its account; store owners, and only they, carry the rating of their
      first store. */
  lemma AttachAllCorrect(t: Tables, ls: seq<Listed>)
    ensures var r := AttachAll(t, ls);
      && |r| == |ls|
      && (forall i :: 0 <= i < |ls| ==> r[i].user == ls[i].user)
      && (forall i :: 0 <= i < |ls| && ls[i].user.role == StoreOwner ==> r[i].storeRating == Some(StoreRating(t, ls[i].user)))
      && (forall i :: 0 <= i < |ls| && ls[i].user.role != StoreOwner ==> r[i] == ls[i])
  {
  }

  function Unrated(users: seq<PublicUser>): (r: seq<Listed>)
    ensures |r| == |users| && forall i :: 0 <= i < |users| ==> r[i] == Listed(users[i], None)
  {
    seq(|users|, i requires 0 <= i < |users| => Listed(users[i], None))
  }

  /** The filters of the query string. */
  function Filters(q: Query): UserModel.UserFilters {
    UserModel.UserFilters(Param(q, "name"), Param(q, "email"), Param(q, "address"), Param(q, "role"))
  }

  /** `getAllUsers`: the filtered accounts, each store owner with their `store_rating`. */
  function GetAllUsers(t: Tables, q: Query): Reply<seq<Listed>> {
    Json(AttachAll(t, Unrated(UserModel.GetAllUsers(t, Filters(q)))), false)
  }

  /** The list holds exactly the accounts that match the filters, in table order. */
  lemma GetAllUsersCorrect(t: Tables, q: Query)
    ensures var r := GetAllUsers(t, q).body;
      var f := Filters(q);
      && !GetAllUsers(t, q).created
      && |r| <= |t.users|
      && (forall i :: 0 <= i < |r| ==> UserModel.MatchingUser(t, f, r[i].user))
      && (forall j :: 0 <= j < |t.users| && UserModel.UserMatches(f, t.users[j]) ==>
            exists i :: 0 <= i < |r| && r[i].user == Public(t.users[j]))
  {
    var f := Filters(q);
    var users := UserModel.GetAllUsers(t, f);
    UserModel.GetAllUsersCorrect(t, f);
    ListedUsers(t, users);
  }

  /** Attaching ratings to the unrated list keeps its accounts, one entry each. */
  lemma ListedUsers(t: Tables, users: seq<PublicUser>)
    ensures var r := AttachAll(t, Unrated(users));
      |r| == |users| && forall i :: 0 <= i < |r| ==> r[i].user == users[i]
  {
  }

  /** In the list, store owners carry their `store_rating` and nobody else carries one. */
  lemma GetAllUsersRatings(t: Tables, q: Query)
    ensures var r := GetAllUsers(t, q).body;
      forall i :: 0 <= i < |r| ==>
        r[i].storeRating == if r[i].user.role == StoreOwner then Some(StoreRating(t, r[i].user)) else None
  {
    var r := GetAllUsers(t, q).body;
    var us := Unrated(UserModel.GetAllUsers(t, Filters(q)));
    assert forall i :: 0 <= i < |r| ==> r[i] == WithStoreRating(t, us[i]) && us[i].storeRating == None;
  }

  /** The request: the filtered accounts copied into an array and the callback run over it. */
  method GetAllUsersOn(t: Tables, q: Query) returns (reply: Reply<seq<Listed>>)
    ensures reply == GetAllUsers(t, q)
  {
    var users := UserModel.GetAllUsers(t, Filters(q));
    var a := new Listed[|users|](i requires 0 <= i < |users| => Listed(users[i], None));
    assert a[..] == Unrated(users);
    AttachStoreRatings(t, a);
    reply := Json(a[..], false);
  }

  /* ------------------------------------------------------------ getUserById */

  /** `{ ...user, total_ratings, store_rating, member_since }` */
  datatype UserDetails = UserDetails(user: PublicUser, totalRatings: nat, storeRating: int, memberSince: int)

  /** `getUserById`: the account of the path id, the number of its ratings, and for a store
      owner the average of their first store. A path id PostgreSQL cannot read as an
      integer ends in the catch-all reply. */
  function GetUserById(t: Tables, id: string): Reply<UserDetails> {
    match PgInteger(Str(id))
    case None => Failure(500, InternalError)
    case Some(n) =>
      match UserModel.FindById(t, n)
      case None => Failure(404, UserNotFound)
      case Some(u) =>
        var total := |RatingModel.GetUserRatings(t, u.id)|;
        var rating := if u.role == StoreOwner then StoreRating(t, u) else 0;
        Json(UserDetails(u, total, rating, u.createdAt), false)
  }

  /** An id no account has gives 404. Otherwise the reply is that account, `total_ratings`
      is the number of ratings it has given, `member_since` its creation stamp, and
      `store_rating` is 0 for anyone but a store owner. */
  lemma GetUserByIdCorrect(t: Tables, id: string)
    requires SchemaOk(t)
    ensures var r := GetUserById(t, id);
      && (PgInteger(Str(id)).None? ==> r == Failure(500, InternalError))
      && (PgInteger(Str(id)).Some? ==>
            var n := PgInteger(Str(id)).value;
            && (r.Failure? <==> !HasUser(t.users, n))
            && (r.Failure? ==> r == Failure(404, UserNotFound))
            && (r.Json? ==>
                  && r.body.user == Public(FindUser(t.users, n).value) && r.body.user.id == n
                  && r.body.totalRatings == |Filter(t.ratings, (x: RatingRow) => x.userId == n)|
                  && r.body.memberSince == r.body.user.createdAt
                  && (r.body.user.role != StoreOwner ==> r.body.storeRating == 0)
                  && (r.body.user.role == StoreOwner ==> r.body.storeRating == StoreRating(t, r.body.user))))
  {
    if PgInteger(Str(id)).Some? {
      var n := PgInteger(Str(id)).value;
      RatingModel.GetUserRatingsCorrect(t, n);
    }
  }

  /* -------------------------------------------------------- getUsersByRole */

  function RoleIs(role: string): UserRow -> bool {
    (u: UserRow) => RoleName(u.role) == role
  }

  /** `getUsersByRole(role)`: the accounts whose role is the path's, without passwords. */
  function GetUsersByRole(t: Tables, role: string): seq<PublicUser> {
    UserModel.PublicAll(Filter(t.users, RoleIs(role)))
  }

  /** Exactly the accounts of the role, in table order; a string that names no role lists
      nobody. */
  lemma GetUsersByRoleCorrect(t: Tables, role: string)
    ensures var r := GetUsersByRole(t, role);
      && (forall i :: 0 <= i < |r| ==> RoleName(r[i].role) == role)
      && (forall j :: 0 <= j < |t.users| && RoleName(t.users[j].role) == role ==> Public(t.users[j]) in r)
      && (ParseRole(role).None? ==> r == [])
  {
    var kept := Filter(t.users, RoleIs(role));
    var r := GetUsersByRole(t, role);
    forall i | 0 <= i < |r| ensures RoleName(r[i].role) == role {
      assert RoleIs(role)(kept[i]);
    }
    forall j | 0 <= j < |t.users| && RoleName(t.users[j].role) == role ensures Public(t.users[j]) in r {
      FilterKeeps(t.users, RoleIs(role), j);
      var k :| 0 <= k < |kept| && kept[k] == t.users[j];
      assert r[k] == Public(t.users[j]);
    }
    if ParseRole(role).None? {
      assert forall x: Role :: RoleName(x) != role;
    }
  }

  /* ----------------------------------------------------- getDashboardStats */

  datatype Stats = Stats(totalUsers: nat, totalStores: nat, totalRatings: nat)

  /** `getDashboardStats`: the three counts. */
  function GetDashboardStats(t: Tables): (s: Stats)
    ensures s == Stats(|t.users|, |t.stores|, |t.ratings|)
  {
    Stats(UserModel.GetUsersCount(t), StoreModel.GetStoresCount(t), RatingModel.GetRatingsCount(t))
  }

  /** Creating an account adds one to the account count and leaves the other counts alone;
      a refused request changes no count. */
  lemma StatsAfterCreateUser(t: Tables, errors: seq<FieldError>, body: Body, salt: int, now: int)
    requires SchemaOk(t)
    ensures var (u, a) := CreateUser(t, errors, body, salt, now);
      var (before, after) := (GetDashboardStats(t), GetDashboardStats(u));
      && (a.Replied? && a.reply.Json? ==>
            after == before.(totalUsers := before.totalUsers + 1))
      && (!(a.Replied? && a.reply.Json?) ==> after == before)
  {
    CreateUserCorrect(t, errors, body, salt, now);
    var (u, a) := CreateUser(t, errors, body, salt, now);
    if a.Replied? && a.reply.Json? {
      UserCreated(t, errors, body, salt, now);
      var name, email, password, address := Text(body, "name"), Text(body, "email"), Text(body, "password"), Text(body, "address");
      UserModel.CreateCorrect(t, name, email, password, address, CreateRole(Field(body, "role")), salt, now);
    }
  }
}
