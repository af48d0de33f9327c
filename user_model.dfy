/** backend/models/User.js: the account writes and reads the auth and user controllers use.
    Passwords are stored as bcrypt hashes (idealised in Schema); the reads that leave out the
    password column return a `PublicUser`. */
module UserModel {
  import opened Common
  import opened Lists
  import opened Schema
  import StoreModel

  /* ------------------------------------------------------------------ create */

  /** `create({name, email, password, address, role})`: the password is hashed (the salt is
      a parameter), then `INSERT ... RETURNING id` with the next value of the `SERIAL`
      sequence and both stamps `NOW()`. `None` is a violated constraint: a value too long for
      its `VARCHAR` or an email already taken (`UNIQUE`). */
  function Create(t: Tables, name: string, email: string, password: string, address: string,
                  role: Role, salt: int, now: int): Option<(Tables, int)>
  {
    var row := UserRow(t.nextUserId, name, email, BcryptHash(password, salt), address, role, now, now);
    if !UserFits(row) || FindUserByEmail(t.users, email).Some? then None
    else Some((t.(users := t.users + [row], nextUserId := t.nextUserId + 1), t.nextUserId))
  }

  /** The insert succeeds exactly when the row fits its columns and its email is new. It then
      appends the row under a fresh id, which it returns and under which the new account
      is found, with a password hash that compares equal to exactly the submitted password;
      no store or rating changes and every constraint is kept. */
  lemma CreateCorrect(t: Tables, name: string, email: string, password: string, address: string,
                      role: Role, salt: int, now: int)
    requires SchemaOk(t)
    ensures var r := Create(t, name, email, password, address, role, salt, now);
      var row := UserRow(t.nextUserId, name, email, BcryptHash(password, salt), address, role, now, now);
      && (r.Some? <==> UserFits(row) && forall i :: 0 <= i < |t.users| ==> t.users[i].email != email)
      && (r.Some? ==>
            var (u, id) := r.value;
            && id == t.nextUserId && !HasUser(t.users, id)
            && u.users == t.users + [row] && u.stores == t.stores && u.ratings == t.ratings
            && FindUser(u.users, id) == Some(row)
            && (forall other :: BcryptCompare(other, row.password) <==> other == password)
            && SchemaOk(u)
            && (AveragesCurrent(t) ==> AveragesCurrent(u)))
  {
    var r := Create(t, name, email, password, address, role, salt, now);
    if r.Some? {
      var row := UserRow(t.nextUserId, name, email, BcryptHash(password, salt), address, role, now, now);
      var (u, id) := r.value;
      assert u == t.(users := t.users + [row], nextUserId := t.nextUserId + 1);
      AppendUserKeepsSchema(t, row);
      FindAppended(t.users, row);
    }
  }

  /** Appending a fresh account whose email is new and that fits its columns keeps every
      constraint. */
  lemma AppendUserKeepsSchema(t: Tables, row: UserRow)
    requires SchemaOk(t) && row.id == t.nextUserId && UserFits(row) && FindUserByEmail(t.users, row.email).None?
    ensures SchemaOk(t.(users := t.users + [row], nextUserId := t.nextUserId + 1))
  {
    AppendUserOk(t.users, row, t.nextUserId);
    StoresOkMoreUsers(t.stores, t.users, [row], t.nextStoreId);
    RatingsOkMoreUsers(t.ratings, t.users, [row], t.stores, t.nextRatingId);
  }

  /** An account appended under an id above every earlier one is the one found by that id. */
  lemma FindAppended(users: seq<UserRow>, row: UserRow)
    requires forall i :: 0 <= i < |users| ==> users[i].id < row.id
    ensures FindUser(users + [row], row.id) == Some(row)
  {
    var us := users + [row];
    assert us[|users|] == row;
    var found := FindUser(us, row.id).value;
    var k :| 0 <= k < |us| && us[k] == found;
    assert forall i :: 0 <= i < |users| ==> us[i] == users[i];
  }

  /* --------------------------------------------------------- updatePassword */

  /** `UPDATE users SET password = $1, updated_at = NOW() WHERE id = $2` on the rows. */
  function SetPassword(users: seq<UserRow>, id: int, hash: PasswordHash, now: int): (r: seq<UserRow>)
    ensures |r| == |users|
    ensures forall i :: 0 <= i < |users| ==>
      r[i] == if users[i].id == id then users[i].(password := hash, updatedAt := now) else users[i]
  {
    seq(|users|, i requires 0 <= i < |users| =>
      if users[i].id == id then users[i].(password := hash, updatedAt := now) else users[i])
  }

  /** `updatePassword(userId, newPassword)`: the new password is hashed and written. */
  function UpdatePassword(t: Tables, userId: int, password: string, salt: int, now: int): Tables {
    t.(users := SetPassword(t.users, userId, BcryptHash(password, salt), now))
  }

  /** Only the account with the id changes, and only its password and `updated_at`; its
      password then compares equal to exactly the new one. An absent id changes nothing.
      Every constraint is kept. */
  lemma UpdatePasswordCorrect(t: Tables, userId: int, password: string, salt: int, now: int)
    requires SchemaOk(t)
    ensures var u := UpdatePassword(t, userId, password, salt, now);
      && SchemaOk(u)
      && u.stores == t.stores && u.ratings == t.ratings && |u.users| == |t.users|
      && (forall i :: 0 <= i < |t.users| && t.users[i].id != userId ==> u.users[i] == t.users[i])
      && (forall i :: 0 <= i < |t.users| && t.users[i].id == userId ==>
            && Public(u.users[i]) == Public(t.users[i]).(updatedAt := now)
            && forall other :: BcryptCompare(other, u.users[i].password) <==> other == password)
      && (!HasUser(t.users, userId) ==> u == t)
  {
    var u := UpdatePassword(t, userId, password, salt, now);
    SetPasswordKeepsIds(t.users, userId, BcryptHash(password, salt), now);
    StoresOkSameIds(t.stores, t.users, u.users, t.nextStoreId);
    RatingsOkSameIds(t.ratings, t.users, u.users, t.stores, t.nextRatingId);
    if !HasUser(t.users, userId) {
      assert u.users == t.users;
    }
  }

  /** Writing a password keeps each row's id, email and column bounds. */
  lemma SetPasswordKeepsIds(users: seq<UserRow>, id: int, hash: PasswordHash, now: int)
    ensures var r := SetPassword(users, id, hash, now);
      forall i :: 0 <= i < |users| ==> r[i].id == users[i].id && r[i].email == users[i].email && (UserFits(users[i]) ==> UserFits(r[i]))
  {
  }

  /** Store owners are looked up by id only, so a users table with the same ids serves. */
  lemma StoresOkSameIds(stores: seq<StoreRow>, users: seq<UserRow>, users': seq<UserRow>, nextId: int)
    requires StoresOk(stores, users, nextId)
    requires |users'| == |users| && forall i :: 0 <= i < |users| ==> users'[i].id == users[i].id
    ensures StoresOk(stores, users', nextId)
  {
    forall i | 0 <= i < |stores| && stores[i].ownerId.Some? ensures HasUser(users', stores[i].ownerId.value) {
      var j :| 0 <= j < |users| && users[j].id == stores[i].ownerId.value;
      assert users'[j].id == users[j].id;
    }
  }

  lemma RatingsOkSameIds(ratings: seq<RatingRow>, users: seq<UserRow>, users': seq<UserRow>, stores: seq<StoreRow>, nextId: int)
    requires RatingsOk(ratings, users, stores, nextId)
    requires |users'| == |users| && forall i :: 0 <= i < |users| ==> users'[i].id == users[i].id
    ensures RatingsOk(ratings, users', stores, nextId)
  {
    forall i | 0 <= i < |ratings| ensures HasUser(users', ratings[i].userId) {
      var j :| 0 <= j < |users| && users[j].id == ratings[i].userId;
      assert users'[j].id == users[j].id;
    }
  }

  /* ------------------------------------------------------------------- reads */

  /** `findById(id)`: the account without its password, or null. */
  function FindById(t: Tables, id: int): (r: Option<PublicUser>)
    ensures r.Some? <==> HasUser(t.users, id)
    ensures r.Some? ==> r == Some(Public(FindUser(t.users, id).value)) && r.value.id == id
  {
    match FindUser(t.users, id)
    case None => None
    case Some(u) => Some(Public(u))
  }

  /** The filters of `getAllUsers`; an empty string is an absent (falsy) filter. */
  datatype UserFilters = UserFilters(name: string, email: string, address: string, role: string)

  /** `name`, `email` and `address` are `ILIKE '%value%'`; `role` is `role = $n`. */
  predicate UserMatches(f: UserFilters, u: UserRow) {
    && (f.name == "" || StoreModel.ILikeContains(u.name, f.name))
    && (f.email == "" || StoreModel.ILikeContains(u.email, f.email))
    && (f.address == "" || StoreModel.ILikeContains(u.address, f.address))
    && (f.role == "" || RoleName(u.role) == f.role)
  }

  function PublicAll(users: seq<UserRow>): (r: seq<PublicUser>)
    ensures |r| == |users| && forall i :: 0 <= i < |users| ==> r[i] == Public(users[i])
  {
    seq(|users|, i requires 0 <= i < |users| => Public(users[i]))
  }

  function UserMatcher(f: UserFilters): UserRow -> bool {
    (u: UserRow) => UserMatches(f, u)
  }

  /** `getAllUsers(filters)`: the matching accounts without passwords, in table order (the
      query has no `ORDER BY`; `sortBy` and `sortOrder` are not read). */
  function GetAllUsers(t: Tables, f: UserFilters): seq<PublicUser> {
    PublicAll(Filter(t.users, UserMatcher(f)))
  }

  /** `u` is a matching account of the table, without its password. */
  predicate MatchingUser(t: Tables, f: UserFilters, u: PublicUser) {
    exists j :: 0 <= j < |t.users| && UserMatches(f, t.users[j]) && u == Public(t.users[j])
  }

  /** Exactly the matching accounts, in table order; without filters every account. */
  lemma GetAllUsersCorrect(t: Tables, f: UserFilters)
    ensures var r := GetAllUsers(t, f);
      && |r| <= |t.users|
      && (forall i :: 0 <= i < |r| ==> MatchingUser(t, f, r[i]))
      && (forall j :: 0 <= j < |t.users| && UserMatches(f, t.users[j]) ==> Public(t.users[j]) in r)
    ensures f == UserFilters("", "", "", "") ==> GetAllUsers(t, f) == PublicAll(t.users)
  {
    GetAllUsersSound(t, f);
    GetAllUsersComplete(t, f);
    if f == UserFilters("", "", "", "") {
      FilterAll(t.users, UserMatcher(f));
    }
  }

  lemma GetAllUsersSound(t: Tables, f: UserFilters)
    ensures forall i :: 0 <= i < |GetAllUsers(t, f)| ==> MatchingUser(t, f, GetAllUsers(t, f)[i])
  {
    var kept := Filter(t.users, UserMatcher(f));
    var r := GetAllUsers(t, f);
    forall i | 0 <= i < |r| ensures MatchingUser(t, f, r[i]) {
      assert UserMatcher(f)(kept[i]) && kept[i] in t.users;
      var j :| 0 <= j < |t.users| && t.users[j] == kept[i];
      assert r[i] == Public(t.users[j]);
    }
  }

  lemma GetAllUsersComplete(t: Tables, f: UserFilters)
    ensures forall j :: 0 <= j < |t.users| && UserMatches(f, t.users[j]) ==> Public(t.users[j]) in GetAllUsers(t, f)
  {
    var kept := Filter(t.users, UserMatcher(f));
    var r := GetAllUsers(t, f);
    forall j | 0 <= j < |t.users| && UserMatches(f, t.users[j]) ensures Public(t.users[j]) in r {
      FilterKeeps(t.users, UserMatcher(f), j);
      var k :| 0 <= k < |kept| && kept[k] == t.users[j];
      assert r[k] == Public(t.users[j]);
    }
  }

  /** `getUsersCount`: `COUNT(*)` of the users table. */
  function GetUsersCount(t: Tables): (n: nat)
    ensures n == |t.users|
  {
    |t.users|
  }
}
