/** backend/controllers/authController.js: self-registration, login, the caller's own
    account, and the password change. Each handler is a function from the tables to the new
    tables and the reply; `register` and `updatePassword` also run as statements against the
    live database. The validation errors collected by the route's chain, the bcrypt salt and
    the clock are parameters. */
module AuthController {
  import opened Common
  import opened JsValues
  import opened Schema
  import opened FieldRules
  import UserModel
  import Auth

  const InternalError := "Internal server error"
  const UserExists := "User already exists with this email"
  const InvalidCredentials := "Invalid credentials"
  const UserNotFound := "User not found"
  const Mismatch := "New password and confirmation do not match"
  const WrongPassword := "Current password is incorrect"

  /** `expiresIn: "24h"`, in seconds. */
  const Day := 86400

  /** The payload of a signed token: `{ id }` and the `iat`/`exp` stamps `jwt.sign` adds. */
  datatype Claims = Claims(id: int, issuedAt: int, expiresAt: int)

  /** `generateToken(userId)` at second `now`. */
  function GenerateToken(userId: int, now: int): Claims {
    Claims(userId, now, now + Day)
  }

  /** `jwt.verify` on an intact token at second `at`: the id, unless the token has expired. */
  function VerifyClaims(c: Claims, at: int): Option<int> {
    if at < c.expiresAt then Some(c.id) else None
  }

  /** An issued token names its user for exactly 24 hours after issue. */
  lemma TokenLifetime(userId: int, now: int, at: int)
    ensures VerifyClaims(GenerateToken(userId, now), at).Some? <==> at < now + 86400
    ensures VerifyClaims(GenerateToken(userId, now), at).Some? ==> VerifyClaims(GenerateToken(userId, now), at).value == userId
  {
  }

  /** The `user` object of the register and login replies. */
  datatype Profile = Profile(id: int, name: string, email: string, address: string, role: Role)

  /** The register and login replies: `{ message, token, user }`. */
  datatype Session = Session(message: string, token: Claims, user: Profile)

  /** A handler's answer: the 400 `{ errors }` of a request that failed validation, or a reply. */
  datatype Answer<+T> = Invalid(errors: seq<FieldError>) | Replied(reply: Reply<T>)

  function Text(body: Body, key: string): string { TextOf(Field(body, key)) }

  /* --------------------------------------------------------------- register */

  /** `allowedRoles.includes(role) ? role : "user"` with `["user", "store_owner"]`. */
  function RegisterRole(v: JsValue): Role {
    if v == Str("store_owner") then StoreOwner else User
  }

  /** Self-registration never grants administration: the role asked for is kept when it is
      `user` or `store_owner`, and is `user` otherwise. */
  lemma RegisterRoleCorrect(v: JsValue)
    ensures RegisterRole(v) != Admin
    ensures v == Str("store_owner") ==> RegisterRole(v) == StoreOwner
    ensures v != Str("store_owner") ==> RegisterRole(v) == User
    ensures RegisterRole(Str("admin")) == User
  {
  }

  /** `register`: validation, the duplicate check, the insert and the signed token. A password
      that is not a string makes `bcrypt.hash` reject before the insert, and that and a
      failed insert end in the catch-all reply. */
  function Register(t: Tables, errors: seq<FieldError>, body: Body, salt: int, now: int): (Tables, Answer<Session>) {
    if errors != [] then (t, Invalid(errors))
    else
      var name, email, password, address := Text(body, "name"), Text(body, "email"), Text(body, "password"), Text(body, "address");
      var role := RegisterRole(Field(body, "role"));
      if FindUserByEmail(t.users, email).Some? then (t, Replied(Failure(400, UserExists)))
      else if !Field(body, "password").Str? then (t, Replied(Failure(500, InternalError)))
      else match UserModel.Create(t, name, email, password, address, role, salt, now)
        case None => (t, Replied(Failure(500, InternalError)))
        case Some((u, id)) =>
          (u, Replied(Json(Session("User registered successfully", GenerateToken(id, now),
                                   Profile(id, name, email, address, role)), true)))
  }

  /** Validation errors answer 400 with the errors; an email an account already has is
      refused and creates no account; every failure leaves the tables as they were. A request
      that passes, with a new email, a password that is a string (bcryptjs
      hashes nothing else) and values that fit their columns, always registers. */
  lemma RegisterCorrect(t: Tables, errors: seq<FieldError>, body: Body, salt: int, now: int)
    ensures var (u, a) := Register(t, errors, body, salt, now);
      var email := Text(body, "email");
      var taken := exists i :: 0 <= i < |t.users| && t.users[i].email == email;
      && (errors != [] ==> a == Invalid(errors) && u == t)
      && (errors == [] && taken ==> a == Replied(Failure(400, UserExists)) && u == t)
      && (errors == [] && !taken && !Field(body, "password").Str? ==> a == Replied(Failure(500, InternalError)))
      && (!(a.Replied? && a.reply.Json?) ==> u == t)
      && (errors == [] && !taken && Field(body, "password").Str?
            && |Text(body, "name")| <= 60 && |email| <= 255 && |Text(body, "address")| <= 400 <==>
            a.Replied? && a.reply.Json?)
      && (a.Replied? && a.reply.Json? ==>
            && a.reply.created && a.reply.body.message == "User registered successfully"
            && a.reply.body.user == Profile(t.nextUserId, Text(body, "name"), email, Text(body, "address"),
                                            RegisterRole(Field(body, "role")))
            && a.reply.body.token == GenerateToken(t.nextUserId, now))
  {
  }

  /** A registration appends one account under a fresh id, never an administrator, with the
      submitted name, email and address and a password that compares equal to exactly the
      one submitted; no store or rating changes, every constraint is kept, and the reply is
      201 with that account and a token for its id. */
  lemma Registered(t: Tables, errors: seq<FieldError>, body: Body, salt: int, now: int)
    requires SchemaOk(t)
    requires Register(t, errors, body, salt, now).1.Replied? && Register(t, errors, body, salt, now).1.reply.Json?
    ensures var (u, a) := Register(t, errors, body, salt, now);
      var s := a.reply.body;
      && a.reply.created && s.user.id == t.nextUserId && s.token == GenerateToken(s.user.id, now)
      && s.user.role != Admin && s.user.role == RegisterRole(Field(body, "role")) && s.user.email == Text(body, "email")
      && s.user.name == Text(body, "name") && s.user.address == Text(body, "address")
      && |u.users| == |t.users| + 1 && u.users[..|t.users|] == t.users
      && u.stores == t.stores && u.ratings == t.ratings
      && u.users[|t.users|] == UserRow(s.user.id, s.user.name, s.user.email, BcryptHash(Text(body, "password"), salt),
                                       s.user.address, s.user.role, now, now)
      && (forall other :: BcryptCompare(other, u.users[|t.users|].password) <==> other == Text(body, "password"))
      && SchemaOk(u)
  {
    var name, email, password, address := Text(body, "name"), Text(body, "email"), Text(body, "password"), Text(body, "address");
    var role := RegisterRole(Field(body, "role"));
    UserModel.CreateCorrect(t, name, email, password, address, role, salt, now);
    var u := Register(t, errors, body, salt, now).0;
    assert u == UserModel.Create(t, name, email, password, address, role, salt, now).value.0;
    assert u.users[..|t.users|] == t.users;
  }

  /** The request against the live database, statement by statement. */
  method RegisterOn(db: Database, errors: seq<FieldError>, body: Body, salt: int, now: int) returns (a: Answer<Session>)
    modifies db
    ensures (db.Contents(), a) == Register(old(db.Contents()), errors, body, salt, now)
  {
    if errors != [] {
      return Invalid(errors);
    }
    var name, email, password, address := Text(body, "name"), Text(body, "email"), Text(body, "password"), Text(body, "address");
    var role := RegisterRole(Field(body, "role"));
    if FindUserByEmail(db.users, email).Some? {
      return Replied(Failure(400, UserExists));
    }
    if !Field(body, "password").Str? {
      return Replied(Failure(500, InternalError));
    }
    var id := db.nextUserId;
    var row := UserRow(id, name, email, BcryptHash(password, salt), address, role, now, now);
    if !UserFits(row) {
      return Replied(Failure(500, InternalError));
    }
    db.users := db.users + [row];
    db.nextUserId := id + 1;
    a := Replied(Json(Session("User registered successfully", GenerateToken(id, now), Profile(id, name, email, address, role)), true));
  }

  /* ------------------------------------------------------------------ login */

  /** `login`: the account of the email, then the password check. bcryptjs compares only
      strings: any other submitted value makes `compare` reject, and the catch-all answers
      500; an unknown email is refused before that. */
  function Login(t: Tables, errors: seq<FieldError>, body: Body, now: int): Answer<Session> {
    if errors != [] then Invalid(errors)
    else match FindUserByEmail(t.users, Text(body, "email"))
      case None => Replied(Failure(401, InvalidCredentials))
      case Some(row) =>
        if !Field(body, "password").Str? then Replied(Failure(500, InternalError))
        else if !BcryptCompare(Text(body, "password"), row.password) then Replied(Failure(401, InvalidCredentials))
        else Replied(Json(Session("Login successful", GenerateToken(row.id, now),
                                  Profile(row.id, row.name, row.email, row.address, row.role)), false))
  }

  /** A request that passes validation logs in exactly when an account has the email and
      its password is the string submitted, and then as that account, with a token for its
      id. A submitted password that is not a string gets 500 exactly when the email is
      known; every other refusal is 401, an unknown email and a wrong password alike, so the
      reply does not tell which one it was. */
  lemma LoginCorrect(t: Tables, errors: seq<FieldError>, body: Body, now: int)
    requires SchemaOk(t)
    ensures var a := Login(t, errors, body, now);
      var email, password := Text(body, "email"), Text(body, "password");
      && (errors != [] ==> a == Invalid(errors))
      && (errors == [] ==>
            && (a.reply.Json? <==> exists i :: 0 <= i < |t.users| && t.users[i].email == email
                                      && Field(body, "password").Str? && BcryptCompare(password, t.users[i].password))
            && (a.reply == Failure(500, InternalError) <==>
                  !Field(body, "password").Str? && exists i :: 0 <= i < |t.users| && t.users[i].email == email)
            && (a.reply.Failure? ==> a.reply == Failure(401, InvalidCredentials) || a.reply == Failure(500, InternalError))
            && (a.reply.Json? ==>
                  && !a.reply.created
                  && exists i :: 0 <= i < |t.users| && t.users[i].email == email
                       && a.reply.body.user == Profile(t.users[i].id, t.users[i].name, email, t.users[i].address, t.users[i].role)
                       && a.reply.body.token == GenerateToken(t.users[i].id, now)))
  {
    if errors == [] {
      var email := Text(body, "email");
      var found := FindUserByEmail(t.users, email);
      if found.Some? {
        var k :| 0 <= k < |t.users| && t.users[k] == found.value;
        forall i | 0 <= i < |t.users| && t.users[i].email == email ensures i == k {
          EmailsUnique(t, i, k);
        }
      }
    }
  }

  /** Two rows of a consistent users table with the same email are the same row. */
  lemma EmailsUnique(t: Tables, i: nat, k: nat)
    requires SchemaOk(t) && i < |t.users| && k < |t.users| && t.users[i].email == t.users[k].email
    ensures i == k
  {
  }

  /** Whoever registers can log in at once with the same email and password, as the account
      just created. */
  lemma LoginAfterRegister(t: Tables, body: Body, salt: int, now: int, later: int)
    requires SchemaOk(t)
    requires Register(t, [], body, salt, now).1.Replied? && Register(t, [], body, salt, now).1.reply.Json?
    ensures var (u, a) := Register(t, [], body, salt, now);
      var l := Login(u, [], body, later);
      l.Replied? && l.reply.Json? && l.reply.body.user == a.reply.body.user
  {
    Registered(t, [], body, salt, now);
    var (u, a) := Register(t, [], body, salt, now);
    var row := u.users[|t.users|];
    var found := FindUserByEmail(u.users, Text(body, "email"));
    var k :| 0 <= k < |u.users| && u.users[k] == found.value;
    EmailsUnique(u, k, |t.users|);
    assert found == Some(row);
    assert BcryptCompare(Text(body, "password"), row.password);
  }

  /* ------------------------------------------------------------------ getMe */

  /** `getMe`: the caller's account as it is now, without its password. */
  function GetMe(t: Tables, caller: PublicUser): (r: Reply<PublicUser>)
    ensures r.Failure? <==> !HasUser(t.users, caller.id)
    ensures r.Failure? ==> r == Failure(404, UserNotFound)
    ensures r.Json? ==> !r.created && r.body == Public(FindUser(t.users, caller.id).value) && r.body.id == caller.id
  {
    match UserModel.FindById(t, caller.id)
    case None => Failure(404, UserNotFound)
    case Some(u) => Json(u, false)
  }

  /* --------------------------------------------------------- updatePassword */

  /** `confirmPassword && newPassword !== confirmPassword` */
  predicate Mismatched(body: Body) {
    Truthy(Field(body, "confirmPassword")) && Field(body, "password") != Field(body, "confirmPassword")
  }

  /** `updatePassword`: validation, the confirmation, the caller's row, the current password,
      then the write. A current password that is not a string makes bcryptjs reject, and the
      catch-all answers 500. */
  function UpdatePassword(t: Tables, errors: seq<FieldError>, body: Body, caller: PublicUser, salt: int, now: int): (Tables, Answer<string>) {
    if errors != [] then (t, Invalid(errors))
    else if Mismatched(body) then (t, Replied(Failure(400, Mismatch)))
    else match FindUser(t.users, caller.id)
      case None => (t, Replied(Failure(404, UserNotFound)))
      case Some(row) =>
        if !Field(body, "currentPassword").Str? then (t, Replied(Failure(500, InternalError)))
        else if !BcryptCompare(Text(body, "currentPassword"), row.password) then (t, Replied(Failure(401, WrongPassword)))
        else if !Field(body, "password").Str? then (t, Replied(Failure(500, InternalError)))
        else (UserModel.UpdatePassword(t, caller.id, Text(body, "password"), salt, now),
              Replied(Json("Password updated successfully", false)))
  }

  /** A confirmation that is given and differs is refused whatever the tables hold, so before
      any lookup, and changes nothing. */
  lemma MismatchBeforeLookup(t: Tables, body: Body, caller: PublicUser, salt: int, now: int)
    requires Mismatched(body)
    ensures UpdatePassword(t, [], body, caller, salt, now) == (t, Replied(Failure(400, Mismatch)))
  {
  }

  /** The password changes exactly when the request passes, the caller's account exists and
      the current password is the right string; every refusal, a wrong current password
      among them, leaves the tables as they were. Once the account is found, a current
      password that is not a string gets 500 and a wrong one 401. */
  lemma UpdatePasswordCorrect(t: Tables, errors: seq<FieldError>, body: Body, caller: PublicUser, salt: int, now: int)
    ensures var (u, a) := UpdatePassword(t, errors, body, caller, salt, now);
      var ok := a.Replied? && a.reply.Json?;
      && (errors != [] ==> a == Invalid(errors))
      && (!ok ==> u == t)
      && (ok <==> errors == [] && !Mismatched(body) && HasUser(t.users, caller.id) && Field(body, "currentPassword").Str?
                  && BcryptCompare(Text(body, "currentPassword"), FindUser(t.users, caller.id).value.password)
                  && Field(body, "password").Str?)
      && (errors == [] && !Mismatched(body) && HasUser(t.users, caller.id) && !Field(body, "currentPassword").Str? ==>
            a == Replied(Failure(500, InternalError)))
      && (errors == [] && !Mismatched(body) && HasUser(t.users, caller.id) && Field(body, "currentPassword").Str?
          && !BcryptCompare(Text(body, "currentPassword"), FindUser(t.users, caller.id).value.password) ==>
            a == Replied(Failure(401, WrongPassword)))
      && (errors == [] && !Mismatched(body) && HasUser(t.users, caller.id) && Field(body, "currentPassword").Str?
          && BcryptCompare(Text(body, "currentPassword"), FindUser(t.users, caller.id).value.password)
          && !Field(body, "password").Str? ==>
            a == Replied(Failure(500, InternalError)))
  {
  }

  /** After a change only the caller's row differs, and only in its password and
      `updated_at`; the password then compares equal to exactly the new one, and every
      constraint still holds. */
  lemma PasswordChanged(t: Tables, errors: seq<FieldError>, body: Body, caller: PublicUser, salt: int, now: int)
    requires SchemaOk(t)
    requires UpdatePassword(t, errors, body, caller, salt, now).1.Replied?
    requires UpdatePassword(t, errors, body, caller, salt, now).1.reply.Json?
    ensures var u := UpdatePassword(t, errors, body, caller, salt, now).0;
      && SchemaOk(u) && |u.users| == |t.users| && u.stores == t.stores && u.ratings == t.ratings
      && (forall i :: 0 <= i < |t.users| && t.users[i].id != caller.id ==> u.users[i] == t.users[i])
      && (forall i :: 0 <= i < |t.users| && t.users[i].id == caller.id ==>
            && Public(u.users[i]) == Public(t.users[i]).(updatedAt := now)
            && forall other :: BcryptCompare(other, u.users[i].password) <==> other == Text(body, "password"))
  {
    assert UpdatePassword(t, errors, body, caller, salt, now).0 == UserModel.UpdatePassword(t, caller.id, Text(body, "password"), salt, now);
    UserModel.UpdatePasswordCorrect(t, caller.id, Text(body, "password"), salt, now);
  }

  /** After a change the new password logs in, and only that value does: the old one, when
      it differs, no longer does. */
  lemma LoginAfterUpdatePassword(t: Tables, body: Body, caller: PublicUser, salt: int, now: int, login: Body, later: int)
    requires SchemaOk(t)
    requires UpdatePassword(t, [], body, caller, salt, now).1.Replied? && UpdatePassword(t, [], body, caller, salt, now).1.reply.Json?
    requires HasUser(t.users, caller.id) && Text(login, "email") == FindUser(t.users, caller.id).value.email
    ensures var u := UpdatePassword(t, [], body, caller, salt, now).0;
      Login(u, [], login, later).reply.Json? <==> Field(login, "password") == Field(body, "password")
  {
    var u := UpdatePassword(t, [], body, caller, salt, now).0;
    var pw := Text(body, "password");
    var k :| 0 <= k < |t.users| && t.users[k] == FindUser(t.users, caller.id).value;
    assert Field(body, "password").Str? && SchemaOk(u) && |u.users| == |t.users|
        && u.users[k] == t.users[k].(password := BcryptHash(pw, salt), updatedAt := now) by {
      PasswordWritten(t, body, caller, salt, now);
      UserModel.UpdatePasswordCorrect(t, caller.id, pw, salt, now);
    }
    LoginAs(u, login, later, k);
  }

  /** A change that succeeds had a string new password, and wrote exactly its hash. */
  lemma PasswordWritten(t: Tables, body: Body, caller: PublicUser, salt: int, now: int)
    requires UpdatePassword(t, [], body, caller, salt, now).1.Replied? && UpdatePassword(t, [], body, caller, salt, now).1.reply.Json?
    ensures Field(body, "password").Str?
    ensures UpdatePassword(t, [], body, caller, salt, now).0 == UserModel.UpdatePassword(t, caller.id, Text(body, "password"), salt, now)
  {
  }

  /** With the account at position `k` holding the submitted email, a login succeeds exactly
      when the submitted password is a string that compares equal to that account's hash. */
  lemma LoginAs(t: Tables, login: Body, now: int, k: nat)
    requires SchemaOk(t) && k < |t.users| && t.users[k].email == Text(login, "email")
    ensures Login(t, [], login, now).Replied?
    ensures Login(t, [], login, now).reply.Json? <==>
      Field(login, "password").Str? && BcryptCompare(Text(login, "password"), t.users[k].password)
  {
    var found := FindUserByEmail(t.users, Text(login, "email"));
    var i :| 0 <= i < |t.users| && t.users[i] == found.value;
    EmailsUnique(t, i, k);
  }

  /** The request against the live database, statement by statement. */
  method UpdatePasswordOn(db: Database, errors: seq<FieldError>, body: Body, caller: PublicUser, salt: int, now: int)
    returns (a: Answer<string>)
    modifies db
    ensures (db.Contents(), a) == UpdatePassword(old(db.Contents()), errors, body, caller, salt, now)
  {
    if errors != [] {
      return Invalid(errors);
    }
    if Mismatched(body) {
      return Replied(Failure(400, Mismatch));
    }
    var row := FindUser(db.users, caller.id);
    if row.None? {
      return Replied(Failure(404, UserNotFound));
    }
    if !Field(body, "currentPassword").Str? {
      return Replied(Failure(500, InternalError));
    }
    if !BcryptCompare(Text(body, "currentPassword"), row.value.password) {
      return Replied(Failure(401, WrongPassword));
    }
    if !Field(body, "password").Str? {
      return Replied(Failure(500, InternalError));
    }
    db.users := UserModel.SetPassword(db.users, caller.id, BcryptHash(Text(body, "password"), salt), now);
    a := Replied(Json("Password updated successfully", false));
  }

  /* ------------------------------------------------------ tokens and authenticate */

  /** `verify` answers for the text `token` as `jwt.verify` does at second `at` for a token
      signed with the claims `c`: it verifies exactly while `c` is unexpired, to `c`'s id. */
  predicate SignedAs(verify: map<string, int>, token: string, c: Claims, at: int) {
    (token in verify <==> VerifyClaims(c, at).Some?) && (token in verify ==> verify[token] == c.id)
  }

  /** A token whose claims name an existing account, sent back as `Bearer <token>`, admits
      that account while the claims are unexpired, and after that gets the 401 an invalid
      token gets. */
  lemma TokenAdmitted(t: Tables, c: Claims, token: string, verify: map<string, int>, at: int)
    requires HasUser(t.users, c.id) && token != "" && Trim(token) == token && SignedAs(verify, token, c, at)
    ensures var r := Auth.Authenticate(Auth.Headers("Bearer " + token, ""), verify, t);
      && (at < c.expiresAt ==> r == Auth.Admitted(Public(FindUser(t.users, c.id).value)))
      && (at >= c.expiresAt ==> r == Auth.Refused(401, Auth.BadToken))
  {
    Auth.BearerToken(token);
    Auth.AuthenticateCorrect(Auth.Headers("Bearer " + token, ""), verify, t);
  }

  /** The token a login hands out admits the account that logged in for 24 hours, and is
      refused after that. */
  lemma LoginTokenAdmitted(t: Tables, errors: seq<FieldError>, body: Body, now: int, s: Session,
                           token: string, verify: map<string, int>, at: int)
    requires SchemaOk(t) && Login(t, errors, body, now) == Replied(Json(s, false))
    requires token != "" && Trim(token) == token && SignedAs(verify, token, s.token, at)
    ensures var r := Auth.Authenticate(Auth.Headers("Bearer " + token, ""), verify, t);
      && (at < now + Day ==>
            && r.Admitted? && FindUser(t.users, s.user.id).Some?
            && r.user == Public(FindUser(t.users, s.user.id).value) && r.user.id == s.user.id)
      && (at >= now + Day ==> r == Auth.Refused(401, Auth.BadToken))
  {
    LoginCorrect(t, errors, body, now);
    TokenAdmitted(t, s.token, token, verify, at);
  }

  /** Likewise the token a registration hands out admits the new account, in the tables the
      registration leaves, for 24 hours. */
  lemma RegisterTokenAdmitted(t: Tables, errors: seq<FieldError>, body: Body, salt: int, now: int,
                              u: Tables, s: Session, token: string, verify: map<string, int>, at: int)
    requires SchemaOk(t) && Register(t, errors, body, salt, now) == (u, Replied(Json(s, true)))
    requires token != "" && Trim(token) == token && SignedAs(verify, token, s.token, at)
    ensures var r := Auth.Authenticate(Auth.Headers("Bearer " + token, ""), verify, u);
      && (at < now + Day ==>
            && r.Admitted? && |u.users| == |t.users| + 1
            && r.user == Public(u.users[|t.users|]) && r.user.id == s.user.id)
      && (at >= now + Day ==> r == Auth.Refused(401, Auth.BadToken))
  {
    Registered(t, errors, body, salt, now);
    var id := s.user.id;
    assert FindUser(u.users, id).Some?;
    var k :| 0 <= k < |u.users| && u.users[k] == FindUser(u.users, id).value;
    assert k == |t.users|;
    TokenAdmitted(u, s.token, token, verify, at);
  }
}
