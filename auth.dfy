/** backend/middleware/auth.js: `authenticate` reads the bearer token from the
    `Authorization` header, verifies it and looks the caller up; `authorize(...roles)` admits
    only the listed roles. Token verification (`jwt.verify` with the server's secret at the
    current moment, then the payload's `id`) is a parameter: the map from each token that
    verifies to the user id it carries; a token outside it does not verify. */
module Auth {
  import opened Common
  import opened Schema
  import opened Guards
  import UserModel

  const NoToken := "Access denied. No token provided."
  const BadFormat := "Invalid token format."
  const BadToken := "Invalid or expired token."
  const NotPermitted := "Access denied. You do not have permission to perform this action."

  /** `req.headers.authorization` and `req.headers.Authorization`; an absent one is "". */
  datatype Headers = Headers(lower: string, upper: string)

  /** `req.headers.authorization || req.headers.Authorization` */
  function Header(h: Headers): string {
    if h.lower != "" then h.lower else h.upper
  }

  /** The first position from `i` on at which `x` occurs in `t`. */
  function FirstFrom(t: string, x: string, i: nat): (r: Option<nat>)
    ensures r.Some? ==> i <= r.value && OccursAt(x, t, r.value)
    ensures r.Some? ==> forall j :: i <= j < r.value ==> !OccursAt(x, t, j)
    ensures r.None? ==> forall j :: i <= j ==> !OccursAt(x, t, j)
    decreases |t| - i
  {
    if i + |x| > |t| then None
    else if t[i..i + |x|] == x then Some(i)
    else FirstFrom(t, x, i + 1)
  }

  /** `s.replace(x, y)` with a string pattern: only the first occurrence is replaced. */
  function ReplaceFirst(s: string, x: string, y: string): string {
    match FirstFrom(s, x, 0)
    case None => s
    case Some(i) => s[..i] + y + s[i + |x|..]
  }

  /** `header.replace("Bearer ", "").trim()` */
  function Token(header: string): string {
    Trim(ReplaceFirst(header, "Bearer ", ""))
  }

  /** What `authenticate` decides: the caller it found, or the error reply. */
  datatype AuthResult = Admitted(user: PublicUser) | Refused(status: int, message: string)

  /** `authenticate`. A lookup by an id no account has, like a token that does not verify,
      ends in the catch-all reply. */
  function Authenticate(h: Headers, verify: map<string, int>, t: Tables): AuthResult {
    var header := Header(h);
    if header == "" then Refused(401, NoToken) else Check(Token(header), verify, t)
  }

  /** `authorize(...roles)` for the authenticated caller. */
  function Authorize(roles: seq<Role>, user: PublicUser): Verdict {
    if user.role in roles then Next else Stop(403, NotPermitted)
  }

  /* ----------------------------------------------------------------- lemmas */

  /** Replacing removes exactly the first occurrence: with `s` split at it, the result is
      the text before it, the replacement and the text after it. */
  lemma ReplaceFirstSplit(before: string, x: string, after: string, y: string)
    requires forall j :: 0 <= j < |before| ==> !OccursAt(x, before + x + after, j)
    ensures ReplaceFirst(before + x + after, x, y) == before + y + after
  {
    var s := before + x + after;
    assert OccursAt(x, s, |before|) by { assert s[|before|..|before| + |x|] == x; }
    var i := FirstFrom(s, x, 0).value;
    assert i == |before|;
    assert s[..i] == before && s[i + |x|..] == after;
  }

  /** A header `Bearer <token>` yields the token, trimmed. */
  lemma BearerToken(tok: string)
    ensures Token("Bearer " + tok) == Trim(tok)
  {
    ReplaceFirstSplit("", "Bearer ", tok, "");
    assert "" + "Bearer " + tok == "Bearer " + tok;
    assert "" + "" + tok == tok;
  }

  /** A header without `Bearer ` anywhere in it is taken as the token itself, trimmed. */
  lemma BareToken(header: string)
    requires forall j :: !OccursAt("Bearer ", header, j)
    ensures Token(header) == Trim(header)
  {
  }

  /** No header: 401 "no token". A header that leaves no token: 401 "invalid format".
      Otherwise the caller is admitted exactly when the token verifies to the id of an
      existing account, and is that account without its password; a token that does not
      verify and one that names no account get the same 401 reply. */
  lemma AuthenticateCorrect(h: Headers, verify: map<string, int>, t: Tables)
    ensures var r := Authenticate(h, verify, t);
      var header := Header(h);
      var token := Token(header);
      && (r.Refused? ==> r.status == 401)
      && (header == "" ==> r == Refused(401, NoToken))
      && (header != "" && token == "" ==> r == Refused(401, BadFormat))
      && (header != "" && token != "" ==>
            && (r.Admitted? <==> token in verify && HasUser(t.users, verify[token]))
            && (r.Admitted? ==> r.user == Public(FindUser(t.users, verify[token]).value))
            && (r.Refused? ==> r == Refused(401, BadToken)))
  {
    var header := Header(h);
    if header != "" {
      TokenChecked(Token(header), verify, t);
    }
  }

  /** The part of `authenticate` after the token has been read from the header. */
  function Check(token: string, verify: map<string, int>, t: Tables): AuthResult {
    if token == "" then Refused(401, BadFormat)
    else if token !in verify then Refused(401, BadToken)
    else match UserModel.FindById(t, verify[token])
      case None => Refused(401, BadToken)
      case Some(u) => Admitted(u)
  }

  lemma TokenChecked(token: string, verify: map<string, int>, t: Tables)
    ensures var r := Check(token, verify, t);
      && (token == "" ==> r == Refused(401, BadFormat))
      && (token != "" ==>
            && (r.Admitted? <==> token in verify && HasUser(t.users, verify[token]))
            && (r.Admitted? ==> r.user == Public(FindUser(t.users, verify[token]).value))
            && (r.Refused? ==> r == Refused(401, BadToken)))
  {
  }

  /** A request carrying `Bearer <token>` for an existing account is admitted as that account,
      whichever of the two header spellings carries it. */
  lemma BearerAdmitted(h: Headers, tok: string, verify: map<string, int>, t: Tables, id: int)
    requires Header(h) == "Bearer " + tok && Trim(tok) != ""
    requires Trim(tok) in verify && verify[Trim(tok)] == id && HasUser(t.users, id)
    ensures Authenticate(h, verify, t) == Admitted(Public(FindUser(t.users, id).value))
  {
    BearerToken(tok);
    assert Authenticate(h, verify, t) == Check(Trim(tok), verify, t);
    TokenChecked(Trim(tok), verify, t);
  }

  /** A caller passes exactly when their role is listed; `authorize()` with no role admits
      nobody and `authorize("admin")` exactly administrators. */
  lemma AuthorizeCorrect(roles: seq<Role>, user: PublicUser)
    ensures Authorize(roles, user) == Next <==> exists i :: 0 <= i < |roles| && roles[i] == user.role
    ensures Authorize(roles, user) != Next ==> Authorize(roles, user) == Stop(403, NotPermitted)
    ensures Authorize([], user) != Next
    ensures Authorize([Admin], user) == Next <==> user.role == Admin
  {
  }

  /* ---------------------------------------------------------------- request */

  /** `authenticate` on a request: on success `req.user` is the caller. */
  method AuthenticateRequest(req: Request, h: Headers, verify: map<string, int>, t: Tables) returns (v: Verdict)
    modifies req
    ensures var r := Authenticate(h, verify, t);
      && (v == Next <==> r.Admitted?)
      && (r.Refused? ==> v == Stop(r.status, r.message))
      && req.user == (if r.Admitted? then Some(r.user) else old(req.user))
    ensures unchanged(req`body, req`query, req`pagination, req`store)
  {
    var r := Authenticate(h, verify, t);
    match r
    case Refused(status, message) =>
      v := Stop(status, message);
    case Admitted(u) =>
      req.user := Some(u);
      v := Next;
  }

  /** `authorize(...roles)` on a request that `authenticate` let through. */
  method AuthorizeRequest(req: Request, roles: seq<Role>) returns (v: Verdict)
    requires req.user.Some?
    ensures v == Authorize(roles, req.user.value)
  {
    v := Authorize(roles, req.user.value);
  }
}
