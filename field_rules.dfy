/** backend/utils/validators.js: the express-validator field rules and the chains the routes
    apply. A chain reports one error per failed rule, in order; the request goes on only when
    it reports none. */
module FieldRules {
  import opened Common
  import opened JsValues
  import opened Schema
  import RatingModel

  /** A request body: its fields by name (a missing field reads as `undefined`). */
  type Body = map<string, JsValue>

  function Field(body: Body, key: string): JsValue {
    if key in body then body[key] else Undefined
  }

  /** One entry of `validationResult(req).array()`: the field and the rule's message. */
  datatype FieldError = FieldError(field: string, message: string)

  /** One rule: no error when it holds, its message otherwise. */
  function Check(ok: bool, field: string, message: string): (r: seq<FieldError>)
    ensures r == [] <==> ok
    ensures |r| <= 1 && forall i :: 0 <= i < |r| ==> r[i].field == field
  {
    if ok then [] else [FieldError(field, message)]
  }

  /* ------------------------------------------------------------------ rules */

  /** `body("name").trim().isLength({ min: 20, max: 60 })`; `isLength` counts code points. */
  predicate UserNameOk(v: JsValue) { 20 <= |Trim(TextOf(v))| <= 60 }

  /** `body("name").isLength({ min: 3, max: 60 })`, untrimmed. */
  predicate StoreNameOk(v: JsValue) { 3 <= |TextOf(v)| <= 60 }

  /** `body("address").trim().isLength({ max: 400 })` */
  predicate AddressOk(v: JsValue) { |Trim(TextOf(v))| <= 400 }

  /** `body("password").isLength({ min: 8, max: 16 })` */
  predicate PasswordLengthOk(v: JsValue) { 8 <= |TextOf(v)| <= 16 }

  /** The special characters of the password pattern's second look-ahead. */
  const Specials: string := "!@#$%^&*()_+-=[]{};':\"\\|,.<>/?"

  /** The text up to the first line terminator: what a look-ahead `(?=.*X)` at the start
      can see, since `.` does not match a line terminator. */
  function FirstLine(s: string): (r: string)
    ensures |r| <= |s| && r == s[..|r|]
    ensures forall i :: 0 <= i < |r| ==> !IsLineTerminator(r[i])
    ensures |r| < |s| ==> IsLineTerminator(s[|r|])
  {
    if s == [] || IsLineTerminator(s[0]) then [] else [s[0]] + FirstLine(s[1..])
  }

  predicate HasUpper(s: string) { exists i :: 0 <= i < |s| && IsUpperAscii(s[i]) }

  predicate HasSpecial(s: string, specials: string) { exists i :: 0 <= i < |s| && s[i] in specials }

  /** `.matches(/^(?=.*[A-Z])(?=.*[<specials>])/)` */
  predicate PasswordPatternOk(v: JsValue) {
    HasUpper(FirstLine(TextOf(v))) && HasSpecial(FirstLine(TextOf(v)), Specials)
  }

  /** `body("rating").isInt({ min: 1, max: 5 })` */
  predicate RatingOk(v: JsValue) { ValidatorIsIntIn(v, 1, 5) }

  /** `body("role").optional().isIn(["admin", "user", "store_owner"])`: only `undefined` skips. */
  predicate RoleOk(v: JsValue) { v == Undefined || ParseRole(TextOf(v)).Some? }

  /** `.toInt().isInt()`: the value must read as an integer. */
  predicate IdOk(v: JsValue) { ValidatorToInt(v).Some? }

  /** `.notEmpty()` */
  predicate NotEmpty(v: JsValue) { TextOf(v) != "" }

  /* ----------------------------------------------------------------- chains */

  /** `emailValidator`; `isEmail` is a parameter here. */
  function EmailErrors(body: Body, isEmail: string -> bool): seq<FieldError> {
    Check(isEmail(TextOf(Field(body, "email"))), "email", "Please provide a valid email")
  }

  function AddressErrors(body: Body): seq<FieldError> {
    Check(AddressOk(Field(body, "address")), "address", "Address must not exceed 400 characters")
  }

  /** `passwordValidator`: the length and the pattern are two rules with two messages. */
  function PasswordErrors(body: Body): seq<FieldError> {
    Check(PasswordLengthOk(Field(body, "password")), "password", "Password must be between 8 and 16 characters")
    + Check(PasswordPatternOk(Field(body, "password")), "password",
            "Password must include at least one uppercase letter and one special character")
  }

  function RegisterErrors(body: Body, isEmail: string -> bool): seq<FieldError> {
    Check(UserNameOk(Field(body, "name")), "name", "Name must be between 20 and 60 characters")
    + EmailErrors(body, isEmail) + AddressErrors(body) + PasswordErrors(body)
  }

  function LoginErrors(body: Body, isEmail: string -> bool): seq<FieldError> {
    EmailErrors(body, isEmail) + Check(NotEmpty(Field(body, "password")), "password", "Password is required")
  }

  function UpdatePasswordErrors(body: Body): seq<FieldError> {
    Check(NotEmpty(Field(body, "currentPassword")), "currentPassword", "Current password is required")
    + PasswordErrors(body)
  }

  function CreateUserErrors(body: Body, isEmail: string -> bool): seq<FieldError> {
    RegisterErrors(body, isEmail) + Check(RoleOk(Field(body, "role")), "role", "Invalid role")
  }

  function CreateStoreErrors(body: Body, isEmail: string -> bool): seq<FieldError> {
    Check(StoreNameOk(Field(body, "name")), "name", "Store name must be between 3 and 60 characters")
    + EmailErrors(body, isEmail) + AddressErrors(body)
    + Check(IdOk(Field(body, "owner_id")), "owner_id", "Owner ID must be a valid integer")
  }

  function RatingErrors(body: Body): seq<FieldError> {
    Check(RatingOk(Field(body, "rating")), "rating", "Rating must be between 1 and 5")
    + Check(IdOk(Field(body, "store_id")), "store_id", "Store ID must be a valid integer")
  }

  /* ---------------------------------------------------------------- lemmas */

  /** Registration goes on exactly when the trimmed name has 20..60 code points, the email is
      valid, the trimmed address has at most 400, and the password has 8..16 code points with
      an uppercase letter and a special character on its first line. */
  lemma RegisterChain(body: Body, isEmail: string -> bool)
    ensures RegisterErrors(body, isEmail) == [] <==>
      && UserNameOk(Field(body, "name"))
      && isEmail(TextOf(Field(body, "email")))
      && AddressOk(Field(body, "address"))
      && PasswordLengthOk(Field(body, "password"))
      && PasswordPatternOk(Field(body, "password"))
  {
  }

  /** Every registration error names one of the four fields, and at most five are reported. */
  lemma RegisterErrorFields(body: Body, isEmail: string -> bool)
    ensures |RegisterErrors(body, isEmail)| <= 5
    ensures AllAbout(RegisterErrors(body, isEmail), {"name", "email", "address", "password"})
  {
    var fields := {"name", "email", "address", "password"};
    var n := Check(UserNameOk(Field(body, "name")), "name", "Name must be between 20 and 60 characters");
    var em, ad, pw := EmailErrors(body, isEmail), AddressErrors(body), PasswordErrors(body);
    assert RegisterErrors(body, isEmail) == n + em + ad + pw;
    CheckAbout(UserNameOk(Field(body, "name")), "name", "Name must be between 20 and 60 characters", fields);
    CheckAbout(isEmail(TextOf(Field(body, "email"))), "email", "Please provide a valid email", fields);
    CheckAbout(AddressOk(Field(body, "address")), "address", "Address must not exceed 400 characters", fields);
    PasswordAbout(body, fields);
    JoinedFields(n, em, fields);
    JoinedFields(n + em, ad, fields);
    JoinedFields(n + em + ad, pw, fields);
  }

  /** Every error names one of `fields`. */
  predicate AllAbout(e: seq<FieldError>, fields: set<string>) {
    forall i :: 0 <= i < |e| ==> e[i].field in fields
  }

  lemma CheckAbout(ok: bool, field: string, message: string, fields: set<string>)
    requires field in fields
    ensures AllAbout(Check(ok, field, message), fields)
  {
  }

  /** The password chain reports at most two errors, both about the password. */
  lemma PasswordAbout(body: Body, fields: set<string>)
    requires "password" in fields
    ensures |PasswordErrors(body)| <= 2 && AllAbout(PasswordErrors(body), fields)
  {
    var p1 := Check(PasswordLengthOk(Field(body, "password")), "password", "Password must be between 8 and 16 characters");
    var p2 := Check(PasswordPatternOk(Field(body, "password")), "password",
                    "Password must include at least one uppercase letter and one special character");
    CheckAbout(PasswordLengthOk(Field(body, "password")), "password", "Password must be between 8 and 16 characters", fields);
    CheckAbout(PasswordPatternOk(Field(body, "password")), "password",
               "Password must include at least one uppercase letter and one special character", fields);
    JoinedFields(p1, p2, fields);
  }

  /** Errors that each name one of some fields still do when reported together. */
  lemma JoinedFields(a: seq<FieldError>, b: seq<FieldError>, fields: set<string>)
    requires AllAbout(a, fields) && AllAbout(b, fields)
    ensures AllAbout(a + b, fields)
  {
    forall i | 0 <= i < |a + b| ensures (a + b)[i].field in fields {
      if i >= |a| { assert (a + b)[i] == b[i - |a|]; }
    }
  }

  /** The admin's user form adds only the role rule to registration's: a missing role passes,
      a present one must name one of the three roles. */
  lemma CreateUserChain(body: Body, isEmail: string -> bool)
    ensures var e := CreateUserErrors(body, isEmail);
      && e[..|RegisterErrors(body, isEmail)|] == RegisterErrors(body, isEmail)
      && (e == [] <==> RegisterErrors(body, isEmail) == [] && RoleOk(Field(body, "role")))
      && (Field(body, "role") == Undefined ==> e == RegisterErrors(body, isEmail))
      && (RoleOk(Field(body, "role")) && Field(body, "role") != Undefined ==>
            ParseRole(TextOf(Field(body, "role"))).Some?)
  {
    var r := RegisterErrors(body, isEmail);
    var c := Check(RoleOk(Field(body, "role")), "role", "Invalid role");
    assert CreateUserErrors(body, isEmail) == r + c;
    assert (r + c)[..|r|] == r;
  }

  /** The store form needs a 3..60 name (untrimmed), a valid email, an address of at most 400
      after trimming, and an owner id that reads as an integer. */
  lemma CreateStoreChain(body: Body, isEmail: string -> bool)
    ensures CreateStoreErrors(body, isEmail) == [] <==>
      && 3 <= |TextOf(Field(body, "name"))| <= 60
      && isEmail(TextOf(Field(body, "email")))
      && |Trim(TextOf(Field(body, "address")))| <= 400
      && ValidatorToInt(Field(body, "owner_id")).Some?
  {
  }

  /** A rating request goes on exactly when the rating is an integer 1..5 and the store id
      reads as an integer; a rating that passes is one the model's check accepts, with the
      same value. */
  lemma RatingChain(body: Body)
    ensures RatingErrors(body) == [] <==>
      ValidatorIsIntIn(Field(body, "rating"), 1, 5) && ValidatorToInt(Field(body, "store_id")).Some?
    ensures RatingErrors(body) == [] ==> RatingModel.CheckedRating(Field(body, "rating")).Ok?
  {
    if RatingErrors(body) == [] {
      RatingPassesModel(Field(body, "rating"));
    }
  }

  /** What `isInt({min: 1, max: 5})` accepts, `Number` reads as the same integer in 1..5. */
  lemma RatingPassesModel(v: JsValue)
    requires RatingOk(v)
    ensures RatingModel.CheckedRating(v).Ok?
    ensures 1 <= RatingModel.CheckedRating(v).value <= 5
    ensures v.Str? ==> RatingModel.CheckedRating(v) == Ok(IntStringValue(v.s).value)
  {
    var k := RatedValue(v);
    assert ToNumber(v) == Int(k);
  }

  /** The integer a value that passes the rating rule stands for. */
  function RatedValue(v: JsValue): (k: int)
    requires RatingOk(v)
    ensures 1 <= k <= 5 && ToNumber(v) == Int(k)
    ensures v.Str? ==> k == IntStringValue(v.s).value
  {
    match v
    case Str(s) =>
      IntStringNumber(s);
      IntStringValue(s).value
    case Number(n) => n.v
  }

  /** Each password rule reports its own error: a short password with neither an uppercase
      letter nor a special character gets both messages. */
  lemma PasswordBothErrors()
    ensures |PasswordErrors(map["password" := Str("abc")])| == 2
  {
    var body := map["password" := Str("abc")];
    assert TextOf(Field(body, "password")) == "abc";
    assert FirstLine("abc") == "abc" by {
      assert FirstLine("") == [];
      assert "abc"[1..] == "bc" && "bc"[1..] == "c" && "c"[1..] == "";
    }
    assert !HasUpper("abc");
  }

  /** The first line of a text that has a line break after a line `a` is `a`. */
  lemma {:induction false} FirstLineStops(a: string, b: string)
    requires forall i :: 0 <= i < |a| ==> !IsLineTerminator(a[i])
    requires b != [] && IsLineTerminator(b[0])
    ensures FirstLine(a + b) == a
  {
    if a != [] {
      assert (a + b)[1..] == a[1..] + b;
      FirstLineStops(a[1..], b);
    }
  }

  /** The pattern only looks at the first line: an uppercase letter after a line break does
      not count. */
  lemma UpperAfterBreakMissed()
    ensures !PasswordPatternOk(Str("abcdefg!\nA"))
  {
    var a, b := "abcdefg!", "\nA";
    assert TextOf(Str("abcdefg!\nA")) == a + b;
    LowerLine(a);
    FirstLineStops(a, b);
    assert !HasUpper(a);
  }

  /** A text of lower-case letters and `!` has no line terminator and no uppercase letter. */
  lemma LowerLine(a: string)
    requires forall i :: 0 <= i < |a| ==> 'a' <= a[i] <= 'z' || a[i] == '!'
    ensures forall i :: 0 <= i < |a| ==> !IsLineTerminator(a[i])
    ensures !HasUpper(a)
  {
  }

  /** An uppercase letter and a special character before the line break are seen. */
  lemma UpperBeforeBreakSeen()
    ensures PasswordPatternOk(Str("Abcdefg!\na"))
  {
    var c, d := "Abcdefg!", "\na";
    FirstLineStops(c, d);
    assert c + d == "Abcdefg!\na";
    assert FirstLine(TextOf(Str("Abcdefg!\na"))) == c;
    assert IsUpperAscii(c[0]);
    assert c[7] == Specials[0];
  }
}
