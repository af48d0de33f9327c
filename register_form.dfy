/** frontend/src/pages/auth/Register.jsx: the client-side checks of the registration form
    (`validateForm`), the password-strength meter (`checkPasswordStrength` and its text and
    colour) and the payload sent without `confirmPassword`. The form state is the map from
    input name to its text. */
module RegisterForm {
  import opened Common
  import opened Lists
  import opened FieldRules

  type Form = map<string, string>

  /** The form state always holds its six inputs: it starts with all of them and
      `handleChange` only overwrites one. */
  predicate WellFormed(f: Form) {
    && "name" in f && "email" in f && "password" in f && "confirmPassword" in f
    && "address" in f && "role" in f
  }

  const FormSpecials := "!@#$%^&*"

  const NameRequired := "Full name is required"
  const NameLength := "Name must be between 20 and 60 characters"
  const EmailRequired := "Email is required"
  const EmailInvalid := "Please enter a valid email address"
  const PasswordRequired := "Password is required"
  const PasswordLength := "Password must be between 8 and 16 characters"
  const PasswordPattern := "Password must contain at least one uppercase letter and one special character"
  const ConfirmRequired := "Please confirm your password"
  const ConfirmMismatch := "Passwords do not match"
  const AddressRequired := "Address is required"
  const AddressLength := "Address must not exceed 400 characters"

  /* --------------------------------------------------------------- patterns */

  /** `/\S+@\S+\.\S+/.test(s)`: somewhere in `s` an `@` at `b` and a `.` at `c`, with a
      non-space before the `@`, only non-spaces (at least one) between them, and a
      non-space after the `.`. */
  predicate EmailShaped(s: string) {
    exists b, c :: 0 < b && b + 1 < c && c + 1 < |s| && s[b] == '@' && s[c] == '.'
      && !IsJsSpace(s[b - 1]) && !IsJsSpace(s[c + 1]) && NonSpaceBetween(s, b, c)
  }

  predicate NonSpaceBetween(s: string, b: int, c: int)
    requires 0 <= b < c <= |s|
  {
    forall k :: b < k < c ==> !IsJsSpace(s[k])
  }

  /** `/(?=.*[A-Z])(?=.*[!@#$%^&*])/.test(s)`: from some position both look-aheads succeed,
      each seeing only up to the next line terminator. */
  predicate LookaheadsMatch(s: string) {
    exists p :: 0 <= p <= |s| && HasUpper(FirstLine(s[p..])) && HasSpecial(FirstLine(s[p..]), FormSpecials)
  }

  /* ---------------------------------------------------------- validateForm */

  /** The conditions under which `validateForm` records no error for the field. */
  predicate NameOk(name: string) { Trim(name) != "" && 20 <= Utf16Length(name) <= 60 }
  predicate EmailOk(email: string) { Trim(email) != "" && EmailShaped(email) }
  predicate PasswordOk(password: string) {
    password != "" && 8 <= Utf16Length(password) <= 16 && LookaheadsMatch(password)
  }
  predicate ConfirmOk(password: string, confirm: string) { confirm != "" && confirm == password }
  predicate AddressOk(address: string) { Trim(address) != "" && Utf16Length(address) <= 400 }

  predicate FormValid(f: Form)
    requires WellFormed(f)
  {
    && NameOk(f["name"]) && EmailOk(f["email"]) && PasswordOk(f["password"])
    && ConfirmOk(f["password"], f["confirmPassword"]) && AddressOk(f["address"])
  }

  /** The message `validateForm` assigns to a field that fails, the first check it fails. */
  function NameMessage(name: string): string {
    if Trim(name) == "" then NameRequired else NameLength
  }

  function EmailMessage(email: string): string {
    if Trim(email) == "" then EmailRequired else EmailInvalid
  }

  function PasswordMessage(password: string): string {
    if password == "" then PasswordRequired
    else if !(8 <= Utf16Length(password) <= 16) then PasswordLength
    else PasswordPattern
  }

  function ConfirmMessage(confirm: string): string {
    if confirm == "" then ConfirmRequired else ConfirmMismatch
  }

  function AddressMessage(address: string): string {
    if Trim(address) == "" then AddressRequired else AddressLength
  }

  /** The `errors` object `validateForm` fills: a message per failing field, absent keys
      being `None`. */
  datatype FormErrors = FormErrors(name: Option<string>, email: Option<string>, password: Option<string>,
                                   confirmPassword: Option<string>, address: Option<string>)

  const NoErrors := FormErrors(None, None, None, None, None)

  /** `Object.keys(errors).length` */
  function KeyCount(e: FormErrors): (n: nat)
    ensures n <= 5
    ensures n == 0 <==> e == NoErrors
  {
    (if e.name.Some? then 1 else 0) + (if e.email.Some? then 1 else 0) + (if e.password.Some? then 1 else 0)
    + (if e.confirmPassword.Some? then 1 else 0) + (if e.address.Some? then 1 else 0)
  }

  /** `validateForm`: each field in turn is assigned at most one message, the first check it
      fails; the form is valid when no key was assigned. */
  method ValidateForm(f: Form) returns (errors: FormErrors, valid: bool)
    requires WellFormed(f)
    ensures errors.name.Some? <==> !NameOk(f["name"])
    ensures errors.name.Some? ==> errors.name.value == NameMessage(f["name"])
    ensures errors.email.Some? <==> !EmailOk(f["email"])
    ensures errors.email.Some? ==> errors.email.value == EmailMessage(f["email"])
    ensures errors.password.Some? <==> !PasswordOk(f["password"])
    ensures errors.password.Some? ==> errors.password.value == PasswordMessage(f["password"])
    ensures errors.confirmPassword.Some? <==> !ConfirmOk(f["password"], f["confirmPassword"])
    ensures errors.confirmPassword.Some? ==> errors.confirmPassword.value == ConfirmMessage(f["confirmPassword"])
    ensures errors.address.Some? <==> !AddressOk(f["address"])
    ensures errors.address.Some? ==> errors.address.value == AddressMessage(f["address"])
    ensures valid <==> errors == NoErrors
    ensures valid <==> FormValid(f)
  {
    errors := NoErrors;
    errors := CheckName(errors, f["name"]);
    errors := CheckEmail(errors, f["email"]);
    errors := CheckPassword(errors, f["password"]);
    errors := CheckConfirm(errors, f["password"], f["confirmPassword"]);
    errors := CheckAddress(errors, f["address"]);
    valid := KeyCount(errors) == 0;
  }

  /** The name block of `validateForm`. */
  method CheckName(errors: FormErrors, name: string) returns (e: FormErrors)
    ensures e == errors.(name := if NameOk(name) then errors.name else Some(NameMessage(name)))
  {
    e := errors;
    if Trim(name) == "" {
      e := e.(name := Some(NameRequired));
    } else if Utf16Length(name) < 20 || Utf16Length(name) > 60 {
      e := e.(name := Some(NameLength));
    }
  }

  /** The email block. */
  method CheckEmail(errors: FormErrors, email: string) returns (e: FormErrors)
    ensures e == errors.(email := if EmailOk(email) then errors.email else Some(EmailMessage(email)))
  {
    e := errors;
    if Trim(email) == "" {
      e := e.(email := Some(EmailRequired));
    } else if !EmailShaped(email) {
      e := e.(email := Some(EmailInvalid));
    }
  }

  /** The password block. */
  method CheckPassword(errors: FormErrors, password: string) returns (e: FormErrors)
    ensures e == errors.(password := if PasswordOk(password) then errors.password else Some(PasswordMessage(password)))
  {
    e := errors;
    if password == "" {
      e := e.(password := Some(PasswordRequired));
    } else if Utf16Length(password) < 8 || Utf16Length(password) > 16 {
      e := e.(password := Some(PasswordLength));
    } else if !LookaheadsMatch(password) {
      e := e.(password := Some(PasswordPattern));
    }
  }

  /** The confirmation block. */
  method CheckConfirm(errors: FormErrors, password: string, confirm: string) returns (e: FormErrors)
    ensures e == errors.(confirmPassword := if ConfirmOk(password, confirm) then errors.confirmPassword else Some(ConfirmMessage(confirm)))
  {
    e := errors;
    if confirm == "" {
      e := e.(confirmPassword := Some(ConfirmRequired));
    } else if password != confirm {
      e := e.(confirmPassword := Some(ConfirmMismatch));
    }
  }

  /** The address block. */
  method CheckAddress(errors: FormErrors, address: string) returns (e: FormErrors)
    ensures e == errors.(address := if AddressOk(address) then errors.address else Some(AddressMessage(address)))
  {
    e := errors;
    if Trim(address) == "" {
      e := e.(address := Some(AddressRequired));
    } else if Utf16Length(address) > 400 {
      e := e.(address := Some(AddressLength));
    }
  }

  /* ------------------------------------------------------- password strength */

  /** The three requirements `checkPasswordStrength` lists: 8..16 code units, an upper-case
      letter, one of `!@#$%^&*`. */
  function Requirements(password: string): seq<bool> {
    [8 <= Utf16Length(password) <= 16, HasUpper(password), HasSpecial(password, FormSpecials)]
  }

  /** `Object.values(requirements).filter(Boolean).length` */
  function PasswordStrength(password: string): nat {
    |Filter(Requirements(password), (b: bool) => b)|
  }

  /** The strength counts the requirements met: from 0 when none holds to 3 when all do. */
  lemma PasswordStrengthCorrect(password: string)
    ensures var n := PasswordStrength(password);
      var rs := Requirements(password);
      && n <= 3
      && n == (if rs[0] then 1 else 0) + (if rs[1] then 1 else 0) + (if rs[2] then 1 else 0)
      && (n == 3 <==> rs[0] && rs[1] && rs[2])
      && (n == 0 <==> !rs[0] && !rs[1] && !rs[2])
  {
    var rs := Requirements(password);
    CountMet(rs[0], rs[1], rs[2]);
  }

  /** Filtering three flags by truth keeps one entry per flag that holds. */
  lemma CountMet(a: bool, b: bool, c: bool)
    ensures |Filter([a, b, c], (x: bool) => x)| == (if a then 1 else 0) + (if b then 1 else 0) + (if c then 1 else 0)
  {
    var p := (x: bool) => x;
    assert [a, b, c][1..] == [b, c] && [b, c][1..] == [c] && [c][1..] == [];
    assert |Filter([c], p)| == (if c then 1 else 0);
    assert |Filter([b, c], p)| == (if b then 1 else 0) + |Filter([c], p)|;
    assert |Filter([a, b, c], p)| == (if a then 1 else 0) + |Filter([b, c], p)|;
  }

  /** `getPasswordStrengthText` */
  function StrengthText(n: int): string {
    if n == 0 then "Very Weak"
    else if n == 1 then "Weak"
    else if n == 2 then "Medium"
    else if n == 3 then "Strong"
    else "Very Weak"
  }

  /** `getPasswordStrengthColor` */
  function StrengthColor(n: int): string {
    if n == 0 then "bg-gray-200"
    else if n == 1 then "bg-red-500"
    else if n == 2 then "bg-yellow-500"
    else if n == 3 then "bg-green-500"
    else "bg-gray-200"
  }

  /** The meter reads "Strong" in green exactly when all three requirements are met, and
      "Very Weak" in grey exactly when none is. */
  lemma StrengthDisplay(password: string)
    ensures var n := PasswordStrength(password);
      var rs := Requirements(password);
      && (StrengthText(n) == "Strong" <==> rs[0] && rs[1] && rs[2])
      && (StrengthColor(n) == "bg-green-500" <==> rs[0] && rs[1] && rs[2])
      && (StrengthText(n) == "Very Weak" <==> !rs[0] && !rs[1] && !rs[2])
      && (StrengthColor(n) == "bg-gray-200" <==> StrengthText(n) == "Very Weak")
  {
    PasswordStrengthCorrect(password);
  }

  /** A password the form accepts meets all three requirements of the meter. */
  lemma AcceptedPasswordIsStrong(password: string)
    requires PasswordOk(password)
    ensures PasswordStrength(password) == 3
  {
    var p :| 0 <= p <= |password| && HasUpper(FirstLine(password[p..])) && HasSpecial(FirstLine(password[p..]), FormSpecials);
    var line := FirstLine(password[p..]);
    var i :| 0 <= i < |line| && IsUpperAscii(line[i]);
    assert password[p + i] == line[i];
    var j :| 0 <= j < |line| && line[j] in FormSpecials;
    assert password[p + j] == line[j];
    PasswordStrengthCorrect(password);
  }

  /* ----------------------------------------------------------------- submit */

  /** `const { confirmPassword, ...submitData } = formData` */
  function Payload(f: Form): (p: Form)
    ensures p.Keys == f.Keys - {"confirmPassword"}
    ensures forall k :: k in p ==> p[k] == f[k]
  {
    f - {"confirmPassword"}
  }

  /** What a well-formed form sends: name, email, password, address and role, as typed. */
  lemma PayloadFields(f: Form)
    requires WellFormed(f) && f.Keys == {"name", "email", "password", "confirmPassword", "address", "role"}
    ensures Payload(f).Keys == {"name", "email", "password", "address", "role"}
    ensures "confirmPassword" !in Payload(f)
    ensures Payload(f)["password"] == f["password"] && Payload(f)["email"] == f["email"]
  {
  }
}
