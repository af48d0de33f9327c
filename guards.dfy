/** backend/middleware/validation.js: the request guards. Each guard either passes the
    request on (`next()`) or ends it with an error reply; `sanitizeInput`, `validatePagination`
    and `validateStoreOwnership` also write to the request. */
module Guards {
  import opened Common
  import opened JsValues
  import opened Schema
  import opened FieldRules
  import StoreModel

  /** The outcome of one guard: on to the next handler, or an error reply. */
  datatype Verdict = Next | Stop(status: int, message: string)

  /** A query string: each parameter once, as a string (arrays are not modelled). */
  type Query = map<string, string>

  /** A parameter's value; an absent one reads as the (falsy) empty string. */
  function Param(q: Query, key: string): string {
    if key in q then q[key] else ""
  }

  /* ----------------------------------------------------- validateQueryParams */

  const SortOrderMessage := "sortOrder must be \"asc\" or \"desc\""
  const PageMessage := "page must be a positive number"
  const LimitMessage := "limit must be between 1 and 100"
  const FilterMessage := "Invalid characters in filter values"

  /** `/[;\\'"-]/.test(value)` */
  predicate HasBlocked(s: string) {
    exists i :: 0 <= i < |s| && s[i] in ";\\'\"-"
  }

  /** Some parameter other than sortOrder, page and limit has a blocked character. */
  predicate BadFilter(q: Query) {
    exists k :: k in q && k != "sortOrder" && k != "page" && k != "limit" && q[k] != "" && HasBlocked(q[k])
  }

  predicate BadSortOrder(s: string) { s != "" && Lower(s) != "asc" && Lower(s) != "desc" }

  /** `page && (isNaN(page) || page < 1)` on a string. */
  predicate BadPage(s: string) { s != "" && (StringToNumber(s).NaN? || Below(StringToNumber(s), 1)) }

  /** `limit && (isNaN(limit) || limit < 1 || limit > 100)` on a string. */
  predicate BadLimit(s: string) {
    s != "" && (StringToNumber(s).NaN? || Below(StringToNumber(s), 1) || Above(StringToNumber(s), 100))
  }

  /** `validateQueryParams`: the four checks in order; the first that fails answers. */
  function ValidateQueryParams(q: Query): Verdict {
    if BadSortOrder(Param(q, "sortOrder")) then Stop(400, SortOrderMessage)
    else if BadPage(Param(q, "page")) then Stop(400, PageMessage)
    else if BadLimit(Param(q, "limit")) then Stop(400, LimitMessage)
    else if BadFilter(q) then Stop(400, FilterMessage)
    else Next
  }

  /** The request goes on exactly when sortOrder is absent or `asc`/`desc` in any case, page is
      absent or a number of at least 1, limit is absent or a number in 1..100, and no other
      parameter holds one of `; \ ' " -`. Each failure is reported by the first check that
      fails, so a request with a bad sortOrder always gets the sortOrder message. */
  lemma QueryParamsChain(q: Query)
    ensures var so, page, limit := Param(q, "sortOrder"), Param(q, "page"), Param(q, "limit");
      && (ValidateQueryParams(q) == Next <==>
            && (so == "" || Lower(so) in {"asc", "desc"})
            && (page == "" || (StringToNumber(page).Int? && StringToNumber(page).v >= 1)
                           || (StringToNumber(page).Frac? && StringToNumber(page).floor >= 1)
                           || StringToNumber(page) == Inf(false))
            && (limit == "" || (StringToNumber(limit).Int? && 1 <= StringToNumber(limit).v <= 100)
                            || (StringToNumber(limit).Frac? && 1 <= StringToNumber(limit).floor < 100))
            && forall k :: k in q && k !in {"sortOrder", "page", "limit"} && q[k] != "" ==> !HasBlocked(q[k]))
      && (BadSortOrder(so) ==> ValidateQueryParams(q) == Stop(400, SortOrderMessage))
      && (ValidateQueryParams(q).Stop? ==> ValidateQueryParams(q).status == 400)
  {
  }

  /** An upper-case sortOrder passes the guard, but `findAll` compares with `"asc"` exactly,
      so the stores come back in descending order. */
  lemma UpperAscSortsDescending()
    ensures ValidateQueryParams(map["sortBy" := "name", "sortOrder" := "ASC"]) == Next
    ensures StoreModel.Ordering(StoreModel.StoreQuery("", "", "", "name", "ASC", 0, 0)) == Some(("name", false))
  {
    var q := map["sortBy" := "name", "sortOrder" := "ASC"];
    assert Lower("ASC") == "asc";
    assert !HasBlocked("name");
    assert forall k :: k in q && k != "sortOrder" ==> k == "sortBy";
  }

  /** The guard as it evidently means to work: the sortOrder it accepts is passed on in lower
      case, the spelling `findAll` compares against. */
  function NormalizeQuery(q: Query): (r: Query)
    ensures r.Keys == q.Keys
    ensures forall k :: k in q && k != "sortOrder" ==> r[k] == q[k]
  {
    if "sortOrder" in q then q["sortOrder" := Lower(q["sortOrder"])] else q
  }

  /** After the normalised guard, every sortOrder it accepts is honoured: a sort on a known
      column is ascending exactly for `asc` in any case. */
  lemma NormalizedSortHonoured(q: Query, sortBy: string)
    requires ValidateQueryParams(q) == Next && "sortOrder" in q && sortBy != ""
    ensures var so := NormalizeQuery(q)["sortOrder"];
      StoreModel.Ordering(StoreModel.StoreQuery("", "", "", sortBy, so, 0, 0)).Some? ==>
        StoreModel.Ordering(StoreModel.StoreQuery("", "", "", sortBy, so, 0, 0)).value.1 == (Lower(q["sortOrder"]) == "asc")
  {
  }

  /** The normalised query passes the guard whenever the original did. */
  lemma NormalizedStillPasses(q: Query)
    requires ValidateQueryParams(q) == Next
    ensures ValidateQueryParams(NormalizeQuery(q)) == Next
  {
    var r := NormalizeQuery(q);
    if "sortOrder" in q {
      LowerIdempotent(q["sortOrder"]);
      assert Param(r, "sortOrder") == Lower(Param(q, "sortOrder"));
    }
    assert Param(r, "page") == Param(q, "page");
    assert Param(r, "limit") == Param(q, "limit");
    assert !BadFilter(r) by {
      forall k | k in r && k != "sortOrder" && k != "page" && k != "limit" && r[k] != "" ensures !HasBlocked(r[k]) {
        assert r[k] == q[k];
      }
    }
  }

  lemma LowerIdempotent(s: string)
    ensures Lower(Lower(s)) == Lower(s)
  {
    assert forall i :: 0 <= i < |s| ==> LowerChar(LowerChar(s[i])) == LowerChar(s[i]);
  }

  /* ------------------------------------------------ validateRating, validateRole */

  const RatingMessage := "Rating must be between 1 and 5"
  const RoleMessage := "Role must be one of: admin, user, store_owner"

  /** `rating && (rating < 1 || rating > 5)`; the comparisons read the value with `Number`. */
  function ValidateRating(body: Body): Verdict {
    var v := Field(body, "rating");
    if Truthy(v) && (Below(ToNumber(v), 1) || Above(ToNumber(v), 5)) then Stop(400, RatingMessage) else Next
  }

  /** Only a present (truthy) rating that reads as a number outside 1..5 is refused: a missing
      or empty rating and one that is no number at all pass. */
  lemma RatingGuard(body: Body)
    ensures var v := Field(body, "rating");
      ValidateRating(body) != Next <==>
        Truthy(v) && match ToNumber(v)
                     case Int(n) => n < 1 || n > 5
                     case Frac(f) => f < 1 || f >= 5
                     case Inf(_) => true
                     case NaN => false
    ensures ValidateRating(body) != Next ==> ValidateRating(body) == Stop(400, RatingMessage)
  {
  }

  /** A rating that is no number at all, such as `"abc"`, passes the guard. */
  lemma WordRatingPasses()
    ensures ValidateRating(map["rating" := Str("abc")]) == Next
  {
    var s := "abc";
    assert Trim(s) == s by { TrimBare(s); }
    assert NonDecimal(s).None?;
    assert SplitSign(s) == (false, s);
    LeadingDigitsAt(s, 0);
    assert StringToNumber(s) == NaN;
  }

  /** `role && !["admin", "user", "store_owner"].includes(role)`: `includes` compares strictly. */
  function ValidateRole(body: Body): Verdict {
    var v := Field(body, "role");
    if Truthy(v) && !(v.Str? && ParseRole(v.s).Some?) then Stop(400, RoleMessage) else Next
  }

  /** A missing or empty role passes, and so does a string naming one of the three roles;
      anything else present is refused. */
  lemma RoleGuard(body: Body)
    ensures ValidateRole(body) == Next <==>
      !Truthy(Field(body, "role")) || Field(body, "role") in {Str("admin"), Str("user"), Str("store_owner")}
  {
  }

  /* ------------------------------------------------- password, name, address */

  const StrongPasswordMessage := "Password must be 8-16 chars, contain 1 uppercase letter & 1 special character"
  const NameLengthMessage := "Name must be between 3 and 60 characters"
  const AddressLengthMessage := "Address cannot exceed 400 characters"

  /** `/^(?=.*[A-Z])(?=.*[!@#$%^&*]).{8,16}$/`: 8..16 UTF-16 code units, none a line
      terminator, among them an uppercase letter and one of `!@#$%^&*`. */
  predicate StrongPassword(s: string) {
    && 8 <= Utf16Length(s) <= 16
    && (forall i :: 0 <= i < |s| ==> !IsLineTerminator(s[i]))
    && HasUpper(s) && HasSpecial(s, "!@#$%^&*")
  }

  /** `validatePasswordStrength`: an absent password passes; the test reads `String(password)`. */
  function ValidatePasswordStrength(body: Body): Verdict {
    var v := Field(body, "password");
    if !Truthy(v) then Next
    else if StrongPassword(TextOf(v)) then Next
    else Stop(400, StrongPasswordMessage)
  }

  /** The guard is stricter than the field rule of the same routes on plain text: a password
      it passes also passes both password rules. The converse fails: the rule's wider set of
      special characters lets `Abcdefg(` through, which the guard refuses. */
  lemma StrongPasswordPassesRules(s: string)
    requires Bmp(s) && StrongPassword(s)
    ensures PasswordLengthOk(Str(s)) && PasswordPatternOk(Str(s))
  {
    BmpLength(s);
    NoBreakFirstLine(s);
    assert TextOf(Str(s)) == s;
    var i :| 0 <= i < |s| && s[i] in "!@#$%^&*";
    assert s[i] in Specials;
  }

  /** `Abcdefg(` passes both field rules but not the guard: `(` is special only to the rule. */
  lemma RulesWiderThanGuard()
    ensures !StrongPassword("Abcdefg(")
    ensures PasswordPatternOk(Str("Abcdefg(")) && PasswordLengthOk(Str("Abcdefg("))
  {
    GuardRefusesParen();
    RulesAcceptParen();
    RulesLengthParen();
  }

  lemma GuardRefusesParen()
    ensures !StrongPassword("Abcdefg(")
  {
    var w := "Abcdefg(";
    assert !HasSpecial(w, "!@#$%^&*") by {
      forall i | 0 <= i < |w| ensures w[i] !in "!@#$%^&*" {
        assert w[i] in {'A', 'b', 'c', 'd', 'e', 'f', 'g', '('};
      }
    }
  }

  lemma RulesLengthParen()
    ensures PasswordLengthOk(Str("Abcdefg("))
  {
    assert TextOf(Str("Abcdefg(")) == "Abcdefg(";
  }

  lemma RulesAcceptParen()
    ensures PasswordPatternOk(Str("Abcdefg("))
  {
    var w := "Abcdefg(";
    assert TextOf(Str(w)) == w;
    NoBreakFirstLine(w);
    ParenIsSpecial();
    CapitalA();
  }

  lemma ParenIsSpecial()
    ensures HasSpecial("Abcdefg(", Specials)
  {
    var w := "Abcdefg(";
    assert w[7] == Specials[8];
  }

  lemma CapitalA()
    ensures HasUpper("Abcdefg(")
  {
    var w := "Abcdefg(";
    assert IsUpperAscii(w[0]);
  }

  /** A text without line terminators is its own first line. */
  lemma {:induction false} NoBreakFirstLine(s: string)
    requires forall i :: 0 <= i < |s| ==> !IsLineTerminator(s[i])
    ensures FirstLine(s) == s
  {
    if s != [] { NoBreakFirstLine(s[1..]); }
  }

  /** `name && (name.length < 3 || name.length > 60)`; a non-string has no length and passes. */
  function ValidateNameLength(body: Body): Verdict {
    match Field(body, "name")
    case Str(s) => if s != "" && (Utf16Length(s) < 3 || Utf16Length(s) > 60) then Stop(400, NameLengthMessage) else Next
    case _ => Next
  }

  /** `address && address.length > 400` */
  function ValidateAddressLength(body: Body): Verdict {
    match Field(body, "address")
    case Str(s) => if s != "" && Utf16Length(s) > 400 then Stop(400, AddressLengthMessage) else Next
    case _ => Next
  }

  /** The two name bounds overlap but disagree: the guard passes every non-empty name of
      3..60 code units, untrimmed, while the user-name rule wants 20..60 code points after
      trimming. A trimmed name of 20..60 passes both. */
  lemma NameBoundsDisagree(s: string)
    requires Bmp(s) && 20 <= |s| <= 60 && !IsJsSpace(s[0]) && !IsJsSpace(s[|s| - 1])
    ensures ValidateNameLength(map["name" := Str(s)]) == Next && UserNameOk(Str(s))
  {
    BmpLength(s);
    NameLengthGuard(s);
    TrimBare(s);
    assert TextOf(Str(s)) == s;
  }

  /** A three-letter name passes the guard and fails the rule. */
  lemma ShortNameAccepted()
    ensures ValidateNameLength(map["name" := Str("Bob")]) == Next && !UserNameOk(Str("Bob"))
  {
    var b := "Bob";
    assert Bmp(b);
    BmpLength(b);
    NameLengthGuard(b);
    assert |Trim(TextOf(Str(b)))| <= 3;
  }

  /** A name padded with spaces to 61 characters fails the guard but passes the rule, which
      trims first. */
  lemma PaddedNameRefused(s: string)
    requires 20 <= |s| <= 60 && !IsJsSpace(s[0]) && !IsJsSpace(s[|s| - 1])
    ensures var padded := s + Spaces(61 - |s|);
      ValidateNameLength(map["name" := Str(padded)]) != Next && UserNameOk(Str(padded))
  {
    var padded := s + Spaces(61 - |s|);
    NameLengthGuard(padded);
    TrimPadding(s, 61 - |s|);
  }

  /** A string name is refused exactly when it is non-empty and its length in code units is
      outside 3..60. */
  lemma NameLengthGuard(name: string)
    ensures ValidateNameLength(map["name" := Str(name)]) == Next <==> name == "" || 3 <= Utf16Length(name) <= 60
  {
    assert Field(map["name" := Str(name)], "name") == Str(name);
  }

  /** `n` spaces. */
  function Spaces(n: nat): (r: string)
    ensures |r| == n && forall i :: 0 <= i < n ==> r[i] == ' '
  {
    if n == 0 then [] else [' '] + Spaces(n - 1)
  }

  /** Trailing spaces after a word that starts and ends with something else are trimmed off. */
  lemma TrimPadding(s: string, n: nat)
    requires s != [] && !IsJsSpace(s[0]) && !IsJsSpace(s[|s| - 1])
    ensures Trim(s + Spaces(n)) == s
  {
    var p := s + Spaces(n);
    assert TrimStart(p) == p;
    TrimEndPadding(s, n);
  }

  lemma {:induction false} TrimEndPadding(s: string, n: nat)
    requires s != [] && !IsJsSpace(s[|s| - 1])
    ensures TrimEnd(s + Spaces(n)) == s
  {
    if n == 0 {
      assert s + Spaces(0) == s;
    } else {
      var p := s + Spaces(n);
      assert p[..|p| - 1] == s + Spaces(n - 1);
      TrimEndPadding(s, n - 1);
    }
  }

  /* ------------------------------------------------------------ sanitizeInput */

  /** `.replace(/\s+/g, " ")`: every run of white space becomes one space. */
  function Collapse(s: string): (r: string)
    ensures r == [] <==> s == []
    ensures s != [] ==> r[0] == (if IsJsSpace(s[0]) then ' ' else s[0])
    ensures s != [] && !IsJsSpace(s[|s| - 1]) ==> !IsJsSpace(r[|r| - 1])
    ensures Collapsed(r)
    decreases |s|
  {
    if s == [] then []
    else if IsJsSpace(s[0]) then
      var rest := TrimStart(s[1..]);
      assert rest != [] ==> rest[|rest| - 1] == s[|s| - 1];
      [' '] + Collapse(rest)
    else
      [s[0]] + Collapse(s[1..])
  }

  /** Every white-space character is a single space followed by something else. */
  predicate Collapsed(s: string) {
    forall i :: 0 <= i < |s| && IsJsSpace(s[i]) ==> s[i] == ' ' && (i + 1 < |s| ==> !IsJsSpace(s[i + 1]))
  }

  /** `clean(value)` on a string: `value.trim().replace(/\s+/g, " ")`. */
  function Clean(s: string): string {
    Collapse(Trim(s))
  }

  /** Neither end is white space, and no white space but single spaces in between. */
  predicate Tidy(s: string) {
    (s == [] || (!IsJsSpace(s[0]) && !IsJsSpace(s[|s| - 1]))) && Collapsed(s)
  }

  /** The characters other than white space, in order. */
  function Words(s: string): string {
    if s == [] then [] else (if IsJsSpace(s[0]) then [] else [s[0]]) + Words(s[1..])
  }

  /** A cleaned string is tidy. */
  lemma CleanTidy(s: string)
    ensures Tidy(Clean(s))
  {
  }

  /** A tidy string is left as it is. */
  lemma {:induction false} CollapseTidy(s: string)
    requires Collapsed(s)
    ensures Collapse(s) == s
  {
    if s != [] {
      var rest := s[1..];
      CollapsedTail(s);
      CollapseTidy(rest);
      CollapsedHead(s);
      assert s == [s[0]] + rest;
      if IsJsSpace(s[0]) {
        CollapseSpaceHead(s);
      } else {
        CollapseWordHead(s);
      }
    }
  }

  /** In a collapsed string a first white-space character is a space, and what follows is
      not white space. */
  lemma CollapsedHead(s: string)
    requires s != [] && Collapsed(s)
    ensures IsJsSpace(s[0]) ==> s[0] == ' ' && (|s| == 1 || !IsJsSpace(s[1]))
  {
  }

  /** A single space before something other than white space is kept as it is. */
  lemma CollapseSpaceHead(s: string)
    requires s != [] && s[0] == ' ' && (|s| == 1 || !IsJsSpace(s[1]))
    ensures Collapse(s) == [' '] + Collapse(s[1..])
  {
    assert TrimStart(s[1..]) == s[1..];
  }

  /** A first character other than white space is kept as it is. */
  lemma CollapseWordHead(s: string)
    requires s != [] && !IsJsSpace(s[0])
    ensures Collapse(s) == [s[0]] + Collapse(s[1..])
  {
  }

  /** Dropping the first character keeps a string collapsed. */
  lemma CollapsedTail(s: string)
    requires s != [] && Collapsed(s)
    ensures Collapsed(s[1..])
  {
    var rest := s[1..];
    forall i | 0 <= i < |rest| && IsJsSpace(rest[i])
      ensures rest[i] == ' ' && (i + 1 < |rest| ==> !IsJsSpace(rest[i + 1]))
    {
      assert rest[i] == s[i + 1];
    }
  }

  /** Cleaning twice is cleaning once. */
  lemma CleanIdempotent(s: string)
    ensures Clean(Clean(s)) == Clean(s)
  {
    var c := Clean(s);
    CleanTidy(s);
    if c != [] { TrimBare(c); }
    CollapseTidy(c);
  }

  /** Cleaning keeps every character that is not white space, in order. */
  lemma CleanKeepsWords(s: string)
    ensures Words(Clean(s)) == Words(s)
  {
    TrimWords(s);
    CollapseWords(Trim(s));
  }

  lemma {:induction false} CollapseWords(s: string)
    ensures Words(Collapse(s)) == Words(s)
    decreases |s|
  {
    if s != [] {
      if IsJsSpace(s[0]) {
        var rest := TrimStart(s[1..]);
        TrimStartWords(s[1..]);
        CollapseWords(rest);
        WordsAppend([' '], Collapse(rest));
      } else {
        CollapseWords(s[1..]);
        WordsAppend([s[0]], Collapse(s[1..]));
      }
    }
  }

  lemma {:induction false} WordsAppend(a: string, b: string)
    ensures Words(a + b) == Words(a) + Words(b)
  {
    if a != [] {
      assert (a + b)[1..] == a[1..] + b;
      WordsAppend(a[1..], b);
    } else {
      assert a + b == b;
    }
  }

  lemma {:induction false} TrimStartWords(s: string)
    ensures Words(TrimStart(s)) == Words(s)
  {
    if s != [] && IsJsSpace(s[0]) { TrimStartWords(s[1..]); }
  }

  lemma {:induction false} TrimEndWords(s: string)
    ensures Words(TrimEnd(s)) == Words(s)
    decreases |s|
  {
    if s != [] && IsJsSpace(s[|s| - 1]) {
      var init := s[..|s| - 1];
      assert s == init + [s[|s| - 1]];
      WordsAppend(init, [s[|s| - 1]]);
      TrimEndWords(init);
    }
  }

  lemma TrimWords(s: string)
    ensures Words(Trim(s)) == Words(s)
  {
    TrimStartWords(s);
    TrimEndWords(TrimStart(s));
  }

  /** `clean(value)`: strings are cleaned, every other value is left as it is. */
  function CleanValue(v: JsValue): JsValue {
    if v.Str? then Str(Clean(v.s)) else v
  }

  /* ------------------------------------------------------- validatePagination */

  /** `req.pagination` */
  datatype Pagination = Pagination(page: int, limit: int, offset: int)

  /** `parseInt(value)` of a parameter with a default for an absent one; NaN is `None`. */
  function NumberParam(q: Query, key: string, default: int): Option<int> {
    if key in q then ParseIntAuto(q[key]) else Some(default)
  }

  /** `validatePagination`: page defaults to 1 and limit to 10, and so do values that are no
      number or out of range. */
  function Paginate(q: Query): Pagination {
    PageWindow(NumberParam(q, "page", 1), NumberParam(q, "limit", 10))
  }

  /** The window for a parsed page and limit. */
  function PageWindow(page: Option<int>, limit: Option<int>): Pagination {
    var p := PageNumber(page);
    var l := PageSize(limit);
    Pagination(p, l, (p - 1) * l)
  }

  /** `if (isNaN(page) || page < 1) page = 1` */
  function PageNumber(n: Option<int>): (p: int)
    ensures p >= 1
  {
    match n case Some(k) => if k < 1 then 1 else k case None => 1
  }

  /** `if (isNaN(limit) || limit < 1 || limit > 100) limit = 10` */
  function PageSize(n: Option<int>): (p: int)
    ensures 1 <= p <= 100
  {
    match n case Some(k) => if k < 1 || k > 100 then 10 else k case None => 10
  }

  /** The page is at least 1, the limit in 1..100, and the offset skips the earlier pages;
      absent parameters give page 1 of 10. */
  lemma PaginateCorrect(q: Query)
    ensures var p := Paginate(q);
      && p.page >= 1 && 1 <= p.limit <= 100 && p.offset == (p.page - 1) * p.limit && p.offset >= 0
      && ("page" !in q ==> p.page == 1)
      && ("limit" !in q ==> p.limit == 10)
  {
    var page, limit := NumberParam(q, "page", 1), NumberParam(q, "limit", 10);
    assert Paginate(q) == PageWindow(page, limit);
    assert "page" !in q ==> page == Some(1);
    assert "limit" !in q ==> limit == Some(10);
    PageWindowBounds(page, limit);
  }

  lemma PageWindowBounds(page: Option<int>, limit: Option<int>)
    ensures var w := PageWindow(page, limit);
      && w.page >= 1 && 1 <= w.limit <= 100 && w.offset == (w.page - 1) * w.limit && w.offset >= 0
      && (page == Some(1) ==> w.page == 1)
      && (limit == Some(10) ==> w.limit == 10)
  {
    var w := PageWindow(page, limit);
    MulMono(w.limit, 0, w.page - 1);
  }

  /** A page or limit written in decimal within its range is taken as it is. */
  lemma PaginateDecimal(q: Query, page: nat, limit: nat)
    requires "page" in q && q["page"] == NatToString(page) && page >= 1
    requires "limit" in q && q["limit"] == NatToString(limit) && 1 <= limit <= 100
    ensures Paginate(q) == Pagination(page, limit, (page - 1) * limit)
  {
    DecimalParam(q, "page", 1, page);
    DecimalParam(q, "limit", 10, limit);
    InRangeWindow(page, limit);
  }

  /** A page and a limit within range are kept as they are. */
  lemma InRangeWindow(page: int, limit: int)
    requires page >= 1 && 1 <= limit <= 100
    ensures PageWindow(Some(page), Some(limit)) == Pagination(page, limit, (page - 1) * limit)
  {
  }

  /** A parameter written in decimal is read as that number, whatever the default. */
  lemma DecimalParam(q: Query, key: string, default: int, n: nat)
    requires key in q && q[key] == NatToString(n)
    ensures NumberParam(q, key, default) == Some(n)
  {
    DecimalParses(n);
  }

  /** A decimal spelling has no `0x` prefix, so `parseInt` reads it in base 10. */
  lemma DecimalParses(n: nat)
    ensures ParseIntAuto(NatToString(n)) == Some(n)
  {
    var s := NatToString(n);
    NatToStringParses(n);
    assert !IsJsSpace(s[0]);
    assert TrimStart(s) == s;
    assert SplitSign(s) == (false, s);
    assert |s| >= 2 ==> !(s[1] == 'x' || s[1] == 'X') by {
      if |s| >= 2 { assert IsDigit(s[1]); }
    }
  }

  /* -------------------------------------------------------- validateSelfAction */

  const SelfActionMessage := "You cannot perform this action on your own account"

  /** `targetId && Number(targetId) === Number(currentId)` */
  function ValidateSelfAction(targetId: string, currentId: int): Verdict {
    if targetId != "" && StringToNumber(targetId) == Int(currentId) then Stop(400, SelfActionMessage) else Next
  }

  /** Refused exactly when the target reads as the caller's own id: a decimal id is refused
      exactly when it is the caller's, and a missing target always passes. */
  lemma SelfActionGuard(n: nat, currentId: int)
    ensures ValidateSelfAction(NatToString(n), currentId) != Next <==> n == currentId
    ensures ValidateSelfAction("", currentId) == Next
  {
    NatToStringParses(n);
  }

  /* ---------------------------------------------------- validateStoreOwnership */

  const OwnStoreMessage := "You can only access your own store"
  const StoreValidationFailed := "Store validation failed"

  /** A parameter PostgreSQL reads as an `INTEGER`; `None` is a query error. (Surrounding
      white space, which PostgreSQL would also accept, is not modelled.) */
  function PgInteger(v: JsValue): Option<int> {
    var n := match v
             case Str(s) => IntStringValue(s)
             case Number(Int(k)) => Some(k)
             case _ => None;
    if n.Some? && -0x8000_0000 <= n.value < 0x8000_0000 then n else None
  }

  /** `validateStoreOwnership`: the store id comes from the path or else the body; the guard
      also hands the store row on as `req.store`. */
  function ValidateStoreOwnership(t: Tables, pathStoreId: string, body: Body, user: PublicUser)
    : (Verdict, Option<StoreModel.StoreSummary>)
  {
    var storeId := if pathStoreId != "" then Str(pathStoreId) else Field(body, "store_id");
    if !Truthy(storeId) then (Next, None)
    else match PgInteger(storeId)
      case None => (Stop(500, StoreValidationFailed), None)
      case Some(id) =>
        match StoreModel.FindById(t, id)
        case None => (Stop(404, "Store not found"), None)
        case Some(s) =>
          if user.role == StoreOwner && s.ownerId != Some(user.id) then (Stop(403, OwnStoreMessage), None)
          else (Next, Some(s))
  }

  /** Without a store id the request passes. With one that PostgreSQL cannot read as an
      `INTEGER` the lookup throws and the catch answers 500. With a readable one, an absent
      store gives 404; a store owner is refused (403) exactly for a store that is not theirs
      (an unowned one included); admins and users pass for any existing store, which is
      handed on. */
  lemma StoreOwnershipGuard(t: Tables, pathStoreId: string, body: Body, user: PublicUser)
    ensures var storeId := if pathStoreId != "" then Str(pathStoreId) else Field(body, "store_id");
      var (v, store) := ValidateStoreOwnership(t, pathStoreId, body, user);
      && (!Truthy(storeId) ==> v == Next && store.None?)
      && (Truthy(storeId) && PgInteger(storeId).Some? ==>
            var id := PgInteger(storeId).value;
            && (v == Stop(404, "Store not found") <==> !HasStore(t.stores, id))
            && (v == Stop(403, OwnStoreMessage) <==>
                  HasStore(t.stores, id) && user.role == StoreOwner && FindStore(t.stores, id).value.ownerId != Some(user.id))
            && (v == Next <==> HasStore(t.stores, id) && (user.role != StoreOwner || FindStore(t.stores, id).value.ownerId == Some(user.id)))
            && (v == Next ==> store == StoreModel.FindById(t, id)))
      && (Truthy(storeId) && PgInteger(storeId).None? ==> v == Stop(500, StoreValidationFailed) && store.None?)
      && (v.Stop? ==> store.None?)
  {
  }

  /* ------------------------------------------------------- validateUserExists */

  /** `validateUserExists`: the user id comes from the path or else the body's `owner_id`; the
      guard also hands the user row on as `req.targetUser`. */
  function ValidateUserExists(t: Tables, pathId: string, body: Body): (Verdict, Option<PublicUser>) {
    var userId := if pathId != "" then Str(pathId) else Field(body, "owner_id");
    if !Truthy(userId) then (Next, None)
    else match PgInteger(userId)
      case None => (Stop(500, "User validation failed"), None)
      case Some(id) =>
        match FindUser(t.users, id)
        case None => (Stop(404, "User not found"), None)
        case Some(u) => (Next, Some(Public(u)))
  }

  /** Without an id the request passes; with one that PostgreSQL reads, it passes exactly when
      an account has that id, and hands that account on. */
  lemma UserExistsGuard(t: Tables, pathId: string, body: Body)
    ensures var userId := if pathId != "" then Str(pathId) else Field(body, "owner_id");
      var (v, user) := ValidateUserExists(t, pathId, body);
      && (!Truthy(userId) ==> v == Next && user.None?)
      && (Truthy(userId) && PgInteger(userId).Some? ==>
            && (v == Next <==> HasUser(t.users, PgInteger(userId).value))
            && (v != Next ==> v == Stop(404, "User not found"))
            && (v == Next ==> user == Some(Public(FindUser(t.users, PgInteger(userId).value).value))
                              && user.value.id == PgInteger(userId).value))
      && (Truthy(userId) && PgInteger(userId).None? ==> v == Stop(500, "User validation failed"))
  {
  }

  /* ---------------------------------------------------- handleValidationErrors */

  /** One entry of the 400 reply's `details`: the error's field and message. */
  datatype ErrorDetail = ErrorDetail(field: string, message: string)

  /** `handleValidationErrors`: any error of the chain ends the request with 400 "Validation
      failed", whose `details` list every error in order (empty when the request goes on). */
  function HandleValidationErrors(errors: seq<FieldError>): (r: (Verdict, seq<ErrorDetail>))
    ensures r.0 == Next <==> errors == []
    ensures r.0 != Next ==> r.0 == Stop(400, "Validation failed")
    ensures |r.1| == |errors|
    ensures forall i :: 0 <= i < |errors| ==> r.1[i] == ErrorDetail(errors[i].field, errors[i].message)
  {
    (if errors == [] then Next else Stop(400, "Validation failed"),
     seq(|errors|, i requires 0 <= i < |errors| => ErrorDetail(errors[i].field, errors[i].message)))
  }

  /** After the registration chain the request goes on exactly when the five rules hold. */
  lemma RegisterValidation(body: Body, isEmail: string -> bool)
    ensures HandleValidationErrors(RegisterErrors(body, isEmail)).0 == Next <==>
      && UserNameOk(Field(body, "name"))
      && isEmail(TextOf(Field(body, "email")))
      && AddressOk(Field(body, "address"))
      && PasswordLengthOk(Field(body, "password"))
      && PasswordPatternOk(Field(body, "password"))
  {
    RegisterChain(body, isEmail);
  }

  /** A refused registration lists one to five details, each about one of the four fields. */
  lemma RegisterDetails(body: Body, isEmail: string -> bool)
    ensures var (v, details) := HandleValidationErrors(RegisterErrors(body, isEmail));
      && |details| <= 5
      && (v != Next ==> 1 <= |details|)
      && forall i :: 0 <= i < |details| ==> details[i].field in {"name", "email", "address", "password"}
  {
    var e := RegisterErrors(body, isEmail);
    var fields := {"name", "email", "address", "password"};
    assert AllAbout(e, fields) && |e| <= 5 by { RegisterErrorFields(body, isEmail); }
    RepliedAbout(e, fields, 5);
  }

  /** A reply for errors about some fields, at most `n` of them, lists between one and `n`
      details exactly when it stops the request, each about one of those fields. */
  lemma RepliedAbout(errors: seq<FieldError>, fields: set<string>, n: nat)
    requires AllAbout(errors, fields) && |errors| <= n
    ensures var (v, details) := HandleValidationErrors(errors);
      && (v == Next <==> errors == [])
      && |details| <= n && (v != Next ==> 1 <= |details|)
      && forall i :: 0 <= i < |details| ==> details[i].field in fields
  {
  }

  /* ------------------------------------------------------- validateUniqueEmail */

  datatype EmailKind = UserEmail | StoreEmail

  /** `validateUniqueEmail(type)`: a present email must not be one an account (or a store)
      already has; the message names the type. */
  function ValidateUniqueEmail(kind: EmailKind, t: Tables, body: Body): Verdict {
    var email := Field(body, "email");
    if !Truthy(email) then Next
    else
      var taken := match kind
                   case UserEmail => FindUserByEmail(t.users, TextOf(email)).Some?
                   case StoreEmail => FindStoreByEmail(t.stores, TextOf(email)).Some?;
      if taken then Stop(400, EmailTakenMessage(kind)) else Next
  }

  /** `${type} with this email already exists` */
  function EmailTakenMessage(kind: EmailKind): string {
    match kind
    case UserEmail => "user with this email already exists"
    case StoreEmail => "store with this email already exists"
  }

  /** Refused exactly for a present email that an account already has. */
  lemma UniqueUserEmailGuard(t: Tables, body: Body)
    ensures var email := Field(body, "email");
      ValidateUniqueEmail(UserEmail, t, body) != Next <==>
        Truthy(email) && exists i :: 0 <= i < |t.users| && t.users[i].email == TextOf(email)
    ensures ValidateUniqueEmail(UserEmail, t, body) != Next ==>
      ValidateUniqueEmail(UserEmail, t, body) == Stop(400, "user with this email already exists")
  {
    var email := Field(body, "email");
    if Truthy(email) {
      var found := FindUserByEmail(t.users, TextOf(email));
    }
  }

  /** Refused exactly for a present email that a store already has. */
  lemma UniqueStoreEmailGuard(t: Tables, body: Body)
    ensures var email := Field(body, "email");
      ValidateUniqueEmail(StoreEmail, t, body) != Next <==>
        Truthy(email) && exists i :: 0 <= i < |t.stores| && t.stores[i].email == TextOf(email)
    ensures ValidateUniqueEmail(StoreEmail, t, body) != Next ==>
      ValidateUniqueEmail(StoreEmail, t, body) == Stop(400, "store with this email already exists")
  {
    var email := Field(body, "email");
    if Truthy(email) {
      var found := FindStoreByEmail(t.stores, TextOf(email));
    }
  }

  /* ----------------------------------------------------------------- request */

  /** The body loop of `sanitizeInput`: each key in turn, its value cleaned. */
  method CleanBody(b0: Body) returns (b: Body)
    ensures b.Keys == b0.Keys && forall k :: k in b ==> b[k] == CleanValue(b0[k])
  {
    b := b0;
    var keys := b.Keys;
    while keys != {}
      invariant keys <= b.Keys && b.Keys == b0.Keys
      invariant forall k :: k in b && k !in keys ==> b[k] == CleanValue(b0[k])
      invariant forall k :: k in keys ==> b[k] == b0[k]
      decreases |keys|
    {
      var k :| k in keys;
      b := b[k := CleanValue(b[k])];
      keys := keys - {k};
    }
  }

  /** The query loop of `sanitizeInput`. */
  method CleanQuery(q0: Query) returns (q: Query)
    ensures q.Keys == q0.Keys && forall k :: k in q ==> q[k] == Clean(q0[k])
  {
    q := q0;
    var keys := q.Keys;
    while keys != {}
      invariant keys <= q.Keys && q.Keys == q0.Keys
      invariant forall k :: k in q && k !in keys ==> q[k] == Clean(q0[k])
      invariant forall k :: k in keys ==> q[k] == q0[k]
      decreases |keys|
    {
      var k :| k in keys;
      q := q[k := Clean(q[k])];
      keys := keys - {k};
    }
  }

  /** The parts of a request the guards read and write. */
  class Request {
    var body: Body
    var query: Query
    var pagination: Option<Pagination>
    var store: Option<StoreModel.StoreSummary>
    /** The caller, once `authenticate` has found them. */
    var user: Option<PublicUser>

    constructor (body: Body, query: Query)
      ensures this.body == body && this.query == query && pagination.None? && store.None? && user.None?
    {
      this.body := body;
      this.query := query;
      pagination := None;
      store := None;
      user := None;
    }

    /** `sanitizeInput`: every string of the body and of the query is cleaned in place, one
        key at a time. */
    method SanitizeInput()
      modifies this
      ensures body.Keys == old(body).Keys && forall k :: k in body ==> body[k] == CleanValue(old(body)[k])
      ensures query.Keys == old(query).Keys && forall k :: k in query ==> query[k] == Clean(old(query)[k])
      ensures pagination == old(pagination) && store == old(store) && user == old(user)
    {
      body := CleanBody(body);
      query := CleanQuery(query);
    }

    /** `validatePagination`: always passes, and records the page window. */
    method ValidatePagination() returns (v: Verdict)
      modifies this
      ensures v == Next && pagination == Some(Paginate(query))
      ensures body == old(body) && query == old(query) && store == old(store) && user == old(user)
    {
      pagination := Some(Paginate(query));
      v := Next;
    }

    /** `validateStoreOwnership` for the authenticated caller, recording the store it found. */
    method ValidateOwnership(t: Tables, pathStoreId: string) returns (v: Verdict)
      requires user.Some?
      modifies this
      ensures body == old(body) && query == old(query) && pagination == old(pagination) && user == old(user)
      ensures (v, store) == (ValidateStoreOwnership(t, pathStoreId, old(body), user.value).0,
                            if v == Next then ValidateStoreOwnership(t, pathStoreId, old(body), user.value).1 else old(store))
    {
      var (verdict, found) := ValidateStoreOwnership(t, pathStoreId, body, user.value);
      v := verdict;
      if v == Next {
        store := found;
      }
    }
  }

  /** Sanitising twice changes nothing the first pass did not. */
  lemma CleanValueIdempotent(v: JsValue)
    ensures CleanValue(CleanValue(v)) == CleanValue(v)
  {
    if v.Str? { CleanIdempotent(v.s); }
  }
}
