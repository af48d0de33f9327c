/** frontend/src/components/stores/StoreFilters.jsx: the filter object the store list is
    queried with (`name`, `address`, `sortBy`, `sortOrder`, `minRating`), as the panel edits
    it, resets it and sets it by a quick filter, and the two indicators derived from it. */
module StoreFilters {
  import opened Lists
  import opened JsValues
  import opened FieldRules

  /** A filter object; a key it lacks reads `undefined` (`Field`). */
  type Filters = Body

  /** `handleFilterChange(key, value)`: `{ ...localFilters, [key]: value }`. */
  function HandleFilterChange(f: Filters, key: string, value: JsValue): Filters {
    f[key := value]
  }

  /** The new object holds `value` at `key`, and every other key as before. */
  lemma HandleFilterChangeCorrect(f: Filters, key: string, value: JsValue)
    ensures var g := HandleFilterChange(f, key, value);
      && g.Keys == f.Keys + {key}
      && Field(g, key) == value
      && (forall k :: k != key ==> Field(g, k) == Field(f, k))
  {
  }

  /** The object `handleResetFilters` installs and passes on. */
  const ResetFilters: Filters :=
    map["name" := Str(""), "address" := Str(""), "sortBy" := Str("name"), "sortOrder" := Str("asc"),
        "minRating" := Number(Int(0))]

  /** `hasActiveFilters`: a name or an address typed, a positive minimum rating, or a sort
      other than by name ascending. */
  predicate HasActiveFilters(f: Filters) {
    || Truthy(Field(f, "name"))
    || Truthy(Field(f, "address"))
    || Above(ToNumber(Field(f, "minRating")), 0)
    || Field(f, "sortBy") != Str("name")
    || Field(f, "sortOrder") != Str("asc")
  }

  /** The four tests `activeFilterCount` counts (`CompactStoreFilters`): the sort order is
      not among them. */
  function FilterFlags(f: Filters): seq<bool> {
    [ Truthy(Field(f, "name")),
      Truthy(Field(f, "address")),
      Above(ToNumber(Field(f, "minRating")), 0),
      Field(f, "sortBy") != Str("name") ]
  }

  /** `[...].filter(Boolean).length` */
  function ActiveFilterCount(f: Filters): nat {
    |Filter(FilterFlags(f), (b: bool) => b)|
  }

  /** The count of the tests that hold, one for each. */
  lemma {:induction false} CountFlags(s: seq<bool>)
    ensures |Filter(s, (b: bool) => b)| == Trues(s)
  {
    if s != [] {
      CountFlags(s[1..]);
    }
  }

  function Trues(s: seq<bool>): nat {
    if s == [] then 0 else (if s[0] then 1 else 0) + Trues(s[1..])
  }

  /** The count lies in 0..4, adds one for each test that holds, and is 0 exactly when none
      does; any count makes the panel's indicator active, which also lights up for a sort
      order other than ascending alone. */
  lemma ActiveFilterCountCorrect(f: Filters)
    ensures var n := ActiveFilterCount(f);
      var b := FilterFlags(f);
      && n <= 4
      && n == (if b[0] then 1 else 0) + (if b[1] then 1 else 0) + (if b[2] then 1 else 0) + (if b[3] then 1 else 0)
      && (n == 0 <==> !b[0] && !b[1] && !b[2] && !b[3])
      && (n > 0 ==> HasActiveFilters(f))
      && (HasActiveFilters(f) && n == 0 ==> Field(f, "sortOrder") != Str("asc"))
  {
    var b := FilterFlags(f);
    CountFlags(b);
    assert b[1..][1..][1..][1..] == [];
    assert Trues(b[1..][1..][1..]) == (if b[3] then 1 else 0);
    assert Trues(b[1..][1..]) == (if b[2] then 1 else 0) + (if b[3] then 1 else 0);
  }

  /** After a reset nothing is active and nothing is counted. */
  lemma ResetInactive()
    ensures !HasActiveFilters(ResetFilters)
    ensures ActiveFilterCount(ResetFilters) == 0
  {
    ActiveFilterCountCorrect(ResetFilters);
  }

  /** `handleQuickFilter(type)`: the copy gets its fields set one by one in a switch; an
      unknown type copies the object unchanged. Every quick filter sorts descending, and
      the keys it does not name keep their values. */
  method QuickFilter(f: Filters, kind: string) returns (newFilters: Filters)
    ensures kind == "highRated" ==>
      && Field(newFilters, "minRating") == Number(Int(4))
      && Field(newFilters, "sortBy") == Str("average_rating")
    ensures kind == "newest" ==> Field(newFilters, "sortBy") == Str("created_at")
    ensures kind == "mostRated" ==> Field(newFilters, "sortBy") == Str("total_ratings")
    ensures IsQuick(kind) ==> Field(newFilters, "sortOrder") == Str("desc")
    ensures !IsQuick(kind) ==> newFilters == f
    ensures forall k :: k !in QuickKeys(kind) ==> Field(newFilters, k) == Field(f, k)
    ensures newFilters.Keys == f.Keys + QuickKeys(kind)
  {
    newFilters := f;
    if kind == "highRated" {
      newFilters := newFilters["minRating" := Number(Int(4))];
      newFilters := newFilters["sortBy" := Str("average_rating")];
      newFilters := newFilters["sortOrder" := Str("desc")];
    } else if kind == "newest" {
      newFilters := newFilters["sortBy" := Str("created_at")];
      newFilters := newFilters["sortOrder" := Str("desc")];
    } else if kind == "mostRated" {
      newFilters := newFilters["sortBy" := Str("total_ratings")];
      newFilters := newFilters["sortOrder" := Str("desc")];
    }
  }

  predicate IsQuick(kind: string) {
    kind == "highRated" || kind == "newest" || kind == "mostRated"
  }

  /** The keys a quick filter sets. */
  function QuickKeys(kind: string): set<string> {
    if kind == "highRated" then {"minRating", "sortBy", "sortOrder"}
    else if IsQuick(kind) then {"sortBy", "sortOrder"}
    else {}
  }

  /** Every quick filter leaves the panel's indicator active, and "high rated" counts at
      least two filters (the minimum rating and the sort). */
  lemma QuickFilterActive(g: Filters, kind: string)
    requires IsQuick(kind) && Field(g, "sortOrder") == Str("desc")
    requires kind == "highRated" ==>
      Field(g, "minRating") == Number(Int(4)) && Field(g, "sortBy") == Str("average_rating")
    ensures HasActiveFilters(g)
    ensures kind == "highRated" ==> ActiveFilterCount(g) >= 2
  {
    ActiveFilterCountCorrect(g);
  }
}
