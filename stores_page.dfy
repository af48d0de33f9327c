/** frontend/src/pages/stores/Stores.jsx: the store list page. Its state is the filter object
    the list is loaded with, the search box and whether the filter panel is open; the list
    on screen is the loaded stores narrowed by the search box. */
module StoresPage {
  import opened Common
  import opened Lists
  import opened JsValues
  import opened FieldRules
  import StoreFilters

  /** A store as the list receives it; `owner_name` may be missing. */
  datatype StoreEntry = StoreEntry(name: string, address: string, ownerName: Option<string>)

  datatype PageState = PageState(filters: Body, searchTerm: string, showFilters: bool)

  /** The filters the page starts with (and `clearFilters` restores): no `minRating` key. */
  const InitialFilters: Body :=
    map["name" := Str(""), "address" := Str(""), "sortBy" := Str("name"), "sortOrder" := Str("asc")]

  const Initial := PageState(InitialFilters, "", false)

  /** `handleSearch`: the search box becomes the name filter. */
  function HandleSearch(s: PageState): PageState {
    s.(filters := s.filters["name" := Str(s.searchTerm)])
  }

  /** `handleFilterChange(newFilters)`: the panel's filters replace the page's, and the panel closes. */
  function HandleFilterChange(s: PageState, newFilters: Body): PageState {
    s.(filters := newFilters, showFilters := false)
  }

  /** `clearFilters`: the initial filters and an empty search box; the panel stays as it is. */
  function ClearFilters(s: PageState): PageState {
    s.(filters := InitialFilters, searchTerm := "")
  }

  /** A search changes the name filter only, to the search box's text. */
  lemma HandleSearchCorrect(s: PageState)
    ensures var t := HandleSearch(s);
      && Field(t.filters, "name") == Str(s.searchTerm)
      && (forall k :: k != "name" ==> Field(t.filters, k) == Field(s.filters, k))
      && t.filters.Keys == s.filters.Keys + {"name"}
      && t.searchTerm == s.searchTerm && t.showFilters == s.showFilters
  {
  }

  /** The panel's filters are taken whole and the panel is closed; the search box is kept. */
  lemma HandleFilterChangeCorrect(s: PageState, newFilters: Body)
    ensures var t := HandleFilterChange(s, newFilters);
      t.filters == newFilters && !t.showFilters && t.searchTerm == s.searchTerm
  {
  }

  /** Clearing from any state gives the initial filters and search box, and keeps the panel
      as it is; clearing twice is clearing once. */
  lemma ClearFiltersCorrect(s: PageState)
    ensures var t := ClearFilters(s);
      && t.filters == Initial.filters && t.searchTerm == Initial.searchTerm
      && t.showFilters == s.showFilters
      && ClearFilters(t) == t
  {
  }

  /** The initial filters, which clearing restores, show nothing as active. */
  lemma InitialFiltersInactive()
    ensures !StoreFilters.HasActiveFilters(InitialFilters)
  {
    assert Field(InitialFilters, "minRating") == Undefined;
    assert Field(InitialFilters, "name") == Str("") && Field(InitialFilters, "address") == Str("");
  }

  /* --------------------------------------------------------------- the list */

  /** `store.name.toLowerCase().includes(term) || store.address... || store.owner_name?...` */
  predicate Matches(store: StoreEntry, term: string) {
    || Contains(Lower(store.name), term)
    || Contains(Lower(store.address), term)
    || (store.ownerName.Some? && Contains(Lower(store.ownerName.value), term))
  }

  /** `filteredStores`: all of them for an empty search box, otherwise those matching the
      lower-cased search term. */
  function FilteredStores(stores: seq<StoreEntry>, searchTerm: string): seq<StoreEntry> {
    if searchTerm == "" then stores
    else
      var term := Lower(searchTerm);
      Filter(stores, (st: StoreEntry) => Matches(st, term))
  }

  /** An empty search keeps the list as it is; otherwise a store is shown exactly when its
      name, address or owner's name contains the search term, both in lower case. */
  lemma FilteredStoresCorrect(stores: seq<StoreEntry>, searchTerm: string)
    ensures searchTerm == "" ==> FilteredStores(stores, searchTerm) == stores
    ensures searchTerm != "" ==>
      var r := FilteredStores(stores, searchTerm);
      var term := Lower(searchTerm);
      && (forall i :: 0 <= i < |r| ==> r[i] in stores && Shown(r[i], term))
      && (forall i :: 0 <= i < |stores| && Shown(stores[i], term) ==> stores[i] in r)
  {
    if searchTerm != "" {
      var term := Lower(searchTerm);
      forall st: StoreEntry ensures Matches(st, term) == Shown(st, term) {
        MatchesShown(st, term);
      }
    }
  }

  /** `Matches` in terms of occurrences. */
  ghost predicate Shown(store: StoreEntry, term: string) {
    || (exists i :: OccursAt(term, Lower(store.name), i))
    || (exists i :: OccursAt(term, Lower(store.address), i))
    || (store.ownerName.Some? && exists i :: OccursAt(term, Lower(store.ownerName.value), i))
  }

  lemma MatchesShown(store: StoreEntry, term: string)
    ensures Matches(store, term) == Shown(store, term)
  {
  }

  /** The stores keep their relative order: whatever relation holds between each store and
      every later one (the server's sort) still holds in the list shown. */
  lemma FilteredStoresOrdered(stores: seq<StoreEntry>, searchTerm: string, before: (StoreEntry, StoreEntry) -> bool)
    requires forall i, j :: 0 <= i < j < |stores| ==> before(stores[i], stores[j])
    ensures var r := FilteredStores(stores, searchTerm);
      forall i, j :: 0 <= i < j < |r| ==> before(r[i], r[j])
  {
    if searchTerm != "" {
      var term := Lower(searchTerm);
      FilterPairwise(stores, (st: StoreEntry) => Matches(st, term), before);
    }
  }
}
