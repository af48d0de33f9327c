/** The public store listing, `GET /getAllStores` of the stores router: `sanitizeInput`,
    `validateQueryParams` and `validatePagination` run in turn, then `getAllStores`. Of the
    `POST /create-store` chain, only the e-mail guard's answer to the duplicate-email example. */
module StoreRoutes {
  import opened Common
  import opened Lists
  import opened Schema
  import opened JsValues
  import opened FieldRules
  import opened Guards
  import StoreModel
  import StoreController

  /** The listing as wired: the query guard, then `getAllStores` with the query's own values. */
  function ListStores(t: Tables, q: Query): Reply<seq<StoreModel.StoreSummary>> {
    match ValidateQueryParams(q)
    case Stop(status, message) => Failure(status, message)
    case Next => StoreController.GetAllStores(t, Param(q, "name"), Param(q, "address"), Param(q, "sortBy"), Param(q, "sortOrder"))
  }

  /** The listing with the sort order the guard accepts passed on in lower case. */
  function ListStoresFixed(t: Tables, q: Query): Reply<seq<StoreModel.StoreSummary>> {
    match ValidateQueryParams(q)
    case Stop(status, message) => Failure(status, message)
    case Next =>
      var r := NormalizeQuery(q);
      StoreController.GetAllStores(t, Param(r, "name"), Param(r, "address"), Param(r, "sortBy"), Param(r, "sortOrder"))
  }

  /** The query `getAllStores` hands to `findAll` for a request. */
  function ListQuery(q: Query): StoreModel.StoreQuery {
    StoreModel.StoreQuery(Param(q, "name"), "", Param(q, "address"), Param(q, "sortBy"), Lower(Param(q, "sortOrder")), 0, 0)
  }

  /** With the normalised sort order, a refused query gets the guard's reply and a failing
      one a 500 for a `sortBy` that is no column. Every accepted listing holds each store
      whose name and address contain the filters, and only those, sorted newest first
      without a `sortBy` and otherwise on the named column, ascending exactly when the
      accepted sortOrder is `asc` in any case. */
  lemma ListStoresFixedCorrect(t: Tables, q: Query)
    ensures var reply := ListStoresFixed(t, q);
      var lq := ListQuery(q);
      var sortBy := Param(q, "sortBy");
      && (ValidateQueryParams(q).Stop? ==>
            reply == Failure(ValidateQueryParams(q).status, ValidateQueryParams(q).message))
      && (ValidateQueryParams(q) == Next ==>
            && (reply.Failure? <==> sortBy != "" && sortBy != "rating" && sortBy !in StoreModel.SortColumns)
            && (reply.Failure? ==> reply == Failure(500, StoreController.InternalError))
            && (reply.Json? ==>
                  var (column, asc) := StoreModel.Ordering(lq).value;
                  && (sortBy == "" ==> column == "created_at" && !asc)
                  && (sortBy != "" ==> (asc <==> Lower(Param(q, "sortOrder")) == "asc"))
                  && SortedBy(reply.body, StoreModel.Before(column, asc))
                  && (forall i :: 0 <= i < |reply.body| ==> StoreModel.MatchingRow(t, lq, reply.body[i]))
                  && (forall j :: 0 <= j < |t.stores| && StoreModel.Matches(lq, t.stores[j]) ==>
                        StoreModel.Summarize(t.ratings, t.stores[j]) in reply.body)))
  {
    var r := NormalizeQuery(q);
    assert Param(r, "name") == Param(q, "name") && Param(r, "address") == Param(q, "address");
    assert Param(r, "sortBy") == Param(q, "sortBy");
    assert Param(r, "sortOrder") == Lower(Param(q, "sortOrder"));
    var lq := ListQuery(q);
    StoreModel.OrderingRules(lq);
    StoreController.GetAllStoresCorrect(t, Param(q, "name"), Param(q, "address"), Param(q, "sortBy"), Lower(Param(q, "sortOrder")));
  }

  /** Two stores without ratings, named `a` and `b`. */
  function TwoStores(): Tables {
    Tables([], [StoreRow(1, "a", "a@shop.com", "1 Side St", None, 0, 0, 0),
                StoreRow(2, "b", "b@shop.com", "2 Side St", None, 0, 0, 0)], [], 1, 3, 1)
  }

  function SummaryOf(s: StoreRow): StoreModel.StoreSummary {
    StoreModel.StoreSummary(s.id, s.name, s.email, s.address, s.ownerId, s.createdAt, s.updatedAt, 0, 0)
  }

  /** Without filters, both stores pass, in table order, and the listing sorts their
      aggregate rows (which have no ratings). */
  lemma TwoStoresOrdered(q: StoreModel.StoreQuery, column: string, asc: bool)
    requires q.name == "" && q.email == "" && q.address == ""
    ensures var t := TwoStores();
      StoreModel.Ordered(t, q, column, asc) == SortBy([SummaryOf(t.stores[0]), SummaryOf(t.stores[1])], StoreModel.Before(column, asc))
  {
    var t := TwoStores();
    var p := StoreModel.Matcher(q);
    assert p(t.stores[0]) && p(t.stores[1]);
    assert t.stores[1..][1..] == [];
    assert Filter(t.stores[1..], p) == [t.stores[1]];
    assert Filter(t.stores, p) == [t.stores[0], t.stores[1]];
    assert StoreModel.Summarize(t.ratings, t.stores[0]) == SummaryOf(t.stores[0]);
    assert StoreModel.Summarize(t.ratings, t.stores[1]) == SummaryOf(t.stores[1]);
  }

  /** Sorting two elements keeps them in place exactly when the first may precede the second. */
  lemma SortTwo<T>(a: T, b: T, le: (T, T) -> bool)
    ensures SortBy([a, b], le) == if le(a, b) then [a, b] else [b, a]
  {
    assert [a, b][1..] == [b];
    assert SortBy([b], le) == [b];
    assert Insert(a, [b], le) == if le(a, b) then [a, b] else [b] + Insert(a, [], le);
  }

  /** The query of the finding: sort by name, `sortOrder=ASC`. */
  const UpperAsc: Query := map["sortBy" := "name", "sortOrder" := "ASC"]

  /** The query passes the guard; as wired it asks `findAll` for `ASC`, normalised for `asc`. */
  lemma UpperAscParams()
    ensures ValidateQueryParams(UpperAsc) == Next
    ensures ListStores(TwoStores(), UpperAsc) == StoreController.GetAllStores(TwoStores(), "", "", "name", "ASC")
    ensures ListStoresFixed(TwoStores(), UpperAsc) == StoreController.GetAllStores(TwoStores(), "", "", "name", "asc")
  {
    UpperAscSortsDescending();
    var r := NormalizeQuery(UpperAsc);
    assert Lower("ASC") == "asc";
    assert Param(r, "sortOrder") == "asc" && Param(r, "sortBy") == "name";
    assert Param(UpperAsc, "name") == "" && Param(UpperAsc, "address") == "";
    assert Param(r, "name") == "" && Param(r, "address") == "";
  }

  /** Without filters or a window, the listing of the two stores is their two aggregate
      rows, sorted. */
  lemma TwoStoresListed(sortBy: string, sortOrder: string, column: string, asc: bool)
    requires StoreModel.Ordering(StoreModel.StoreQuery("", "", "", sortBy, sortOrder, 0, 0)) == Some((column, asc))
    ensures var sa, sb := SummaryOf(TwoStores().stores[0]), SummaryOf(TwoStores().stores[1]);
      StoreController.GetAllStores(TwoStores(), "", "", sortBy, sortOrder) == Json(SortBy([sa, sb], StoreModel.Before(column, asc)), false)
  {
    var q := StoreModel.StoreQuery("", "", "", sortBy, sortOrder, 0, 0);
    TwoStoresOrdered(q, column, asc);
    var all := StoreModel.Ordered(TwoStores(), q, column, asc);
    assert StoreModel.Window(all, 0, 0) == all;
  }

  /** `a` sorts before `b`, and not the other way round. */
  lemma NamesOrdered()
    ensures var sa, sb := SummaryOf(TwoStores().stores[0]), SummaryOf(TwoStores().stores[1]);
      StoreModel.Before("name", true)(sa, sb) && !StoreModel.Before("name", false)(sa, sb)
  {
    assert StoreModel.TextLe("a", "b");
    assert !StoreModel.TextLe("b", "a");
  }

  /** By name, descending puts `b` first and ascending `a`. */
  lemma NameSorts()
    ensures var sa, sb := SummaryOf(TwoStores().stores[0]), SummaryOf(TwoStores().stores[1]);
      && SortBy([sa, sb], StoreModel.Before("name", false)) == [sb, sa]
      && SortBy([sa, sb], StoreModel.Before("name", true)) == [sa, sb]
  {
    var sa, sb := SummaryOf(TwoStores().stores[0]), SummaryOf(TwoStores().stores[1]);
    NamesOrdered();
    SortTwo(sa, sb, StoreModel.Before("name", false));
    SortTwo(sa, sb, StoreModel.Before("name", true));
  }

  /** As wired, `sortOrder=ASC` passes the guard and then lists the stores by name in
      descending order. */
  lemma UpperAscListedDescending()
    ensures var sa, sb := SummaryOf(TwoStores().stores[0]), SummaryOf(TwoStores().stores[1]);
      ListStores(TwoStores(), UpperAsc) == Json([sb, sa], false)
  {
    UpperAscParams();
    TwoStoresListed("name", "ASC", "name", false);
    NameSorts();
  }

  /** With the normalised sort order the same request lists them in ascending order. */
  lemma UpperAscListedAscendingFixed()
    ensures var sa, sb := SummaryOf(TwoStores().stores[0]), SummaryOf(TwoStores().stores[1]);
      ListStoresFixed(TwoStores(), UpperAsc) == Json([sa, sb], false)
  {
    UpperAscParams();
    TwoStoresListed("name", "asc", "name", true);
    NameSorts();
  }

  /** `GET /getAllStores` on a request as wired: the query is sanitised in place, checked,
      its page window recorded, and the stores listed with the query's own sort order. */
  method ListStoresRoute(req: Request, t: Tables) returns (reply: Reply<seq<StoreModel.StoreSummary>>)
    modifies req
    ensures req.body.Keys == old(req.body).Keys && forall k :: k in req.body ==> req.body[k] == CleanValue(old(req.body)[k])
    ensures req.query.Keys == old(req.query).Keys && forall k :: k in req.query ==> req.query[k] == Clean(old(req.query)[k])
    ensures reply == ListStores(t, req.query)
    ensures req.pagination == (if ValidateQueryParams(req.query) == Next then Some(Paginate(req.query)) else old(req.pagination))
    ensures req.store == old(req.store) && req.user == old(req.user)
  {
    req.SanitizeInput();
    var v := ValidateQueryParams(req.query);
    if v.Stop? {
      return Failure(v.status, v.message);
    }
    v := req.ValidatePagination();
    var q := req.query;
    reply := StoreController.GetAllStores(t, Param(q, "name"), Param(q, "address"), Param(q, "sortBy"), Param(q, "sortOrder"));
  }

  /** The same route with the accepted sort order passed on in lower case. */
  method ListStoresRouteFixed(req: Request, t: Tables) returns (reply: Reply<seq<StoreModel.StoreSummary>>)
    modifies req
    ensures req.body.Keys == old(req.body).Keys && forall k :: k in req.body ==> req.body[k] == CleanValue(old(req.body)[k])
    ensures req.query.Keys == old(req.query).Keys && forall k :: k in req.query ==> req.query[k] == Clean(old(req.query)[k])
    ensures reply == ListStoresFixed(t, req.query)
    ensures req.pagination == (if ValidateQueryParams(req.query) == Next then Some(Paginate(req.query)) else old(req.pagination))
    ensures req.store == old(req.store) && req.user == old(req.user)
  {
    req.SanitizeInput();
    var v := ValidateQueryParams(req.query);
    if v.Stop? {
      return Failure(v.status, v.message);
    }
    v := req.ValidatePagination();
    var r := NormalizeQuery(req.query);
    reply := StoreController.GetAllStores(t, Param(r, "name"), Param(r, "address"), Param(r, "sortBy"), Param(r, "sortOrder"));
  }

  /** On `POST /create-store`, `validateUniqueEmail("store")` runs before `createStore`: the
      request that the controller alone would answer with a 500 (a new store `xyz` with the
      e-mail of the store `abc`) is refused by the guard with a 400 first. */
  lemma SameEmailRouteGuard()
    ensures var t := StoreController.OneStore("abc", "shop@mail.com");
      && ValidateUniqueEmail(StoreEmail, t, map["email" := Str("shop@mail.com")])
           == Stop(400, "store with this email already exists")
      && StoreController.CreateStore(t, "xyz", "shop@mail.com", "2 Main St", 1, 5).1 == Failure(500, StoreController.InternalError)
  {
    var t := StoreController.OneStore("abc", "shop@mail.com");
    var body := map["email" := Str("shop@mail.com")];
    UniqueStoreEmailGuard(t, body);
    assert Field(body, "email") == Str("shop@mail.com");
    assert t.stores[0].email == TextOf(Field(body, "email"));
    StoreController.SameEmailOtherName();
  }
}
