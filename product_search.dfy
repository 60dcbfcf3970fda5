/** `GET /products/`: the product listing. With a search text it is a semantic search
    (spelling correction, FAISS candidates, then a chain of list filters); without one it
    is a database query ordered by popularity. Both paths page the result and drop the
    products whose seller does not exist. The FAISS hit list, SymSpell's top term and
    `datetime.utcnow()` are inputs. */
module ProductSearch {
  import opened Wrappers
  import opened Seqs
  import opened Text
  import opened Catalog
  import opened Http
  import opened SearchIndex
  import StableSort

  datatype Province = Province(id: int, name: string)
  datatype Locality = Locality(id: int, name: string, provinceId: Option<int>)

  /** The query parameters of the endpoint. */
  datatype Query = Query(
    search: Option<string>,
    category: Option<string>,
    condition: Option<string>,
    location: Option<string>,
    sellerId: Option<int>,
    priceMin: Option<real>,
    priceMax: Option<real>,
    endsIn: Option<string>,
    activeOnly: bool,
    featuredOnly: bool,
    page: int,
    pageSize: int)

  /** The tables the handler reads (products, provinces and localities in table order,
      the ids of existing users) and the current time. */
  datatype Store = Store(
    products: seq<Product>,
    provinces: seq<Province>,
    localities: seq<Locality>,
    users: set<int>,
    now: int)

  /** What the handler returns: the dictionary with `items`, `total` and `suggestion`. */
  datatype Listing = Listing(items: seq<Product>, total: int, suggestion: Option<string>)

  /** The body the client receives. The route declares
      `response_model=ProductListResponse`, whose fields are `items` and `total`, and
      FastAPI serialises the returned dictionary through that model, so `suggestion` is
      dropped there. */
  datatype ListResponse = ListResponse(items: seq<Product>, total: int)

  /** The serialisation through `ProductListResponse`. */
  function Served(l: Listing): (b: ListResponse)
    ensures b.items == l.items && b.total == l.total
  {
    ListResponse(l.items, l.total)
  }

  /** The client never sees the suggestion: listings that differ only in it are served
      alike, and the served body keeps the page and the total. */
  lemma SuggestionNotServed(l: Listing, other: Option<string>)
    ensures Served(l.(suggestion := other)) == Served(l)
    ensures Served(l) == ListResponse(l.items, l.total)
  {
  }

  /** Python truthiness of an optional string parameter. */
  predicate Given(o: Option<string>) {
    o.Some? && o.value != ""
  }

  /** The SymSpell step: with a top term the search continues with it, and it is offered
      as a suggestion only when it differs from what was typed. */
  function Correct(search: string, top: Option<string>): (r: (string, Option<string>))
    ensures top.None? ==> r.0 == search && r.1.None?
    ensures top.Some? ==> r.0 == top.value
    ensures r.1.Some? <==> top.Some? && top.value != search
    ensures r.1.Some? ==> r.1.value == r.0 && r.1.value != search
  {
    match top
    case None => (search, None)
    case Some(t) => (t, if t != search then Some(t) else None)
  }

  // ---------------------------------------------------------------- condition

  const InvalidCondition := HttpError(422, "Condición inválida. Las condiciones válidas son: Nuevo, Usado")

  /** The enum value of each member of `ProductCondition`. */
  function ConditionValue(c: Condition): string {
    match c
    case Nuevo => "Nuevo"
    case Usado => "Usado"
  }

  /** `ProductCondition[s.upper()]`, falling back to the first member whose value matches
      `s` case-insensitively; anything else is a 422. */
  function ParseCondition(s: string): Result<Condition, HttpError> {
    var up := Upper(s);
    if up == "NUEVO" then Ok(Nuevo)
    else if up == "USADO" then Ok(Usado)
    else if Lower(ConditionValue(Nuevo)) == Lower(s) then Ok(Nuevo)
    else if Lower(ConditionValue(Usado)) == Lower(s) then Ok(Usado)
    else Err(InvalidCondition)
  }

  lemma UpperNuevo(s: string)
    ensures Upper(s) == "NUEVO" <==> Lower(s) == "nuevo"
  {
    assert Upper("NUEVO") == "NUEVO";
    assert Lower("NUEVO") == "nuevo";
    UpperLowerAgree(s, "NUEVO");
  }

  lemma UpperUsado(s: string)
    ensures Upper(s) == "USADO" <==> Lower(s) == "usado"
  {
    assert Upper("USADO") == "USADO";
    assert Lower("USADO") == "usado";
    UpperLowerAgree(s, "USADO");
  }

  /** Any casing of a condition's value selects that condition; every other string is
      rejected with the 422 error. */
  lemma ParseConditionSpec(s: string, c: Condition)
    ensures ParseCondition(s) == Ok(c) <==> Lower(s) == Lower(ConditionValue(c))
    ensures ParseCondition(s).Err? <==> Lower(s) != "nuevo" && Lower(s) != "usado"
    ensures ParseCondition(s).Err? ==> ParseCondition(s).error == InvalidCondition
  {
    assert Lower("Nuevo") == "nuevo" && Lower("Usado") == "usado";
    UpperNuevo(s);
    UpperUsado(s);
  }

  /** `if condition:` — the parsed condition, or none when the parameter is falsy. */
  function ConditionFilter(condition: Option<string>): Result<Option<Condition>, HttpError> {
    if Given(condition) then
      var c :- ParseCondition(condition.value);
      Ok(Some(c))
    else Ok(None)
  }

  // ---------------------------------------------------------------- the filters

  /** The `ends_in` buckets; any other text filters nothing. */
  predicate InBucket(bucket: string, endsAt: int, now: int) {
    if bucket == "30+" then endsAt > now + 30 * Day
    else if bucket == "7+" then endsAt > now + 7 * Day
    else if bucket == "1" then now + Day < endsAt <= now + 7 * Day
    else if bucket == "0" then endsAt <= now + Day
    else true
  }

  /** The buckets "7+", "1" and "0" split every expiry time between them, and "30+"
      lies inside "7+". */
  lemma BucketsPartition(endsAt: int, now: int)
    ensures InBucket("30+", endsAt, now) ==> InBucket("7+", endsAt, now)
    ensures InBucket("7+", endsAt, now) || InBucket("1", endsAt, now) || InBucket("0", endsAt, now)
    ensures !(InBucket("7+", endsAt, now) && InBucket("1", endsAt, now))
    ensures !(InBucket("7+", endsAt, now) && InBucket("0", endsAt, now))
    ensures !(InBucket("1", endsAt, now) && InBucket("0", endsAt, now))
  {
  }

  // Each test below holds for every product when its parameter is absent or falsy.

  function CategoryTest(q: Query): Product -> bool {
    (p: Product) => !Given(q.category) || q.category.value in p.categories
  }

  function ConditionTest(cond: Option<Condition>): Product -> bool {
    (p: Product) => cond.None? || p.condition == cond.value
  }

  function PriceMinTest(q: Query): Product -> bool {
    (p: Product) => q.priceMin.None? || p.price >= q.priceMin.value
  }

  function PriceMaxTest(q: Query): Product -> bool {
    (p: Product) => q.priceMax.None? || p.price <= q.priceMax.value
  }

  function EndsInTest(q: Query, now: int): Product -> bool {
    (p: Product) => !Given(q.endsIn) || InBucket(q.endsIn.value, p.endsAt, now)
  }

  function ActiveTest(q: Query, now: int): Product -> bool {
    (p: Product) => !q.activeOnly || p.endsAt > now
  }

  function FeaturedTest(q: Query): Product -> bool {
    (p: Product) => !q.featuredOnly || p.featured
  }

  function SellerTest(q: Query): Product -> bool {
    (p: Product) => q.sellerId.None? || p.sellerId == q.sellerId
  }

  /** A product meets every criterion of the query the two paths share. */
  predicate Matches(q: Query, cond: Option<Condition>, now: int, p: Product) {
    && CategoryTest(q)(p)
    && ConditionTest(cond)(p)
    && PriceMinTest(q)(p)
    && PriceMaxTest(q)(p)
    && EndsInTest(q, now)(p)
    && ActiveTest(q, now)(p)
    && FeaturedTest(q)(p)
    && SellerTest(q)(p)
  }

  function MatchTest(q: Query, cond: Option<Condition>, now: int): Product -> bool {
    (p: Product) => Matches(q, cond, now, p)
  }

  /** `p.seller is not None`: the product names a seller that exists. */
  function HasSeller(users: set<int>): Product -> bool {
    (p: Product) => p.sellerId.Some? && p.sellerId.value in users
  }

  // ---------------------------------------------------------------- semantic path

  /** The candidates in FAISS rank order, or none without an index. */
  function Candidates(store: Store, idMap: seq<int>, indexBuilt: bool, hits: seq<Hit>): seq<Product>
    requires HitsWithin(hits, |idMap|)
  {
    if indexBuilt && |idMap| > 0 then RankedRows(store.products, CandidateIds(hits, idMap)) else []
  }

  /** What the chain of filters leaves of the candidates. */
  function SemanticMatches(q: Query, cond: Option<Condition>, store: Store, idMap: seq<int>,
                           indexBuilt: bool, hits: seq<Hit>): seq<Product>
    requires HitsWithin(hits, |idMap|)
  {
    Filter(Candidates(store, idMap, indexBuilt, hits), MatchTest(q, cond, store.now))
  }

  // ---------------------------------------------------------------- empty-search path

  /** The location filter the empty-search path joins in. */
  datatype Scope = Anywhere | InProvince(provinceId: int) | AtLocality(localityId: int)

  /** `.filter(Province.name == name).first()` and `.filter(Locality.name == name).first()`:
      the position of the first row whose name is `name`. */
  function FirstNamed<T>(rows: seq<T>, nameOf: T -> string, name: string): (r: Option<nat>)
    ensures r.Some? ==> r.value < |rows| && nameOf(rows[r.value]) == name
    ensures forall j :: 0 <= j < |rows| && (r.None? || j < r.value) ==> nameOf(rows[j]) != name
  {
    if rows == [] then None
    else if nameOf(rows[0]) == name then Some(0)
    else match FirstNamed(rows[1..], nameOf, name)
      case None => None
      case Some(k) => Some(k + 1)
  }

  /** A province of that name wins over a locality of that name; a name that is neither
      filters nothing. */
  function ResolveLocation(location: Option<string>, store: Store): (s: Scope)
    ensures s.InProvince? ==>
              && Given(location)
              && (exists i :: 0 <= i < |store.provinces| && store.provinces[i].id == s.provinceId
                               && store.provinces[i].name == location.value)
    ensures s.AtLocality? ==>
              && Given(location)
              && (forall i :: 0 <= i < |store.provinces| ==> store.provinces[i].name != location.value)
              && (exists i :: 0 <= i < |store.localities| && store.localities[i].id == s.localityId
                               && store.localities[i].name == location.value)
    ensures s.Anywhere? <==> !Given(location)
                             || ((forall i :: 0 <= i < |store.provinces| ==> store.provinces[i].name != location.value)
                                 && (forall i :: 0 <= i < |store.localities| ==> store.localities[i].name != location.value))
  {
    if !Given(location) then Anywhere
    else match FirstNamed(store.provinces, (p: Province) => p.name, location.value)
      case Some(i) => InProvince(store.provinces[i].id)
      case None =>
        match FirstNamed(store.localities, (l: Locality) => l.name, location.value)
        case Some(i) => AtLocality(store.localities[i].id)
        case None => Anywhere
  }

  /** The first locality row with primary key `id`. */
  function LocalityById(ls: seq<Locality>, id: int): (r: Option<Locality>)
    ensures r.Some? ==> r.value in ls && r.value.id == id
    ensures r.None? ==> forall l :: l in ls ==> l.id != id
  {
    if ls == [] then None
    else if ls[0].id == id then Some(ls[0])
    else LocalityById(ls[1..], id)
  }

  /** The inner join with `Product.locality` and its filter. */
  function LocationTest(scope: Scope, ls: seq<Locality>): Product -> bool {
    (p: Product) =>
      match scope
      case Anywhere => true
      case AtLocality(lid) => p.localityId == Some(lid)
      case InProvince(pid) =>
        p.localityId.Some? &&
        match LocalityById(ls, p.localityId.value)
        case None => false
        case Some(l) => l.provinceId == Some(pid)
  }

  /** The rows the SQL query selects, in table order. */
  function PopularFilter(q: Query, cond: Option<Condition>, store: Store): Product -> bool {
    (p: Product) => Matches(q, cond, store.now, p) && LocationTest(ResolveLocation(q.location, store), store.localities)(p)
  }

  /** A nullable integer column compared under SQLite's rule that NULL is smaller than
      every value. */
  predicate NullableGreater(a: Option<int>, b: Option<int>) {
    a.Some? && (b.None? || a.value > b.value)
  }

  /** `ORDER BY searches DESC, views DESC, id DESC`. */
  function MorePopular(): (Product, Product) -> bool {
    (a: Product, b: Product) =>
      || NullableGreater(a.searches, b.searches)
      || (a.searches == b.searches
          && (NullableGreater(a.views, b.views) || (a.views == b.views && a.id >= b.id)))
  }

  lemma MorePopularTotal()
    ensures StableSort.TotalPreorder(MorePopular())
  {
  }

  /** The rows the empty-search query returns before paging. */
  function PopularMatches(q: Query, cond: Option<Condition>, store: Store): seq<Product> {
    StableSort.Sort(MorePopular(), Filter(store.products, PopularFilter(q, cond, store)))
  }

  // ---------------------------------------------------------------- paging

  /** How a path cuts its page out of the result: the semantic path slices the Python
      list, the empty-search path asks SQLite for `OFFSET` and `LIMIT`. */
  datatype Pager = ListSlice | SqlOffset

  /** The rows of page `page` with `start = (page - 1) * page_size`: `filtered[start:start
      + page_size]` or `.offset(start).limit(page_size)`. Neither parameter is checked,
      so any integers reach the slice or the SQL. */
  function PageWindow(matched: seq<Product>, page: int, size: int, pager: Pager): seq<Product> {
    var start := (page - 1) * size;
    match pager
    case ListSlice => PySlice(matched, start, start + size)
    case SqlOffset => SqlWindow(matched, start, size)
  }

  /** A page without its seller-less rows. */
  function PageItems(matched: seq<Product>, page: int, size: int, pager: Pager, users: set<int>): seq<Product> {
    Filter(PageWindow(matched, page, size, pager), HasSeller(users))
  }

  /** The index answers every text with rows of the id map. */
  ghost predicate AnswersWithin(hitsFor: string -> seq<Hit>, rows: nat) {
    forall text :: HitsWithin(hitsFor(text), rows)
  }

  /** The response of the semantic path: the index is asked about the corrected text. */
  function SearchListing(q: Query, cond: Option<Condition>, store: Store, idMap: seq<int>,
                         indexBuilt: bool, top: Option<string>, hitsFor: string -> seq<Hit>): Listing
    requires Given(q.search)
    requires AnswersWithin(hitsFor, |idMap|)
  {
    var corrected := Correct(q.search.value, top);
    var matched := SemanticMatches(q, cond, store, idMap, indexBuilt, hitsFor(corrected.0));
    Listing(PageItems(matched, q.page, q.pageSize, ListSlice, store.users), |matched|, corrected.1)
  }

  /** The response of the empty-search path. */
  function PopularListing(q: Query, cond: Option<Condition>, store: Store): Listing {
    var matched := PopularMatches(q, cond, store);
    Listing(PageItems(matched, q.page, q.pageSize, SqlOffset, store.users), |matched|, None)
  }

  /** The response the endpoint computes. */
  function Products(q: Query, store: Store, idMap: seq<int>, indexBuilt: bool,
                    top: Option<string>, hitsFor: string -> seq<Hit>): Result<Listing, HttpError>
    requires AnswersWithin(hitsFor, |idMap|)
  {
    var cond :- ConditionFilter(q.condition);
    if Given(q.search) then Ok(SearchListing(q, cond, store, idMap, indexBuilt, top, hitsFor))
    else Ok(PopularListing(q, cond, store))
  }

  /** The loop over a page that skips products without a seller. */
  method KeepWithSeller(window: seq<Product>, users: set<int>) returns (items: seq<Product>)
    ensures items == Filter(window, HasSeller(users))
  {
    items := [];
    ghost var keep := HasSeller(users);
    for i := 0 to |window|
      invariant items == Filter(window[..i], keep)
    {
      var p := window[i];
      assert window[..i + 1] == window[..i] + [p];
      FilterSnoc(window[..i], p, keep);
      if p.sellerId.Some? && p.sellerId.value in users {
        items := items + [p];
      }
    }
    assert window[..|window|] == window;
  }

  /** Page `page` of the result, cut as the path cuts it, without its seller-less rows. */
  method PageOf(matched: seq<Product>, page: int, size: int, pager: Pager, users: set<int>)
    returns (items: seq<Product>)
    ensures items == PageItems(matched, page, size, pager, users)
  {
    items := KeepWithSeller(PageWindow(matched, page, size, pager), users);
  }

  /** The first four criteria of the chain. */
  predicate MatchesFirstHalf(q: Query, cond: Option<Condition>, p: Product) {
    CategoryTest(q)(p) && ConditionTest(cond)(p) && PriceMinTest(q)(p) && PriceMaxTest(q)(p)
  }

  /** The last four criteria of the chain. */
  predicate MatchesSecondHalf(q: Query, now: int, p: Product) {
    EndsInTest(q, now)(p) && ActiveTest(q, now)(p) && FeaturedTest(q)(p) && SellerTest(q)(p)
  }

  /** Category, condition, price floor and price ceiling, each only when given. */
  method FilterByListing(ranked: seq<Product>, q: Query, cond: Option<Condition>)
    returns (filtered: seq<Product>)
    ensures filtered == Filter(ranked, (p: Product) => MatchesFirstHalf(q, cond, p))
  {
    filtered := ranked;
    FilterAll(ranked, (p: Product) => true);

    ghost var upToCategory := CategoryTest(q);
    StepFuse(ranked, filtered, (p: Product) => true, Given(q.category), CategoryTest(q), upToCategory);
    if Given(q.category) {
      filtered := Filter(filtered, CategoryTest(q));
    }

    ghost var upToCondition := (p: Product) => CategoryTest(q)(p) && ConditionTest(cond)(p);
    StepFuse(ranked, filtered, upToCategory, cond.Some?, ConditionTest(cond), upToCondition);
    if cond.Some? {
      filtered := Filter(filtered, ConditionTest(cond));
    }

    ghost var upToMin := (p: Product) => CategoryTest(q)(p) && ConditionTest(cond)(p) && PriceMinTest(q)(p);
    StepFuse(ranked, filtered, upToCondition, q.priceMin.Some?, PriceMinTest(q), upToMin);
    if q.priceMin.Some? {
      filtered := Filter(filtered, PriceMinTest(q));
    }

    StepFuse(ranked, filtered, upToMin, q.priceMax.Some?, PriceMaxTest(q), (p: Product) => MatchesFirstHalf(q, cond, p));
    if q.priceMax.Some? {
      filtered := Filter(filtered, PriceMaxTest(q));
    }
  }

  /** Expiry bucket, active, featured and seller, each only when given. */
  method FilterByStatus(ranked: seq<Product>, q: Query, now: int)
    returns (filtered: seq<Product>)
    ensures filtered == Filter(ranked, (p: Product) => MatchesSecondHalf(q, now, p))
  {
    filtered := ranked;
    FilterAll(ranked, (p: Product) => true);

    ghost var upToEnds := EndsInTest(q, now);
    StepFuse(ranked, filtered, (p: Product) => true, Given(q.endsIn), EndsInTest(q, now), upToEnds);
    if Given(q.endsIn) {
      filtered := Filter(filtered, EndsInTest(q, now));
    }

    ghost var upToActive := (p: Product) => EndsInTest(q, now)(p) && ActiveTest(q, now)(p);
    StepFuse(ranked, filtered, upToEnds, q.activeOnly, ActiveTest(q, now), upToActive);
    if q.activeOnly {
      filtered := Filter(filtered, ActiveTest(q, now));
    }

    ghost var upToFeatured := (p: Product) => EndsInTest(q, now)(p) && ActiveTest(q, now)(p) && FeaturedTest(q)(p);
    StepFuse(ranked, filtered, upToActive, q.featuredOnly, FeaturedTest(q), upToFeatured);
    if q.featuredOnly {
      filtered := Filter(filtered, FeaturedTest(q));
    }

    StepFuse(ranked, filtered, upToFeatured, q.sellerId.Some?, SellerTest(q), (p: Product) => MatchesSecondHalf(q, now, p));
    if q.sellerId.Some? {
      filtered := Filter(filtered, SellerTest(q));
    }
  }

  /** The list comprehensions of the semantic path, in the order of the source
      (category, condition, price floor, price ceiling, expiry bucket, active, featured,
      seller), each applied only when its parameter is given: together they keep exactly
      the candidates that meet every criterion, in candidate order. */
  method PostFilters(ranked: seq<Product>, q: Query, cond: Option<Condition>, now: int)
    returns (filtered: seq<Product>)
    ensures filtered == Filter(ranked, MatchTest(q, cond, now))
  {
    var listed := FilterByListing(ranked, q, cond);
    filtered := FilterByStatus(listed, q, now);
    FilterFuse(ranked, (p: Product) => MatchesFirstHalf(q, cond, p), (p: Product) => MatchesSecondHalf(q, now, p),
               MatchTest(q, cond, now));
  }

  /** The semantic path: spelling correction, ranked candidates, the filter chain, then
      the page without its seller-less rows. */
  method SearchPage(q: Query, cond: Option<Condition>, store: Store, idMap: seq<int>,
                    indexBuilt: bool, top: Option<string>, hitsFor: string -> seq<Hit>) returns (l: Listing)
    requires Given(q.search)
    requires AnswersWithin(hitsFor, |idMap|)
    ensures l == SearchListing(q, cond, store, idMap, indexBuilt, top, hitsFor)
  {
    var search, suggestion := Correct(q.search.value, top).0, Correct(q.search.value, top).1;
    var ranked: seq<Product>;
    if indexBuilt && |idMap| > 0 {
      var hits := hitsFor(search);
      ranked := RankedRows(store.products, CandidateIds(hits, idMap));
    } else {
      ranked := [];
    }
    var filtered := PostFilters(ranked, q, cond, store.now);
    var items := PageOf(filtered, q.page, q.pageSize, ListSlice, store.users);
    l := Listing(items, |filtered|, suggestion);
  }

  /** The empty-search path: the SQL query with offset and limit, then the page without
      its seller-less rows. */
  method PopularPage(q: Query, cond: Option<Condition>, store: Store) returns (l: Listing)
    ensures l == PopularListing(q, cond, store)
  {
    var rows := PopularMatches(q, cond, store);
    var items := PageOf(rows, q.page, q.pageSize, SqlOffset, store.users);
    l := Listing(items, |rows|, None);
  }

  /** `get_products`. The condition is parsed first: its 422 does not depend on the
      list, so this is the same as parsing it between the category and price filters. */
  method GetProducts(q: Query, store: Store, idMap: seq<int>, indexBuilt: bool,
                     top: Option<string>, hitsFor: string -> seq<Hit>) returns (r: Result<Listing, HttpError>)
    requires AnswersWithin(hitsFor, |idMap|)
    ensures r == Products(q, store, idMap, indexBuilt, top, hitsFor)
  {
    var parsed := ConditionFilter(q.condition);
    if parsed.Err? {
      return Err(parsed.error);
    }
    var l: Listing;
    if Given(q.search) {
      l := SearchPage(q, parsed.value, store, idMap, indexBuilt, top, hitsFor);
    } else {
      l := PopularPage(q, parsed.value, store);
    }
    r := Ok(l);
  }

  // ---------------------------------------------------------------- properties

  /** The semantic result keeps the candidates' rank order and holds exactly the table
      rows whose id is a qualifying candidate and that meet every criterion. */
  lemma SemanticMatchesSpec(q: Query, cond: Option<Condition>, store: Store, idMap: seq<int>,
                            indexBuilt: bool, hits: seq<Hit>)
    requires HitsWithin(hits, |idMap|)
    ensures IsSubsequence(SemanticMatches(q, cond, store, idMap, indexBuilt, hits), Candidates(store, idMap, indexBuilt, hits))
    ensures forall p :: p in SemanticMatches(q, cond, store, idMap, indexBuilt, hits) <==>
              indexBuilt && |idMap| > 0 && p in store.products && p.id in CandidateIds(hits, idMap)
              && Matches(q, cond, store.now, p)
    ensures indexBuilt && |idMap| > 0 ==>
              var m := SemanticMatches(q, cond, store, idMap, indexBuilt, hits);
              forall i, j :: 0 <= i < j < |m| ==>
                IndexOf(CandidateIds(hits, idMap), m[i].id) <= IndexOf(CandidateIds(hits, idMap), m[j].id)
  {
    var cands := Candidates(store, idMap, indexBuilt, hits);
    FilterIsSubsequence(cands, MatchTest(q, cond, store.now));
    if indexBuilt && |idMap| > 0 {
      var ids := CandidateIds(hits, idMap);
      RankedRowsSpec(store.products, ids);
      StableSort.FilterSorted(EarlierCandidate(ids), cands, MatchTest(q, cond, store.now));
    }
  }

  /** Without an index, or with an empty id map, a search finds nothing. */
  lemma NoIndexNoResults(q: Query, store: Store, idMap: seq<int>, indexBuilt: bool,
                         top: Option<string>, hitsFor: string -> seq<Hit>)
    requires AnswersWithin(hitsFor, |idMap|)
    requires Given(q.search) && (!indexBuilt || idMap == [])
    ensures Products(q, store, idMap, indexBuilt, top, hitsFor).Ok? ==>
              Products(q, store, idMap, indexBuilt, top, hitsFor).value.items == []
              && Products(q, store, idMap, indexBuilt, top, hitsFor).value.total == 0
  {
  }

  /** The vector search runs on the corrected text: with a top term the index is asked
      about that term rather than what was typed, and the total counts the matches of
      that answer; the suggestion is the top term when it differs from the input. */
  lemma SearchRunsOnCorrection(q: Query, store: Store, idMap: seq<int>, indexBuilt: bool,
                               top: Option<string>, hitsFor: string -> seq<Hit>)
    requires Given(q.search)
    requires AnswersWithin(hitsFor, |idMap|)
    ensures Products(q, store, idMap, indexBuilt, top, hitsFor).Ok? <==> ConditionFilter(q.condition).Ok?
    ensures ConditionFilter(q.condition).Ok? ==>
              var asked := if top.Some? then top.value else q.search.value;
              var r := Products(q, store, idMap, indexBuilt, top, hitsFor).value;
              && r.total == |SemanticMatches(q, ConditionFilter(q.condition).value, store, idMap, indexBuilt, hitsFor(asked))|
              && r.suggestion == (if top.Some? && top.value != q.search.value then top else None)
  {
  }

  /** The location parameter has no effect on a search. */
  lemma LocationIgnoredBySearch(q: Query, store: Store, idMap: seq<int>, indexBuilt: bool,
                                top: Option<string>, hitsFor: string -> seq<Hit>, location: Option<string>)
    requires AnswersWithin(hitsFor, |idMap|)
    requires Given(q.search)
    ensures Products(q.(location := location), store, idMap, indexBuilt, top, hitsFor)
         == Products(q, store, idMap, indexBuilt, top, hitsFor)
  {
    var q2 := q.(location := location);
    var hits := hitsFor(Correct(q.search.value, top).0);
    match ConditionFilter(q.condition)
    case Err(_) =>
    case Ok(cond) =>
      FilterExt(Candidates(store, idMap, indexBuilt, hits), MatchTest(q2, cond, store.now), MatchTest(q, cond, store.now));
  }

  /** The empty-search result holds exactly the rows that meet every criterion and the
      location scope, each as often as in the table, most popular first. */
  lemma PopularMatchesSpec(q: Query, cond: Option<Condition>, store: Store)
    ensures multiset(PopularMatches(q, cond, store)) == multiset(Filter(store.products, PopularFilter(q, cond, store)))
    ensures forall p :: p in PopularMatches(q, cond, store) <==>
              p in store.products && Matches(q, cond, store.now, p)
              && LocationTest(ResolveLocation(q.location, store), store.localities)(p)
    ensures StableSort.SortedDesc(MorePopular(), PopularMatches(q, cond, store))
  {
    var rows := Filter(store.products, PopularFilter(q, cond, store));
    MorePopularTotal();
    StableSort.SortSorted(MorePopular(), rows);
    var r := PopularMatches(q, cond, store);
    assert forall p :: p in r <==> p in multiset(r);
    assert forall p :: p in rows <==> p in multiset(rows);
  }

  /** Both paths share the criteria: a product that meets the query's criteria is
      returned by the empty-search path exactly when it also lies in the location scope. */
  lemma LocationOnlyInPopular(q: Query, cond: Option<Condition>, store: Store, p: Product)
    requires !Given(q.location)
    ensures p in PopularMatches(q, cond, store) <==> p in store.products && Matches(q, cond, store.now, p)
  {
    PopularMatchesSpec(q, cond, store);
  }

  /** For a page and a size of at least 1 both paths cut the same window, the positions
      `(page - 1) * size` to `page * size - 1`; a page holds that window in order minus the
      rows without a seller, and never more than a non-negative `size` rows. */
  lemma PageItemsSpec(matched: seq<Product>, page: int, size: int, pager: Pager, users: set<int>)
    ensures page >= 1 && size >= 1 ==>
              PageWindow(matched, page, size, pager) == Window(matched, (page - 1) * size, (page - 1) * size + size)
    ensures size >= 0 ==> |PageItems(matched, page, size, pager, users)| <= size
    ensures IsSubsequence(PageItems(matched, page, size, pager, users), PageWindow(matched, page, size, pager))
    ensures forall p :: p in PageItems(matched, page, size, pager, users) <==>
              p in PageWindow(matched, page, size, pager) && p.sellerId.Some? && p.sellerId.value in users
  {
    var start := (page - 1) * size;
    PySliceWindow(matched, start, start + size, 0);
    PySliceBound(matched, start, start + size);
    if page >= 1 && size >= 1 {
      assert start >= 0;
    }
    FilterIsSubsequence(PageWindow(matched, page, size, pager), HasSeller(users));
  }

  /** Out-of-range paging parameters, which `get_products` accepts: page 0 is empty on
      the semantic path but is the first page on the SQL path, whose negative offset
      counts as none; a negative size takes every row from the offset on in SQL, and on
      the semantic path page 1 then drops that many rows from the end. */
  lemma PagesOutOfRange(matched: seq<Product>, page: int, size: int)
    ensures size >= 1 ==> PageWindow(matched, 0, size, ListSlice) == []
    ensures size >= 1 ==> PageWindow(matched, 0, size, SqlOffset) == PageWindow(matched, 1, size, SqlOffset)
    ensures size < 0 && page >= 1 ==> PageWindow(matched, page, size, SqlOffset) == matched
    ensures size < 0 ==> PageWindow(matched, 1, size, ListSlice) == PyPrefix(matched, size)
  {
    PySliceWindow(matched, 0, size, size);
    if size < 0 && page >= 1 {
      assert (page - 1) * size <= 0;
    }
  }

  /** `total` counts the whole result, whatever page is asked for. */
  lemma TotalIgnoresPaging(q: Query, store: Store, idMap: seq<int>, indexBuilt: bool,
                           top: Option<string>, hitsFor: string -> seq<Hit>, page: int, pageSize: int)
    requires AnswersWithin(hitsFor, |idMap|)
    ensures Products(q.(page := page, pageSize := pageSize), store, idMap, indexBuilt, top, hitsFor).Ok?
         == Products(q, store, idMap, indexBuilt, top, hitsFor).Ok?
    ensures Products(q, store, idMap, indexBuilt, top, hitsFor).Ok? ==>
              Products(q.(page := page, pageSize := pageSize), store, idMap, indexBuilt, top, hitsFor).value.total
              == Products(q, store, idMap, indexBuilt, top, hitsFor).value.total
  {
    var q2 := q.(page := page, pageSize := pageSize);
    match ConditionFilter(q.condition)
    case Err(_) =>
    case Ok(cond) =>
      if Given(q.search) {
        var hits := hitsFor(Correct(q.search.value, top).0);
        FilterExt(Candidates(store, idMap, indexBuilt, hits), MatchTest(q2, cond, store.now), MatchTest(q, cond, store.now));
      } else {
        assert forall p :: Matches(q2, cond, store.now, p) == Matches(q, cond, store.now, p);
        FilterExt(store.products, PopularFilter(q2, cond, store), PopularFilter(q, cond, store));
      }
  }

  /** Fifty results in pages of fifteen: page 4 is the last five, page 5 is empty. */
  lemma FiftyInPagesOfFifteen(matched: seq<Product>, pager: Pager, users: set<int>)
    requires |matched| == 50
    ensures PageWindow(matched, 4, 15, pager) == matched[45..]
    ensures |PageItems(matched, 4, 15, pager, users)| <= 5
    ensures PageItems(matched, 5, 15, pager, users) == []
  {
    PageItemsSpec(matched, 4, 15, pager, users);
    PageItemsSpec(matched, 5, 15, pager, users);
  }
}
