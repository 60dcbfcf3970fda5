/** The marketplace's product records (the `products` table with its joined category
    names) and the two counters the read path bumps, `increment_view` and
    `increment_search`. Time is in integer seconds; prices are reals. */
module Catalog {
  import opened Wrappers
  import opened Http

  /** Seconds in a `timedelta(days=1)`. */
  const Day: int := 86400

  /** `ProductCondition`: the enum names are NUEVO and USADO, the values "Nuevo" and "Usado". */
  datatype Condition = Nuevo | Usado

  /** One product row. `searches` and `views` are nullable integer columns (default 0);
      `embedding` is the nullable binary column, `None` when no vector was stored. */
  datatype Product = Product(
    id: int,
    title: string,
    categories: seq<string>,
    price: real,
    localityId: Option<int>,
    condition: Condition,
    views: Option<int>,
    searches: Option<int>,
    featured: bool,
    endsAt: int,
    sellerId: Option<int>,
    embedding: Option<seq<bv8>>)

  /** Primary keys are unique. */
  predicate UniqueIds(rows: seq<Product>) {
    forall i, j :: 0 <= i < j < |rows| ==> rows[i].id != rows[j].id
  }

  /** The position of the row with primary key `id`, if there is one. */
  function Find(rows: seq<Product>, id: int): (r: Option<nat>)
    ensures r.Some? ==> r.value < |rows| && rows[r.value].id == id
    ensures r.None? ==> forall i :: 0 <= i < |rows| ==> rows[i].id != id
  {
    if rows == [] then None
    else if rows[|rows| - 1].id == id then Some(|rows| - 1)
    else Find(rows[..|rows| - 1], id)
  }

  /** What the client receives when a handler raises an exception nothing catches:
      FastAPI's server-error response, whose body does not carry the exception's text. */
  const ServerError := HttpError(500, "Internal Server Error")

  /** `rows[i]` with its view counter incremented, as `product.views += 1` does. A NULL
      counter makes the addition raise `TypeError`, which is not caught, so the client
      gets `ServerError`. */
  function BumpViews(p: Product): Result<Product, HttpError> {
    match p.views
    case None => Err(ServerError)
    case Some(v) => Ok(p.(views := Some(v + 1)))
  }

  /** Same for `product.searches += 1`. */
  function BumpSearches(p: Product): Result<Product, HttpError> {
    match p.searches
    case None => Err(ServerError)
    case Some(v) => Ok(p.(searches := Some(v + 1)))
  }

  /** The products table, in primary-key order. */
  class ProductTable {
    var rows: seq<Product>

    ghost predicate Valid()
      reads this
    {
      UniqueIds(rows)
    }

    constructor (initial: seq<Product>)
      requires UniqueIds(initial)
      ensures Valid() && rows == initial
    {
      rows := initial;
    }

    /** `POST /products/{id}/view`: 404 for an unknown id; otherwise the one row's view
        counter goes up by one and the new value is returned. Nothing else changes. */
    method IncrementView(id: int) returns (r: Result<int, HttpError>)
      requires Valid()
      modifies this
      ensures Valid()
      ensures Find(old(rows), id).None? ==> r == Err(HttpError(404, "Producto no encontrado")) && rows == old(rows)
      ensures Find(old(rows), id).Some? ==>
                var i := Find(old(rows), id).value;
                match BumpViews(old(rows)[i])
                case Err(e) => r == Err(e) && rows == old(rows)
                case Ok(p) => r == Ok(p.views.value) && p.views.value == old(rows)[i].views.value + 1
                              && rows == old(rows)[i := p]
    {
      var found := Find(rows, id);
      if found.None? {
        return Err(HttpError(404, "Producto no encontrado"));
      }
      var i := found.value;
      var bumped := BumpViews(rows[i]);
      if bumped.Err? {
        return Err(bumped.error);
      }
      rows := rows[i := bumped.value];
      r := Ok(bumped.value.views.value);
    }

    /** `POST /products/{id}/search`: the same for the search counter. */
    method IncrementSearch(id: int) returns (r: Result<int, HttpError>)
      requires Valid()
      modifies this
      ensures Valid()
      ensures Find(old(rows), id).None? ==> r == Err(HttpError(404, "Producto no encontrado")) && rows == old(rows)
      ensures Find(old(rows), id).Some? ==>
                var i := Find(old(rows), id).value;
                match BumpSearches(old(rows)[i])
                case Err(e) => r == Err(e) && rows == old(rows)
                case Ok(p) => r == Ok(p.searches.value) && p.searches.value == old(rows)[i].searches.value + 1
                              && rows == old(rows)[i := p]
    {
      var found := Find(rows, id);
      if found.None? {
        return Err(HttpError(404, "Producto no encontrado"));
      }
      var i := found.value;
      var bumped := BumpSearches(rows[i]);
      if bumped.Err? {
        return Err(bumped.error);
      }
      rows := rows[i := bumped.value];
      r := Ok(bumped.value.searches.value);
    }
  }
}
