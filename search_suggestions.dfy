/** `GET /search/suggestions`: while typing, the marketplace offers product titles,
    locality names and seller names that contain the normalised query, without repeats,
    stopping once eight or more are collected. The Unicode normalisation (NFKD, drop
    combining marks, lower-case) and SymSpell's top term are inputs. */
module SearchSuggestions {
  import opened Wrappers
  import opened Seqs
  import opened Text

  datatype Seller = Seller(id: int, name: string)

  /** A product row as the loop sees it: title, category names, the name of its locality
      and its seller, when it has them, and its expiry time. */
  datatype Listed = Listed(
    title: string,
    categories: seq<string>,
    localityName: Option<string>,
    seller: Option<Seller>,
    endsAt: int)

  /** One entry of `suggestions`. */
  datatype Hint =
    | ProductHint(text: string, category: string)
    | PlaceHint(text: string)
    | SellerHint(text: string, sellerId: int)

  /** The response: `{"suggestions": []}` for a short query, otherwise the list and the
      spelling suggestion. */
  datatype Response = ShortQuery | Found(suggestions: seq<Hint>, suggestion: Option<string>)

  /** `p.categories[0].name if p.categories else "Otros"`. */
  function FirstCategory(r: Listed): string {
    if r.categories != [] then r.categories[0] else "Otros"
  }

  /** `prod_key`. */
  function ProductKey(r: Listed, normalize: string -> string): (string, string) {
    (normalize(r.title), FirstCategory(r))
  }

  /** `name.strip().lower()`, the key of a locality or seller. */
  function Fold(name: string): string {
    Lower(Strip(name))
  }

  /** The loop state: the list built so far and the three seen-sets. */
  datatype Gathered = Gathered(
    hints: seq<Hint>,
    productKeys: set<(string, string)>,
    places: set<string>,
    sellerNames: set<string>)

  const Nothing := Gathered([], {}, {}, {})

  /** The product part of the loop body: the title, under its key. */
  function AddProduct(g: Gathered, r: Listed, nq: string, normalize: string -> string): Gathered {
    var key := ProductKey(r, normalize);
    if Contains(normalize(r.title), nq) && key !in g.productKeys
    then g.(hints := g.hints + [ProductHint(r.title, FirstCategory(r))], productKeys := g.productKeys + {key})
    else g
  }

  /** The locality part of the loop body. */
  function AddPlace(g: Gathered, r: Listed, nq: string, normalize: string -> string): Gathered {
    if r.localityName.Some? && Contains(normalize(r.localityName.value), nq) && Fold(r.localityName.value) !in g.places
    then g.(hints := g.hints + [PlaceHint(r.localityName.value)], places := g.places + {Fold(r.localityName.value)})
    else g
  }

  /** The seller part of the loop body. */
  function AddSeller(g: Gathered, r: Listed, nq: string, normalize: string -> string): Gathered {
    if r.seller.Some? && Contains(normalize(r.seller.value.name), nq) && Fold(r.seller.value.name) !in g.sellerNames
    then g.(hints := g.hints + [SellerHint(r.seller.value.name, r.seller.value.id)],
            sellerNames := g.sellerNames + {Fold(r.seller.value.name)})
    else g
  }

  /** One iteration of the loop body, before the length check. */
  function Step(g: Gathered, r: Listed, nq: string, normalize: string -> string): Gathered {
    AddSeller(AddPlace(AddProduct(g, r, nq, normalize), r, nq, normalize), r, nq, normalize)
  }

  /** The loop: each row in turn, breaking as soon as the list holds eight or more. */
  function Gather(rows: seq<Listed>, g: Gathered, nq: string, normalize: string -> string): Gathered
    decreases |rows|
  {
    if rows == [] then g
    else
      var g' := Step(g, rows[0], nq, normalize);
      if |g'.hints| >= 8 then g' else Gather(rows[1..], g', nq, normalize)
  }

  /** The key a hint was recorded under in its seen-set. */
  predicate SameKey(a: Hint, b: Hint, normalize: string -> string) {
    match a
    case ProductHint(t, c) => b.ProductHint? && normalize(b.text) == normalize(t) && b.category == c
    case PlaceHint(t) => b.PlaceHint? && Fold(b.text) == Fold(t)
    case SellerHint(t, _) => b.SellerHint? && Fold(b.text) == Fold(t)
  }

  /** Every hint contains the query after normalisation. */
  ghost predicate AllMatch(g: Gathered, nq: string, normalize: string -> string) {
    forall h :: h in g.hints ==> IsSubstring(nq, normalize(h.text))
  }

  /** No two hints share a key. */
  ghost predicate NoRepeats(g: Gathered, normalize: string -> string) {
    forall i, j :: 0 <= i < j < |g.hints| ==> !SameKey(g.hints[i], g.hints[j], normalize)
  }

  /** `seen_products` holds exactly the keys of the product hints. */
  ghost predicate ProductsSeen(g: Gathered, normalize: string -> string) {
    forall k :: k in g.productKeys <==> exists h :: h in g.hints && h.ProductHint? && k == (normalize(h.text), h.category)
  }

  /** `seen_localities` holds exactly the keys of the locality hints. */
  ghost predicate PlacesSeen(g: Gathered) {
    forall k :: k in g.places <==> exists h :: h in g.hints && h.PlaceHint? && k == Fold(h.text)
  }

  /** `seen_sellers` holds exactly the keys of the seller hints. */
  ghost predicate SellersSeen(g: Gathered) {
    forall k :: k in g.sellerNames <==> exists h :: h in g.hints && h.SellerHint? && k == Fold(h.text)
  }

  /** What the loop keeps true: every hint contains the query after normalisation, no two
      hints share a key, and the seen-sets hold exactly the keys of the hints. */
  ghost predicate Consistent(g: Gathered, nq: string, normalize: string -> string) {
    AllMatch(g, nq, normalize) && NoRepeats(g, normalize) && ProductsSeen(g, normalize) && PlacesSeen(g) && SellersSeen(g)
  }

  /** `h` is appended to `g` and its key added to the matching seen-set. */
  ghost predicate Appended(g: Gathered, h: Hint, g': Gathered, normalize: string -> string) {
    && g'.hints == g.hints + [h]
    && g'.productKeys == (if h.ProductHint? then g.productKeys + {(normalize(h.text), h.category)} else g.productKeys)
    && g'.places == (if h.PlaceHint? then g.places + {Fold(h.text)} else g.places)
    && g'.sellerNames == (if h.SellerHint? then g.sellerNames + {Fold(h.text)} else g.sellerNames)
  }

  /** The key of `h` is in none of the seen-sets. */
  predicate Unseen(g: Gathered, h: Hint, normalize: string -> string) {
    && (h.ProductHint? ==> (normalize(h.text), h.category) !in g.productKeys)
    && (h.PlaceHint? ==> Fold(h.text) !in g.places)
    && (h.SellerHint? ==> Fold(h.text) !in g.sellerNames)
  }

  /** Appending a hint whose key is not yet seen keeps the state consistent. */
  lemma AppendFresh(g: Gathered, h: Hint, g': Gathered, nq: string, normalize: string -> string)
    requires Consistent(g, nq, normalize)
    requires IsSubstring(nq, normalize(h.text))
    requires Unseen(g, h, normalize)
    requires Appended(g, h, g', normalize)
    ensures Consistent(g', nq, normalize)
  {
    AppendNoRepeats(g, h, g', normalize);
    AppendSeen(g, h, g', normalize);
  }

  /** An unseen key repeats no key already in the list. */
  lemma AppendNoRepeats(g: Gathered, h: Hint, g': Gathered, normalize: string -> string)
    requires NoRepeats(g, normalize) && ProductsSeen(g, normalize) && PlacesSeen(g) && SellersSeen(g)
    requires Unseen(g, h, normalize)
    requires g'.hints == g.hints + [h]
    ensures NoRepeats(g', normalize)
  {
    forall i, j | 0 <= i < j < |g'.hints|
      ensures !SameKey(g'.hints[i], g'.hints[j], normalize)
    {
      if j == |g.hints| {
        var a := g.hints[i];
        assert a in g.hints;
        match a
        case ProductHint(_, _) => assert (normalize(a.text), a.category) in g.productKeys;
        case PlaceHint(_) => assert Fold(a.text) in g.places;
        case SellerHint(_, _) => assert Fold(a.text) in g.sellerNames;
      } else {
        assert g'.hints[i] == g.hints[i] && g'.hints[j] == g.hints[j];
      }
    }
  }

  /** The seen-sets still hold exactly the keys of the hints. */
  lemma AppendSeen(g: Gathered, h: Hint, g': Gathered, normalize: string -> string)
    requires ProductsSeen(g, normalize) && PlacesSeen(g) && SellersSeen(g)
    requires Appended(g, h, g', normalize)
    ensures ProductsSeen(g', normalize) && PlacesSeen(g') && SellersSeen(g')
  {
    AppendProductsSeen(g, h, g', normalize);
    AppendPlacesSeen(g, h, g', normalize);
    AppendSellersSeen(g, h, g', normalize);
  }

  /** The product keys after the append are those of the hints after it. */
  lemma AppendProductsSeen(g: Gathered, h: Hint, g': Gathered, normalize: string -> string)
    requires ProductsSeen(g, normalize)
    requires Appended(g, h, g', normalize)
    ensures ProductsSeen(g', normalize)
  {
    forall k
      ensures k in g'.productKeys <==> exists x :: x in g'.hints && x.ProductHint? && k == (normalize(x.text), x.category)
    {
      if k in g.productKeys {
        var x :| x in g.hints && x.ProductHint? && k == (normalize(x.text), x.category);
        assert x in g'.hints;
      } else if h.ProductHint? && k == (normalize(h.text), h.category) {
        assert h in g'.hints;
      } else {
        forall x | x in g'.hints && x.ProductHint?
          ensures k != (normalize(x.text), x.category)
        {
          assert x in g.hints || x == h;
        }
      }
    }
  }

  /** The locality keys after the append are those of the hints after it. */
  lemma AppendPlacesSeen(g: Gathered, h: Hint, g': Gathered, normalize: string -> string)
    requires PlacesSeen(g)
    requires Appended(g, h, g', normalize)
    ensures PlacesSeen(g')
  {
    forall k
      ensures k in g'.places <==> exists x :: x in g'.hints && x.PlaceHint? && k == Fold(x.text)
    {
      if k in g.places {
        var x :| x in g.hints && x.PlaceHint? && k == Fold(x.text);
        assert x in g'.hints;
      } else if h.PlaceHint? && k == Fold(h.text) {
        assert h in g'.hints;
      } else {
        forall x | x in g'.hints && x.PlaceHint?
          ensures k != Fold(x.text)
        {
          assert x in g.hints || x == h;
        }
      }
    }
  }

  /** The seller-name keys after the append are those of the hints after it. */
  lemma AppendSellersSeen(g: Gathered, h: Hint, g': Gathered, normalize: string -> string)
    requires SellersSeen(g)
    requires Appended(g, h, g', normalize)
    ensures SellersSeen(g')
  {
    forall k
      ensures k in g'.sellerNames <==> exists x :: x in g'.hints && x.SellerHint? && k == Fold(x.text)
    {
      if k in g.sellerNames {
        var x :| x in g.hints && x.SellerHint? && k == Fold(x.text);
        assert x in g'.hints;
      } else if h.SellerHint? && k == Fold(h.text) {
        assert h in g'.hints;
      } else {
        forall x | x in g'.hints && x.SellerHint?
          ensures k != Fold(x.text)
        {
          assert x in g.hints || x == h;
        }
      }
    }
  }

  /** One step keeps the state consistent, adds at most three hints and never drops a
      seen key. */
  lemma StepConsistent(g: Gathered, r: Listed, nq: string, normalize: string -> string)
    requires Consistent(g, nq, normalize)
    ensures Consistent(Step(g, r, nq, normalize), nq, normalize)
    ensures |g.hints| <= |Step(g, r, nq, normalize).hints| <= |g.hints| + 3
    ensures g.productKeys <= Step(g, r, nq, normalize).productKeys
    ensures IsSubstring(nq, normalize(r.title)) ==> ProductKey(r, normalize) in Step(g, r, nq, normalize).productKeys
  {
    var g1 := AddProduct(g, r, nq, normalize);
    if g1 != g {
      AppendFresh(g, ProductHint(r.title, FirstCategory(r)), g1, nq, normalize);
    }
    var g2 := AddPlace(g1, r, nq, normalize);
    if g2 != g1 {
      AppendFresh(g1, PlaceHint(r.localityName.value), g2, nq, normalize);
    }
    var g3 := AddSeller(g2, r, nq, normalize);
    if g3 != g2 {
      AppendFresh(g2, SellerHint(r.seller.value.name, r.seller.value.id), g3, nq, normalize);
    }
  }

  /** The whole loop: the list never repeats a product key, a locality or a seller name,
      every entry contains the query, it holds at most ten entries, and when it stopped
      short of eight every matching product title is represented by its key. */
  lemma {:induction false} GatherSpec(rows: seq<Listed>, g: Gathered, nq: string, normalize: string -> string)
    requires Consistent(g, nq, normalize) && |g.hints| < 8
    ensures Consistent(Gather(rows, g, nq, normalize), nq, normalize)
    ensures |g.hints| <= |Gather(rows, g, nq, normalize).hints| <= 10
    ensures g.productKeys <= Gather(rows, g, nq, normalize).productKeys
    ensures |Gather(rows, g, nq, normalize).hints| < 8 ==>
              forall r :: r in rows && IsSubstring(nq, normalize(r.title)) ==>
                ProductKey(r, normalize) in Gather(rows, g, nq, normalize).productKeys
    decreases |rows|
  {
    if rows != [] {
      var g' := Step(g, rows[0], nq, normalize);
      StepConsistent(g, rows[0], nq, normalize);
      if |g'.hints| < 8 {
        GatherSpec(rows[1..], g', nq, normalize);
        assert forall r :: r in rows ==> r == rows[0] || r in rows[1..];
      }
    }
  }

  /** The loop of `get_search_suggestions`, with the three seen-sets as local sets. */
  method CollectHints(rows: seq<Listed>, nq: string, normalize: string -> string) returns (hints: seq<Hint>)
    ensures hints == Gather(rows, Nothing, nq, normalize).hints
  {
    hints := [];
    var productKeys: set<(string, string)> := {};
    var places: set<string> := {};
    var sellerNames: set<string> := {};
    var i := 0;
    while i < |rows|
      invariant 0 <= i <= |rows|
      invariant |hints| < 8
      invariant Gather(rows, Nothing, nq, normalize) == Gather(rows[i..], Gathered(hints, productKeys, places, sellerNames), nq, normalize)
    {
      ghost var before := Gathered(hints, productKeys, places, sellerNames);
      var r := rows[i];
      var key := ProductKey(r, normalize);
      if Contains(normalize(r.title), nq) && key !in productKeys {
        hints := hints + [ProductHint(r.title, FirstCategory(r))];
        productKeys := productKeys + {key};
      }
      ghost var afterProduct := Gathered(hints, productKeys, places, sellerNames);
      assert afterProduct == AddProduct(before, r, nq, normalize);
      if r.localityName.Some? && Contains(normalize(r.localityName.value), nq) {
        var loc := Fold(r.localityName.value);
        if loc !in places {
          hints := hints + [PlaceHint(r.localityName.value)];
          places := places + {loc};
        }
      }
      ghost var afterPlace := Gathered(hints, productKeys, places, sellerNames);
      assert afterPlace == AddPlace(afterProduct, r, nq, normalize);
      if r.seller.Some? && Contains(normalize(r.seller.value.name), nq) {
        var name := Fold(r.seller.value.name);
        if name !in sellerNames {
          hints := hints + [SellerHint(r.seller.value.name, r.seller.value.id)];
          sellerNames := sellerNames + {name};
        }
      }
      assert Gathered(hints, productKeys, places, sellerNames) == AddSeller(afterPlace, r, nq, normalize);
      assert rows[i..][0] == r && rows[i..][1..] == rows[i + 1..];
      if |hints| >= 8 {
        break;
      }
      i := i + 1;
    }
  }

  /** `symspell_suggestions[0].term` when it differs from the query. */
  function Spelling(query: string, top: Option<string>): (s: Option<string>)
    ensures s.Some? <==> top.Some? && top.value != query
    ensures s.Some? ==> s == top
  {
    if top.Some? && top.value != query then top else None
  }

  /** The products still on sale: `Product.ends_at > datetime.utcnow()`. */
  function ActiveRows(rows: seq<Listed>, now: int): (active: seq<Listed>)
    ensures forall r :: r in active <==> r in rows && r.endsAt > now
  {
    Filter(rows, (r: Listed) => r.endsAt > now)
  }

  /** `get_search_suggestions` (the `category` parameter is accepted and not used). */
  method GetSearchSuggestions(query: string, rows: seq<Listed>, now: int,
                              normalize: string -> string, top: Option<string>) returns (resp: Response)
    ensures |query| < 2 <==> resp == ShortQuery
    ensures resp.Found? ==>
              && resp.suggestions == Gather(ActiveRows(rows, now), Nothing, normalize(query), normalize).hints
              && resp.suggestion == Spelling(query, top)
  {
    if |query| < 2 {
      return ShortQuery;
    }
    var nq := normalize(query);
    var hints := CollectHints(ActiveRows(rows, now), nq, normalize);
    resp := Found(hints, Spelling(query, top));
  }

  /** The start state is consistent, so everything `GatherSpec` states holds of the
      response: at most ten entries, none repeated, each containing the query. */
  lemma SuggestionsBounded(query: string, rows: seq<Listed>, now: int, normalize: string -> string)
    ensures var g := Gather(ActiveRows(rows, now), Nothing, normalize(query), normalize);
            |g.hints| <= 10 && Consistent(g, normalize(query), normalize)
  {
    GatherSpec(ActiveRows(rows, now), Nothing, normalize(query), normalize);
  }
}
