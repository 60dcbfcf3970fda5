/** The vector index behind semantic search: `build_faiss_index` rebuilds the
    position-to-product-id map from every product that has an embedding, and a FAISS
    search result (pairs of index row and similarity score) is turned into the ranked
    list of candidate product ids. The inner-product search itself is an input. */
module SearchIndex {
  import opened Wrappers
  import opened Seqs
  import opened Catalog
  import StableSort

  /** `similarity_threshold`. */
  const SimilarityThreshold: real := 0.35

  /** `if p.embedding:` — the column is non-NULL and holds at least one byte. */
  predicate HasEmbedding(p: Product) {
    p.embedding.Some? && |p.embedding.value| > 0
  }

  /** The ids of the products that have an embedding, in query order. */
  function EmbeddedIds(products: seq<Product>): seq<int> {
    if products == [] then []
    else
      var last := products[|products| - 1];
      EmbeddedIds(products[..|products| - 1]) + (if HasEmbedding(last) then [last.id] else [])
  }

  /** Their embeddings, in the same order: row `k` of the index. */
  function EmbeddedVectors(products: seq<Product>): seq<seq<bv8>> {
    if products == [] then []
    else
      var last := products[|products| - 1];
      EmbeddedVectors(products[..|products| - 1]) + (if HasEmbedding(last) then [last.embedding.value] else [])
  }

  /** Some product with an embedding has id `id` and vector `v`. */
  ghost predicate RowOf(products: seq<Product>, id: int, v: seq<bv8>) {
    exists p :: p in products && HasEmbedding(p) && p.id == id && p.embedding.value == v
  }

  /** Row `k` of the index holds the vector of the product whose id is entry `k` of the
      map; every product with an embedding has a row, and no other product has one. */
  lemma {:induction false} EmbeddedRows(products: seq<Product>)
    ensures |EmbeddedIds(products)| == |EmbeddedVectors(products)|
    ensures forall k :: 0 <= k < |EmbeddedIds(products)| ==>
              RowOf(products, EmbeddedIds(products)[k], EmbeddedVectors(products)[k])
    ensures forall p :: p in products && HasEmbedding(p) ==> p.id in EmbeddedIds(products)
    decreases |products|
  {
    if products != [] {
      var init := products[..|products| - 1];
      var last := products[|products| - 1];
      EmbeddedRows(init);
      var ids, vs := EmbeddedIds(products), EmbeddedVectors(products);
      assert |ids| == |vs|;
      forall k | 0 <= k < |ids|
        ensures RowOf(products, ids[k], vs[k])
      {
        if k < |EmbeddedIds(init)| {
          assert ids[k] == EmbeddedIds(init)[k] && vs[k] == EmbeddedVectors(init)[k];
          assert RowOf(init, ids[k], vs[k]);
          var p :| p in init && HasEmbedding(p) && p.id == ids[k] && p.embedding.value == vs[k];
          assert p in products;
        } else {
          assert HasEmbedding(last);
          assert last in products && ids[k] == last.id && vs[k] == last.embedding.value;
        }
      }
      forall p | p in products && HasEmbedding(p)
        ensures p.id in ids
      {
        if p == last {
          assert ids[|ids| - 1] == p.id;
        } else {
          assert p in init;
          assert p.id in EmbeddedIds(init);
        }
      }
    }
  }

  /** The module-level index state: `product_id_map` and the FAISS `IndexFlatIP`,
      represented by the vectors it was built from (`faiss_index is None` when `vectors`
      is empty). */
  class VectorIndex {
    var productIdMap: seq<int>
    var vectors: seq<seq<bv8>>
    var built: bool

    ghost predicate Valid()
      reads this
    {
      |productIdMap| == |vectors| && (built <==> vectors != [])
    }

    /** At import time: `faiss_index = None`, `product_id_map = []`. */
    constructor ()
      ensures Valid() && productIdMap == [] && !built
    {
      productIdMap, vectors, built := [], [], false;
    }

    /** `build_faiss_index(db)`: resets the map, appends the id of every product whose
        embedding is non-empty, and builds a new index over their vectors, or sets it to
        None when there are none. */
    method Rebuild(products: seq<Product>)
      modifies this
      ensures Valid()
      ensures productIdMap == EmbeddedIds(products)
      ensures vectors == EmbeddedVectors(products)
      ensures built <==> productIdMap != []
    {
      var embeddings: seq<seq<bv8>> := [];
      productIdMap := [];
      for i := 0 to |products|
        invariant productIdMap == EmbeddedIds(products[..i])
        invariant embeddings == EmbeddedVectors(products[..i])
      {
        assert products[..i + 1][..i] == products[..i];
        var p := products[i];
        if p.embedding.Some? && |p.embedding.value| > 0 {
          embeddings := embeddings + [p.embedding.value];
          productIdMap := productIdMap + [p.id];
        }
      }
      assert products[..|products|] == products;
      EmbeddedRows(products);
      vectors := embeddings;
      built := embeddings != [];
    }
  }

  /** One FAISS hit: `I[0][k]` (the index row, -1 for an empty slot) and `D[0][k]`. */
  datatype Hit = Hit(row: int, score: real)

  /** `idx >= 0 and score > similarity_threshold`. */
  predicate Qualifies(h: Hit) {
    h.row >= 0 && h.score > SimilarityThreshold
  }

  /** FAISS only reports rows of the index it searched. */
  predicate HitsWithin(hits: seq<Hit>, rows: nat) {
    forall h :: h in hits ==> h.row < rows
  }

  /** `ids = [product_id_map[idx] for idx, score in ... if idx >= 0 and score > 0.35]`:
      the ids of the qualifying hits, in FAISS rank order. */
  function CandidateIds(hits: seq<Hit>, idMap: seq<int>): (ids: seq<int>)
    requires HitsWithin(hits, |idMap|)
    ensures |ids| == |Filter(hits, Qualifies)|
    ensures forall k :: 0 <= k < |ids| ==> ids[k] == idMap[Filter(hits, Qualifies)[k].row]
    decreases |hits|
  {
    if hits == [] then []
    else
      var rest := CandidateIds(hits[1..], idMap);
      if Qualifies(hits[0]) then [idMap[hits[0].row]] + rest else rest
  }

  /** `ids.index(id)`: the first position of `id`, or `|ids|` when it is absent (the
      rows being sorted always come from `Product.id.in_(ids)`). */
  function IndexOf(ids: seq<int>, id: int): (k: nat)
    ensures k <= |ids|
    ensures k < |ids| ==> ids[k] == id
    ensures forall j :: 0 <= j < k ==> ids[j] != id
  {
    if ids == [] then 0
    else if ids[0] == id then 0
    else 1 + IndexOf(ids[1..], id)
  }

  /** Sort key order for `sorted(productos, key=lambda p: ids.index(p.id))`. */
  function EarlierCandidate(ids: seq<int>): (Product, Product) -> bool {
    (a: Product, b: Product) => IndexOf(ids, a.id) <= IndexOf(ids, b.id)
  }

  /** `db.query(Product).filter(Product.id.in_(ids)).all()`: the rows with a candidate id,
      in table order. */
  function FetchCandidates(rows: seq<Product>, ids: seq<int>): seq<Product> {
    Filter(rows, (p: Product) => p.id in ids)
  }

  /** The fetched rows re-sorted into candidate order. */
  function RankedRows(rows: seq<Product>, ids: seq<int>): seq<Product> {
    StableSort.Sort(EarlierCandidate(ids), FetchCandidates(rows, ids))
  }

  /** The re-sorted rows are exactly the table rows whose id is a candidate (a candidate
      without a row disappears), each as often as in the table, and they follow the
      rank order of the candidate list. */
  lemma RankedRowsSpec(rows: seq<Product>, ids: seq<int>)
    ensures multiset(RankedRows(rows, ids)) == multiset(FetchCandidates(rows, ids))
    ensures forall p :: p in RankedRows(rows, ids) <==> p in rows && p.id in ids
    ensures forall i, j :: 0 <= i < j < |RankedRows(rows, ids)| ==>
              IndexOf(ids, RankedRows(rows, ids)[i].id) <= IndexOf(ids, RankedRows(rows, ids)[j].id)
  {
    var ge := EarlierCandidate(ids);
    var r := RankedRows(rows, ids);
    StableSort.SortSorted(ge, FetchCandidates(rows, ids));
    assert forall p :: p in r <==> p in multiset(r);
    assert forall p :: p in FetchCandidates(rows, ids) <==> p in multiset(FetchCandidates(rows, ids));
  }
}
