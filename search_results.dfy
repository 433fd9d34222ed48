/** The search page: the products matching the `q` parameter, recomputed
    from the query and the fetched list each time either changes. */
module SearchResults {
  import opened Wrappers
  import opened Strings
  import Seqs
  import opened Catalog

  /** `searchParams.get('q') || ''` */
  function Query(q: Option<string>): (query: string)
    ensures q.Some? ==> query == q.value
    ensures q.None? ==> query == ""
  {
    if q.Some? && q.value != "" then q.value else ""
  }

  /** A field matches when, lowercased, it contains the lowercased query. */
  predicate FieldMatches(field: string, query: string) {
    Contains(Lower(field), Lower(query))
  }

  /** The filter's test: title, subtitle or description matches, or the
      category does when it is truthy. */
  predicate Matches(p: Product, query: string) {
    || FieldMatches(p.title, query)
    || FieldMatches(p.subtitle, query)
    || FieldMatches(p.description, query)
    || (p.category.Some? && p.category.value != "" && FieldMatches(p.category.value, query))
  }

  /** `allProducts.filter(...)`: exactly the matching products, in the
      fetched order, each as often as it was fetched. */
  function Search(allProducts: seq<Product>, query: string): (results: seq<Product>)
    ensures forall p :: p in results <==> p in allProducts && Matches(p, query)
    ensures forall p :: Matches(p, query) ==> multiset(results)[p] == multiset(allProducts)[p]
    ensures forall p :: !Matches(p, query) ==> multiset(results)[p] == 0
  {
    var keep := (p: Product) => Matches(p, query);
    var results := Seqs.Filter(allProducts, keep);
    assert forall p :: p in results <==> p in allProducts && keep(p) by {
      forall p ensures p in results <==> p in allProducts && keep(p) {
        Seqs.FilterMembership(allProducts, keep, p);
      }
    }
    assert forall p :: multiset(results)[p] == if keep(p) then multiset(allProducts)[p] else 0 by {
      forall p ensures multiset(results)[p] == if keep(p) then multiset(allProducts)[p] else 0 {
        Seqs.FilterCount(allProducts, keep, p);
      }
    }
    results
  }

  /** The results keep the fetched order: searching distributes over
      concatenation of the list. */
  lemma SearchKeepsOrder(a: seq<Product>, b: seq<Product>, query: string)
    ensures Search(a + b, query) == Search(a, query) + Search(b, query)
  {
    Seqs.FilterAppend(a, b, (p: Product) => Matches(p, query));
  }

  /** Every string contains the empty one, so a missing or empty `q` lists
      every product. */
  lemma EmptyQueryListsAll(allProducts: seq<Product>, q: Option<string>)
    requires q.None? || q.value == ""
    ensures Search(allProducts, Query(q)) == allProducts
  {
    var keep := (p: Product) => Matches(p, Query(q));
    forall k | 0 <= k < |allProducts| ensures keep(allProducts[k]) {
      assert Lower(Query(q)) == [];
      assert Lower(Query(q)) <= Lower(allProducts[k].title);
    }
    Seqs.FilterKeepsAll(allProducts, keep);
  }

  /** A product without a category is still found through its other fields. */
  lemma CategoryOptional(p: Product, query: string)
    requires p.category.None? && FieldMatches(p.title, query)
    ensures forall ps: seq<Product> :: p in ps ==> p in Search(ps, query)
  {
  }

  /** The page after its fetch on mount: the results for the current query
      over the fetched list. */
  function Page(reply: ListReply, q: Option<string>): (page: Catalog.Page)
    ensures reply.Fetched? ==>
              && page.error.None?
              && page.products == Search(reply.data, Query(q))
              && forall p :: p in page.products <==> p in reply.data && Matches(p, Query(q))
    ensures !reply.Fetched? ==> page.products == [] && page.error.Some?
  {
    Loaded(reply, (data: seq<Product>) => Search(data, Query(q)))
  }

  /** A result card's `<img src>`, read from the singular `image` field. */
  function ImageSrc(p: Product): (src: Option<string>)
    ensures src.Some? <==> p.image.Some?
    ensures src.Some? ==> src.value == ResolveImage(p.image.value)
  {
    LegacySrc(p)
  }

  /** A result card's click target: no guard for a missing id. */
  function ClickTarget(p: Product): (target: string)
    ensures p.id.Some? ==> target == "/product/" + p.id.value
    ensures p.id.None? ==> target == "/product/undefined"
  {
    ProductPath(p.id)
  }
}
