/** The Kitchen page: the fetched products whose category is exactly
    "kitchen", cards that open a product only when it has an id, and an image
    source read from the singular `image` field. */
module Kitchen {
  import opened Wrappers
  import opened Catalog

  const CATEGORY := "kitchen"

  /** `data.filter(product => product.category === 'kitchen')` */
  function KitchenProducts(data: seq<Product>): (r: seq<Product>)
    ensures forall p :: p in r <==> p in data && p.category == Some("kitchen")
    ensures forall p: Product :: p.category == Some("kitchen") ==> multiset(r)[p] == multiset(data)[p]
  {
    WithCategory(data, CATEGORY)
  }

  /** The page after its fetch on mount. */
  function Page(reply: ListReply): (page: Catalog.Page)
    ensures reply.Fetched? ==>
              && page.error.None?
              && page.products == KitchenProducts(reply.data)
              && forall p :: p in page.products <==> p in reply.data && p.category == Some("kitchen")
    ensures !reply.Fetched? ==> page.products == [] && page.error.Some?
  {
    Loaded(reply, KitchenProducts)
  }

  /** `handleProductClick`: the target of a click on a card, if any. */
  function ClickTarget(p: Product): (target: Option<string>)
    ensures target.Some? <==> p.id.Some? && p.id.value != ""
    ensures target.Some? ==> target.value == "/product/" + p.id.value
  {
    GuardedProductPath(p.id)
  }

  /** The card's `<img src>`; `None` where reading `image` throws. */
  function ImageSrc(p: Product): (src: Option<string>)
    ensures p.image.None? ==> src.None?
    ensures p.image.Some? && Strings.StartsWith(p.image.value, "http") ==> src == p.image
    ensures p.image.Some? && !Strings.StartsWith(p.image.value, "http") ==>
              src == Some(UPLOADS_PREFIX + p.image.value)
  {
    LegacySrc(p)
  }
}
