/** The unfiltered product listing: every fetched product in fetched order,
    a card image from the first entry of `images` and an unguarded link. */
module Products {
  import opened Wrappers
  import opened Strings
  import opened Catalog

  const PLACEHOLDER := "https://via.placeholder.com/400x300?text=No+Image"

  /** The page after its fetch on mount: the fetched list as it came. */
  function Page(reply: ListReply): (page: Catalog.Page)
    ensures reply.Fetched? ==> page.products == reply.data && page.error.None?
    ensures !reply.Fetched? ==> page.products == [] && page.error.Some?
  {
    Loaded(reply, (data: seq<Product>) => data)
  }

  /** The card's `<img src>`: the placeholder when there is no image, else
      the first entry resolved against the uploads folder. */
  function ImageSrc(p: Product): (src: string)
    ensures p.images == [] ==> src == PLACEHOLDER
    ensures p.images != [] && StartsWith(p.images[0], "http") ==> src == p.images[0]
    ensures p.images != [] && !StartsWith(p.images[0], "http") ==> src == UPLOADS_PREFIX + p.images[0]
  {
    if p.images != [] then ResolveImage(p.images[0]) else PLACEHOLDER
  }

  /** `handleProductClick`: always navigates, even without an id. */
  function ClickTarget(p: Product): (target: string)
    ensures p.id.Some? ==> target == "/product/" + p.id.value
    ensures p.id.None? ==> target == "/product/undefined"
  {
    ProductPath(p.id)
  }
}
