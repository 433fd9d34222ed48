/** What the browser pages share: the product record as the API's JSON
    reaches them, the rule that turns a stored image entry into an `<img>`
    source, the `/product/<id>` navigation target and the outcome of the
    list fetch every catalogue page starts with. */
module Catalog {
  import opened Wrappers
  import opened Strings
  import Seqs

  /** A product as the pages read it. `images` is always present (the API
      schema defaults it to an empty array); `image` is the singular field of
      the older records, which some pages still read; `specifications` lists
      the object's entries in iteration order. */
  datatype Product = Product(
    id: Option<string>,
    title: string,
    subtitle: string,
    description: string,
    images: seq<string>,
    image: Option<string>,
    category: Option<string>,
    features: Option<seq<string>>,
    specifications: Option<seq<(string, string)>>)

  /** Where the API serves uploaded files from. */
  const UPLOADS_PREFIX := "http://localhost:5000/uploads/"

  const PRODUCT_PATH := "/product/"

  /** An image entry starting with "http" is already a URL; anything else is
      the name of an uploaded file. */
  function ResolveImage(entry: string): (src: string)
    ensures StartsWith(src, "http")
    ensures StartsWith(entry, "http") ==> src == entry
    ensures !StartsWith(entry, "http") ==> src == UPLOADS_PREFIX + entry
  {
    if StartsWith(entry, "http") then entry else UPLOADS_PREFIX + entry
  }

  /** Resolving an already resolved source changes nothing, so a stored full
      URL and the name it came from end up at the same place. */
  lemma ResolveImageIdempotent(entry: string)
    ensures ResolveImage(ResolveImage(entry)) == ResolveImage(entry)
  {
  }

  /** The source of a card that reads the singular `image` field; `None`
      when the field is absent, where `image.startsWith` throws and the page
      fails to render. */
  function LegacySrc(p: Product): (src: Option<string>)
    ensures src.Some? <==> p.image.Some?
    ensures src.Some? ==> src.value == ResolveImage(p.image.value)
  {
    if p.image.Some? then Some(ResolveImage(p.image.value)) else None
  }

  /** `navigate(`/product/${id}`)` without a guard: an absent id is spelled
      "undefined" by the template literal. */
  function ProductPath(id: Option<string>): (path: string)
    ensures StartsWith(path, PRODUCT_PATH)
    ensures id.Some? ==> path[|PRODUCT_PATH|..] == id.value
    ensures id.None? ==> path == PRODUCT_PATH + "undefined"
  {
    PRODUCT_PATH + (if id.Some? then id.value else "undefined")
  }

  /** `if (productId) navigate(...)`: a navigation target only for a
      present, non-empty id. */
  function GuardedProductPath(id: Option<string>): (target: Option<string>)
    ensures target.Some? <==> id.Some? && id.value != ""
    ensures target.Some? ==> target.value == PRODUCT_PATH + id.value
  {
    if id.Some? && id.value != "" then Some(PRODUCT_PATH + id.value) else None
  }

  /** The products whose category is exactly `category` (case-sensitive), in
      fetched order, each as often as it was fetched. */
  function WithCategory(data: seq<Product>, category: string): (r: seq<Product>)
    ensures forall p :: p in r <==> p in data && p.category == Some(category)
    ensures forall p :: multiset(r)[p] == if p.category == Some(category) then multiset(data)[p] else 0
  {
    var keep := (p: Product) => p.category == Some(category);
    var r := Seqs.Filter(data, keep);
    assert forall p :: p in r <==> p in data && keep(p) by {
      forall p ensures p in r <==> p in data && keep(p) {
        Seqs.FilterMembership(data, keep, p);
      }
    }
    assert forall p :: multiset(r)[p] == if keep(p) then multiset(data)[p] else 0 by {
      forall p ensures multiset(r)[p] == if keep(p) then multiset(data)[p] else 0 {
        Seqs.FilterCount(data, keep, p);
      }
    }
    r
  }

  /** Filtering by category keeps the fetched order: it distributes over
      concatenation. */
  lemma WithCategoryKeepsOrder(a: seq<Product>, b: seq<Product>, category: string)
    ensures WithCategory(a + b, category) == WithCategory(a, category) + WithCategory(b, category)
  {
    Seqs.FilterAppend(a, b, (p: Product) => p.category == Some(category));
  }

  /** What `GET /api/products` gave a page: the list, a non-OK status, or a
      thrown error (network failure, unreadable body) with its message. */
  datatype ListReply =
    | Fetched(data: seq<Product>)
    | NotOk(status: nat)
    | Failed(message: string)

  /** A catalogue page's state once its fetch on mount has settled. */
  datatype Page = Page(products: seq<Product>, loading: bool, error: Option<string>)

  function HttpErrorMessage(status: nat): string {
    "HTTP error! status: " + Decimal(status)
  }

  /** The fetch on mount: the list goes through the page's `select` on
      success; a non-OK status and a thrown error set the error and leave the
      initial empty list; loading ends either way. */
  function Loaded(reply: ListReply, select: seq<Product> -> seq<Product>): (page: Page)
    ensures !page.loading
    ensures page.error.None? <==> reply.Fetched?
    ensures reply.Fetched? ==> page.products == select(reply.data)
    ensures !reply.Fetched? ==> page.products == []
    ensures reply.NotOk? ==> page.error == Some(HttpErrorMessage(reply.status))
    ensures reply.Failed? ==> page.error == Some(reply.message)
  {
    match reply
    case Fetched(data) => Page(select(data), false, None)
    case NotOk(status) => Page([], false, Some(HttpErrorMessage(status)))
    case Failed(message) => Page([], false, Some(message))
  }
}
