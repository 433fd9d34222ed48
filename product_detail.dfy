/** The product page: the fetch of one product by id and the image carousel
    whose current index the arrows and thumbnails move. */
module ProductDetail {
  import opened Wrappers
  import opened Strings
  import opened Catalog

  /** The arrow to the right: one step on, from the last image back to the
      first. */
  function NextIndex(i: int, n: int): int {
    if i == n - 1 then 0 else i + 1
  }

  /** The arrow to the left: one step back, from the first image to the last. */
  function PrevIndex(i: int, n: int): int {
    if i == 0 then n - 1 else i - 1
  }

  /** From an index in range, both arrows land in range. */
  lemma StepsStayInRange(i: int, n: int)
    requires 0 <= i < n
    ensures 0 <= NextIndex(i, n) < n
    ensures 0 <= PrevIndex(i, n) < n
  {
  }

  /** On an index in range, each arrow undoes the other. */
  lemma StepsAreInverse(i: int, n: int)
    requires 0 <= i < n
    ensures PrevIndex(NextIndex(i, n), n) == i
    ensures NextIndex(PrevIndex(i, n), n) == i
  {
  }

  /** The index after `k` presses of the right arrow. */
  function NextTimes(i: int, n: int, k: nat): int {
    if k == 0 then i else NextIndex(NextTimes(i, n, k - 1), n)
  }

  /** Short of the last image, `k` presses move exactly `k` places. */
  lemma {:induction false} NextTimesAhead(i: int, n: int, k: nat)
    requires 0 <= i && i + k <= n - 1
    ensures NextTimes(i, n, k) == i + k
  {
    if k > 0 {
      NextTimesAhead(i, n, k - 1);
    }
  }

  /** Presses add up: `a` presses then `b` presses are `a + b` presses. */
  lemma {:induction false} NextTimesCompose(i: int, n: int, a: nat, b: nat)
    ensures NextTimes(i, n, a + b) == NextTimes(NextTimes(i, n, a), n, b)
  {
    if b > 0 {
      NextTimesCompose(i, n, a, b - 1);
      assert a + b - 1 == a + (b - 1);
    }
  }

  /** Pressing the right arrow once per image comes back to the start. */
  lemma FullTurn(i: int, n: int)
    requires 0 <= i < n
    ensures NextTimes(i, n, n) == i
  {
    NextTimesAhead(i, n, n - 1 - i);
    assert NextTimes(i, n, n - i) == 0;
    NextTimesCompose(i, n, n - i, i);
    assert n - i + i == n;
    if i > 0 {
      NextTimesAhead(0, n, i);
    }
  }

  /** What `GET /api/products/:id` gave the page. */
  datatype ProductReply =
    | Found(product: Product)
    | NotOk(status: nat)
    | Failed(message: string)

  const NO_ID := "No product ID provided."

  /** The page's state. `index` is the carousel position; nothing but the
      arrows and the thumbnails moves it. */
  class ProductPage {
    var product: Option<Product>
    var loading: bool
    var error: Option<string>
    var index: int

    constructor ()
      ensures product.None? && loading && error.None? && index == 0
    {
      product := None;
      loading := true;
      error := None;
      index := 0;
    }

    /** The carousel has something to show. */
    predicate HasImages()
      reads this
    {
      product.Some? && |product.value.images| > 0
    }

    /** The index points at one of the product's images. */
    predicate IndexInRange()
      reads this
    {
      HasImages() ==> 0 <= index < |product.value.images|
    }

    /** The fetch run for the route's `id`. Without an id no request is made
        and the error is set; a 404 means "not found" (no product, no error);
        any other non-OK status becomes an error naming it. */
    method FetchProduct(id: Option<string>, reply: ProductReply)
      modifies this
      ensures !loading && index == old(index)
      ensures (id.None? || id.value == "") ==> error == Some(NO_ID) && product == old(product)
      ensures id.Some? && id.value != "" ==>
                && (reply.Found? ==> product == Some(reply.product) && error.None?)
                && (reply.NotOk? && reply.status == 404 ==> product.None? && error.None?)
                && (reply.NotOk? && reply.status != 404 ==>
                      product == old(product) && error == Some("HTTP error! status: " + Decimal(reply.status)))
                && (reply.Failed? ==> product == old(product) && error == Some(reply.message))
    {
      if id.None? || id.value == "" {
        error := Some(NO_ID);
        loading := false;
        return;
      }
      loading := true;
      error := None;
      match reply {
        case Found(p) =>
          product := Some(p);
        case NotOk(status) =>
          if status == 404 {
            product := None;
          } else {
            error := Some("HTTP error! status: " + Decimal(status));
          }
        case Failed(message) =>
          error := Some(message);
      }
      loading := false;
    }

    /** The right arrow; nothing happens without a product or without images. */
    method NextImage()
      modifies this
      ensures product == old(product) && loading == old(loading) && error == old(error)
      ensures HasImages() ==> index == NextIndex(old(index), |product.value.images|)
      ensures !HasImages() ==> index == old(index)
      ensures old(IndexInRange()) ==> IndexInRange()
    {
      if HasImages() {
        index := NextIndex(index, |product.value.images|);
      }
    }

    /** The left arrow; nothing happens without a product or without images. */
    method PrevImage()
      modifies this
      ensures product == old(product) && loading == old(loading) && error == old(error)
      ensures HasImages() ==> index == PrevIndex(old(index), |product.value.images|)
      ensures !HasImages() ==> index == old(index)
      ensures old(IndexInRange()) ==> IndexInRange()
    {
      if HasImages() {
        index := PrevIndex(index, |product.value.images|);
      }
    }

    /** A click on the thumbnail at position `k`. */
    method SelectImage(k: int)
      requires HasImages() && 0 <= k < |product.value.images|
      modifies this
      ensures product == old(product) && loading == old(loading) && error == old(error)
      ensures index == k && IndexInRange()
    {
      index := k;
    }

    /** The main image's `src`: the current entry resolved against the
        uploads folder, when the index points at one. */
    function CurrentSrc(): (src: Option<string>)
      reads this
      requires HasImages()
      ensures src.Some? <==> 0 <= index < |product.value.images|
      ensures src.Some? ==> src.value == ResolveImage(product.value.images[index])
    {
      var images := product.value.images;
      if 0 <= index < |images| then Some(ResolveImage(images[index])) else None
    }
  }
}
