/** The Express server of api/index.js: the CORS origin rule, the `images`
    sanitiser shared by POST and PUT, the product handlers over the Mongoose
    collection, the upload naming rule and the contact link. */
module Api {
  import opened Wrappers
  import opened Strings
  import Paths
  import Seqs
  import PercentEncoding

  /** A JSON value as `express.json()` hands it to a handler (numbers are
      integers in this model). */
  datatype Json =
    | JNull
    | JBool(b: bool)
    | JNum(n: int)
    | JStr(s: string)
    | JArr(items: seq<Json>)
    | JObj(members: map<string, Json>)

  type Id = string

  /** A request body, or a stored document's fields other than `_id`. */
  type Fields = map<string, Json>

  /** The paths of the Product schema; in Mongoose's default strict mode no
      other key is stored. */
  const SCHEMA_KEYS: set<string> :=
    {"title", "subtitle", "description", "images", "category", "features", "specifications"}

  /** The schema's array paths. */
  const ARRAY_KEYS: set<string> := {"images", "features"}

  datatype Doc = Doc(id: Id, fields: Fields)

  /** The JSON bodies the handlers send. */
  datatype Body =
    | ErrorBody(error: string)
    | DocBody(doc: Doc)
    | DocsBody(docs: seq<Doc>)
    | MessageBody(message: string)
    | FilenamesBody(filenames: seq<string>)
    | LinkBody(whatsappUrl: string)

  datatype Response = Response(status: nat, body: Body)

  // ---------------------------------------------------------------- CORS

  const LOCALHOST_ORIGIN := "http://localhost:"

  /** The `origin` callback given to `cors`: a request without an origin (or
      with an empty one, which is falsy) is let through, and so is any origin
      on a localhost port; every other origin gets the error. */
  function CheckOrigin(origin: Option<string>): (r: Result<bool, string>)
    ensures r.Ok? <==> origin.None? || origin.value == "" || StartsWith(origin.value, LOCALHOST_ORIGIN)
    ensures r.Ok? ==> r.value
    ensures r.Err? ==> r.error == "Not allowed by CORS"
  {
    if origin.None? || origin.value == "" || StartsWith(origin.value, LOCALHOST_ORIGIN) then Ok(true)
    else Err("Not allowed by CORS")
  }

  // ---------------------------------------------------------- sanitiser

  /** One entry of `images` through `image.includes('/') ? path.basename(image) : image`.
      A string with a '/' is cut to its basename; an array's `includes`
      looks for an element "/" and, finding one, hands the array to
      `path.basename`, which throws; any other value has no `includes` and
      the call throws a TypeError. */
  function SanitizeEntry(image: Json): (r: Result<Json, string>)
    ensures image.JStr? ==> r.Ok? && r.value.JStr? && '/' !in r.value.s
    ensures image.JStr? && '/' !in image.s ==> r == Ok(image)
    ensures image.JStr? && '/' in image.s ==> r == Ok(JStr(Paths.Basename(image.s)))
    ensures r.Ok? && !image.JStr? ==> r.value == image
    ensures image.JArr? ==> (r.Err? <==> JStr("/") in image.items)
    ensures !image.JStr? && !image.JArr? ==> r.Err?
  {
    match image
    case JStr(s) => if '/' in s then Ok(JStr(Paths.Basename(s))) else Ok(image)
    case JArr(xs) =>
      if JStr("/") in xs
      then Err("The \"path\" argument must be of type string. Received an instance of Array")
      else Ok(image)
    case JNull => Err("Cannot read properties of null (reading 'includes')")
    case _ => Err("image.includes is not a function")
  }

  /** Entry `k` is the first one the sanitiser throws on. */
  predicate FirstFailure(images: seq<Json>, k: int) {
    && 0 <= k < |images|
    && SanitizeEntry(images[k]).Err?
    && forall j :: 0 <= j < k ==> SanitizeEntry(images[j]).Ok?
  }

  /** Behind an entry that passes, the first failure moves one place on. */
  lemma FirstFailureShift(images: seq<Json>, k: int)
    requires images != [] && SanitizeEntry(images[0]).Ok?
    requires FirstFailure(images[1..], k)
    ensures FirstFailure(images, k + 1) && images[k + 1] == images[1..][k]
  {
    forall j | 0 <= j < k + 1 ensures SanitizeEntry(images[j]).Ok? {
      if j > 0 {
        assert images[j] == images[1..][j - 1];
      }
    }
  }

  /** A failure behind a passing first entry is a failure of the whole list. */
  lemma FirstFailureBehind(images: seq<Json>, e: string)
    requires images != [] && SanitizeEntry(images[0]).Ok?
    requires exists k :: FirstFailure(images[1..], k) && SanitizeEntry(images[1..][k]) == Err(e)
    ensures exists k :: FirstFailure(images, k) && SanitizeEntry(images[k]) == Err(e)
  {
    var k :| FirstFailure(images[1..], k) && SanitizeEntry(images[1..][k]) == Err(e);
    FirstFailureShift(images, k);
  }

  /** The first entry's result in front of the rest's results, for any
      per-entry step `f`. */
  lemma MappedCons<T, U, E>(f: T -> Result<U, E>, items: seq<T>, x: U, xs: seq<U>)
    requires items != [] && f(items[0]) == Ok(x)
    requires |xs| == |items| - 1
    requires forall k :: 0 <= k < |items[1..]| ==> f(items[1..][k]) == Ok(xs[k])
    ensures forall k :: 0 <= k < |items| ==> f(items[k]) == Ok(([x] + xs)[k])
  {
    forall k | 0 <= k < |items| ensures f(items[k]) == Ok(([x] + xs)[k]) {
      if k > 0 {
        assert items[k] == items[1..][k - 1];
      }
    }
  }

  /** `images.map(...)`: every entry sanitised in order, or the error the
      first failing entry throws. */
  function SanitizeImages(images: seq<Json>): (r: Result<seq<Json>, string>)
    ensures r.Ok? ==> |r.value| == |images|
    ensures r.Ok? ==> forall k :: 0 <= k < |images| ==> SanitizeEntry(images[k]) == Ok(r.value[k])
    ensures r.Err? ==> exists k :: FirstFailure(images, k) && SanitizeEntry(images[k]) == Err(r.error)
    decreases |images|
  {
    if images == [] then Ok([])
    else
      match SanitizeEntry(images[0])
      case Err(e) =>
        assert FirstFailure(images, 0);
        Err(e)
      case Ok(x) =>
        match SanitizeImages(images[1..])
        case Err(e) =>
          FirstFailureBehind(images, e);
          Err(e)
        case Ok(xs) =>
          MappedCons(SanitizeEntry, images, x, xs);
          Ok([x] + xs)
  }

  /** The map fails only where an entry fails: when every entry passes, so
      does the whole list. */
  lemma SanitizeImagesAllPass(images: seq<Json>)
    requires forall k :: 0 <= k < |images| ==> SanitizeEntry(images[k]).Ok?
    ensures SanitizeImages(images).Ok?
  {
  }

  /** The step both POST and PUT take before the store: an array `images` is
      sanitised entry by entry; anything else, `images` included when it is not
      an array, passes untouched. */
  function SanitizePayload(payload: Fields): (r: Result<Fields, string>)
    ensures !("images" in payload && payload["images"].JArr?) ==> r == Ok(payload)
    ensures r.Ok? ==> r.value.Keys == payload.Keys
    ensures r.Ok? ==> forall k :: k in payload && k != "images" ==> r.value[k] == payload[k]
    ensures r.Ok? && "images" in payload && payload["images"].JArr? ==>
              r.value["images"].JArr? && SanitizeImages(payload["images"].items) == Ok(r.value["images"].items)
    ensures "images" in payload && payload["images"].JArr? ==>
              && (r.Ok? <==> SanitizeImages(payload["images"].items).Ok?)
              && (r.Err? ==> r.error == SanitizeImages(payload["images"].items).error)
  {
    if "images" in payload && payload["images"].JArr? then
      match SanitizeImages(payload["images"].items)
      case Ok(xs) => Ok(payload["images" := JArr(xs)])
      case Err(e) => Err(e)
    else Ok(payload)
  }

  /** After sanitising, no string entry of `images` contains '/'. */
  lemma SanitizedHasNoSlash(payload: Fields)
    requires SanitizePayload(payload).Ok?
    requires "images" in payload && payload["images"].JArr?
    ensures var items := SanitizePayload(payload).value["images"].items;
            forall k :: 0 <= k < |items| && items[k].JStr? ==> '/' !in items[k].s
  {
    var items := SanitizePayload(payload).value["images"].items;
    var src := payload["images"].items;
    forall k | 0 <= k < |items| && items[k].JStr? ensures '/' !in items[k].s {
      assert SanitizeEntry(src[k]) == Ok(items[k]);
    }
  }

  /** Sanitising a sanitised entry changes nothing. */
  lemma SanitizeEntryIdempotent(image: Json)
    requires SanitizeEntry(image).Ok?
    ensures SanitizeEntry(SanitizeEntry(image).value) == SanitizeEntry(image)
  {
  }

  /** A second run of the sanitiser over its own output changes nothing. */
  lemma SanitizePayloadIdempotent(payload: Fields)
    requires SanitizePayload(payload).Ok?
    ensures SanitizePayload(SanitizePayload(payload).value) == SanitizePayload(payload)
  {
    var once := SanitizePayload(payload).value;
    if "images" in payload && payload["images"].JArr? {
      var xs := once["images"].items;
      var src := payload["images"].items;
      forall k | 0 <= k < |xs| ensures SanitizeEntry(xs[k]) == Ok(xs[k]) {
        assert SanitizeEntry(src[k]) == Ok(xs[k]);
        SanitizeEntryIdempotent(src[k]);
      }
      SanitizeImagesFixed(xs);
      assert once["images" := JArr(xs)] == once;
    }
  }

  /** A list every entry of which the sanitiser leaves alone comes back as it is. */
  lemma {:induction false} SanitizeImagesFixed(xs: seq<Json>)
    requires forall k :: 0 <= k < |xs| ==> SanitizeEntry(xs[k]) == Ok(xs[k])
    ensures SanitizeImages(xs) == Ok(xs)
    decreases |xs|
  {
    if xs != [] {
      SanitizeImagesFixed(xs[1..]);
      assert [xs[0]] + xs[1..] == xs;
    }
  }

  // ---------------------------------------------------------- documents

  /** The fields `new Product(data)` keeps: the schema paths only. The two
      array paths, `images` and `features`, default to an empty array: an
      array path gets that default implicitly, and `required: false` does
      not turn it off. Casting of values to the schema types is not
      modelled. */
  function NewDocFields(data: Fields): (r: Fields)
    ensures r.Keys == (data.Keys * SCHEMA_KEYS) + ARRAY_KEYS
    ensures forall k :: k in data && k in SCHEMA_KEYS ==> r[k] == data[k]
    ensures forall k :: k in ARRAY_KEYS && k !in data ==> r[k] == JArr([])
  {
    var kept := map k | k in data && k in SCHEMA_KEYS :: data[k];
    var defaults := map k | k in ARRAY_KEYS && k !in data :: JArr([]);
    kept + defaults
  }

  /** `findByIdAndUpdate(id, update)`: Mongoose wraps the update in `$set`,
      so the supplied schema paths are overwritten and every other stored
      field is kept. */
  function SetFields(stored: Fields, update: Fields): (r: Fields)
    ensures r.Keys == stored.Keys + (update.Keys * SCHEMA_KEYS)
    ensures forall k :: k in update && k in SCHEMA_KEYS ==> r[k] == update[k]
    ensures forall k :: k in stored && !(k in update && k in SCHEMA_KEYS) ==> r[k] == stored[k]
  {
    stored + map k | k in update && k in SCHEMA_KEYS :: update[k]
  }

  /** The documents named by `ids`, in that order. */
  function InOrder(ids: seq<Id>, docs: map<Id, Fields>): (r: seq<Doc>)
    requires forall k :: 0 <= k < |ids| ==> ids[k] in docs
    ensures |r| == |ids|
    ensures forall k :: 0 <= k < |ids| ==> r[k] == Doc(ids[k], docs[ids[k]])
  {
    seq(|ids|, k requires 0 <= k < |ids| => Doc(ids[k], docs[ids[k]]))
  }

  /** The text of the CastError Mongoose raises for an id that is not an ObjectId. */
  function CastErrorMessage(id: Id): string {
    "Cast to ObjectId failed for value \"" + id + "\" (type string) at path \"_id\" for model \"Product\""
  }

  const NOT_FOUND := Response(404, ErrorBody("Product not found"))

  /** The Product collection behind the handlers. `order` is the insertion
      order in which `find()` returns documents; `isValidId` stands for
      `mongoose.Types.ObjectId.isValid`, which also decides whether an id can
      be cast to an ObjectId. */
  class ProductStore {
    var docs: map<Id, Fields>
    var order: seq<Id>
    const isValidId: Id -> bool

    ghost predicate Valid()
      reads this
    {
      && (forall id :: multiset(order)[id] <= 1)
      && (forall id :: id in docs <==> id in order)
      && (forall id :: id in docs ==> docs[id].Keys <= SCHEMA_KEYS && ARRAY_KEYS <= docs[id].Keys)
    }

    constructor (isValidId: Id -> bool)
      ensures Valid()
      ensures docs == map[] && order == [] && this.isValidId == isValidId
    {
      docs := map[];
      order := [];
      this.isValidId := isValidId;
    }

    /** The listing, in insertion order. */
    function All(): (r: seq<Doc>)
      reads this
      requires Valid()
      ensures |r| == |docs|
      ensures forall d: Doc :: d in r <==> d.id in docs && d.fields == docs[d.id]
    {
      assert forall k :: 0 <= k < |order| ==> order[k] in docs;
      var r := InOrder(order, docs);
      assert |r| == |docs| by { DistinctCardinality(order, docs); }
      assert forall d: Doc :: d.id in docs && d.fields == docs[d.id] ==> d in r by {
        forall d: Doc | d.id in docs && d.fields == docs[d.id] ensures d in r {
          var k :| 0 <= k < |order| && order[k] == d.id;
          assert r[k] == d;
        }
      }
      r
    }

    /** GET /api/products */
    method GetAll() returns (r: Response)
      requires Valid()
      ensures r == Response(200, DocsBody(All()))
    {
      r := Response(200, DocsBody(All()));
    }

    /** GET /api/products/:id. `storeFails` says whether `findById` rejects. */
    method GetById(id: Id, storeFails: bool) returns (r: Response)
      requires Valid()
      ensures !isValidId(id) ==> r == Response(400, ErrorBody("Invalid product ID format."))
      ensures isValidId(id) && storeFails ==> r == Response(500, ErrorBody("Internal server error"))
      ensures isValidId(id) && !storeFails && id !in docs ==> r == NOT_FOUND
      ensures isValidId(id) && !storeFails && id in docs ==> r == Response(200, DocBody(Doc(id, docs[id])))
    {
      if !isValidId(id) {
        return Response(400, ErrorBody("Invalid product ID format."));
      }
      if storeFails {
        return Response(500, ErrorBody("Internal server error"));
      }
      if id !in docs {
        return NOT_FOUND;
      }
      r := Response(200, DocBody(Doc(id, docs[id])));
    }

    /** POST /api/products. `freshId` is the ObjectId Mongoose generates;
        `rejection` is the message `save()` rejects with (a validation or
        cast failure, or the database being unavailable), if it does. */
    method Create(payload: Fields, freshId: Id, rejection: Option<string>) returns (r: Response)
      requires Valid()
      requires freshId !in docs
      modifies this
      ensures Valid()
      ensures SanitizePayload(payload).Err? ==>
                r == Response(400, ErrorBody(SanitizePayload(payload).error))
                && docs == old(docs) && order == old(order)
      ensures SanitizePayload(payload).Ok? && rejection.Some? ==>
                r == Response(400, ErrorBody(rejection.value))
                && docs == old(docs) && order == old(order)
      ensures SanitizePayload(payload).Ok? && rejection.None? ==>
                var stored := NewDocFields(SanitizePayload(payload).value);
                && r == Response(201, DocBody(Doc(freshId, stored)))
                && docs == old(docs)[freshId := stored]
                && order == old(order) + [freshId]
    {
      var sanitized := SanitizePayload(payload);
      if sanitized.Err? {
        return Response(400, ErrorBody(sanitized.error));
      }
      if rejection.Some? {
        return Response(400, ErrorBody(rejection.value));
      }
      var stored := NewDocFields(sanitized.value);
      assert multiset(order + [freshId]) == multiset(order) + multiset{freshId};
      docs := docs[freshId := stored];
      order := order + [freshId];
      r := Response(201, DocBody(Doc(freshId, stored)));
    }

    /** PUT /api/products/:id. `rejection` is the message the update query
        rejects with (validators or casting of the update, or the database),
        if it does. */
    method Update(id: Id, payload: Fields, rejection: Option<string>) returns (r: Response)
      requires Valid()
      modifies this
      ensures Valid() && order == old(order)
      ensures SanitizePayload(payload).Err? ==>
                r == Response(400, ErrorBody(SanitizePayload(payload).error)) && docs == old(docs)
      ensures SanitizePayload(payload).Ok? && !isValidId(id) ==>
                r == Response(400, ErrorBody(CastErrorMessage(id))) && docs == old(docs)
      ensures SanitizePayload(payload).Ok? && isValidId(id) && rejection.Some? ==>
                r == Response(400, ErrorBody(rejection.value)) && docs == old(docs)
      ensures SanitizePayload(payload).Ok? && isValidId(id) && rejection.None? && id !in old(docs) ==>
                r == NOT_FOUND && docs == old(docs)
      ensures SanitizePayload(payload).Ok? && isValidId(id) && rejection.None? && id in old(docs) ==>
                var updated := SetFields(old(docs)[id], SanitizePayload(payload).value);
                && r == Response(200, DocBody(Doc(id, updated)))
                && docs == old(docs)[id := updated]
    {
      var sanitized := SanitizePayload(payload);
      if sanitized.Err? {
        return Response(400, ErrorBody(sanitized.error));
      }
      if !isValidId(id) {
        return Response(400, ErrorBody(CastErrorMessage(id)));
      }
      if rejection.Some? {
        return Response(400, ErrorBody(rejection.value));
      }
      if id !in docs {
        return NOT_FOUND;
      }
      var updated := SetFields(docs[id], sanitized.value);
      docs := docs[id := updated];
      r := Response(200, DocBody(Doc(id, updated)));
    }

    /** DELETE /api/products/:id. There is no id pre-check: a malformed id
        fails the cast inside `findByIdAndDelete` and lands in the 500 branch.
        `storeFailure` is the database's rejection message, if any. */
    method Delete(id: Id, storeFailure: Option<string>) returns (r: Response)
      requires Valid()
      modifies this
      ensures Valid()
      ensures !isValidId(id) ==>
                r == Response(500, ErrorBody(CastErrorMessage(id))) && docs == old(docs) && order == old(order)
      ensures isValidId(id) && storeFailure.Some? ==>
                r == Response(500, ErrorBody(storeFailure.value)) && docs == old(docs) && order == old(order)
      ensures isValidId(id) && storeFailure.None? && id !in old(docs) ==>
                r == NOT_FOUND && docs == old(docs) && order == old(order)
      ensures isValidId(id) && storeFailure.None? && id in old(docs) ==>
                && r == Response(200, MessageBody("Product deleted successfully"))
                && docs == old(docs) - {id}
                && order == Seqs.Filter(old(order), (x: Id) => x != id)
    {
      if !isValidId(id) {
        return Response(500, ErrorBody(CastErrorMessage(id)));
      }
      if storeFailure.Some? {
        return Response(500, ErrorBody(storeFailure.value));
      }
      if id !in docs {
        return NOT_FOUND;
      }
      var keep := (x: Id) => x != id;
      var rest := Seqs.Filter(order, keep);
      forall x ensures multiset(rest)[x] <= 1 && (x in rest <==> x in order && x != id) {
        Seqs.FilterCount(order, keep, x);
        Seqs.FilterMembership(order, keep, x);
      }
      docs := docs - {id};
      order := rest;
      r := Response(200, MessageBody("Product deleted successfully"));
    }
  }

  /** Dropping the last key of a repetition-free list leaves a
      repetition-free list without that key. */
  lemma DistinctInit(ids: seq<Id>, init: seq<Id>, last: Id)
    requires ids == init + [last] && forall id :: multiset(ids)[id] <= 1
    ensures forall id :: multiset(init)[id] <= 1
    ensures last !in init
    ensures forall id :: id in ids <==> id in init || id == last
  {
    assert multiset(ids) == multiset(init) + multiset{last};
    assert forall id :: multiset(init)[id] <= multiset(ids)[id];
    assert multiset(ids)[last] == multiset(init)[last] + 1;
  }

  /** In a repetition-free list of keys, the list is as long as the key set. */
  lemma {:induction false} DistinctCardinality(ids: seq<Id>, docs: map<Id, Fields>)
    requires forall id :: multiset(ids)[id] <= 1
    requires forall id :: id in docs <==> id in ids
    ensures |ids| == |docs|
    decreases |ids|
  {
    if ids != [] {
      var last := ids[|ids| - 1];
      var init := ids[..|ids| - 1];
      assert ids == init + [last];
      DistinctInit(ids, init, last);
      var rest := docs - {last};
      assert forall id :: id in rest <==> id in init;
      DistinctCardinality(init, rest);
      assert docs.Keys == rest.Keys + {last};
    }
  }

  /** Deleting a stored product removes exactly that document: every other
      product keeps its fields and its place in the listing. */
  lemma DeleteKeepsOthers(docs: map<Id, Fields>, order: seq<Id>, id: Id, other: Id)
    requires other != id
    ensures other in docs - {id} <==> other in docs
    ensures other in docs ==> (docs - {id})[other] == docs[other]
    ensures other in Seqs.Filter(order, (x: Id) => x != id) <==> other in order
    ensures var rest := Seqs.Filter(order, (x: Id) => x != id);
            forall i, j :: 0 <= i < j < |order| && order[i] != id && order[j] != id ==>
              exists a, b :: 0 <= a < b < |rest| && rest[a] == order[i] && rest[b] == order[j]
  {
    var keep := (x: Id) => x != id;
    Seqs.FilterMembership(order, keep, other);
    forall i, j | 0 <= i < j < |order| && order[i] != id && order[j] != id
      ensures var rest := Seqs.Filter(order, keep);
              exists a, b :: 0 <= a < b < |rest| && rest[a] == order[i] && rest[b] == order[j]
    {
      Seqs.FilterKeepsRelativeOrder(order, keep, i, j);
    }
  }

  // ------------------------------------------------------------- upload

  /** One part of the multipart request as multer sees it; `receivedAt` is
      `Date.now()` when multer names the file. */
  datatype UploadedFile = UploadedFile(field: string, originalName: string, receivedAt: nat)

  const MAX_UPLOAD_FILES := 10

  /** The disk-storage `filename` callback: `Date.now() + path.extname(originalname)`,
      a run of decimal digits followed by the original extension. */
  function StoredFilename(f: UploadedFile): (name: string)
    ensures '/' !in name
    ensures EndsWith(name, Paths.Extname(f.originalName))
    ensures var stem := name[..|name| - |Paths.Extname(f.originalName)|];
            stem != [] && forall k :: 0 <= k < |stem| ==> '0' <= stem[k] <= '9'
  {
    var stem := Decimal(f.receivedAt);
    var ext := Paths.Extname(f.originalName);
    var name := stem + ext;
    assert name == Decimal(f.receivedAt) + Paths.Extname(f.originalName);
    assert name[..|stem|] == stem && name[|stem|..] == ext;
    assert '/' !in stem;
    name
  }

  /** The length of the run of decimal digits `s` starts with. */
  function LeadingDigits(s: string): (n: nat)
    ensures n <= |s|
    decreases |s|
  {
    if s != [] && '0' <= s[0] <= '9' then 1 + LeadingDigits(s[1..]) else 0
  }

  /** Behind a run of digits, an empty or '.'-led suffix ends the run. */
  lemma {:induction false} LeadingDigitsOfStem(stem: string, ext: string)
    requires forall k :: 0 <= k < |stem| ==> '0' <= stem[k] <= '9'
    requires ext == [] || ext[0] == '.'
    ensures LeadingDigits(stem + ext) == |stem|
    decreases |stem|
  {
    if stem == [] {
      assert stem + ext == ext;
    } else {
      assert (stem + ext)[1..] == stem[1..] + ext;
      LeadingDigitsOfStem(stem[1..], ext);
    }
  }

  /** A run of digits followed by an empty or '.'-led suffix splits only one
      way. */
  lemma StemSplitUnique(s1: string, e1: string, s2: string, e2: string)
    requires forall k :: 0 <= k < |s1| ==> '0' <= s1[k] <= '9'
    requires forall k :: 0 <= k < |s2| ==> '0' <= s2[k] <= '9'
    requires e1 == [] || e1[0] == '.'
    requires e2 == [] || e2[0] == '.'
    requires s1 + e1 == s2 + e2
    ensures s1 == s2 && e1 == e2
  {
    LeadingDigitsOfStem(s1, e1);
    LeadingDigitsOfStem(s2, e2);
    assert s1 == (s1 + e1)[..|s1|];
    assert s2 == (s2 + e2)[..|s2|];
    assert e1 == (s1 + e1)[|s1|..];
    assert e2 == (s2 + e2)[|s2|..];
  }

  /** A stored name gives back when the file was received and its extension:
      names differ exactly when those differ, so two files named in the same
      millisecond with the same extension get the same name. */
  lemma StoredFilenameInjective(f: UploadedFile, g: UploadedFile)
    ensures StoredFilename(f) == StoredFilename(g) <==>
              f.receivedAt == g.receivedAt && Paths.Extname(f.originalName) == Paths.Extname(g.originalName)
  {
    if StoredFilename(f) == StoredFilename(g) {
      StemSplitUnique(Decimal(f.receivedAt), Paths.Extname(f.originalName),
                      Decimal(g.receivedAt), Paths.Extname(g.originalName));
      DecimalValue(f.receivedAt);
      DecimalValue(g.receivedAt);
    }
  }

  /** POST /api/upload behind `upload.array('files', 10)`. A part under
      another field, or an eleventh file, makes multer fail the request
      before the handler (Express answers 500 "Unexpected field"); no files
      gives 400; otherwise one generated name per file, in received order. */
  function Upload(files: seq<UploadedFile>): (r: Response)
    ensures (exists k :: 0 <= k < |files| && files[k].field != "files") || |files| > MAX_UPLOAD_FILES ==>
              r == Response(500, ErrorBody("Unexpected field"))
    ensures files == [] ==> r == Response(400, ErrorBody("No files uploaded."))
    ensures 1 <= |files| <= MAX_UPLOAD_FILES && (forall k :: 0 <= k < |files| ==> files[k].field == "files") ==>
              r.status == 200 && r.body.FilenamesBody? && |r.body.filenames| == |files|
              && forall k :: 0 <= k < |files| ==> r.body.filenames[k] == StoredFilename(files[k])
  {
    if (exists k :: 0 <= k < |files| && files[k].field != "files") || |files| > MAX_UPLOAD_FILES then
      Response(500, ErrorBody("Unexpected field"))
    else if files == [] then
      Response(400, ErrorBody("No files uploaded."))
    else
      Response(200, FilenamesBody(seq(|files|, k requires 0 <= k < |files| => StoredFilename(files[k]))))
  }

  // ------------------------------------------------------------ contact

  const CONTACT_LINK_PREFIX := "https://wa.me/38348222209?text="

  /** The message text; it holds each of the three fields verbatim. */
  function ContactText(name: string, email: string, message: string): (text: string)
    ensures StartsWith(text, "Message from " + name + " (")
    ensures Contains(text, name) && Contains(text, email) && Contains(text, message)
  {
    var p1 := "Message from ";
    var p2 := p1 + name + " (";
    var p3 := p2 + email + "):\n\n";
    var text := p3 + message;
    assert text[|p1|..|p1| + |name|] == name;
    ContainsAt(text, name, |p1|);
    assert text[|p2|..|p2| + |email|] == email;
    ContainsAt(text, email, |p2|);
    assert text[|p3|..] == message;
    ContainsAt(text, message, |p3|);
    text
  }

  /** A string field of the body is truthy when present and non-empty. */
  predicate Truthy(field: Option<string>) {
    field.Some? && field.value != ""
  }

  /** POST /api/contact: all three fields must be truthy; the link's query
      decodes back to the message text, which holds each field verbatim. */
  function ContactLink(name: Option<string>, email: Option<string>, message: Option<string>): (r: Response)
    ensures !(Truthy(name) && Truthy(email) && Truthy(message)) ==>
              r == Response(400, ErrorBody("All fields are required"))
    ensures Truthy(name) && Truthy(email) && Truthy(message) ==>
              var text := ContactText(name.value, email.value, message.value);
              && r.status == 200 && r.body.LinkBody?
              && StartsWith(r.body.whatsappUrl, CONTACT_LINK_PREFIX)
              && PercentEncoding.Decode(r.body.whatsappUrl[|CONTACT_LINK_PREFIX|..]) == Some(text)
              && Contains(text, name.value) && Contains(text, email.value) && Contains(text, message.value)
  {
    if !(Truthy(name) && Truthy(email) && Truthy(message)) then
      Response(400, ErrorBody("All fields are required"))
    else
      var text := ContactText(name.value, email.value, message.value);
      var url := CONTACT_LINK_PREFIX + PercentEncoding.Encode(text);
      PercentEncoding.DecodeEncode(text);
      assert url[|CONTACT_LINK_PREFIX|..] == PercentEncoding.Encode(text);
      Response(200, LinkBody(url))
  }
}
