/** The admin dashboard: the product list it manages, the add and edit forms,
    the file selection and upload, and the requests each handler sends.
    Each handler runs as one step; the replies of the server are parameters,
    and `sent` records the requests in the order they were made. */
module Dashboard {
  import opened Wrappers
  import opened Strings
  import Seqs
  import Catalog

  type Product = Catalog.Product

  /** The entries of a specifications object, in iteration order. */
  type Specs = seq<(string, string)>

  /** A form's state; features and specifications are the text typed in. */
  datatype Form = Form(
    id: Option<string>,
    title: string,
    subtitle: string,
    description: string,
    images: seq<string>,
    category: string,
    features: string,
    specifications: string)

  const EMPTY_FORM := Form(None, "", "", "", [], "", "", "")

  /** The form inputs, by their `name` attribute. */
  datatype Field = Title | Subtitle | Description | Category | Features | Specifications

  /** The body of POST and PUT; an absent feature list or specifications
      object is left out of the JSON. */
  datatype Payload = Payload(
    title: string,
    subtitle: string,
    description: string,
    images: seq<string>,
    category: string,
    features: Option<seq<string>>,
    specifications: Option<Specs>)

  /** A request to the API. */
  datatype Request =
    | UploadFiles(files: seq<string>)
    | DeleteProduct(id: string)
    | PostProduct(body: Payload)
    | PutProduct(id: string, body: Payload)

  /** How a request ended: a 2xx reply with its data, a reply with another
      status and the body's `error` field, or a thrown error (network failure,
      a body that is not JSON) with its message. */
  datatype Reply<T> =
    | Done(data: T)
    | Refused(status: nat, error: Option<string>)
    | Thrown(message: string)

  /** What `JSON.parse` made of the specifications text. */
  datatype ParsedSpecs =
    | SyntaxError(message: string)
    | NotAnObject
    | AnObject(entries: Specs)

  const SELECT_FILES := "Please select at least one file to upload"
  const UPLOAD_FAILED := "Failed to upload files"
  const ADD_REQUIRED := "Title, Description, and Category are required to add a product."
  const EDIT_REQUIRED := "Title, Description, and Category are required to update a product."
  const NO_EDIT := "No product selected for editing or missing ID."
  const SPECS_INVALID := "Invalid JSON format for Specifications: "
  const SPECS_NOT_OBJECT := "Specifications must be a valid JSON object."
  const ADD_FAILED := "Failed to add product"
  const EDIT_FAILED := "Failed to update product"
  const LOAD_FAILED := "Failed to load products."

  // ------------------------------------------------------------ features

  /** A feature the edit form can carry through unchanged. */
  predicate CleanFeature(f: string) {
    f != "" && Trimmed(f) && ',' !in f
  }

  function TrimAll(parts: seq<string>): (r: seq<string>)
    ensures |r| == |parts|
    ensures forall k :: 0 <= k < |parts| ==> r[k] == Trim(parts[k])
  {
    seq(|parts|, k requires 0 <= k < |parts| => Trim(parts[k]))
  }

  /** Trimming pieces that hold no comma gives trimmed pieces without a comma. */
  lemma TrimmedPartsClean(parts: seq<string>)
    requires forall k :: 0 <= k < |parts| ==> ',' !in parts[k]
    ensures forall f :: f in TrimAll(parts) ==> Trimmed(f) && ',' !in f
  {
    var t := TrimAll(parts);
    forall f | f in t ensures Trimmed(f) && ',' !in f {
      var j :| 0 <= j < |t| && t[j] == f;
      TrimKeepsAbsent(parts[j], ',');
    }
  }

  /** `text.split(',').map(f => f.trim()).filter(f => f.length > 0)`: every
      feature it yields is non-empty, trimmed and free of commas. */
  function ParseFeatures(text: string): (features: seq<string>)
    ensures forall k :: 0 <= k < |features| ==> CleanFeature(features[k])
  {
    var parts := Split(text, ',');
    TrimmedPartsClean(parts);
    Seqs.Filter(TrimAll(parts), (f: string) => |f| > 0)
  }

  /** The `features` field of a request: left out for an empty text. */
  function FeaturesField(text: string): (field: Option<seq<string>>)
    ensures field.None? <==> text == ""
    ensures field.Some? ==> field.value == ParseFeatures(text)
  {
    if text == "" then None else Some(ParseFeatures(text))
  }

  /** Splitting the ", "-joined list at the commas gives back each feature,
      all but the first with the joining space in front. */
  lemma {:induction false} SplitJoinedFeatures(fs: seq<string>)
    requires |fs| >= 1
    requires forall k :: 0 <= k < |fs| ==> ',' !in fs[k]
    ensures var parts := Split(Join(fs, ", "), ',');
            && |parts| == |fs| && parts[0] == fs[0]
            && forall k :: 1 <= k < |fs| ==> parts[k] == " " + fs[k]
    decreases |fs|
  {
    if |fs| == 1 {
      SplitNoSeparator(fs[0], ',');
    } else {
      var rest := Join(fs[1..], ", ");
      SplitJoinedFeatures(fs[1..]);
      var sr := Split(rest, ',');
      assert Join(fs, ", ") == fs[0] + [','] + (" " + rest);
      SplitAtSeparator(fs[0], " " + rest, ',');
      assert (" " + rest)[1..] == rest;
      assert Split(" " + rest, ',') == [[' '] + sr[0]] + sr[1..];
      var parts := Split(Join(fs, ", "), ',');
      assert parts == [fs[0]] + ([[' '] + sr[0]] + sr[1..]);
      forall k | 1 <= k < |fs| ensures parts[k] == " " + fs[k] {
        if k > 1 {
          assert parts[k] == sr[k - 1];
          assert fs[1..][k - 1] == fs[k];
        }
      }
    }
  }

  /** Trimming a clean feature, with or without a space in front, gives it back. */
  lemma TrimPadded(f: string)
    requires CleanFeature(f)
    ensures Trim(" " + f) == f && Trim(f) == f
  {
    assert (" " + f)[1..] == f;
    assert TrimStart(" " + f) == TrimStart(f);
  }

  /** The `k`th piece of the ", "-joined clean features trims to the `k`th
      feature. */
  lemma TrimmedPiece(fs: seq<string>, k: nat)
    requires k < |fs|
    requires forall j :: 0 <= j < |fs| ==> CleanFeature(fs[j])
    ensures var parts := Split(Join(fs, ", "), ',');
            |parts| == |fs| && Trim(parts[k]) == fs[k]
  {
    SplitJoinedFeatures(fs);
    TrimPadded(fs[k]);
  }

  /** Trimming the pieces of the ", "-joined clean features gives the
      features back. */
  lemma TrimmedSplitJoined(fs: seq<string>)
    requires fs != []
    requires forall k :: 0 <= k < |fs| ==> CleanFeature(fs[k])
    ensures TrimAll(Split(Join(fs, ", "), ',')) == fs
  {
    var parts := Split(Join(fs, ", "), ',');
    TrimmedPiece(fs, 0);
    forall k | 0 <= k < |fs| ensures Trim(parts[k]) == fs[k] {
      TrimmedPiece(fs, k);
    }
    TrimAllPieces(parts, fs);
  }

  /** Pieces that trim one by one to `fs` trim all together to `fs`. */
  lemma TrimAllPieces(parts: seq<string>, fs: seq<string>)
    requires |parts| == |fs|
    requires forall k :: 0 <= k < |fs| ==> Trim(parts[k]) == fs[k]
    ensures TrimAll(parts) == fs
  {
  }

  /** The features text the edit form starts from (`features.join(', ')`)
      parses back to the product's list when its features are clean; an
      empty list becomes no field at all. */
  lemma FeaturesRoundTrip(fs: seq<string>)
    requires forall k :: 0 <= k < |fs| ==> CleanFeature(fs[k])
    ensures fs != [] ==> FeaturesField(Join(fs, ", ")) == Some(fs)
    ensures fs == [] ==> FeaturesField(Join(fs, ", ")) == None
  {
    if fs != [] {
      var text := Join(fs, ", ");
      assert text[..|fs[0]|] == fs[0];
      TrimmedSplitJoined(fs);
      Seqs.FilterKeepsAll(fs, (f: string) => |f| > 0);
    }
  }

  // ------------------------------------------------------ specifications

  /** The specifications step: an empty text sends none; text that does not
      parse, or parses to something other than a plain object, stops the
      handler with an error. */
  function ParseSpecifications(text: string, parsed: ParsedSpecs): (r: Result<Option<Specs>, string>)
    ensures r == Ok(None) <==> text == ""
    ensures r.Ok? && text != "" ==> parsed.AnObject? && r.value == Some(parsed.entries)
    ensures r.Err? ==> StartsWith(r.error, SPECS_INVALID)
    ensures text != "" && parsed.SyntaxError? ==> r == Err(SPECS_INVALID + parsed.message)
    ensures text != "" && parsed.NotAnObject? ==> r == Err(SPECS_INVALID + SPECS_NOT_OBJECT)
  {
    if text == "" then Ok(None)
    else
      match parsed
      case SyntaxError(message) => Err(SPECS_INVALID + message)
      case NotAnObject => Err(SPECS_INVALID + SPECS_NOT_OBJECT)
      case AnObject(entries) => Ok(Some(entries))
  }

  /** The request body built from a form, the image list and the parsed
      specifications. */
  function Body(form: Form, images: seq<string>, specs: Option<Specs>): Payload
  {
    Payload(form.title, form.subtitle, form.description, images, form.category,
            FeaturesField(form.features), specs)
  }

  /** The message a failed request leaves: the body's non-empty `error`, or
      the fallback, or the thrown error's message. */
  function FailureMessage<T>(reply: Reply<T>, fallback: string): (message: string)
    requires !reply.Done?
    ensures reply.Refused? && reply.error.Some? && reply.error.value != "" ==> message == reply.error.value
    ensures reply.Refused? && !(reply.error.Some? && reply.error.value != "") ==> message == fallback
    ensures reply.Thrown? ==> message == reply.message
  {
    if reply.Thrown? then reply.message
    else if reply.error.Some? && reply.error.value != "" then reply.error.value
    else fallback
  }

  /** Title, description and category must all be non-empty. */
  predicate MissingRequired(form: Form) {
    form.title == "" || form.description == "" || form.category == ""
  }

  // ---------------------------------------------------------------- forms

  function Get(form: Form, field: Field): string {
    match field
    case Title => form.title
    case Subtitle => form.subtitle
    case Description => form.description
    case Category => form.category
    case Features => form.features
    case Specifications => form.specifications
  }

  /** `{ ...form, [name]: value }` */
  function Set(form: Form, field: Field, value: string): (r: Form)
    ensures Get(r, field) == value
    ensures forall g :: g != field ==> Get(r, g) == Get(form, g)
    ensures r.id == form.id && r.images == form.images
  {
    match field
    case Title => form.(title := value)
    case Subtitle => form.(subtitle := value)
    case Description => form.(description := value)
    case Category => form.(category := value)
    case Features => form.(features := value)
    case Specifications => form.(specifications := value)
  }

  /** The image a category choice stands for while no files are selected. */
  function CategoryImage(value: string): (image: string)
    ensures value == "" ==> image == ""
    ensures value != "" ==> image == Catalog.UPLOADS_PREFIX + value + ".webp"
  {
    if value != "" then Catalog.UPLOADS_PREFIX + value + ".webp" else ""
  }

  /** The edit form for a product. `specsJson` stands for
      `JSON.stringify(product.specifications, null, 2)`. */
  function EditForm(p: Product, specsJson: string): (form: Form)
    ensures form.id == p.id && form.title == p.title && form.subtitle == p.subtitle
    ensures form.description == p.description && form.images == p.images
    ensures form.category == p.category.GetOr("")
    ensures p.features.None? ==> form.features == ""
    ensures p.features.Some? ==> form.features == Join(p.features.value, ", ")
    ensures form.specifications == (if p.specifications.Some? then specsJson else "")
  {
    Form(p.id, p.title, p.subtitle, p.description, p.images, p.category.GetOr(""),
         if p.features.Some? then Join(p.features.value, ", ") else "",
         if p.specifications.Some? then specsJson else "")
  }

  /** Saving an edit form opened on a product sends back the product's own
      feature list when its features are clean (an empty list is left out). */
  lemma EditFormKeepsFeatures(p: Product, specsJson: string)
    requires p.features.Some?
    requires forall k :: 0 <= k < |p.features.value| ==> CleanFeature(p.features.value[k])
    ensures var sent := FeaturesField(EditForm(p, specsJson).features);
            sent == if p.features.value == [] then None else p.features
  {
    FeaturesRoundTrip(p.features.value);
  }

  /** The requests the upload step sends for a file selection. */
  function UploadRequests(files: Option<seq<string>>): seq<Request> {
    if files.Some? && files.value != [] then [UploadFiles(files.value)] else []
  }

  /** `products.filter(p => p._id !== id)`: exactly the products with
      another id (or none), each as often as before. */
  function WithoutId(products: seq<Product>, id: string): (r: seq<Product>)
    ensures forall p :: p in r <==> p in products && p.id != Some(id)
    ensures forall p :: multiset(r)[p] == if p.id != Some(id) then multiset(products)[p] else 0
  {
    var keep := (p: Product) => p.id != Some(id);
    var r := Seqs.Filter(products, keep);
    assert forall p :: p in r <==> p in products && keep(p) by {
      forall p ensures p in r <==> p in products && keep(p) {
        Seqs.FilterMembership(products, keep, p);
      }
    }
    assert forall p :: multiset(r)[p] == if keep(p) then multiset(products)[p] else 0 by {
      forall p ensures multiset(r)[p] == if keep(p) then multiset(products)[p] else 0 {
        Seqs.FilterCount(products, keep, p);
      }
    }
    r
  }

  /** `products.map(p => p._id === updated._id ? updated : p)`: same length,
      each entry replaced exactly where the ids match. */
  function ReplaceById(products: seq<Product>, updated: Product): (r: seq<Product>)
    ensures |r| == |products|
    ensures forall k :: 0 <= k < |products| ==>
              r[k] == if products[k].id == updated.id then updated else products[k]
  {
    var hit := (q: Product) => q.id == updated.id;
    var r := Seqs.ReplaceWhere(products, hit, updated);
    assert forall k :: 0 <= k < |products| ==> r[k] == if hit(products[k]) then updated else products[k] by {
      forall k | 0 <= k < |products| ensures r[k] == if hit(products[k]) then updated else products[k] {
        Seqs.ReplaceWhereAt(products, hit, updated, k);
      }
    }
    r
  }

  // ------------------------------------------------------------ the page

  class DashboardPage {
    var products: seq<Product>
    var loading: bool
    var error: Option<string>
    var editing: Option<Form>
    var newProduct: Form
    var uploading: bool
    var uploadError: Option<string>
    var uploadSuccess: bool
    var files: Option<seq<string>>
    var sent: seq<Request>

    constructor ()
      ensures products == [] && loading && error.None? && editing.None? && newProduct == EMPTY_FORM
      ensures !uploading && uploadError.None? && !uploadSuccess && files.None? && sent == []
    {
      products := [];
      loading := true;
      error := None;
      editing := None;
      newProduct := EMPTY_FORM;
      uploading := false;
      uploadError := None;
      uploadSuccess := false;
      files := None;
      sent := [];
    }

    /** Some files are selected. */
    predicate HasFiles()
      reads this
    {
      files.Some? && files.value != []
    }

    /** The list and the forms, which the upload step leaves alone. */
    function FormState(): (seq<Product>, bool, Option<string>, Option<Form>, Form)
      reads this
    {
      (products, loading, error, editing, newProduct)
    }

    /** The file selection and the upload flags. */
    function UploadState(): (bool, Option<string>, bool, Option<seq<string>>)
      reads this
    {
      (uploading, uploadError, uploadSuccess, files)
    }

    /** The list fetch on mount; `reply` is `None` for a failed fetch. The
        error is set on failure and not cleared on success. */
    method FetchProducts(reply: Option<seq<Product>>)
      modifies this
      ensures !loading && sent == old(sent) && editing == old(editing) && newProduct == old(newProduct)
      ensures UploadState() == old(UploadState())
      ensures reply.Some? ==> products == reply.value && error == old(error)
      ensures reply.None? ==> products == old(products) && error == Some(LOAD_FAILED)
    {
      loading := true;
      if reply.Some? {
        products := reply.value;
      } else {
        error := Some(LOAD_FAILED);
      }
      loading := false;
    }

    /** A change of the file input; an empty selection changes nothing. */
    method HandleFileChange(selected: seq<string>)
      modifies this
      ensures FormState() == old(FormState()) && sent == old(sent) && uploading == old(uploading)
      ensures selected != [] ==> files == Some(selected) && !uploadSuccess && uploadError.None?
      ensures selected == [] ==> UploadState() == old(UploadState())
    {
      if selected != [] {
        files := Some(selected);
        uploadSuccess := false;
        uploadError := None;
      }
    }

    /** `handleUpload`: with no files selected it sets the error and sends
        nothing; otherwise it uploads the selection and gives back the stored
        names, or `None` when the upload fails. `reply` is the names in the
        server's answer, `None` for any failure. */
    method HandleUpload(reply: Option<seq<string>>) returns (filenames: Option<seq<string>>)
      modifies this
      ensures FormState() == old(FormState())
      ensures !old(HasFiles()) ==>
                && filenames.None? && uploadError == Some(SELECT_FILES) && sent == old(sent)
                && uploading == old(uploading) && uploadSuccess == old(uploadSuccess) && files == old(files)
      ensures old(HasFiles()) ==>
                && filenames == reply && !uploading
                && sent == old(sent) + [UploadFiles(old(files).value)]
                && uploadSuccess == reply.Some?
                && (reply.Some? ==> uploadError.None? && files.None?)
                && (reply.None? ==> uploadError == Some(UPLOAD_FAILED) && files == old(files))
    {
      if !HasFiles() {
        uploadError := Some(SELECT_FILES);
        return None;
      }
      uploading := true;
      uploadError := None;
      uploadSuccess := false;
      sent := sent + [UploadFiles(files.value)];
      if reply.Some? {
        uploadSuccess := true;
        files := None;
        filenames := reply;
      } else {
        uploadError := Some(UPLOAD_FAILED);
        filenames := None;
      }
      uploading := false;
    }

    /** `handleDelete`: without an id, or when the confirmation is declined,
        nothing happens; otherwise the DELETE is sent and, if it succeeds,
        exactly the products with that id leave the list. */
    method HandleDelete(id: Option<string>, confirmed: bool, reply: Reply<()>)
      modifies this
      ensures editing == old(editing) && newProduct == old(newProduct) && UploadState() == old(UploadState())
      ensures (id.None? || id.value == "" || !confirmed) ==>
                FormState() == old(FormState()) && sent == old(sent)
      ensures id.Some? && id.value != "" && confirmed ==>
                && !loading
                && sent == old(sent) + [DeleteProduct(id.value)]
                && (reply.Done? ==>
                      products == WithoutId(old(products), id.value)
                      && error.None?)
                && (reply.Refused? ==>
                      products == old(products)
                      && error == Some(FailureMessage(reply, "Delete failed with status: " + Decimal(reply.status))))
                && (reply.Thrown? ==> products == old(products) && error == Some(reply.message))
    {
      if id.None? || id.value == "" || !confirmed {
        return;
      }
      loading := true;
      error := None;
      sent := sent + [DeleteProduct(id.value)];
      match reply {
        case Done(_) =>
          products := WithoutId(products, id.value);
          error := None;
        case Refused(status, _) =>
          error := Some(FailureMessage(reply, "Delete failed with status: " + Decimal(status)));
        case Thrown(message) =>
          error := Some(message);
      }
      loading := false;
    }

    /** `handleAddProduct`. With a required field empty it only sets the
        error. Otherwise it uploads the selected files first (a failed upload
        leaves the image list empty), then checks the specifications, whose
        failure stops it after the upload; then it POSTs and, on success,
        appends the created product to the list and resets the form. */
    method HandleAddProduct(uploadReply: Option<seq<string>>, parsed: ParsedSpecs, reply: Reply<Product>)
      modifies this
      ensures editing == old(editing)
      ensures MissingRequired(old(newProduct)) ==>
                && error == Some(ADD_REQUIRED) && sent == old(sent) && products == old(products)
                && loading == old(loading) && newProduct == old(newProduct)
                && UploadState() == old(UploadState())
      ensures !MissingRequired(old(newProduct)) ==>
                var uploaded := if old(HasFiles()) && uploadReply.Some? then uploadReply.value else [];
                var specs := ParseSpecifications(old(newProduct).specifications, parsed);
                var created := specs.Ok? && reply.Done?;
                && !loading
                && sent == old(sent) + UploadRequests(old(files))
                             + (if specs.Ok? then [PostProduct(Body(old(newProduct), uploaded, specs.value))] else [])
                && (old(HasFiles()) ==> !uploading && uploadSuccess == uploadReply.Some?
                                        && uploadError == (if uploadReply.Some? then None else Some(UPLOAD_FAILED)))
                && (!old(HasFiles()) ==> uploading == old(uploading) && uploadSuccess == old(uploadSuccess)
                                         && uploadError == old(uploadError))
                && files == (if created || (old(HasFiles()) && uploadReply.Some?) then None else old(files))
                && (specs.Err? ==> error == Some(specs.error) && products == old(products)
                                   && newProduct == old(newProduct))
                && (created ==> products == old(products) + [reply.data] && newProduct == EMPTY_FORM
                                && error.None?)
                && (specs.Ok? && !reply.Done? ==>
                      products == old(products) && newProduct == old(newProduct)
                      && error == Some(FailureMessage(reply, ADD_FAILED)))
    {
      var form := newProduct;
      if MissingRequired(form) {
        error := Some(ADD_REQUIRED);
        return;
      }
      error := None;
      loading := true;
      var uploaded: seq<string> := [];
      if HasFiles() {
        var names := HandleUpload(uploadReply);
        if names.Some? {
          uploaded := names.value;
        }
      }
      SubmitNewProduct(form, uploaded, parsed, reply);
    }

    /** The rest of `handleAddProduct` once the files are uploaded: the
        specifications check, which stops it with an error, then the POST
        and its outcome. */
    method SubmitNewProduct(form: Form, uploaded: seq<string>, parsed: ParsedSpecs, reply: Reply<Product>)
      modifies this
      ensures editing == old(editing) && uploading == old(uploading)
      ensures uploadError == old(uploadError) && uploadSuccess == old(uploadSuccess)
      ensures !loading
      ensures var specs := ParseSpecifications(form.specifications, parsed);
              var created := specs.Ok? && reply.Done?;
              && sent == old(sent) + (if specs.Ok? then [PostProduct(Body(form, uploaded, specs.value))] else [])
              && files == (if created then None else old(files))
              && (specs.Err? ==> error == Some(specs.error) && products == old(products)
                                 && newProduct == old(newProduct))
              && (created ==> products == old(products) + [reply.data] && newProduct == EMPTY_FORM
                              && error.None?)
              && (specs.Ok? && !reply.Done? ==>
                    products == old(products) && newProduct == old(newProduct)
                    && error == Some(FailureMessage(reply, ADD_FAILED)))
    {
      var specs := ParseSpecifications(form.specifications, parsed);
      if specs.Err? {
        error := Some(specs.error);
        loading := false;
        return;
      }
      sent := sent + [PostProduct(Body(form, uploaded, specs.value))];
      match reply {
        case Done(created) =>
          products := products + [created];
          newProduct := EMPTY_FORM;
          files := None;
          error := None;
        case _ =>
          error := Some(FailureMessage(reply, ADD_FAILED));
      }
      loading := false;
    }

    /** `handleNewProductChange`: a category change with no files selected
        also replaces the image list by the category's picture. */
    method HandleNewProductChange(field: Field, value: string)
      modifies this
      ensures products == old(products) && loading == old(loading) && error == old(error)
      ensures editing == old(editing) && UploadState() == old(UploadState()) && sent == old(sent)
      ensures field == Category && !HasFiles() ==>
                newProduct == Set(old(newProduct), field, value).(images := [CategoryImage(value)])
      ensures !(field == Category && !HasFiles()) ==> newProduct == Set(old(newProduct), field, value)
    {
      if field == Category && !HasFiles() {
        newProduct := Set(newProduct, field, value).(images := [CategoryImage(value)]);
      } else {
        newProduct := Set(newProduct, field, value);
      }
    }

    /** `startEditing`: the product goes into the edit form and the file
        selection and upload flags are reset. */
    method StartEditing(p: Product, specsJson: string)
      modifies this
      ensures products == old(products) && loading == old(loading) && error == old(error)
      ensures newProduct == old(newProduct) && sent == old(sent) && uploading == old(uploading)
      ensures editing == Some(EditForm(p, specsJson))
      ensures files.None? && uploadError.None? && !uploadSuccess
    {
      editing := Some(EditForm(p, specsJson));
      files := None;
      uploadError := None;
      uploadSuccess := false;
    }

    /** `handleEditProductChange`: edits the open form, if any. */
    method HandleEditProductChange(field: Field, value: string)
      modifies this
      ensures products == old(products) && loading == old(loading) && error == old(error)
      ensures newProduct == old(newProduct) && UploadState() == old(UploadState()) && sent == old(sent)
      ensures editing == (if old(editing).Some? then Some(Set(old(editing).value, field, value)) else None)
    {
      if editing.Some? {
        editing := Some(Set(editing.value, field, value));
      }
    }

    /** `cancelEditing` */
    method CancelEditing()
      modifies this
      ensures products == old(products) && loading == old(loading) && newProduct == old(newProduct)
      ensures sent == old(sent) && uploading == old(uploading)
      ensures editing.None? && error.None? && files.None? && uploadError.None? && !uploadSuccess
    {
      editing := None;
      error := None;
      files := None;
      uploadError := None;
      uploadSuccess := false;
    }

    /** The remove button on the edit form's image at `index`: exactly that
        image leaves the list, the others keep their order. */
    method RemoveEditingImage(index: int)
      requires editing.Some? && 0 <= index < |editing.value.images|
      modifies this
      ensures products == old(products) && loading == old(loading) && error == old(error)
      ensures newProduct == old(newProduct) && UploadState() == old(UploadState()) && sent == old(sent)
      ensures editing == Some(old(editing).value.(images :=
                old(editing).value.images[..index] + old(editing).value.images[index + 1..]))
    {
      var form := editing.value;
      Seqs.RemoveIndexSlices(form.images, index);
      editing := Some(form.(images := Seqs.RemoveIndex(form.images, index)));
    }

    /** `handleSaveEdit`. Without an open form holding an id, or with a
        required field empty, it only sets the error. Otherwise it uploads the
        selected files and appends their names to the form's images (a failed
        upload keeps the images as they are), checks the specifications, PUTs
        and, on success, puts the returned product in place of every entry
        with the same id and closes the form. */
    method HandleSaveEdit(uploadReply: Option<seq<string>>, parsed: ParsedSpecs, reply: Reply<Product>)
      modifies this
      ensures newProduct == old(newProduct)
      ensures (old(editing).None? || old(editing).value.id.None? || old(editing).value.id.value == "") ==>
                && error == Some(NO_EDIT) && sent == old(sent) && products == old(products)
                && loading == old(loading) && editing == old(editing) && UploadState() == old(UploadState())
      ensures old(editing).Some? && old(editing).value.id.Some? && old(editing).value.id.value != ""
              && MissingRequired(old(editing).value) ==>
                && error == Some(EDIT_REQUIRED) && sent == old(sent) && products == old(products)
                && loading == old(loading) && editing == old(editing) && UploadState() == old(UploadState())
      ensures old(editing).Some? && old(editing).value.id.Some? && old(editing).value.id.value != ""
              && !MissingRequired(old(editing).value) ==>
                var form := old(editing).value;
                var images := form.images + (if old(HasFiles()) && uploadReply.Some? then uploadReply.value else []);
                var specs := ParseSpecifications(form.specifications, parsed);
                var saved := specs.Ok? && reply.Done?;
                && !loading
                && sent == old(sent) + UploadRequests(old(files))
                             + (if specs.Ok? then [PutProduct(form.id.value, Body(form, images, specs.value))] else [])
                && (old(HasFiles()) ==> !uploading && uploadSuccess == uploadReply.Some?
                                        && uploadError == (if uploadReply.Some? then None else Some(UPLOAD_FAILED)))
                && (!old(HasFiles()) ==> uploading == old(uploading) && uploadSuccess == old(uploadSuccess)
                                         && uploadError == old(uploadError))
                && files == (if saved || (old(HasFiles()) && uploadReply.Some?) then None else old(files))
                && (specs.Err? ==> error == Some(specs.error) && products == old(products)
                                   && editing == old(editing))
                && (saved ==>
                      products == ReplaceById(old(products), reply.data)
                      && editing.None? && error.None?)
                && (specs.Ok? && !reply.Done? ==>
                      products == old(products) && editing == old(editing)
                      && error == Some(FailureMessage(reply, EDIT_FAILED)))
    {
      if editing.None? || editing.value.id.None? || editing.value.id.value == "" {
        error := Some(NO_EDIT);
        return;
      }
      var form := editing.value;
      if MissingRequired(form) {
        error := Some(EDIT_REQUIRED);
        return;
      }
      error := None;
      loading := true;
      var images := form.images;
      assert form.images + [] == form.images;
      if HasFiles() {
        var names := HandleUpload(uploadReply);
        if names.Some? {
          images := images + names.value;
        }
      }
      SubmitEdit(form, images, parsed, reply);
    }

    /** The rest of `handleSaveEdit` once the files are uploaded: the
        specifications check, which stops it with an error, then the PUT and
        its outcome. */
    method SubmitEdit(form: Form, images: seq<string>, parsed: ParsedSpecs, reply: Reply<Product>)
      requires form.id.Some?
      modifies this
      ensures newProduct == old(newProduct) && uploading == old(uploading)
      ensures uploadError == old(uploadError) && uploadSuccess == old(uploadSuccess)
      ensures !loading
      ensures var specs := ParseSpecifications(form.specifications, parsed);
              var saved := specs.Ok? && reply.Done?;
              && sent == old(sent) + (if specs.Ok? then [PutProduct(form.id.value, Body(form, images, specs.value))] else [])
              && files == (if saved then None else old(files))
              && (specs.Err? ==> error == Some(specs.error) && products == old(products)
                                 && editing == old(editing))
              && (saved ==>
                    products == ReplaceById(old(products), reply.data)
                    && editing.None? && error.None?)
              && (specs.Ok? && !reply.Done? ==>
                    products == old(products) && editing == old(editing)
                    && error == Some(FailureMessage(reply, EDIT_FAILED)))
    {
      var specs := ParseSpecifications(form.specifications, parsed);
      if specs.Err? {
        error := Some(specs.error);
        loading := false;
        return;
      }
      sent := sent + [PutProduct(form.id.value, Body(form, images, specs.value))];
      match reply {
        case Done(updated) =>
          products := ReplaceById(products, updated);
          editing := None;
          files := None;
          error := None;
        case _ =>
          error := Some(FailureMessage(reply, EDIT_FAILED));
      }
      loading := false;
    }
  }

  /** Deleting keeps the list's order: it distributes over concatenation. */
  lemma WithoutIdKeepsOrder(a: seq<Product>, b: seq<Product>, id: string)
    ensures WithoutId(a + b, id) == WithoutId(a, id) + WithoutId(b, id)
  {
    Seqs.FilterAppend(a, b, (p: Product) => p.id != Some(id));
  }
}
