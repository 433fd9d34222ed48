# Mobileria Dardania — a Dafny model of the shop's API and pages

Mobileria Dardania is a furniture shop with two parts:

- an Express/Mongoose product API (`api/index.js`);
- a React front end with catalogue pages, a product page with an image carousel, an admin dashboard and WhatsApp links for inquiries and contact.

This project models the deterministic core of both halves and proves what the code promises about it.

- **Api** (`api.dfy`) models the server.
  - The CORS origin rule.
  - The `images` sanitiser shared by POST and PUT. It keeps the POSIX basename of an entry containing '/'.
  - The Product collection as a class `ProductStore`. It holds a map from id to stored fields and the insertion order `find()` lists them in. There is one method per handler, each with its outcome-to-status mapping.
  - Mongoose's strict schema: keys outside the schema are dropped, and the two array paths, `images` and `features`, default to `[]` in a new document. Mongoose also wraps an update in `$set`, so a PUT is a field-wise merge.
  - multer's naming of uploaded files: the timestamp digits followed by the original extension.
  - The contact link builder.
- **Dashboard** (`dashboard.dfy`) models the admin page as a class `DashboardPage`. Its fields are the page's React state. It also has a log `sent` of the requests made, so "no request is sent" is `sent == old(sent)`.
  - One method per handler: upload, delete, add, save-edit, the form-change handlers, and the image-removal button.
  - The comma-separated feature parsing.
  - The join/parse round trip with the edit form.
- **ProductDetail** (`product_detail.dfy`) models the product fetch and the carousel index. The index is a class field that the arrows and thumbnails step.
- **SearchResults**, **Kitchen**, **Patio** and **Products** (`search_results.dfy`, `kitchen.dfy`, `patio.dfy`, `products.dfy`) model the catalogue pages as pure functions:
  - the order-preserving filters;
  - the image-source rules;
  - the navigation targets.
- **BuyUtils** (`buy_utils.dfy`) models the product-inquiry message, built by appending in place as the source does, and its wa.me URL.
- **Contact** (`contact.dfy`) models the contact form's submit handler.
- Shared modules:
  - `Catalog` (`catalog.dfy`): the product record the browser receives, the image resolution rule and the list-fetch outcome.
  - `Strings`: JavaScript's `startsWith`, `includes`, ASCII `toLowerCase`, `trim`, `split`, `join` and decimal printing.
  - `Paths`: Node's `path.basename` and `path.extname`.
  - `PercentEncoding`: `encodeURIComponent` over UTF-8, with a decoder and the round trip `Decode(Encode(s)) == Some(s)`.
  - `Seqs`: `filter`, removal by index, and map-replace.
  - `Wrappers`: `Option`, `Result`.

Some inputs come from outside the code and are parameters of the model:

- the server's replies to the browser (`ListReply`, `ProductReply`, `Reply<T>`);
- `window.confirm`'s answer;
- `JSON.parse`'s verdict on the specifications text;
- Mongoose's `ObjectId.isValid` (a function `isValidId` fixed per store);
- the fresh ObjectId of a new document;
- the store's rejections;
- the upload clock (`receivedAt`).

## Model

| member | source | states |
|---|---|---|
| Api.CheckOrigin | api/index.js:11-18 | an origin is allowed iff it is absent, empty or starts with "http://localhost:"; any other origin gets "Not allowed by CORS" |
| Api.SanitizeEntry | api/index.js:93-95 | a string entry with '/' becomes its basename and one without is kept; a string result never contains '/'; an array fails exactly when it holds "/" (thrown from `path.basename`), and null and every other non-string, non-array entry fail (thrown from `includes`) |
| Api.SanitizeImages | api/index.js:92-96 | the entry-by-entry `map`: on success same length and each entry sanitised in place; on failure the error of the first entry that fails, every entry before it passing |
| Api.FirstFailureShift | api/index.js:93-95 | behind an entry that passes, the first failing entry of the rest is the first failing entry of the whole list, one place on |
| Api.FirstFailureBehind | api/index.js:93-95 | a failure in the rest of the list, behind a passing first entry, is the first failure of the whole list with the same error |
| Api.SanitizeImagesAllPass | api/index.js:92-96 | when every entry passes the sanitiser, the whole `map` succeeds |
| Api.SanitizePayload | api/index.js:108-114 | only an array-valued `images` is rewritten; every other key, and a non-array `images`, is passed on unchanged; with an array it fails exactly when the entry map fails, with that map's error |
| Api.SanitizedHasNoSlash | api/index.js:93-94 | after sanitising, no string entry of `images` contains '/' |
| Api.SanitizeEntryIdempotent | api/index.js:93-94 | sanitising a sanitised entry changes nothing |
| Api.SanitizePayloadIdempotent | api/index.js:90-96 | a second run of the sanitiser over its own output changes nothing |
| Api.SanitizeImagesFixed | api/index.js:93-95 | a list of entries the sanitiser leaves alone comes back as it is |
| Api.NewDocFields | api/index.js:33-41 | a new document keeps exactly the schema keys of the body plus the array paths `images` and `features`, each an empty array when the body lacks it |
| Api.SetFields | api/index.js:115 | an update overwrites exactly the schema keys it supplies and keeps every other stored field |
| Api.ProductStore.All | api/index.js:59 | the listing holds each stored document once, with its fields, and nothing else |
| Api.ProductStore.GetAll | api/index.js:58-62 | GET all answers 200 with the listing |
| Api.ProductStore.GetById | api/index.js:65-85 | 400 for an id that is not an ObjectId, 500 when the lookup fails, 404 "Product not found" for an absent id, else 200 with the stored document |
| Api.ProductStore.Create | api/index.js:88-103 | a sanitiser error or a rejected save answers 400 with its message and stores nothing; otherwise the sanitised schema fields, with the array defaults, are stored under the fresh id, appended to the listing, and returned with 201 |
| Api.ProductStore.Update | api/index.js:106-123 | sanitiser errors, a malformed id (CastError) and rejected updates answer 400 and change nothing; an absent id answers 404; otherwise the merged document is stored and returned; the listing order never changes |
| Api.ProductStore.Delete | api/index.js:126-136 | a malformed id or a store failure answers 500, an absent id 404, changing nothing; otherwise exactly that document leaves the store and the listing, and the reply is "Product deleted successfully" |
| Api.DistinctCardinality | api/index.js:59 | a listing without repeats is as long as the set of stored ids |
| Api.DeleteKeepsOthers | api/index.js:128 | deleting one id keeps every other document and its fields, and any two other ids stay listed in the same relative order |
| Api.StoredFilename | api/index.js:48-50 | a stored name has no '/', is a non-empty run of digits, and ends with the original file's extension |
| Api.LeadingDigitsOfStem | api/index.js:49 | in a stored name the digit run ends exactly where the extension starts |
| Api.StemSplitUnique | api/index.js:49 | a digit stem followed by an empty or '.'-led extension splits only one way |
| Api.StoredFilenameInjective | api/index.js:49 | two stored names are equal iff the files were named in the same millisecond with the same extension |
| Api.Upload | api/index.js:139-152 | another field or more than 10 files answers 500 "Unexpected field"; no files answers 400 "No files uploaded."; otherwise 200 with one stored name per file, in received order |
| Api.ContactText | api/index.js:164 | the WhatsApp message text opens with "Message from " and the name and holds the name, the email and the message verbatim |
| Api.ContactLink | api/index.js:155-176 | a falsy name, email or message answers 400 "All fields are required"; otherwise the link starts with the wa.me prefix, its query decodes back to the message text, and that text holds each field |
| Paths.Basename | api/index.js:94 | `path.basename` has no '/' and leaves a name without '/' unchanged |
| Paths.BasenameIsLastSegment | api/index.js:94 | the basename is the last segment of the path once trailing slashes are removed |
| Paths.Extname | api/index.js:49 | `path.extname` is a suffix of the basename that is empty or a '.' followed by no other '.' or '/', so it starts at the basename's last dot; it is non-empty exactly when the basename has a dot after its first character and is not ".." |
| PercentEncoding.Encode | src/utils/buyUtils.ts:48 | `encodeURIComponent` output holds only unreserved characters and '%' |
| PercentEncoding.DecodeEncode | src/components/Contact.tsx:25 | decoding an encoded text gives the text back, for every string |
| PercentEncoding.EncodeInjective | src/utils/buyUtils.ts:48 | different texts never encode to the same query |
| Catalog.ResolveImage | src/components/ProductDetail.tsx:158-160 | an entry starting with "http" is used verbatim, anything else gets the uploads prefix; the result always starts with "http" |
| Catalog.ResolveImageIdempotent | src/components/ProductDetail.tsx:158-160 | resolving a resolved source changes nothing |
| Catalog.WithCategory | src/components/Kitchen.tsx:33 | the products of one exact category: membership iff the category matches, each kept as often as fetched |
| Catalog.WithCategoryKeepsOrder | src/components/Kitchen.tsx:33 | the category filter distributes over concatenation, so fetched order is kept |
| Catalog.Loaded | src/components/Products.tsx:20-41 | after the fetch loading is off; the error is unset iff the fetch succeeded; success shows the page's selection of the data, a non-OK status shows "HTTP error! status: N", a thrown error its message |
| Kitchen.KitchenProducts | src/components/Kitchen.tsx:33 | exactly the fetched products whose category is "kitchen", none dropped and none added |
| Kitchen.Page | src/components/Kitchen.tsx:20-44 | the page lists the kitchen filter of the fetched list (in order, each as often as fetched), or nothing with an error |
| Kitchen.ClickTarget | src/components/Kitchen.tsx:46-50 | a click navigates iff the id is present and non-empty, to "/product/<id>" |
| Kitchen.ImageSrc | src/components/Kitchen.tsx:71 | `image` verbatim when it starts with "http", else with the uploads prefix; no source when `image` is absent |
| Patio.PatioProducts | src/components/Patio.tsx:35 | exactly the fetched products whose category is "patio", none dropped and none added |
| Patio.Page | src/components/Patio.tsx:22-46 | the page lists the patio filter of the fetched list (in order, each as often as fetched), or nothing with an error |
| Patio.ClickTarget | src/components/Patio.tsx:48-52 | a click navigates iff the id is present and non-empty, to "/product/<id>" |
| Patio.ImageSrc | src/components/Patio.tsx:73 | `image` verbatim when it starts with "http", else with the uploads prefix; no source when `image` is absent |
| Products.Page | src/components/Products.tsx:20-41 | the page lists every fetched product unfiltered and in order, or nothing with an error |
| Products.ImageSrc | src/components/Products.tsx:66-70 | the placeholder without images, else the first image verbatim or with the uploads prefix |
| Products.ClickTarget | src/components/Products.tsx:43-45 | a click always navigates, to "/product/undefined" when the id is absent |
| SearchResults.Query | src/components/SearchResults.tsx:25 | a missing `q` is the empty query |
| SearchResults.Search | src/components/SearchResults.tsx:53-58 | exactly the products whose title, subtitle, description or truthy category contains the query (both lowercased), each as often as fetched |
| SearchResults.SearchKeepsOrder | src/components/SearchResults.tsx:53 | the search distributes over concatenation, so results keep fetched order |
| SearchResults.EmptyQueryListsAll | src/components/SearchResults.tsx:25-54 | a missing or empty query lists every product |
| SearchResults.CategoryOptional | src/components/SearchResults.tsx:57 | a product without a category is still found through its title |
| SearchResults.Page | src/components/SearchResults.tsx:28-60 | the page shows the search of the fetched list for the `q` query (in order, each as often as fetched), or nothing with an error |
| SearchResults.ImageSrc | src/components/SearchResults.tsx:102 | a result's source is the resolved `image`, none when `image` is absent |
| SearchResults.ClickTarget | src/components/SearchResults.tsx:99 | a result always navigates, to "/product/undefined" when the id is absent |
| ProductDetail.StepsStayInRange | src/components/ProductDetail.tsx:76-77 | from an index in range both arrows land in range |
| ProductDetail.StepsAreInverse | src/components/ProductDetail.tsx:84-85 | each arrow undoes the other |
| ProductDetail.NextTimesAhead | src/components/ProductDetail.tsx:76-77 | short of the last image, k presses move exactly k places |
| ProductDetail.NextTimesCompose | src/components/ProductDetail.tsx:76-77 | a presses then b presses are a + b presses |
| ProductDetail.FullTurn | src/components/ProductDetail.tsx:76-77 | one press per image returns to the start |
| ProductDetail.ProductPage.FetchProduct | src/components/ProductDetail.tsx:40-72 | without an id the error is "No product ID provided."; a found product is shown; 404 clears the product without error; other statuses and thrown errors set the error; loading ends and the index is kept |
| ProductDetail.ProductPage.NextImage | src/components/ProductDetail.tsx:74-80 | with images the index steps forward, wrapping last to first; otherwise nothing changes; an in-range index stays in range |
| ProductDetail.ProductPage.PrevImage | src/components/ProductDetail.tsx:82-88 | with images the index steps back, wrapping first to last; otherwise nothing changes; an in-range index stays in range |
| ProductDetail.ProductPage.SelectImage | src/components/ProductDetail.tsx:190 | a thumbnail click sets the index to that thumbnail |
| ProductDetail.ProductPage.CurrentSrc | src/components/ProductDetail.tsx:155-160 | the main image is the current entry resolved, and exists iff the index is in range |
| Dashboard.TrimAll | src/components/Dashboard.tsx:170 | each part is trimmed, in place |
| Dashboard.ParseFeatures | src/components/Dashboard.tsx:169-171 | every parsed feature is non-empty, trimmed and comma-free |
| Dashboard.FeaturesField | src/components/Dashboard.tsx:169-171 | the features field is left out iff the text is empty, else it is the parsed list |
| Dashboard.SplitJoinedFeatures | src/components/Dashboard.tsx:258 | splitting the ", "-joined list at commas gives each feature back, with the joining space in front after the first |
| Dashboard.TrimPadded | src/components/Dashboard.tsx:309 | trimming a clean feature, with or without the joining space, gives it back |
| Dashboard.FeaturesRoundTrip | src/components/Dashboard.tsx:258-309 | parsing the joined clean features gives back the list; an empty list sends no field |
| Dashboard.EditFormKeepsFeatures | src/components/Dashboard.tsx:258-310 | saving an unchanged edit form sends the product's own clean features |
| Dashboard.ParseSpecifications | src/components/Dashboard.tsx:173-185 | empty text sends no specifications; a syntax error or a non-object stops with "Invalid JSON format for Specifications: " and the reason; an object is sent |
| Dashboard.FailureMessage | src/components/Dashboard.tsx:206-209 | a refused request reports the body's non-empty error or the fallback; a thrown error its message |
| Dashboard.Set | src/components/Dashboard.tsx:245 | a form change sets the named field and keeps every other field |
| Dashboard.CategoryImage | src/components/Dashboard.tsx:239 | an empty category gives "", otherwise the uploads URL of "<value>.webp" |
| Dashboard.EditForm | src/components/Dashboard.tsx:250-260 | the edit form copies the product, with its features joined by ", " and its specifications as JSON text |
| Dashboard.DashboardPage.FetchProducts | src/components/Dashboard.tsx:49-64 | success replaces the list, failure sets "Failed to load products."; loading ends |
| Dashboard.DashboardPage.HandleFileChange | src/components/Dashboard.tsx:71-77 | a non-empty selection is stored and clears the upload flags; an empty one changes nothing |
| Dashboard.DashboardPage.HandleUpload | src/components/Dashboard.tsx:80-116 | without files: the error "Please select at least one file to upload", no request, no names; otherwise one upload request, and the names on success or the error "Failed to upload files" |
| Dashboard.DashboardPage.HandleDelete | src/components/Dashboard.tsx:119-147 | without an id or confirmation nothing happens; otherwise one DELETE, and on success exactly the products with another id stay, in order |
| Dashboard.DashboardPage.HandleAddProduct | src/components/Dashboard.tsx:150-232 | a missing required field sets the error and sends nothing; otherwise the upload, whose outcome sets `uploadSuccess` and `uploadError` as the upload handler does, then the specifications check, then the POST; success appends the created product and resets the form |
| Dashboard.DashboardPage.HandleNewProductChange | src/components/Dashboard.tsx:235-247 | the field is set; a category change with no files also replaces the images by the category picture |
| Dashboard.DashboardPage.StartEditing | src/components/Dashboard.tsx:250-264 | the edit form is opened on the product and the file selection and upload flags are reset |
| Dashboard.DashboardPage.HandleEditProductChange | src/components/Dashboard.tsx:267-272 | changes the open edit form's field, and nothing without a form |
| Dashboard.DashboardPage.CancelEditing | src/components/Dashboard.tsx:275-281 | closes the form and clears the error, the selection and the upload flags |
| Dashboard.DashboardPage.RemoveEditingImage | src/components/Dashboard.tsx:550-555 | exactly the image at the index leaves the edit form, the others keep their order |
| Dashboard.DashboardPage.HandleSaveEdit | src/components/Dashboard.tsx:284-363 | no open form with an id, or a missing required field, sets the error and sends nothing; otherwise the upload's outcome sets `uploadSuccess` and `uploadError` as the upload handler does, the sent images are the existing ones followed by the uploaded names, and success replaces every entry with the returned id and closes the form |
| Dashboard.WithoutId | src/components/Dashboard.tsx:137 | the list after a delete holds exactly the products with another id (or none), each as often as before |
| Dashboard.WithoutIdKeepsOrder | src/components/Dashboard.tsx:137 | the delete filter keeps the list's order: it distributes over concatenation |
| Dashboard.ReplaceById | src/components/Dashboard.tsx:352 | the list after a save keeps its length and each entry is replaced by the returned product exactly where the ids match |
| Dashboard.DashboardPage.SubmitNewProduct | src/components/Dashboard.tsx:173-231 | unreadable specifications set their error and send nothing; otherwise one POST is sent, success appends the created product, resets the form and drops the selected files, failure sets the reply's error or the fallback text; loading ends either way |
| Dashboard.DashboardPage.SubmitEdit | src/components/Dashboard.tsx:312-362 | unreadable specifications set their error and send nothing; otherwise one PUT to the form's id is sent, success replaces the entries with the returned id and closes the form, failure sets the reply's error or the fallback text; loading ends either way |
| BuyUtils.OptionalLine | src/utils/buyUtils.ts:22-32 | a "*Label:* value" line is present iff the value is truthy |
| BuyUtils.Bullets | src/utils/buyUtils.ts:35 | one "• feature" per feature, in order |
| BuyUtils.JoinedBullets | src/utils/buyUtils.ts:35 | the newline-joined bullets plus a newline are one bullet line per feature |
| BuyUtils.FeaturesSection | src/utils/buyUtils.ts:34-36 | the features section is present iff the list is non-empty, with one bullet line per feature |
| BuyUtils.SpecsSection | src/utils/buyUtils.ts:38-43 | the specifications section is present iff there is an entry, with one "• key: value" line per entry in order |
| BuyUtils.BuyMessage | src/utils/buyUtils.ts:19-45 | the message starts with the header and product line and ends with the purchase-interest sentence |
| BuyUtils.AppendLine | src/utils/buyUtils.ts:22-32 | an `if (field) message += ...` block appends exactly the optional line |
| BuyUtils.AppendFeatures | src/utils/buyUtils.ts:34-36 | the features block appends exactly the features section |
| BuyUtils.AppendSpecs | src/utils/buyUtils.ts:38-43 | the `forEach` appends exactly the specifications section |
| BuyUtils.HandleBuyProduct | src/utils/buyUtils.ts:15-55 | the URL opened is the wa.me prefix followed by the encoded message |
| BuyUtils.BuyLinkDecodes | src/utils/buyUtils.ts:48-51 | the URL's query decodes back to the message |
| Contact.ContactText | src/components/Contact.tsx:22 | the text starts with "Name: <name>", holds the email and the message, and adds 28 fixed characters |
| Contact.ContactUrl | src/components/Contact.tsx:19-28 | the link has the wa.me prefix and its query decodes back to the text |
| Contact.ContactForm.HandleSubmit | src/components/Contact.tsx:11-45 | opens the link for the current fields, whatever they hold, then clears them, sets success and ends loading with no error |

## Left out

- Rendering: the JSX markup, loading spinners, `onError` image fallbacks and console logging.
- Network and browser calls: `fetch`, `window.open` and `window.confirm`. Their outcomes are parameters; opened links are recorded in `openedLinks` or returned.
- async/await interleavings: each handler runs as one atomic step.
  - React batches state updates; the model reads them in sequence.
  - Stale-closure effects between overlapping handlers are not modelled.
- The one-off database scripts, the header's search box, the route table and the hero section. They are outside the modelled core.
- Mongoose internals:
  - casting of values to the schema types and validators: their rejection is a `rejection` parameter;
  - `$`-operators inside an update body;
  - the `_id` and `__v` fields of stored documents;
  - the database connection.
- Api.ProductStore.GetAll: a failing `find()` has no `catch` in the source, so the request never gets an answer. The model only covers the successful listing.
- Api.Upload: the files multer writes to disk and the static serving of `/uploads`. It answers multer's limit errors with the status and the "Unexpected field" message; the HTML page Express's default handler renders for them is not modelled.
- Api.StoredFilename: the clock is the `receivedAt` parameter. Two files named in the same millisecond with the same extension get the same name, so the second overwrites the first on disk (Api.StoredFilenameInjective states when names coincide). The overwrite itself is not modelled.
- Api.ContactLink: the body fields are strings or absent; a non-string JSON field, whose template text is JavaScript's conversion of it, is not modelled.
- Api.NewDocFields: Mongoose's default `minimize`, which drops empty objects when a document is saved and when it is turned into JSON, is not modelled. A body with `specifications: {}` is stored and answered with that key here, where Mongoose omits it. The same holds for the response bodies of every `ProductStore` handler and for nested empty objects inside `specifications`.
- Api.Json: JSON numbers are integers; floating point is not modelled.
- Strings.Lower: `toLowerCase` is ASCII only; Unicode case mapping is not modelled.
- PercentEncoding.Encode: characters are Unicode scalar values, so a lone surrogate, which makes `encodeURIComponent` throw, cannot occur. For the same reason the `catch` branch of the contact form's submit is unreachable and is not modelled.
- Dashboard.ParseSpecifications: `JSON.parse` is the `parsed` parameter. `EditForm`'s `JSON.stringify(..., null, 2)` text is the `specsJson` parameter. The object's entries are listed in iteration order, so the reordering of integer-like keys is not modelled.
- Dashboard.EditForm: a product without a category opens with an empty category. Every record is assumed to have string title, subtitle and description fields, as the page's type declares.
- Contact.ContactForm.HandleSubmit: the input setters and the `required` attributes that keep the browser from submitting empty fields are not modelled. The handler itself accepts any field values.
- ProductDetail.ProductPage.FetchProduct: keeps the carousel index across fetches, as the source does. An index left beyond a new product's images makes `CurrentSrc` give no source, where the page's `startsWith` would throw.
- Kitchen.ImageSrc, Patio.ImageSrc, SearchResults.ImageSrc: these pages read the singular `image` field while the API stores `images`. This is modelled as written, with an absent `image` giving no source where the page throws.
