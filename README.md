# InternAssignment product submission, backlog and list, in Dafny

InternAssignment is an iOS app with two screens. The list screen shows products and lets the
user mark favorites. The add-product screen has a form that posts a product to the server.
When the device is offline, the submission is saved in `UserDefaults` under `"savedProducts"`.
When the connection comes back, the saved entries are uploaded and the successful ones are
removed.

This project models the core of that behaviour:

- `AddProductViewModel`: the form check, the upload or local save, and the drain of the offline
  backlog, including how its write-back removes indices.
- The `multipart/form-data` body that both `uploadProductToServer` overloads build, and the
  UTF-8 encoding behind `Data.append(String)`.
- `AddProductView`'s `validateFields` chain and `validateImage`.
- `ProductListView`'s `filteredProducts`, `isFavorite`, `toggleFavorite` and
  `deleteFavoriteProduct`.

Modules, in dependency order:

| file | module | what it holds |
|---|---|---|
| `wrappers.dfy` | `Wrappers` | `Option` |
| `utf8.dfy` | `Utf8` | UTF-8 encoder, a decoder as its partner, and `Append` (`Data.append(String)`) |
| `seqs.dfy` | `Seqs` | `Filter`, `RemoveAt`, subsequence, and their lemmas |
| `multipart.dfy` | `Multipart` | the request body as a list of parts, and the append-by-append builders |
| `backlog.dfy` | `Backlog` | saved entries, and the drain's "sort descending, remove one by one" |
| `decimal.dfy` | `Decimal` | how Swift renders an `Int` inside a string (status codes, counts) |
| `submission.dfy` | `Submission` | class `AddProductViewModel` |
| `validation.dfy` | `Validation` | class `AddProductView` |
| `productlist.dfy` | `ProductList` | filtering, and class `FavoriteStore` |

How effects are modelled:

- **Network.** Sending a request appends it to the view model's `outbox`. The result of an
  upload (a transport error or an HTTP status) is a parameter of `CompleteUpload`, or of each
  `Attempt` in the drain.
- **Drain.** The drain is split at its `dispatchGroup.notify`. `UploadSavedProducts` reads the
  snapshot, sends the requests and returns a `PendingDrain`. `FinishDrain` is the notify block.
  This makes visible what happens to an entry that is saved between the two steps.
- **Other inputs.** UUIDs, timestamps, saved image file names, JPEG bytes and `Double(...)`
  parsing are all parameters. In the drain, loading a saved image and encoding it is one
  parameter, `loadJpeg`, applied to the entry's `image_name`.

## Model

| member | source | states |
|---|---|---|
| Utf8.EncodeScalar | InternAssignment/AddProduct/ViewModel/AddProductViewModel.swift:343-348 | A character encodes to 1 to 4 bytes, and to one byte exactly when it is ASCII. |
| Utf8.Encode | InternAssignment/AddProduct/ViewModel/AddProductViewModel.swift:343-348 | The `.utf8` bytes of a string: at least one and at most four bytes per character. |
| Utf8.DecodeScalar | InternAssignment/AddProduct/ViewModel/AddProductViewModel.swift:343-348 | The partner decoder never consumes more bytes than it is given. |
| Utf8.EncodeAppend | InternAssignment/AddProduct/ViewModel/AddProductViewModel.swift:343-348 | Encoding distributes over concatenation, so appending strings one by one equals appending their concatenation. |
| Utf8.DecodeEncodeScalar | InternAssignment/AddProduct/ViewModel/AddProductViewModel.swift:343-348 | Decoding the bytes of one character, followed by anything, gives back that character and its byte length. |
| Utf8.DecodeTwoBytes | InternAssignment/AddProduct/ViewModel/AddProductViewModel.swift:343-348 | Decoding round trip for characters from U+0080 to U+07FF. |
| Utf8.DecodeThreeBytes | InternAssignment/AddProduct/ViewModel/AddProductViewModel.swift:343-348 | Decoding round trip for characters from U+0800 to U+FFFF. |
| Utf8.DecodeFourBytes | InternAssignment/AddProduct/ViewModel/AddProductViewModel.swift:343-348 | Decoding round trip for characters from U+10000 upward. |
| Utf8.DecodeEncode | InternAssignment/AddProduct/ViewModel/AddProductViewModel.swift:343-348 | Round trip: decoding the encoding of any string gives back the string. `string.data(using: .utf8)` never returns nil for a Swift string, so the `if let` in `append(_:)` always appends. |
| Utf8.EncodeInjective | InternAssignment/AddProduct/ViewModel/AddProductViewModel.swift:343-348 | Distinct strings give distinct bytes, so no field value is lost or confused in the body. |
| Utf8.EncodeAscii | InternAssignment/AddProduct/ViewModel/AddProductViewModel.swift:343-348 | An ASCII string encodes byte for byte to its character codes. |
| Utf8.Append | InternAssignment/AddProduct/ViewModel/AddProductViewModel.swift:343-348 | `Data.append(String)` leaves the existing bytes unchanged and adds the string's UTF-8 bytes after them. |
| Seqs.RemoveAt | InternAssignment/AddProduct/ViewModel/AddProductViewModel.swift:280 | `remove(at:)`: one element shorter; the elements before `i` are unchanged and those after it shift down by one. |
| Seqs.FilterMembers | InternAssignment/ProductList/View/ProductListView.swift:114-126 | `filter` keeps exactly the elements that satisfy the predicate. |
| Seqs.FilterIsSubsequence | InternAssignment/ProductList/View/ProductListView.swift:114-126 | `filter` keeps the list's order and invents nothing. |
| Seqs.FilterFilter | InternAssignment/ProductList/View/ProductListView.swift:114-126 | Two filters in a row are one filter by the conjunction. |
| Seqs.FilterAll | InternAssignment/ProductList/View/ProductListView.swift:114-126 | A filter that every element passes returns the list unchanged. |
| Seqs.FilterSame | InternAssignment/ProductList/View/ProductListView.swift:114-126 | Filters by predicates that agree everywhere give the same list. |
| Seqs.FilterDropsOne | InternAssignment/ProductList/View/ProductListView.swift:402-412 | A filter that rejects only the element at `i` is `remove(at: i)`. |
| Multipart.ProductPartsShape | InternAssignment/AddProduct/ViewModel/AddProductViewModel.swift:82-95 | The body has four text parts in the fixed order `product_name`, `price`, `tax`, `product_type`. A fifth part, `files[]` named `product.jpg` of type `image/jpeg`, carries exactly the JPEG bytes and is present exactly when there are bytes. |
| Multipart.SerializeAppend | InternAssignment/AddProduct/ViewModel/AddProductViewModel.swift:79-97 | The body grows part by part: serializing two part lists joined is joining their serializations. |
| Multipart.TextPartLines | InternAssignment/AddProduct/ViewModel/AddProductViewModel.swift:118-121 | A text part is exactly its delimiter line, its disposition block and its value line. |
| Multipart.FilePartLines | InternAssignment/AddProduct/ViewModel/AddProductViewModel.swift:85-95 | The image part is its delimiter, disposition and type lines, then the raw bytes, then a line break. |
| Multipart.FourTextParts | InternAssignment/AddProduct/ViewModel/AddProductViewModel.swift:118-134 | The text section is the four text parts, one after the other. |
| Multipart.TextPartsAreTextSection | InternAssignment/AddProduct/ViewModel/AddProductViewModel.swift:118-134 | The serialized text parts are exactly the encoded text of the four blocks `appendProductToBody` writes. |
| Multipart.EncodeBodyWithoutImage | InternAssignment/AddProduct/ViewModel/AddProductViewModel.swift:79-97 | Without JPEG bytes, the body is the UTF-8 of the four text blocks followed by `--boundary--`. |
| Multipart.ImagePartLast | InternAssignment/AddProduct/ViewModel/AddProductViewModel.swift:82-95 | The image part comes after all four text parts. |
| Multipart.EncodeBodyWithImage | InternAssignment/AddProduct/ViewModel/AddProductViewModel.swift:79-97 | With JPEG bytes, the body is the text blocks and the image part's head, then the raw JPEG bytes unchanged, then a line break and the close delimiter. |
| Multipart.PartOpensWithDelimiter | InternAssignment/AddProduct/ViewModel/AddProductViewModel.swift:90 | Every part, text or file, starts with its `--boundary` line. |
| Multipart.BodyOpensWithDelimiter | InternAssignment/AddProduct/ViewModel/AddProductViewModel.swift:119 | Every body starts with the first `--boundary` line. |
| Multipart.BodyEndsWithCloseDelimiter | InternAssignment/AddProduct/ViewModel/AddProductViewModel.swift:97 | Every body ends with `--boundary--` and a line break. |
| Multipart.BuildUploadBody | InternAssignment/AddProduct/ViewModel/AddProductViewModel.swift:79-97 | The append sequence of `uploadProductToServer` produces exactly `EncodeBody`, the body that the lemmas above describe. |
| Multipart.AppendFilePart | InternAssignment/AddProduct/ViewModel/AddProductViewModel.swift:90-94 | The five appends of the image block add exactly one file part after the existing bytes. |
| Multipart.TextPartAppended | InternAssignment/AddProduct/ViewModel/AddProductViewModel.swift:119-121 | Appending a text part's three lines one after another to any body appends exactly that part. |
| Multipart.AppendTextPart | InternAssignment/AddProduct/ViewModel/AddProductViewModel.swift:119-121 | The three appends of one field add exactly one text part after the existing bytes. |
| Multipart.AppendProductToBody | InternAssignment/AddProduct/ViewModel/AddProductViewModel.swift:118-134 | `appendProductToBody` adds exactly the four text parts, in order, after the existing bytes. |
| Backlog.Descending | InternAssignment/AddProduct/ViewModel/AddProductViewModel.swift:279 | Lists the indices of `S` below `n`, strictly decreasing. Every index of `S` below `n` appears, and nothing else does. |
| Backlog.SortedDescendingIsUnique | InternAssignment/AddProduct/ViewModel/AddProductViewModel.swift:279 | A strictly decreasing list of indices is `Descending` of its own elements. So `sorted(by: >)` of the recorded successes gives the same list, whatever order the uploads finished in. |
| Backlog.UniqueWithLargest | InternAssignment/AddProduct/ViewModel/AddProductViewModel.swift:279 | The case of SortedDescendingIsUnique where the largest possible index is present. |
| Backlog.DescendingOnlyBelow | InternAssignment/AddProduct/ViewModel/AddProductViewModel.swift:279 | Only the indices inside the snapshot affect the sorted removal order. |
| Backlog.RemoveEachAppend | InternAssignment/AddProduct/ViewModel/AddProductViewModel.swift:279-281 | Removals at indices inside a prefix do not touch what follows it. |
| Backlog.RemoveDescendingIsKept | InternAssignment/AddProduct/ViewModel/AddProductViewModel.swift:277-281 | Removing the recorded indices largest first, one `remove(at:)` at a time, leaves exactly the entries whose index was not recorded, in their order. This is the point of removing in reverse order. |
| Backlog.KeptBelow | InternAssignment/AddProduct/ViewModel/AddProductViewModel.swift:277-281 | Only indices inside the list affect what is kept. |
| Backlog.KeptLength | InternAssignment/AddProduct/ViewModel/AddProductViewModel.swift:277-281 | Removing a set of valid indices removes exactly that many entries. |
| Backlog.KeptIsSubsequence | InternAssignment/AddProduct/ViewModel/AddProductViewModel.swift:277-281 | The remaining backlog is a subsequence of the snapshot. |
| Backlog.KeptMembers | InternAssignment/AddProduct/ViewModel/AddProductViewModel.swift:277-281 | Every entry whose index was not recorded remains, and every remaining entry came from the snapshot. |
| Backlog.KeptNone | InternAssignment/AddProduct/ViewModel/AddProductViewModel.swift:276-281 | With no recorded index, the backlog is unchanged. |
| Decimal.DigitChar | InternAssignment/AddProduct/ViewModel/AddProductViewModel.swift:284 | A digit's character is in `'0'...'9'` and has that digit's value. |
| Decimal.NatToString | InternAssignment/AddProduct/ViewModel/AddProductViewModel.swift:284 | `"\(count)"`: a non-empty string of digits, one digit exactly below 10, and no leading zero. |
| Decimal.IntToString | InternAssignment/AddProduct/ViewModel/AddProductViewModel.swift:110 | `"\(statusCode)"`: a minus sign exactly for negative codes, followed by digits. |
| Decimal.NatToStringRoundTrip | InternAssignment/AddProduct/ViewModel/AddProductViewModel.swift:284 | Reading back the digits of a count gives the count, so the message reports the true number. |
| Decimal.IntToStringRoundTrip | InternAssignment/AddProduct/ViewModel/AddProductViewModel.swift:110 | Reading back a rendered status code gives the code, so the error message identifies it. |
| Decimal.NegativeRoundTrip | InternAssignment/AddProduct/ViewModel/AddProductViewModel.swift:110 | The negative case of the status code round trip. |
| Submission.EntryJpeg | InternAssignment/AddProduct/ViewModel/AddProductViewModel.swift:255-259 | An entry without an `image_name` is sent without image bytes. An entry with one gets the bytes that loading and encoding that file give. |
| Submission.DrainRequests | InternAssignment/AddProduct/ViewModel/AddProductViewModel.swift:243-272 | The drain sends at most one request per saved entry. |
| Submission.DrainRequestsSpec | InternAssignment/AddProduct/ViewModel/AddProductViewModel.swift:243-272 | There are exactly as many requests as well-formed entries, and none for an entry missing a field. The request of each well-formed entry is built from its own fields, UUID and image, and its position follows the well-formed entries before it. |
| Submission.UnnamedImageSendsTextOnly | InternAssignment/AddProduct/ViewModel/AddProductViewModel.swift:255-259 | An entry without an `image_name` is uploaded with the four text parts and the close delimiter only, with no `files[]` part. |
| Submission.BuildEntryRequest | InternAssignment/AddProduct/ViewModel/AddProductViewModel.swift:247-266 | The loop body loads the image only when the entry names one, and builds exactly that entry's request. |
| Submission.DrainSuccessesSpec | InternAssignment/AddProduct/ViewModel/AddProductViewModel.swift:243-272 | The drain records an index exactly when the entry has all four string fields and its upload got a 2xx status. No index is recorded twice, and every index is inside the snapshot. |
| Submission.SendBacklog | InternAssignment/AddProduct/ViewModel/AddProductViewModel.swift:243-272 | The drain loop sends exactly `DrainRequests` and records exactly `DrainSuccesses`, whose contents DrainRequestsSpec and DrainSuccessesSpec state. |
| Submission.BuildRequest | InternAssignment/AddProduct/ViewModel/AddProductViewModel.swift:298-323 | Both overloads build the same request: Content-Type `multipart/form-data; boundary=Boundary-<uuid>`, and the body `EncodeBody`. |
| Submission.RemoveInOrder | InternAssignment/AddProduct/ViewModel/AddProductViewModel.swift:277-281 | The removal loop applies `remove(at:)` for each index in turn. |
| Submission.DistinctCount | InternAssignment/AddProduct/ViewModel/AddProductViewModel.swift:284 | A list of distinct indices has as many elements as its set, so the reported count equals the number of removed entries. |
| Submission.WriteBackSpec | InternAssignment/AddProduct/ViewModel/AddProductViewModel.swift:276-282 | The written-back backlog has one entry fewer per success and keeps its order. It keeps every entry that was not uploaded and holds nothing else. |
| Submission.MalformedEntriesSurvive | InternAssignment/AddProduct/ViewModel/AddProductViewModel.swift:247-253 | A saved entry missing one of the four string fields is skipped by every drain and stays in the backlog for ever. |
| Submission.EntrySavedDuringDrainIsLost | InternAssignment/AddProduct/ViewModel/AddProductViewModel.swift:277-282 | The write-back is computed from the snapshot, so an entry saved while the uploads were in flight is not in the stored backlog afterwards. |
| Submission.AddProductViewModel.constructor | InternAssignment/AddProduct/ViewModel/AddProductViewModel.swift:12-42 | Empty form, all flags off, the persisted backlog, and nothing sent. |
| Submission.AddProductViewModel.NewEntry | InternAssignment/AddProduct/ViewModel/AddProductViewModel.swift:136-207 | The saved entry of a valid form carries the form's four fields. It names an image file only when an image was selected and encodes to JPEG, since `saveImageLocally` returns nil otherwise. |
| Submission.AddProductViewModel.AddProduct | InternAssignment/AddProduct/ViewModel/AddProductViewModel.swift:48-61 | An invalid form sets only the error message. A valid form sends exactly one request when connected, or appends exactly one entry to the backlog when offline. The form itself is left unchanged. |
| Submission.AddProductViewModel.UploadProductToServer | InternAssignment/AddProduct/ViewModel/AddProductViewModel.swift:63-98 | Starts the spinner and sends exactly one request, built from the given fields and the image's JPEG bytes. |
| Submission.AddProductViewModel.CompleteUpload | InternAssignment/AddProduct/ViewModel/AddProductViewModel.swift:100-113 | The spinner stops. A status in 200...299 reports success. Anything else reports its error and shows no success banner. A failed product is not saved for later. |
| Submission.AddProductViewModel.SaveProductLocally | InternAssignment/AddProduct/ViewModel/AddProductViewModel.swift:136-175 | Appends exactly the new entry to the end of the backlog, which starts empty when the key is missing, and shows the saved-locally message. |
| Submission.AddProductViewModel.UploadSavedProducts | InternAssignment/AddProduct/ViewModel/AddProductViewModel.swift:231-272 | A missing or empty backlog sends nothing. Otherwise it sends one request per well-formed entry and returns the snapshot with its recorded successes, which is a valid pending drain. |
| Submission.AddProductViewModel.FinishDrain | InternAssignment/AddProduct/ViewModel/AddProductViewModel.swift:274-289 | With no success, nothing changes. Otherwise the backlog becomes the snapshot without the uploaded entries, one entry fewer per success, and the count is reported. |
| Submission.AddProductViewModel.OnConnectivityChange | InternAssignment/AddProduct/ViewModel/AddProductViewModel.swift:31-42 | Records the connectivity. Going offline sends nothing. Coming online starts a drain of the current backlog. |
| Validation.FirstFailureIsFirst | InternAssignment/AddProduct/View/AddProductView.swift:199-231 | The first failure wins: the chain stops at a check exactly when that check fails and every earlier check passes. |
| Validation.NoFailureIffAllPass | InternAssignment/AddProduct/View/AddProductView.swift:199-231 | The form reaches `addProduct` exactly when all five checks pass. |
| Validation.PassingFormIsValid | InternAssignment/AddProduct/View/AddProductView.swift:199-230 | A form that passes the chain also satisfies `isFormValid`, so `addProduct`'s guard never fires after validation. |
| Validation.ZeroTaxAccepted | InternAssignment/AddProduct/View/AddProductView.swift:212-216 | A tax of 0 is accepted: only a negative tax is rejected. |
| Validation.NonPositivePriceRejected | InternAssignment/AddProduct/View/AddProductView.swift:206-210 | With a name filled in, a price of 0 or less stops the chain at the price check. |
| Validation.AddProductView.constructor | InternAssignment/AddProduct/View/AddProductView.swift:20-21 | No alert is shown at first. |
| Validation.AddProductView.ValidateFields | InternAssignment/AddProduct/View/AddProductView.swift:199-231 | Raises the alert of the first failing check and leaves the view model entirely unchanged. When every check passes, it raises no alert, leaves the form alone, and has `addProduct`'s effects. Connected: the spinner is on, exactly one request is sent, and the backlog and messages are unchanged. Offline: exactly one entry is appended to the backlog, nothing is sent, and the saved-locally message is shown. |
| Validation.AddProductView.ValidateImage | InternAssignment/AddProduct/View/AddProductView.swift:233-241 | Drops exactly the images whose width equals their height and shows the 1:1 alert. Keeps every other image, and does nothing without an image. |
| ProductList.ContainsIffOccurs | InternAssignment/ProductList/View/ProductListView.swift:122 | `contains` holds exactly when the search text occurs as a contiguous slice of the name. |
| ProductList.FilteredIsOneFilter | InternAssignment/ProductList/View/ProductListView.swift:114-126 | The two conditional filters are one filter by "in category and matches search". |
| ProductList.AllWithoutSearchIsIdentity | InternAssignment/ProductList/View/ProductListView.swift:114-126 | Under "All" with an empty search, every product is shown in its order. |
| ProductList.ShownIff | InternAssignment/ProductList/View/ProductListView.swift:117-123 | A product passes exactly when its type matches the category (unless "All") and its name contains the search (unless empty), both lowercased. |
| ProductList.FilteredMembers | InternAssignment/ProductList/View/ProductListView.swift:114-126 | The shown products are exactly the listed products that pass both filters. |
| ProductList.FilteredIsSubsequence | InternAssignment/ProductList/View/ProductListView.swift:114-126 | The shown products keep the server's order. |
| ProductList.FilteredIdempotent | InternAssignment/ProductList/View/ProductListView.swift:114-126 | Filtering the shown list again with the same settings changes nothing. |
| ProductList.FirstWithId | InternAssignment/ProductList/View/ProductListView.swift:290 | `first(where:)` returns the first favorite carrying the id, and None exactly when no favorite carries it. |
| ProductList.NewFavorite | InternAssignment/ProductList/View/ProductListView.swift:295-301 | The new favorite carries the product's id and is marked favourite. |
| ProductList.IndexOfObject | InternAssignment/ProductList/View/ProductListView.swift:402-406 | Finds the position of the object to delete, or reports that it is absent. |
| ProductList.FreshObjectId | InternAssignment/ProductList/View/ProductListView.swift:295 | A new object gets an identity that no stored favorite has. |
| ProductList.FavoriteStore.constructor | InternAssignment/ProductList/View/ProductListView.swift:17-21 | The store holds exactly the persisted favorites that the fetch loads, each a distinct object. |
| ProductList.FavoriteStore.IsFavorite | InternAssignment/ProductList/View/ProductListView.swift:283-285 | A product is a favorite exactly when some stored favorite carries its id. |
| ProductList.FavoriteStore.ToggleFavorite | InternAssignment/ProductList/View/ProductListView.swift:289-310 | Deletes the first favorite with the product's id, or adds one favorite at the end if there is none. The favorite status of the product flips (given unique ids). Ids stay unique, and every other product's status is unchanged. |
| ProductList.FavoriteStore.DeleteFavoriteProduct | InternAssignment/ProductList/View/ProductListView.swift:100-112 | Deletes exactly the given object. Every other favorite stays, in its order. The copy at ProductListView.swift:402-412 has the same body. |

## Left out

- Networking: the HTTPS request, `URLSession` and its threading. A sent request is appended to
  `outbox`, and its outcome is a parameter.
- The `URL(string:)` guard: the URL is a fixed valid literal, so the "Invalid URL." and
  `completion(false)` branches cannot be reached and are not modelled.
- A response that is not an `HTTPURLResponse`: the forced cast at AddProductViewModel.swift:110
  would crash. An HTTPS data task always yields an HTTP response, so `UploadOutcome` has no such
  case.
- The drain overload's `print` of status code `-1` has no effect on state and is not modelled.
- `ConnectivityMonitor` (`NWPathMonitor`): the monitor starts at `true`, so the subscription
  drains once at start-up. The model's constructor sets `isConnected` to false and leaves every
  emitted value, including the first, to `OnConnectivityChange`.
- Concurrency of the drain: `DispatchGroup`, and the order in which uploads complete. The model
  records successes in index order. `FinishDrain` accepts any duplicate-free order, and
  SortedDescendingIsUnique shows that the sorted removal order does not depend on it.
- `[weak self]` in the notify block: a deallocated view model skips the message but still writes
  the backlog. The model always has its view model.
- Two `AddProductViewModel` instances: the app creates one as an environment object
  (InternAssignmentApp.swift:15) and `AddProductView` another as its `@StateObject`
  (AddProductView.swift:14). Both read and write the one process-wide `UserDefaults` key
  `"savedProducts"`, and each has its own `ConnectivityMonitor` that drains at start. So one
  instance can upload an entry the other saved, or overwrite it in its write-back. The model gives
  each instance its own `savedProducts` field and does not capture these cross-instance races.
  Within one instance, EntrySavedDuringDrainIsLost shows the same kind of race.
- `UserDefaults.synchronize`, the verification read-back and `printSavedProductData` only print
  or flush, and are not modelled.
- `saveImageLocally`, `loadImageFromLocal` and `jpegData(compressionQuality:)` are file I/O and
  image encoding. Their results (an optional file name, optional JPEG bytes) are parameters.
- `Double(...)` parsing is a parameter returning `Option<real>`. A string that parses to NaN
  passes the price check in Swift, because `NaN <= 0` is false. `real` has no NaN, so the model
  does not capture this case.
- `lowercased()` is modelled for ASCII letters only. Unicode case mapping is not modelled.
- Swift compares `String`s by `Character` under canonical equivalence, both in the category
  test and in `contains`. The model compares sequences of Unicode scalars instead: category
  equality is sequence equality, and search is a contiguous slice. For example, `"Caf\u{e9}"`
  and `"Cafe\u{301}"` are equal in Swift but not in the model. The two agree on text without
  combining sequences, such as ASCII.
- The favorites `@FetchRequest` sorts by name. The model keeps the store in the order it was
  loaded, with new favorites at the end. This does not affect `isFavorite` or deletion. It does
  not affect `toggleFavorite` either, as long as no two favorites share an id. With a duplicated
  id, `first(where:)` in name order may delete a different copy than the model does.
- Image sizes are `CGFloat` in the source and integers in the model. `validateImage` only
  compares width with height for equality, so the loss of fractional sizes does not change
  which images it rejects, as long as sizes are whole points.
- `Product.id` is a fresh `UUID()` at every decode, so favorites stop matching after a refetch.
  The model takes `id` as given.
- `moc.save()` failures only print, so they are not modelled.
- ProductList.NewFavorite: the `tax` attribute keeps its default of 0, because `toggleFavorite`
  does not copy it.
- Core Data persistence, `CoreDataManager`, `ProductListViewModel.fetchProducts`, the image
  picker and all SwiftUI layout are outside this model.
