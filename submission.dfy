/**
 * `AddProductViewModel`: the product form's fields and status flags, the offline backlog
 * stored under "savedProducts", the requests handed to the network, and the drain that
 * uploads the backlog when the connection comes back.
 *
 * The network is modelled by its inputs and outputs: each request the model sends is appended
 * to `outbox`, and the outcome of an upload (a transport error or an HTTP status code) is a
 * parameter of the method that handles the completion.
 */
module Submission {
  import opened Wrappers
  import opened Utf8
  import opened Seqs
  import opened Multipart
  import opened Backlog
  import opened Decimal

  /** A picked photo: its size in points, and its JPEG encoding at quality 0.8 if the encoder gives one. */
  datatype Image = Image(width: int, height: int, jpeg: Option<seq<Byte>>)

  /** How one upload ended: the transport failed, or an HTTP response came back. */
  datatype UploadOutcome =
    | TransportError(description: string)
    | HttpStatus(statusCode: int)

  /** A POST to the add-product endpoint: its Content-Type header value and its body. */
  datatype Request = Request(contentType: string, body: seq<Byte>)

  /**
   * What the drain needs from the outside world for one saved entry: the UUID of its boundary
   * and how its upload ends. The entry's image comes from its `image_name` through the
   * drain's `loadJpeg` parameter (see EntryJpeg).
   */
  datatype Attempt = Attempt(uuid: string, outcome: UploadOutcome)

  /**
   * A drain whose uploads have all completed but whose `dispatchGroup.notify` block has not run:
   * the snapshot it read, and the indices whose upload succeeded.
   */
  datatype PendingDrain = PendingDrain(snapshot: seq<Entry>, successfulUploads: seq<nat>)

  const InvalidFormMessage := "Please ensure all fields are filled out correctly."
  const SavedLocallyMessage := "Product saved locally due to no internet connection."
  const AddedMessage := "Product added successfully!"

  /** An upload succeeds when no transport error occurred and the status is in 200...299. */
  predicate Succeeded(o: UploadOutcome) {
    o.HttpStatus? && 200 <= o.statusCode <= 299
  }

  /** The message the foreground completion shows when the upload did not succeed. */
  function FailureMessage(o: UploadOutcome): (r: string) {
    match o
    case TransportError(description) => "Error: " + description
    case HttpStatus(code) => "Error: Server returned status code " + IntToString(code) + "."
  }

  /** The message of a drain's `notify` block after `count` successful uploads. */
  function DrainMessage(count: nat): (r: string) {
    "Successfully uploaded " + NatToString(count) + " saved products"
  }

  /** The boundary of a request, from a fresh UUID string. */
  function Boundary(uuid: string): (r: string) {
    "Boundary-" + uuid
  }

  /** The request `uploadProductToServer` sends for these fields and JPEG bytes. */
  function UploadRequest(uuid: string, f: Fields, jpeg: Option<seq<Byte>>): (r: Request) {
    Request("multipart/form-data; boundary=" + Boundary(uuid), EncodeBody(Boundary(uuid), f, jpeg))
  }

  /** The four string fields of a well-formed saved entry. */
  function EntryFields(e: Entry): (r: Fields)
    requires e.WellFormed()
  {
    Fields(e.productName.value, e.price.value, e.tax.value, e.productType.value)
  }

  /**
   * The JPEG bytes the drain sends for a saved entry: none without an `image_name`; otherwise
   * whatever `loadJpeg` gives for that file (None when the file cannot be loaded or encoded).
   */
  function EntryJpeg(e: Entry, loadJpeg: string -> Option<seq<Byte>>): (r: Option<seq<Byte>>)
    ensures e.imageName.None? ==> r.None?
  {
    match e.imageName
    case None => None
    case Some(name) => loadJpeg(name)
  }

  /** The request the drain sends for entry `i` of its snapshot. */
  function EntryRequest(snapshot: seq<Entry>, attempts: seq<Attempt>, loadJpeg: string -> Option<seq<Byte>>, i: nat): (r: Request)
    requires i < |snapshot| == |attempts| && snapshot[i].WellFormed()
  {
    UploadRequest(attempts[i].uuid, EntryFields(snapshot[i]), EntryJpeg(snapshot[i], loadJpeg))
  }

  /** The requests the drain sends for the first `n` entries of its snapshot. */
  function DrainRequests(snapshot: seq<Entry>, attempts: seq<Attempt>, loadJpeg: string -> Option<seq<Byte>>, n: nat): (r: seq<Request>)
    requires n <= |snapshot| == |attempts|
    ensures |r| <= n
  {
    if n == 0 then []
    else
      DrainRequests(snapshot, attempts, loadJpeg, n - 1)
        + (if snapshot[n - 1].WellFormed() then [EntryRequest(snapshot, attempts, loadJpeg, n - 1)] else [])
  }

  /** How many of the first `i` entries are well-formed. */
  function WellFormedBefore(snapshot: seq<Entry>, i: nat): (c: nat)
    requires i <= |snapshot|
    ensures c <= i
  {
    if i == 0 then 0 else WellFormedBefore(snapshot, i - 1) + (if snapshot[i - 1].WellFormed() then 1 else 0)
  }

  /**
   * The drain sends one request per well-formed entry and none for an entry missing a field:
   * there are as many requests as well-formed entries, and the request of well-formed entry
   * `i`, built from its own fields, UUID and image, comes after those of the well-formed
   * entries before it.
   */
  lemma {:induction false} DrainRequestsSpec(snapshot: seq<Entry>, attempts: seq<Attempt>, loadJpeg: string -> Option<seq<Byte>>, n: nat)
    requires n <= |snapshot| == |attempts|
    ensures var r := DrainRequests(snapshot, attempts, loadJpeg, n);
      |r| == WellFormedBefore(snapshot, n)
      && forall i :: 0 <= i < n && snapshot[i].WellFormed() ==>
           WellFormedBefore(snapshot, i) < |r|
           && r[WellFormedBefore(snapshot, i)] == EntryRequest(snapshot, attempts, loadJpeg, i)
  {
    if n > 0 {
      DrainRequestsSpec(snapshot, attempts, loadJpeg, n - 1);
      var prev := DrainRequests(snapshot, attempts, loadJpeg, n - 1);
      var r := DrainRequests(snapshot, attempts, loadJpeg, n);
      assert r[..|prev|] == prev;
      forall i | 0 <= i < n && snapshot[i].WellFormed()
        ensures WellFormedBefore(snapshot, i) < |r|
        ensures r[WellFormedBefore(snapshot, i)] == EntryRequest(snapshot, attempts, loadJpeg, i)
      {
        if i < n - 1 {
          assert r[WellFormedBefore(snapshot, i)] == r[..|prev|][WellFormedBefore(snapshot, i)];
        }
      }
    }
  }

  /**
   * A saved entry without an `image_name` is sent with the four text parts and no file part,
   * whatever `loadJpeg` would give.
   */
  lemma UnnamedImageSendsTextOnly(snapshot: seq<Entry>, attempts: seq<Attempt>, loadJpeg: string -> Option<seq<Byte>>, i: nat)
    requires i < |snapshot| == |attempts| && snapshot[i].WellFormed() && snapshot[i].imageName.None?
    ensures EntryRequest(snapshot, attempts, loadJpeg, i).body
         == Encode(TextSection(Boundary(attempts[i].uuid), EntryFields(snapshot[i]))
                   + CloseDelimiter(Boundary(attempts[i].uuid)))
  {
    EncodeBodyWithoutImage(Boundary(attempts[i].uuid), EntryFields(snapshot[i]));
  }

  /**
   * The indices among the first `n` whose upload the drain records as successful, in
   * increasing order: exactly the well-formed entries whose upload succeeded.
   */
  function DrainSuccesses(snapshot: seq<Entry>, attempts: seq<Attempt>, n: nat): (r: seq<nat>)
    requires n <= |snapshot| == |attempts|
  {
    if n == 0 then []
    else
      var e := snapshot[n - 1];
      DrainSuccesses(snapshot, attempts, n - 1)
        + (if e.WellFormed() && Succeeded(attempts[n - 1].outcome) then [n - 1] else [])
  }

  /**
   * The drain records, in increasing order, exactly the indices below `n` of the well-formed
   * entries whose upload succeeded.
   */
  lemma {:induction false} DrainSuccessesSpec(snapshot: seq<Entry>, attempts: seq<Attempt>, n: nat)
    requires n <= |snapshot| == |attempts|
    ensures var r := DrainSuccesses(snapshot, attempts, n);
      (forall i, j :: 0 <= i < j < |r| ==> r[i] < r[j])
      && (forall k :: 0 <= k < |r| ==> r[k] < n)
      && forall i :: 0 <= i < n ==> (i in r <==> snapshot[i].WellFormed() && Succeeded(attempts[i].outcome))
  {
    if n > 0 {
      DrainSuccessesSpec(snapshot, attempts, n - 1);
    }
  }

  /** No index is recorded twice and each one is inside the snapshot. */
  predicate ValidPending(p: PendingDrain) {
    (forall i, j :: 0 <= i < j < |p.successfulUploads| ==> p.successfulUploads[i] != p.successfulUploads[j])
    && forall k :: 0 <= k < |p.successfulUploads| ==> p.successfulUploads[k] < |p.snapshot|
  }

  /** What the drain writes back: the snapshot without the entries that were uploaded. */
  function WriteBack(p: PendingDrain): (r: seq<Entry>) {
    Kept(p.snapshot, Indices(p.successfulUploads))
  }

  /** The builder shared by both `uploadProductToServer` overloads. */
  method BuildRequest(uuid: string, f: Fields, jpeg: Option<seq<Byte>>) returns (request: Request)
    ensures request == UploadRequest(uuid, f, jpeg)
  {
    var boundary := Boundary(uuid);
    var body := BuildUploadBody(boundary, f, jpeg);
    request := Request("multipart/form-data; boundary=" + boundary, body);
  }

  /**
   * The removal loop of the `notify` block: `remove(at:)` for each index of `order` in turn,
   * on a copy of the snapshot.
   */
  method RemoveInOrder(snapshot: seq<Entry>, order: seq<nat>) returns (remaining: seq<Entry>)
    requires ValidRemovalOrder(snapshot, order)
    ensures remaining == RemoveEach(snapshot, order)
  {
    remaining := snapshot;
    var k := 0;
    while k < |order|
      invariant 0 <= k <= |order|
      invariant ValidRemovalOrder(remaining, order[k..])
      invariant RemoveEach(remaining, order[k..]) == RemoveEach(snapshot, order)
    {
      assert order[k..][1..] == order[k + 1..];
      remaining := RemoveAt(remaining, order[k]);
      k := k + 1;
    }
    assert order[k..] == [];
  }

  /**
   * The loop body's request for a well-formed saved entry: its image is loaded only when it
   * has an `image_name`, then the request is built as the foreground upload builds it.
   */
  method BuildEntryRequest(snapshot: seq<Entry>, attempts: seq<Attempt>, loadJpeg: string -> Option<seq<Byte>>, i: nat)
    returns (request: Request)
    requires i < |snapshot| == |attempts| && snapshot[i].WellFormed()
    ensures request == EntryRequest(snapshot, attempts, loadJpeg, i)
  {
    var e := snapshot[i];
    var jpeg: Option<seq<Byte>> := None;
    if e.imageName.Some? {
      jpeg := loadJpeg(e.imageName.value);
    }
    request := BuildRequest(attempts[i].uuid, EntryFields(e), jpeg);
  }

  /** One more entry of the drain: what it adds to the requests and to the recorded successes. */
  lemma DrainStep(snapshot: seq<Entry>, attempts: seq<Attempt>, loadJpeg: string -> Option<seq<Byte>>, i: nat)
    requires i < |snapshot| == |attempts|
    ensures var e := snapshot[i];
      DrainRequests(snapshot, attempts, loadJpeg, i + 1) == DrainRequests(snapshot, attempts, loadJpeg, i)
        + (if e.WellFormed() then [EntryRequest(snapshot, attempts, loadJpeg, i)] else [])
    ensures var e := snapshot[i];
      DrainSuccesses(snapshot, attempts, i + 1) == DrainSuccesses(snapshot, attempts, i)
        + (if e.WellFormed() && Succeeded(attempts[i].outcome) then [i] else [])
  {
  }

  /**
   * The loop of `uploadSavedProducts`: for each saved entry in turn, a well-formed one is sent
   * and, when its upload succeeds, its index is recorded; an entry missing a field is skipped.
   */
  method SendBacklog(snapshot: seq<Entry>, attempts: seq<Attempt>, loadJpeg: string -> Option<seq<Byte>>)
    returns (sent: seq<Request>, successfulUploads: seq<nat>)
    requires |snapshot| == |attempts|
    ensures sent == DrainRequests(snapshot, attempts, loadJpeg, |snapshot|)
    ensures successfulUploads == DrainSuccesses(snapshot, attempts, |snapshot|)
  {
    successfulUploads, sent := [], [];
    var i := 0;
    while i < |snapshot|
      invariant 0 <= i <= |snapshot|
      invariant successfulUploads == DrainSuccesses(snapshot, attempts, i)
      invariant sent == DrainRequests(snapshot, attempts, loadJpeg, i)
    {
      var e := snapshot[i];
      DrainStep(snapshot, attempts, loadJpeg, i);
      if e.WellFormed() {
        var request := BuildEntryRequest(snapshot, attempts, loadJpeg, i);
        sent := sent + [request];
        if Succeeded(attempts[i].outcome) {
          successfulUploads := successfulUploads + [i];
        }
      }
      i := i + 1;
    }
  }

  /** A list of distinct indices has as many elements as its set. */
  lemma {:induction false} DistinctCount(xs: seq<nat>)
    requires forall i, j :: 0 <= i < j < |xs| ==> xs[i] != xs[j]
    ensures |Indices(xs)| == |xs|
  {
    if xs != [] {
      var init := xs[..|xs| - 1];
      DistinctCount(init);
      assert Indices(xs) == Indices(init) + {xs[|xs| - 1]};
      assert xs[|xs| - 1] !in Indices(init);
    }
  }

  /**
   * The drain's write-back keeps exactly the entries whose index was not recorded as a
   * success, in their order, and removes one entry per success.
   */
  lemma WriteBackSpec(p: PendingDrain)
    requires ValidPending(p)
    ensures |WriteBack(p)| == |p.snapshot| - |p.successfulUploads|
    ensures IsSubsequence(WriteBack(p), p.snapshot)
    ensures forall i :: 0 <= i < |p.snapshot| && i !in p.successfulUploads ==> p.snapshot[i] in WriteBack(p)
    ensures forall e :: e in WriteBack(p) ==> e in p.snapshot
  {
    var S := Indices(p.successfulUploads);
    DistinctCount(p.successfulUploads);
    KeptLength(p.snapshot, S);
    KeptIsSubsequence(p.snapshot, S);
    KeptMembers(p.snapshot, S);
  }

  /**
   * A saved entry that lacks one of the four string fields is never uploaded, so the drain
   * never records it and it is still there after the write-back.
   */
  lemma MalformedEntriesSurvive(snapshot: seq<Entry>, attempts: seq<Attempt>, i: nat)
    requires |snapshot| == |attempts| && i < |snapshot| && !snapshot[i].WellFormed()
    ensures snapshot[i] in WriteBack(PendingDrain(snapshot, DrainSuccesses(snapshot, attempts, |snapshot|)))
  {
    var succ := DrainSuccesses(snapshot, attempts, |snapshot|);
    DrainSuccessesSpec(snapshot, attempts, |snapshot|);
    KeptMembers(snapshot, Indices(succ));
  }

  /**
   * The write-back is computed from the snapshot, so an entry that is not in it (one saved
   * offline while the uploads were in flight) is not in what the drain stores.
   */
  lemma EntrySavedDuringDrainIsLost(p: PendingDrain, e: Entry)
    requires e !in p.snapshot
    ensures e !in WriteBack(p)
  {
    KeptMembers(p.snapshot, Indices(p.successfulUploads));
  }

  class AddProductViewModel {
    var productName: string
    var price: string
    var tax: string
    var productType: string
    var selectedImage: Option<Image>

    var isLoading: bool
    var message: string
    var isSuccessful: bool
    var showSuccessMessage: bool
    var isConnected: bool

    /**
     * The value stored under "savedProducts": None when the key is absent or does not hold
     * an array of dictionaries.
     */
    var savedProducts: Option<seq<Entry>>

    /** Every request handed to the network so far, in order. */
    var outbox: seq<Request>

    /**
     * A fresh view model over the persisted backlog `stored`. The connectivity subscription
     * is `OnConnectivityChange`, which the caller invokes for each value the monitor emits.
     */
    constructor (stored: Option<seq<Entry>>)
      ensures productName == "" && price == "" && tax == "" && productType == ""
      ensures selectedImage == None
      ensures !isLoading && message == "" && !isSuccessful && !showSuccessMessage && !isConnected
      ensures savedProducts == stored && outbox == []
    {
      productName, price, tax, productType := "", "", "", "";
      selectedImage := None;
      isLoading, message, isSuccessful, showSuccessMessage := false, "", false, false;
      isConnected := false;
      savedProducts := stored;
      outbox := [];
    }

    /** `isFormValid`: the four text fields are filled in. */
    predicate IsFormValid()
      reads this
    {
      productName != "" && price != "" && tax != "" && productType != ""
    }

    /** The form's four text fields. */
    function Form(): (r: Fields)
      reads this
    {
      Fields(productName, price, tax, productType)
    }

    /** The JPEG bytes of the selected image, if there is one and it encodes. */
    function SelectedJpeg(): (r: Option<seq<Byte>>)
      reads this
    {
      match selectedImage
      case None => None
      case Some(image) => image.jpeg
    }

    /** The backlog entry `saveProductLocally` builds from the form. */
    function NewEntry(imageFile: Option<string>, timestamp: real): (e: Entry)
      reads this
      ensures IsFormValid() ==> e.WellFormed() && EntryFields(e) == Form()
      ensures e.imageName.Some? ==> SelectedJpeg().Some?
    {
      Entry(Some(productName), Some(price), Some(tax), Some(productType), timestamp,
            if SelectedJpeg().Some? then imageFile else None)
    }

    /**
     * `addProduct`. An invalid form only sets the error message. Otherwise, when connected,
     * the product is uploaded in the foreground (its completion is `CompleteUpload`); when
     * offline it is appended to the backlog. `uuid` is the boundary's fresh UUID; `imageFile`
     * is the name `saveImageLocally` returns; `timestamp` is the current time.
     */
    method AddProduct(uuid: string, imageFile: Option<string>, timestamp: real)
      modifies this
      ensures productName == old(productName) && price == old(price) && tax == old(tax)
      ensures productType == old(productType) && selectedImage == old(selectedImage)
      ensures isConnected == old(isConnected)
      ensures !old(IsFormValid()) ==>
        message == InvalidFormMessage && savedProducts == old(savedProducts) && outbox == old(outbox)
        && isLoading == old(isLoading) && isSuccessful == old(isSuccessful)
        && showSuccessMessage == old(showSuccessMessage)
      ensures old(IsFormValid()) && isConnected ==>
        isLoading && outbox == old(outbox) + [UploadRequest(uuid, Form(), SelectedJpeg())]
        && savedProducts == old(savedProducts) && message == old(message)
        && isSuccessful == old(isSuccessful) && showSuccessMessage == old(showSuccessMessage)
      ensures old(IsFormValid()) && !isConnected ==>
        savedProducts == Some(old(savedProducts).GetOr([]) + [old(NewEntry(imageFile, timestamp))])
        && outbox == old(outbox) && isLoading == old(isLoading)
        && message == SavedLocallyMessage && !isSuccessful && showSuccessMessage
    {
      if !IsFormValid() {
        message := InvalidFormMessage;
        return;
      }
      if isConnected {
        UploadProductToServer(uuid, Form(), selectedImage);
      } else {
        SaveProductLocally(imageFile, timestamp);
      }
    }

    /**
     * The foreground `uploadProductToServer`: shows the spinner and sends the request built
     * from `f` and the image's JPEG bytes.
     */
    method UploadProductToServer(uuid: string, f: Fields, image: Option<Image>)
      modifies this`isLoading, this`outbox
      ensures isLoading
      ensures outbox == old(outbox)
        + [UploadRequest(uuid, f, if image.Some? then image.value.jpeg else None)]
    {
      isLoading := true;
      var jpeg := if image.Some? then image.value.jpeg else None;
      var request := BuildRequest(uuid, f, jpeg);
      outbox := outbox + [request];
    }

    /**
     * The completion of the foreground upload: hides the spinner and reports the outcome.
     * A failed upload is reported and dropped; it is not added to the backlog.
     */
    method CompleteUpload(outcome: UploadOutcome)
      modifies this`isLoading, this`message, this`isSuccessful, this`showSuccessMessage
      ensures !isLoading
      ensures Succeeded(outcome) ==> message == AddedMessage && isSuccessful && showSuccessMessage
      ensures !Succeeded(outcome) ==>
        message == FailureMessage(outcome) && showSuccessMessage == old(showSuccessMessage)
      ensures outcome.HttpStatus? && !Succeeded(outcome) ==> !isSuccessful
      ensures outcome.TransportError? ==> isSuccessful == old(isSuccessful)
    {
      isLoading := false;
      match outcome {
        case TransportError(description) =>
          message := "Error: " + description;
        case HttpStatus(code) =>
          if 200 <= code <= 299 {
            message := AddedMessage;
            isSuccessful := true;
            showSuccessMessage := true;
          } else {
            message := "Error: Server returned status code " + IntToString(code) + ".";
            isSuccessful := false;
          }
      }
    }

    /** `saveProductLocally`: appends the form as a new entry at the end of the backlog. */
    method SaveProductLocally(imageFile: Option<string>, timestamp: real)
      modifies this`savedProducts, this`message, this`isSuccessful, this`showSuccessMessage
      ensures savedProducts == Some(old(savedProducts).GetOr([]) + [NewEntry(imageFile, timestamp)])
      ensures message == SavedLocallyMessage && !isSuccessful && showSuccessMessage
    {
      var entry := NewEntry(imageFile, timestamp);
      var stored := savedProducts.GetOr([]);
      stored := stored + [entry];
      savedProducts := Some(stored);
      message := SavedLocallyMessage;
      isSuccessful := false;
      showSuccessMessage := true;
    }

    /**
     * `uploadSavedProducts` up to its `notify` block: reads the backlog, sends one request per
     * well-formed entry, and records the index of each entry whose upload succeeds. A missing
     * or empty backlog sends nothing and returns None. `attempts[i]` describes entry `i`;
     * `loadJpeg` stands for `loadImageFromLocal` followed by the JPEG encoder.
     */
    method UploadSavedProducts(attempts: seq<Attempt>, loadJpeg: string -> Option<seq<Byte>>) returns (pending: Option<PendingDrain>)
      requires savedProducts.Some? ==> |attempts| == |savedProducts.value|
      modifies this`outbox
      ensures savedProducts == None || savedProducts == Some([]) ==>
        pending == None && outbox == old(outbox)
      ensures savedProducts.Some? && savedProducts.value != [] ==>
        var snapshot := savedProducts.value;
        pending == Some(PendingDrain(snapshot, DrainSuccesses(snapshot, attempts, |snapshot|)))
        && outbox == old(outbox) + DrainRequests(snapshot, attempts, loadJpeg, |snapshot|)
      ensures pending.Some? ==> ValidPending(pending.value)
    {
      if savedProducts.None? {
        return None;
      }
      var snapshot := savedProducts.value;
      if snapshot == [] {
        return None;
      }
      var sent, successfulUploads := SendBacklog(snapshot, attempts, loadJpeg);
      DrainSuccessesSpec(snapshot, attempts, |snapshot|);
      outbox := outbox + sent;
      pending := Some(PendingDrain(snapshot, successfulUploads));
    }

    /**
     * The drain's `notify` block. With no success, nothing changes. Otherwise the recorded
     * indices are sorted largest first and removed one by one from the snapshot, the result
     * replaces the stored backlog, and the count is reported.
     */
    method FinishDrain(p: PendingDrain)
      requires ValidPending(p)
      modifies this`savedProducts, this`message, this`showSuccessMessage
      ensures p.successfulUploads == [] ==>
        savedProducts == old(savedProducts) && message == old(message)
        && showSuccessMessage == old(showSuccessMessage)
      ensures p.successfulUploads != [] ==>
        savedProducts == Some(WriteBack(p)) && |WriteBack(p)| == |p.snapshot| - |p.successfulUploads|
        && message == DrainMessage(|p.successfulUploads|) && showSuccessMessage
    {
      if p.successfulUploads == [] {
        return;
      }
      var order := Descending(Indices(p.successfulUploads), |p.snapshot|);
      var remaining := RemoveInOrder(p.snapshot, order);
      RemoveDescendingIsKept(p.snapshot, Indices(p.successfulUploads));
      WriteBackSpec(p);
      savedProducts := Some(remaining);
      message := DrainMessage(|p.successfulUploads|);
      showSuccessMessage := true;
    }

    /**
     * The connectivity subscription: records the new state and, when connected, starts a
     * drain (whose `notify` block is `FinishDrain`).
     */
    method OnConnectivityChange(connected: bool, attempts: seq<Attempt>, loadJpeg: string -> Option<seq<Byte>>) returns (pending: Option<PendingDrain>)
      requires connected && savedProducts.Some? ==> |attempts| == |savedProducts.value|
      modifies this`isConnected, this`outbox
      ensures isConnected == connected
      ensures !connected ==> pending == None && outbox == old(outbox)
      ensures connected && (savedProducts == None || savedProducts == Some([])) ==>
        pending == None && outbox == old(outbox)
      ensures connected && savedProducts.Some? && savedProducts.value != [] ==>
        var snapshot := savedProducts.value;
        pending == Some(PendingDrain(snapshot, DrainSuccesses(snapshot, attempts, |snapshot|)))
        && outbox == old(outbox) + DrainRequests(snapshot, attempts, loadJpeg, |snapshot|)
    {
      isConnected := connected;
      pending := None;
      if connected {
        pending := UploadSavedProducts(attempts, loadJpeg);
      }
    }
  }
}
