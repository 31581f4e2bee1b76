/**
 * `AddProductView`'s checks before a submission: `validateFields`, a chain of checks in a
 * fixed order where the first failure raises its alert and stops the submission, and
 * `validateImage`, which runs when an image has been picked.
 *
 * `Double(...)` is a parameter, `parseDouble`: the model only needs to know whether a field
 * parses, and to which value.
 */
module Validation {
  import opened Wrappers
  import opened Multipart
  import opened Submission

  /** The five checks of `validateFields`, in the order they run. */
  datatype FieldError = EmptyName | InvalidPrice | InvalidTax | MissingType | MissingImage

  const SquareImageMessage := "Please select an image with a 1:1 aspect ratio."

  /** The alert each failing check shows. */
  function AlertText(e: FieldError): (r: string) {
    match e
    case EmptyName => "Product name cannot be empty."
    case InvalidPrice => "Please enter a valid price."
    case InvalidTax => "Please enter a valid tax percentage."
    case MissingType => "Please select a product type."
    case MissingImage => "Please select an image."
  }

  /** The position of a check in the chain. */
  function Rank(e: FieldError): (r: nat) {
    match e
    case EmptyName => 0
    case InvalidPrice => 1
    case InvalidTax => 2
    case MissingType => 3
    case MissingImage => 4
  }

  /**
   * What each check accepts, stated on its own: a price must parse to a positive number, a
   * tax to a number that is not negative.
   */
  predicate Passes(e: FieldError, f: Fields, hasImage: bool, parseDouble: string -> Option<real>) {
    match e
    case EmptyName => f.productName != ""
    case InvalidPrice =>
      f.price != "" && parseDouble(f.price).Some? && parseDouble(f.price).value > 0.0
    case InvalidTax =>
      f.tax != "" && parseDouble(f.tax).Some? && parseDouble(f.tax).value >= 0.0
    case MissingType => f.productType != ""
    case MissingImage => hasImage
  }

  /** The check `validateFields` stops at, or None when the form goes to `addProduct`. */
  function FirstFailure(f: Fields, hasImage: bool, parseDouble: string -> Option<real>): (r: Option<FieldError>) {
    if f.productName == "" then Some(EmptyName)
    else if f.price == "" || parseDouble(f.price) == None || parseDouble(f.price).value <= 0.0 then Some(InvalidPrice)
    else if f.tax == "" || parseDouble(f.tax) == None || parseDouble(f.tax).value < 0.0 then Some(InvalidTax)
    else if f.productType == "" then Some(MissingType)
    else if !hasImage then Some(MissingImage)
    else None
  }

  /**
   * The first failure wins: the chain stops at `e` exactly when check `e` fails and every
   * check before it passes.
   */
  lemma FirstFailureIsFirst(f: Fields, hasImage: bool, parseDouble: string -> Option<real>, e: FieldError)
    ensures FirstFailure(f, hasImage, parseDouble) == Some(e) <==>
      !Passes(e, f, hasImage, parseDouble)
      && forall d :: Rank(d) < Rank(e) ==> Passes(d, f, hasImage, parseDouble)
  {
    var before := forall d :: Rank(d) < Rank(e) ==> Passes(d, f, hasImage, parseDouble);
    if before && !Passes(e, f, hasImage, parseDouble) {
      match e
      case EmptyName =>
      case InvalidPrice => assert Passes(EmptyName, f, hasImage, parseDouble);
      case InvalidTax =>
        assert Passes(EmptyName, f, hasImage, parseDouble);
        assert Passes(InvalidPrice, f, hasImage, parseDouble);
      case MissingType =>
        assert Passes(EmptyName, f, hasImage, parseDouble);
        assert Passes(InvalidPrice, f, hasImage, parseDouble);
        assert Passes(InvalidTax, f, hasImage, parseDouble);
      case MissingImage =>
        assert Passes(EmptyName, f, hasImage, parseDouble);
        assert Passes(InvalidPrice, f, hasImage, parseDouble);
        assert Passes(InvalidTax, f, hasImage, parseDouble);
        assert Passes(MissingType, f, hasImage, parseDouble);
    }
    if FirstFailure(f, hasImage, parseDouble) == Some(e) {
      forall d | Rank(d) < Rank(e)
        ensures Passes(d, f, hasImage, parseDouble)
      {
      }
    }
  }

  /** The form reaches `addProduct` exactly when all five checks pass. */
  lemma NoFailureIffAllPass(f: Fields, hasImage: bool, parseDouble: string -> Option<real>)
    ensures FirstFailure(f, hasImage, parseDouble) == None <==>
      forall e :: Passes(e, f, hasImage, parseDouble)
  {
    if forall e :: Passes(e, f, hasImage, parseDouble) {
      assert Passes(EmptyName, f, hasImage, parseDouble);
      assert Passes(InvalidPrice, f, hasImage, parseDouble);
      assert Passes(InvalidTax, f, hasImage, parseDouble);
      assert Passes(MissingType, f, hasImage, parseDouble);
      assert Passes(MissingImage, f, hasImage, parseDouble);
    }
  }

  /**
   * A form that passes the chain fills all four text fields, so `isFormValid` holds and the
   * guard of `addProduct` cannot fire on this path.
   */
  lemma PassingFormIsValid(f: Fields, hasImage: bool, parseDouble: string -> Option<real>)
    requires FirstFailure(f, hasImage, parseDouble) == None
    ensures f.productName != "" && f.price != "" && f.tax != "" && f.productType != ""
    ensures hasImage
  {
  }

  /** A tax that parses to zero passes its check: only a negative tax is rejected. */
  lemma ZeroTaxAccepted(f: Fields, hasImage: bool, parseDouble: string -> Option<real>)
    requires f.tax != "" && parseDouble(f.tax) == Some(0.0)
    ensures FirstFailure(f, hasImage, parseDouble) != Some(InvalidTax)
  {
  }

  /** A name that is filled in and a price that parses to zero or less stop the chain at the price. */
  lemma NonPositivePriceRejected(f: Fields, hasImage: bool, parseDouble: string -> Option<real>)
    requires f.productName != "" && parseDouble(f.price).Some? && parseDouble(f.price).value <= 0.0
    ensures FirstFailure(f, hasImage, parseDouble) == Some(InvalidPrice)
  {
  }

  class AddProductView {
    const viewModel: AddProductViewModel
    var alertMessage: string
    var showAlert: bool

    constructor (viewModel: AddProductViewModel)
      ensures this.viewModel == viewModel && alertMessage == "" && !showAlert
    {
      this.viewModel := viewModel;
      alertMessage := "";
      showAlert := false;
    }

    /**
     * `validateFields`: runs the checks in order; the first that fails sets its alert and
     * returns. When all pass, `addProduct` runs (with the UUID, saved image name and time it
     * needs) and `submitted` is true.
     */
    method ValidateFields(parseDouble: string -> Option<real>, uuid: string, imageFile: Option<string>, timestamp: real)
      returns (submitted: bool)
      modifies this, viewModel
      ensures var failure := FirstFailure(old(viewModel.Form()), old(viewModel.selectedImage).Some?, parseDouble);
        && (submitted <==> failure == None)
        && (failure.Some? ==> alertMessage == AlertText(failure.value) && showAlert && unchanged(viewModel))
      ensures submitted ==>
        alertMessage == old(alertMessage) && showAlert == old(showAlert)
        && old(viewModel.IsFormValid())
        && viewModel.Form() == old(viewModel.Form()) && viewModel.selectedImage == old(viewModel.selectedImage)
        && viewModel.isConnected == old(viewModel.isConnected)
      ensures submitted && viewModel.isConnected ==>
        viewModel.isLoading
        && viewModel.outbox == old(viewModel.outbox)
          + [UploadRequest(uuid, old(viewModel.Form()), old(viewModel.SelectedJpeg()))]
        && viewModel.savedProducts == old(viewModel.savedProducts) && viewModel.message == old(viewModel.message)
        && viewModel.isSuccessful == old(viewModel.isSuccessful)
        && viewModel.showSuccessMessage == old(viewModel.showSuccessMessage)
      ensures submitted && !viewModel.isConnected ==>
        viewModel.savedProducts
          == Some(old(viewModel.savedProducts).GetOr([]) + [old(viewModel.NewEntry(imageFile, timestamp))])
        && viewModel.outbox == old(viewModel.outbox) && viewModel.isLoading == old(viewModel.isLoading)
        && viewModel.message == SavedLocallyMessage && !viewModel.isSuccessful && viewModel.showSuccessMessage
    {
      submitted := false;
      if viewModel.productName == "" {
        alertMessage := AlertText(EmptyName);
        showAlert := true;
        return;
      }
      var price := parseDouble(viewModel.price);
      if viewModel.price == "" || price == None || price.value <= 0.0 {
        alertMessage := AlertText(InvalidPrice);
        showAlert := true;
        return;
      }
      var tax := parseDouble(viewModel.tax);
      if viewModel.tax == "" || tax == None || tax.value < 0.0 {
        alertMessage := AlertText(InvalidTax);
        showAlert := true;
        return;
      }
      if viewModel.productType == "" {
        alertMessage := AlertText(MissingType);
        showAlert := true;
        return;
      }
      if viewModel.selectedImage == None {
        alertMessage := AlertText(MissingImage);
        showAlert := true;
        return;
      }
      viewModel.AddProduct(uuid, imageFile, timestamp);
      submitted := true;
    }

    /**
     * `validateImage`: with no image, nothing happens. An image whose width equals its height
     * is dropped with the 1:1 alert; any other image is kept. So the check rejects exactly the
     * square images its message asks for.
     */
    method ValidateImage()
      modifies this, viewModel`selectedImage
      ensures old(viewModel.selectedImage).None? ==>
        viewModel.selectedImage == None && alertMessage == old(alertMessage) && showAlert == old(showAlert)
      ensures old(viewModel.selectedImage).Some? && old(viewModel.selectedImage).value.width == old(viewModel.selectedImage).value.height ==>
        viewModel.selectedImage == None && alertMessage == SquareImageMessage && showAlert
      ensures old(viewModel.selectedImage).Some? && old(viewModel.selectedImage).value.width != old(viewModel.selectedImage).value.height ==>
        viewModel.selectedImage == old(viewModel.selectedImage)
        && alertMessage == old(alertMessage) && showAlert == old(showAlert)
    {
      if viewModel.selectedImage.None? {
        return;
      }
      var image := viewModel.selectedImage.value;
      if image.width == image.height {
        alertMessage := SquareImageMessage;
        showAlert := true;
        viewModel.selectedImage := None;
      }
    }
  }
}
