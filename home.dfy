/**
 * The job-information page: each input edits one field of the job details
 * through a partial update, the two number inputs read their text with
 * `parseInt`/`parseFloat` and fall back to 0, and the optional photo list
 * grows by appending and shrinks by dropping one index.
 */
module HomePage {
  import opened Wrappers
  import opened InvoiceCalc
  import JsNumber
  import JsText

  /** A `Partial<JobInfo>`: the fields an update supplies. */
  datatype JobPatch = JobPatch(
    customerName: Option<string>,
    invoiceNumber: Option<string>,
    vehicleType: Option<string>,
    vehicleWeight: Option<int>,
    problemDescription: Option<string>,
    fuelSurcharge: Option<real>)

  const NoChange: JobPatch := JobPatch(None, None, None, None, None, None)

  /** The number of fields a patch supplies. */
  function Supplied(patch: JobPatch): nat {
    (if patch.customerName.Some? then 1 else 0) + (if patch.invoiceNumber.Some? then 1 else 0)
    + (if patch.vehicleType.Some? then 1 else 0) + (if patch.vehicleWeight.Some? then 1 else 0)
    + (if patch.problemDescription.Some? then 1 else 0) + (if patch.fuelSurcharge.Some? then 1 else 0)
  }

  /** The job details with the supplied fields replaced and every other field kept. */
  function Merge(job: JobInfo, patch: JobPatch): (r: JobInfo)
    ensures patch.customerName.Some? ==> r.customerName == patch.customerName.value
    ensures patch.customerName.None? ==> r.customerName == job.customerName
    ensures patch.invoiceNumber.Some? ==> r.invoiceNumber == patch.invoiceNumber.value
    ensures patch.invoiceNumber.None? ==> r.invoiceNumber == job.invoiceNumber
    ensures patch.vehicleType.Some? ==> r.vehicleType == patch.vehicleType.value
    ensures patch.vehicleType.None? ==> r.vehicleType == job.vehicleType
    ensures patch.vehicleWeight.Some? ==> r.vehicleWeight == patch.vehicleWeight.value
    ensures patch.vehicleWeight.None? ==> r.vehicleWeight == job.vehicleWeight
    ensures patch.problemDescription.Some? ==> r.problemDescription == patch.problemDescription.value
    ensures patch.problemDescription.None? ==> r.problemDescription == job.problemDescription
    ensures patch.fuelSurcharge.Some? ==> r.fuelSurcharge == patch.fuelSurcharge.value
    ensures patch.fuelSurcharge.None? ==> r.fuelSurcharge == job.fuelSurcharge
  {
    JobInfo(
      patch.customerName.GetOr(job.customerName),
      patch.invoiceNumber.GetOr(job.invoiceNumber),
      patch.vehicleType.GetOr(job.vehicleType),
      patch.vehicleWeight.GetOr(job.vehicleWeight),
      patch.problemDescription.GetOr(job.problemDescription),
      patch.fuelSurcharge.GetOr(job.fuelSurcharge))
  }

  /** An empty patch changes nothing. */
  lemma MergeNothing(job: JobInfo)
    ensures Merge(job, NoChange) == job
  {
  }

  /** Applying a patch a second time changes nothing more. */
  lemma MergeIdempotent(job: JobInfo, patch: JobPatch)
    ensures Merge(Merge(job, patch), patch) == Merge(job, patch)
  {
  }

  /** The weight input's value: `parseInt(text) || 0`, so text without digits gives 0. */
  function WeightInput(text: string): (n: int)
    ensures JsNumber.ParseInt(text).Some? ==> n == JsNumber.ParseInt(text).value
    ensures JsNumber.ParseInt(text).None? ==> n == 0
  {
    match JsNumber.ParseInt(text)
    case None => 0
    case Some(n) => n
  }

  /** The surcharge input's value: `parseFloat(text) || 0`. */
  function SurchargeInput(text: string): (x: real)
    ensures JsNumber.ParseFloat(text).Some? ==> x == JsNumber.ParseFloat(text).value
    ensures JsNumber.ParseFloat(text).None? ==> x == 0.0
  {
    match JsNumber.ParseFloat(text)
    case None => 0.0
    case Some(x) => x
  }

  /** The weight field shows `vehicleWeight || ''`: nothing for 0, the decimal text otherwise. */
  function WeightDisplay(weight: int): (text: string)
    ensures text == "" <==> weight == 0
  {
    if weight == 0 then "" else JsNumber.IntToString(weight)
  }

  /** Reading back what the weight field shows gives the weight it shows. */
  lemma WeightDisplayRoundTrip(weight: int)
    ensures WeightInput(WeightDisplay(weight)) == weight
  {
    if weight == 0 {
      JsNumber.ParseFloatWithoutDigits("");
    } else {
      JsNumber.ParseIntOfIntToString(weight);
    }
  }

  /** The weight input keeps the leading digits and ignores what follows them. */
  lemma WeightInputReadsLeadingDigits(digits: string, rest: string)
    requires digits != [] && JsNumber.AllDigits(digits)
    requires rest == [] || !JsNumber.IsDigit(rest[0])
    ensures WeightInput(digits + rest) == JsNumber.DigitsValue(digits)
  {
    JsNumber.ParseIntOfDigitsThen(digits, rest);
  }

  /** Text with no number in it gives 0 in both number inputs. */
  lemma UnreadableInputIsZero(text: string)
    requires text == [] || (!JsNumber.IsDigit(text[0]) && text[0] != '.' && text[0] != '-' && text[0] != '+'
                            && !JsText.IsWhitespace(text[0]))
    ensures WeightInput(text) == 0 && SurchargeInput(text) == 0.0
  {
    JsNumber.ParseFloatWithoutDigits(text);
  }

  /** The update each input sends: exactly one field, read from the typed text. */
  function CustomerNameChanged(text: string): (patch: JobPatch)
    ensures Supplied(patch) == 1 && patch.customerName == Some(text)
  {
    NoChange.(customerName := Some(text))
  }

  function InvoiceNumberChanged(text: string): (patch: JobPatch)
    ensures Supplied(patch) == 1 && patch.invoiceNumber == Some(text)
  {
    NoChange.(invoiceNumber := Some(text))
  }

  function VehicleTypeChanged(text: string): (patch: JobPatch)
    ensures Supplied(patch) == 1 && patch.vehicleType == Some(text)
  {
    NoChange.(vehicleType := Some(text))
  }

  function VehicleWeightChanged(text: string): (patch: JobPatch)
    ensures Supplied(patch) == 1 && patch.vehicleWeight == Some(WeightInput(text))
  {
    NoChange.(vehicleWeight := Some(WeightInput(text)))
  }

  function ProblemDescriptionChanged(text: string): (patch: JobPatch)
    ensures Supplied(patch) == 1 && patch.problemDescription == Some(text)
  {
    NoChange.(problemDescription := Some(text))
  }

  function FuelSurchargeChanged(text: string): (patch: JobPatch)
    ensures Supplied(patch) == 1 && patch.fuelSurcharge == Some(SurchargeInput(text))
  {
    NoChange.(fuelSurcharge := Some(SurchargeInput(text)))
  }

  /** Each input handler edits its own field and leaves the other five as they were. */
  lemma EachInputEditsOneField(job: JobInfo, text: string)
    ensures Supplied(CustomerNameChanged(text)) == 1
    ensures Merge(job, CustomerNameChanged(text)) == job.(customerName := text)
    ensures Supplied(InvoiceNumberChanged(text)) == 1
    ensures Merge(job, InvoiceNumberChanged(text)) == job.(invoiceNumber := text)
    ensures Supplied(VehicleTypeChanged(text)) == 1
    ensures Merge(job, VehicleTypeChanged(text)) == job.(vehicleType := text)
    ensures Supplied(VehicleWeightChanged(text)) == 1
    ensures Merge(job, VehicleWeightChanged(text)) == job.(vehicleWeight := WeightInput(text))
    ensures Supplied(ProblemDescriptionChanged(text)) == 1
    ensures Merge(job, ProblemDescriptionChanged(text)) == job.(problemDescription := text)
    ensures Supplied(FuelSurchargeChanged(text)) == 1
    ensures Merge(job, FuelSurchargeChanged(text)) == job.(fuelSurcharge := SurchargeInput(text))
  {
  }

  /**
   * `handlePhotoSelect`: the list handed to the photo setter, the old photos
   * followed by the chosen files; `None` when the page was given no setter.
   */
  function AddPhotos<T>(photos: seq<T>, files: seq<T>, hasSetter: bool): (r: Option<seq<T>>)
    ensures r.Some? <==> hasSetter
    ensures r.Some? ==> (|r.value| == |photos| + |files|
      && r.value[..|photos|] == photos && r.value[|photos|..] == files)
  {
    if hasSetter then Some(photos + files) else None
  }

  /** `photos.filter((_, i) => i !== index)`: every element whose position is not `index`. */
  function WithoutIndex<T>(photos: seq<T>, index: int): (r: seq<T>)
    ensures 0 <= index < |photos| ==> |r| == |photos| - 1
    ensures !(0 <= index < |photos|) ==> r == photos
  {
    if photos == [] then []
    else
      var last := |photos| - 1;
      var kept := WithoutIndex(photos[..last], index);
      assert !(0 <= index < last) ==> kept == photos[..last];
      if last == index then kept
      else
        assert !(0 <= index < |photos|) ==> kept + [photos[last]] == photos;
        kept + [photos[last]]
  }

  /** Dropping an index in range keeps the elements before it and after it, in order. */
  lemma {:induction false} WithoutIndexSplices<T>(photos: seq<T>, index: int)
    requires 0 <= index < |photos|
    ensures WithoutIndex(photos, index) == photos[..index] + photos[index + 1..]
  {
    var last := |photos| - 1;
    if last == index {
      assert photos[..last] == photos[..index];
      assert photos[index + 1..] == [];
    } else {
      WithoutIndexSplices(photos[..last], index);
      assert photos[..last][..index] == photos[..index];
      assert photos[..last][index + 1..] + [photos[last]] == photos[index + 1..];
    }
  }

  /** `removePhoto`: the list handed to the photo setter, or `None` without a setter. */
  function RemovePhoto<T>(photos: seq<T>, index: int, hasSetter: bool): (r: Option<seq<T>>)
    ensures r.Some? <==> hasSetter
    ensures r.Some? && 0 <= index < |photos| ==> r.value == photos[..index] + photos[index + 1..]
    ensures r.Some? && !(0 <= index < |photos|) ==> r.value == photos
  {
    if hasSetter then
      if 0 <= index < |photos| then WithoutIndexSplices(photos, index); Some(WithoutIndex(photos, index))
      else Some(WithoutIndex(photos, index))
    else None
  }

  /** Removing the photos just added, from the last backwards, gives the old list back. */
  lemma RemoveAddedPhoto<T>(photos: seq<T>, file: T)
    ensures RemovePhoto(AddPhotos(photos, [file], true).value, |photos|, true) == Some(photos)
  {
    var added := photos + [file];
    assert added[..|photos|] == photos;
    assert added[|photos| + 1..] == [];
  }
}
