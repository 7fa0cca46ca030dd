/**
 * The shared record shapes: the `jobs` table, its insert shape, the decimal
 * columns, the columns of the company-settings row, and the invoice form's
 * validation rules.
 */
module Schema {
  import opened Wrappers
  import JsNumber
  import SqlDecimal
  import Catalog

  /** A row of the `jobs` table. The fuel surcharge is a `decimal(5, 2)` column, read back as text with two decimals. */
  datatype Job = Job(
    id: int,
    customerName: string,
    invoiceNumber: string,
    vehicleType: string,
    vehicleWeight: int,
    problemDescription: string,
    fuelSurcharge: string)

  /** What an insert supplies: every column but the serial `id`; the surcharge may be left to its default. */
  datatype InsertJob = InsertJob(
    customerName: string,
    invoiceNumber: string,
    vehicleType: string,
    vehicleWeight: int,
    problemDescription: string,
    fuelSurcharge: Option<string>)

  /** The column default of `jobs.fuel_surcharge`. */
  const DefaultFuelSurcharge: string := "15"

  /** The range of a PostgreSQL `integer` column such as `jobs.vehicle_weight`: 32-bit two's complement. */
  const IntegerMin: int := -0x8000_0000
  const IntegerMax: int := 0x7FFF_FFFF

  /** The `integer` column takes `n`; any other value makes the insert fail. */
  predicate FitsInteger(n: int) {
    IntegerMin <= n <= IntegerMax
  }

  /** The surcharge text an insert hands the database: its own, or the column default. */
  function SurchargeText(insert: InsertJob): string {
    insert.fuelSurcharge.GetOr(DefaultFuelSurcharge)
  }

  /** A job without its `id`: the insert that would store it again. */
  function OmitId(job: Job): InsertJob {
    InsertJob(job.customerName, job.invoiceNumber, job.vehicleType, job.vehicleWeight,
              job.problemDescription, Some(job.fuelSurcharge))
  }

  /**
   * The row an insert produces once the database assigns `id`, fills the
   * default surcharge and stores it in its decimal column. `None` when the
   * database refuses the row: the weight is out of the `integer` range or
   * the surcharge column refuses the surcharge text.
   */
  function StoredJob(insert: InsertJob, id: int): (r: Option<Job>)
    ensures r.None? <==> !FitsInteger(insert.vehicleWeight) || !SqlDecimal.Accepts(SurchargeText(insert))
    ensures r.Some? ==> r.value.id == id
    ensures r.Some? ==> OmitId(r.value) == insert.(fuelSurcharge := Some(SqlDecimal.Stored(SurchargeText(insert))))
  {
    if !FitsInteger(insert.vehicleWeight) then None
    else match SqlDecimal.ColumnValue(SurchargeText(insert))
    case None => None
    case Some(h) =>
      Some(Job(id, insert.customerName, insert.invoiceNumber, insert.vehicleType, insert.vehicleWeight,
               insert.problemDescription, SqlDecimal.ColumnText(h)))
  }

  /** A surcharge as the column gives it back: storing it again gives the same text. */
  predicate IsColumnText(text: string) {
    SqlDecimal.Accepts(text) && SqlDecimal.Stored(text) == text
  }

  /** A job as the database gives it back, without its id and stored again under it, is the same row. */
  lemma StoreOmitted(job: Job)
    requires FitsInteger(job.vehicleWeight)
    requires IsColumnText(job.fuelSurcharge)
    ensures StoredJob(OmitId(job), job.id) == Some(job)
  {
  }

  /**
   * A stored row gives back its insert with the surcharge normalised, and
   * that surcharge is already in the column's own form; an insert whose
   * surcharge is in that form comes back unchanged.
   */
  lemma OmitStored(insert: InsertJob, id: int)
    requires StoredJob(insert, id).Some?
    ensures var job := StoredJob(insert, id).value;
      && OmitId(job) == insert.(fuelSurcharge := Some(job.fuelSurcharge))
      && IsColumnText(job.fuelSurcharge)
      && StoredJob(OmitId(job), id) == Some(job)
    ensures insert.fuelSurcharge.Some? && IsColumnText(insert.fuelSurcharge.value) ==>
      OmitId(StoredJob(insert, id).value) == insert
  {
    var job := StoredJob(insert, id).value;
    SqlDecimal.StoredIsFixed(SurchargeText(insert));
    StoreOmitted(job);
  }

  /** A weight of three billion does not fit the `integer` column: the insert is refused whatever its surcharge. */
  lemma OutOfRangeWeightRefused(surcharge: Option<string>, id: int)
    ensures StoredJob(InsertJob("a", "1", "car", 3_000_000_000, "x", surcharge), id).None?
  {
    assert !FitsInteger(3_000_000_000);
  }

  /** The largest `integer` weight is stored, with the default surcharge. */
  lemma LargestWeightStored(id: int)
    ensures StoredJob(InsertJob("a", "1", "car", IntegerMax, "x", None), id).Some?
  {
    DefaultSurchargeStored();
  }

  /** The column default is stored as 15 and reads back as "15.00". */
  lemma DefaultSurchargeStored()
    ensures SqlDecimal.ColumnValue(DefaultFuelSurcharge) == Some(1500)
    ensures SqlDecimal.Stored(DefaultFuelSurcharge) == "15.00"
  {
    assert JsNumber.NatToString(15) == DefaultFuelSurcharge by {
      assert JsNumber.NatToString(1) == "1";
    }
    SqlDecimal.WholeNumberStored(15);
    SqlDecimal.FifteenReadsBack();
  }

  function Pow10(n: nat): (p: nat)
    ensures p >= 1
  {
    if n == 0 then 1 else 10 * Pow10(n - 1)
  }

  /** `x` is exactly representable in a SQL `decimal(precision, scale)` column. */
  predicate FitsDecimal(x: real, precision: nat, scale: nat) {
    var scaled := x * Pow10(scale) as real;
    scaled.Floor as real == scaled && -(Pow10(precision) as int) < scaled.Floor < Pow10(precision)
  }

  /** A number with at most one decimal below 1000 fits the rate and surcharge columns, `decimal(5, 2)`. */
  lemma OneDecimalFitsRateColumn(x: real)
    requires Catalog.HasOneDecimal(x)
    requires -1000.0 < x < 1000.0
    ensures FitsDecimal(x, 5, 2)
  {
    var k := (x * 10.0).Floor;
    assert Pow10(2) == 100 && Pow10(5) == 100000;
    assert x * 10.0 == k as real;
    assert x * 100.0 == (10 * k) as real;
    assert (x * 100.0).Floor == 10 * k;
    assert -10000 < k < 10000;
  }

  /** Every catalog rate fits the `towing_services.rate` column. */
  lemma CatalogRatesFitColumn()
    ensures forall i :: 0 <= i < |Catalog.Services| ==> FitsDecimal(Catalog.Services[i].rate.value, 5, 2)
  {
    Catalog.CatalogRates();
    forall i | 0 <= i < |Catalog.Services|
      ensures FitsDecimal(Catalog.Services[i].rate.value, 5, 2)
    {
      OneDecimalFitsRateColumn(Catalog.Services[i].rate.value);
    }
  }

  /** The default surcharge text reads as 15 percent, which fits its column. */
  lemma DefaultFuelSurchargeIsFifteen()
    ensures JsNumber.ParseFloat(DefaultFuelSurcharge) == Some(15.0)
    ensures FitsDecimal(15.0, 5, 2)
  {
    assert JsNumber.NatToString(15) == DefaultFuelSurcharge by {
      assert JsNumber.NatToString(1) == "1";
    }
    JsNumber.ParseFloatOfNatToString(15);
    assert Pow10(2) == 100 && Pow10(5) == 100000;
    assert (15.0 * 100.0).Floor == 1500;
  }

  /** The editable columns of the company-settings row. */
  datatype CompanyField =
    | CompanyName
    | CompanySubtitle
    | CompanyLogo
    | DefaultSurcharge
    | Address
    | Phone
    | Email
    | InvoiceFooter

  /** The data the invoice form validates. */
  datatype InvoiceFormData = InvoiceFormData(
    customerName: string,
    invoiceNumber: string,
    vehicleType: string,
    vehicleWeight: real,
    problemDescription: string,
    fuelSurcharge: real,
    selectedServices: map<int, bool>)

  datatype FormField =
    | CustomerNameField
    | InvoiceNumberField
    | VehicleTypeField
    | VehicleWeightField
    | ProblemDescriptionField
    | FuelSurchargeField

  /** The constraint the invoice schema puts on one field. */
  predicate Satisfies(form: InvoiceFormData, field: FormField) {
    match field
    case CustomerNameField => |form.customerName| >= 1
    case InvoiceNumberField => |form.invoiceNumber| >= 1
    case VehicleTypeField => |form.vehicleType| >= 1
    case VehicleWeightField => form.vehicleWeight >= 1.0
    case ProblemDescriptionField => |form.problemDescription| >= 1
    case FuelSurchargeField => 0.0 <= form.fuelSurcharge <= 100.0
  }

  /** The schema's fields in declaration order. */
  const FieldOrder: seq<FormField> := [
    CustomerNameField, InvoiceNumberField, VehicleTypeField,
    VehicleWeightField, ProblemDescriptionField, FuelSurchargeField
  ]

  /** The fields among `fields` whose constraint fails, in the order given. */
  function FailingAmong(form: InvoiceFormData, fields: seq<FormField>): (r: seq<FormField>)
    ensures forall f :: f in r <==> f in fields && !Satisfies(form, f)
    ensures |r| <= |fields|
  {
    if fields == [] then []
    else (if Satisfies(form, fields[0]) then [] else [fields[0]]) + FailingAmong(form, fields[1..])
  }

  /**
   * The fields the invoice schema rejects, in declaration order: the four
   * texts must be non-empty, the weight at least 1 and the surcharge in
   * [0, 100]. The selection is a boolean record, which its type already says.
   */
  function Violations(form: InvoiceFormData): (r: seq<FormField>)
    ensures forall f :: f in r <==> !Satisfies(form, f)
  {
    FailingAmong(form, FieldOrder)
  }

  predicate IsValidInvoiceForm(form: InvoiceFormData) {
    Violations(form) == []
  }

  /** A form passes exactly when every field meets its constraint. */
  lemma ValidFormMeetsEveryConstraint(form: InvoiceFormData)
    ensures IsValidInvoiceForm(form) <==>
      && form.customerName != "" && form.invoiceNumber != "" && form.vehicleType != ""
      && form.vehicleWeight >= 1.0 && form.problemDescription != ""
      && 0.0 <= form.fuelSurcharge <= 100.0
  {
    var r := Violations(form);
    if r == [] {
      assert Satisfies(form, CustomerNameField) && Satisfies(form, InvoiceNumberField);
      assert Satisfies(form, VehicleTypeField) && Satisfies(form, VehicleWeightField);
      assert Satisfies(form, ProblemDescriptionField) && Satisfies(form, FuelSurchargeField);
    } else {
      assert r[0] in r;
      assert !Satisfies(form, r[0]);
    }
  }
}
