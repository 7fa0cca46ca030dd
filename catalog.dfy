/**
 * The towing-service catalog: nineteen recovery categories, each priced in
 * cents per pound of vehicle weight.
 */
module Catalog {

  /**
   * A service rate. The catalog constant holds numbers; rows served from the
   * database carry the decimal column as text, which the calculator parses.
   */
  datatype Rate = Numeric(value: real) | Text(text: string)

  datatype TowingService = TowingService(id: int, name: string, rate: Rate)

  /** The built-in catalog, in display order. */
  const Services: seq<TowingService> := [
    TowingService(1, "Normal Recovery (On or Near Highway)", Numeric(4.0)),
    TowingService(2, "Contained Recovery/Winching", Numeric(4.0)),
    TowingService(3, "Salvage/Debris Recovery", Numeric(5.5)),
    TowingService(4, "Handle Complete Recovery", Numeric(6.0)),
    TowingService(5, "Total Loss Recovery", Numeric(5.0)),
    TowingService(6, "Rollover", Numeric(4.0)),
    TowingService(7, "Inclement Weather", Numeric(2.5)),
    TowingService(8, "Nights/Weekends/Holidays", Numeric(2.5)),
    TowingService(9, "Travel Within 50 Miles", Numeric(3.5)),
    TowingService(10, "Travel Beyond 50 Miles", Numeric(6.5)),
    TowingService(11, "Wheels Higher than Roof", Numeric(2.0)),
    TowingService(12, "Embankment or Inclines", Numeric(4.5)),
    TowingService(13, "Back Doors Open", Numeric(2.0)),
    TowingService(14, "Tractor from Under Trailer", Numeric(2.0)),
    TowingService(15, "Major Suspension Damage", Numeric(6.0)),
    TowingService(16, "10 MPH Collision Factor", Numeric(2.0)),
    TowingService(17, "30 MPH Collision Factor", Numeric(3.0)),
    TowingService(18, "50 MPH Collision Factor", Numeric(4.0)),
    TowingService(19, "70+ MPH Collision Factor", Numeric(5.0))
  ]

  /** `x` has at most one digit after the decimal point. */
  predicate HasOneDecimal(x: real) {
    (x * 10.0).Floor as real == x * 10.0
  }

  /** The catalog's ids are 1 to 19, consecutive, in order. */
  lemma CatalogIds()
    ensures |Services| == 19
    ensures forall i :: 0 <= i < |Services| ==> Services[i].id == i + 1
  {
  }

  /** No two catalog entries share an id. */
  lemma CatalogIdsDistinct()
    ensures forall i, j :: 0 <= i < j < |Services| ==> Services[i].id != Services[j].id
  {
    CatalogIds();
  }

  /** Every catalog rate is a number between 2.0 and 6.5 cents with at most one decimal. */
  lemma CatalogRates()
    ensures forall i :: 0 <= i < |Services| ==>
      Services[i].rate.Numeric? && 2.0 <= Services[i].rate.value <= 6.5 && HasOneDecimal(Services[i].rate.value)
  {
    var tenths := [40, 40, 55, 60, 50, 40, 25, 25, 35, 65, 20, 45, 20, 20, 60, 20, 30, 40, 50];
    forall i | 0 <= i < |Services|
      ensures Services[i].rate == Numeric(tenths[i] as real / 10.0)
      ensures 20 <= tenths[i] <= 65
    {
    }
    forall i | 0 <= i < |Services|
      ensures HasOneDecimal(Services[i].rate.value)
    {
      TenthsHaveOneDecimal(tenths[i]);
    }
  }

  /** A whole number of tenths has at most one decimal. */
  lemma TenthsHaveOneDecimal(n: int)
    ensures HasOneDecimal(n as real / 10.0)
  {
    assert (n as real / 10.0) * 10.0 == n as real;
  }
}
