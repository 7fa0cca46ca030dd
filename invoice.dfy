/**
 * The price-per-pound invoice calculator: keep the selected catalog
 * services, price each at `weight * rate / 100` dollars (rates are cents per
 * pound), add the costs into a subtotal and apply a percentage fuel
 * surcharge on top.
 */
module InvoiceCalc {
  import opened Wrappers
  import opened Catalog
  import JsNumber

  /** The job details typed on the first page of the wizard. */
  datatype JobInfo = JobInfo(
    customerName: string,
    invoiceNumber: string,
    vehicleType: string,
    vehicleWeight: int,
    problemDescription: string,
    fuelSurcharge: real)

  /** A selected service with its numeric rate and its cost in dollars. */
  datatype ServiceWithCost = ServiceWithCost(id: int, name: string, rate: real, cost: real)

  /** The job details, the priced services and the totals, stamped with a date. */
  datatype Invoice = Invoice(
    customerName: string,
    invoiceNumber: string,
    vehicleType: string,
    vehicleWeight: int,
    problemDescription: string,
    fuelSurcharge: real,
    services: seq<ServiceWithCost>,
    subtotal: real,
    fuelSurchargeAmount: real,
    total: real,
    date: string)

  /** Service id to "is selected"; a missing id is not selected. */
  type Selection = map<int, bool>

  /** `selectedServices[id]` is truthy: the id is present and maps to true. */
  predicate IsSelected(sel: Selection, id: int) {
    id in sel && sel[id]
  }

  /** A rate as a number: text is read with `parseFloat`, `None` being `NaN`. */
  function RateValue(rate: Rate): Option<real> {
    match rate
    case Numeric(v) => Some(v)
    case Text(t) => JsNumber.ParseFloat(t)
  }

  predicate RateReadable(rate: Rate) {
    RateValue(rate).Some?
  }

  /** Every selected catalog entry has a rate that reads as a number. */
  predicate SelectedRatesReadable(sel: Selection, all: seq<TowingService>) {
    forall s :: s in all && IsSelected(sel, s.id) ==> RateReadable(s.rate)
  }

  /** The catalog entries whose id is selected, in catalog order. */
  function SelectedList(sel: Selection, all: seq<TowingService>): (r: seq<TowingService>)
    ensures |r| <= |all|
    ensures forall s :: s in r <==> s in all && IsSelected(sel, s.id)
  {
    if all == [] then []
    else (if IsSelected(sel, all[0].id) then [all[0]] else []) + SelectedList(sel, all[1..])
  }

  /** Dollars for `weight` pounds at `rate` cents per pound. */
  function LineCost(weight: int, rate: real): real {
    (weight as real * rate) / 100.0
  }

  /** Costs at two rates add up to the cost at their sum. */
  lemma LineCostAdds(weight: int, rate: real, rest: real)
    ensures LineCost(weight, rate + rest) == LineCost(weight, rate) + LineCost(weight, rest)
  {
  }

  /** Two costs at known rates add up to the cost at the rates' sum. */
  lemma LineCostsAddUp(weight: int, rate: real, rest: real, cost: real, restCost: real)
    requires cost == LineCost(weight, rate) && restCost == LineCost(weight, rest)
    ensures cost + restCost == LineCost(weight, rate + rest)
  {
    LineCostAdds(weight, rate, rest);
  }

  /** One invoice line: the service, its numeric rate, and weight times rate in dollars. */
  function WithCost(service: TowingService, weight: int): (line: ServiceWithCost)
    requires RateReadable(service.rate)
    ensures line.id == service.id && line.name == service.name
    ensures Some(line.rate) == RateValue(service.rate)
    ensures line.cost == LineCost(weight, line.rate)
  {
    var rate := RateValue(service.rate).value;
    ServiceWithCost(service.id, service.name, rate, LineCost(weight, rate))
  }

  /** The priced lines of `list`, in the same order. */
  function PriceLines(list: seq<TowingService>, weight: int): (lines: seq<ServiceWithCost>)
    requires forall s :: s in list ==> RateReadable(s.rate)
    ensures |lines| == |list|
    ensures forall i :: 0 <= i < |list| ==>
      && lines[i].id == list[i].id && lines[i].name == list[i].name
      && Some(lines[i].rate) == RateValue(list[i].rate)
      && lines[i].cost == LineCost(weight, lines[i].rate)
  {
    if list == [] then [] else [WithCost(list[0], weight)] + PriceLines(list[1..], weight)
  }

  /** The costs added up from the first line to the last, starting from 0. */
  function Subtotal(lines: seq<ServiceWithCost>): (sum: real)
    ensures (forall i :: 0 <= i < |lines| ==> lines[i].cost >= 0.0) ==> sum >= 0.0
    ensures |lines| == 1 ==> sum == lines[0].cost
  {
    if lines == [] then 0.0 else Subtotal(lines[..|lines| - 1]) + lines[|lines| - 1].cost
  }

  /** The sum of the numeric rates of `list`: the cents per pound of the whole selection. */
  function RateSum(list: seq<TowingService>): real
    requires forall s :: s in list ==> RateReadable(s.rate)
  {
    if list == [] then 0.0
    else
      assert list[0] in list && RateReadable(list[0].rate);
      RateValue(list[0].rate).value + RateSum(list[1..])
  }

  /**
   * `calculateInvoice`: the job details copied, one priced line per selected
   * catalog entry, the subtotal of their costs, the surcharge on the
   * subtotal, and the total. The date is a parameter.
   */
  function CalculateInvoice(job: JobInfo, sel: Selection, all: seq<TowingService>, date: string): (inv: Invoice)
    requires SelectedRatesReadable(sel, all)
    ensures inv.customerName == job.customerName && inv.invoiceNumber == job.invoiceNumber
    ensures inv.vehicleType == job.vehicleType && inv.vehicleWeight == job.vehicleWeight
    ensures inv.problemDescription == job.problemDescription && inv.fuelSurcharge == job.fuelSurcharge
    ensures inv.date == date
    ensures inv.services == PriceLines(SelectedList(sel, all), job.vehicleWeight)
    ensures inv.subtotal == LineCost(job.vehicleWeight, RateSum(SelectedList(sel, all)))
    ensures inv.fuelSurchargeAmount == Percent(inv.subtotal, job.fuelSurcharge)
    ensures inv.total == Percent(inv.subtotal, 100.0 + job.fuelSurcharge)
  {
    var selected := SelectedList(sel, all);
    assert forall s :: s in selected ==> RateReadable(s.rate);
    var lines := PriceLines(selected, job.vehicleWeight);
    var subtotal := Subtotal(lines);
    SubtotalOfPricedLines(selected, job.vehicleWeight);
    var fuelSurchargeAmount := SurchargeAmount(subtotal, job.fuelSurcharge);
    PercentOnTop(subtotal, job.fuelSurcharge);
    Invoice(job.customerName, job.invoiceNumber, job.vehicleType, job.vehicleWeight,
            job.problemDescription, job.fuelSurcharge,
            lines, subtotal, fuelSurchargeAmount, subtotal + fuelSurchargeAmount, date)
  }

  /** `pct` percent of `x`. */
  function Percent(x: real, pct: real): real {
    x * pct / 100.0
  }

  /** The fuel surcharge in dollars, computed as `subtotal * (surcharge / 100)`: `surcharge` percent of the subtotal. */
  function SurchargeAmount(subtotal: real, surcharge: real): (amount: real)
    ensures amount == Percent(subtotal, surcharge)
  {
    subtotal * (surcharge / 100.0)
  }

  /** An amount plus `pct` percent of it is `100 + pct` percent of it. */
  lemma PercentOnTop(x: real, pct: real)
    ensures x + Percent(x, pct) == Percent(x, 100.0 + pct)
  {
  }

  /** The left-to-right sum splits at any point. */
  lemma {:induction false} SubtotalAppend(a: seq<ServiceWithCost>, b: seq<ServiceWithCost>)
    ensures Subtotal(a + b) == Subtotal(a) + Subtotal(b)
  {
    if b != [] {
      var b' := b[..|b| - 1];
      assert (a + b)[..|a + b| - 1] == a + b';
      SubtotalAppend(a, b');
    } else {
      assert a + b == a;
    }
  }

  /** The subtotal of priced lines is the cost of the weight at the summed rates. */
  lemma SubtotalOfPricedLines(list: seq<TowingService>, weight: int)
    requires forall s :: s in list ==> RateReadable(s.rate)
    ensures Subtotal(PriceLines(list, weight)) == LineCost(weight, RateSum(list))
  {
    var lines := PriceLines(list, weight);
    SubtotalOfLines(lines, weight);
    LineRatesSum(list, weight);
  }

  /** The sum of the rates printed on `lines`. */
  function LineRates(lines: seq<ServiceWithCost>): real {
    if lines == [] then 0.0 else lines[0].rate + LineRates(lines[1..])
  }

  /** Lines each costing weight times their rate add up to weight times the sum of the rates. */
  lemma {:induction false} SubtotalOfLines(lines: seq<ServiceWithCost>, weight: int)
    requires forall i :: 0 <= i < |lines| ==> lines[i].cost == LineCost(weight, lines[i].rate)
    ensures Subtotal(lines) == LineCost(weight, LineRates(lines))
  {
    if lines != [] {
      var rest := lines[1..];
      assert lines == [lines[0]] + rest;
      SubtotalCons(lines[0], rest);
      assert forall i :: 0 <= i < |rest| ==> rest[i] == lines[i + 1];
      SubtotalOfLines(rest, weight);
      LineCostsAddUp(weight, lines[0].rate, LineRates(rest), lines[0].cost, Subtotal(rest));
    }
  }

  /** The rates printed on the priced lines are the numeric rates of the services. */
  lemma {:induction false} LineRatesSum(list: seq<TowingService>, weight: int)
    requires forall s :: s in list ==> RateReadable(s.rate)
    ensures LineRates(PriceLines(list, weight)) == RateSum(list)
  {
    if list != [] {
      assert list[0] in list;
      var tail := list[1..];
      assert forall s :: s in tail ==> s in list;
      var lines := PriceLines(list, weight);
      assert lines[1..] == PriceLines(tail, weight);
      LineRatesSum(tail, weight);
    }
  }

  /** A line put in front adds its cost to the subtotal. */
  lemma SubtotalCons(first: ServiceWithCost, rest: seq<ServiceWithCost>)
    ensures Subtotal([first] + rest) == first.cost + Subtotal(rest)
  {
    SubtotalAppend([first], rest);
    assert [first][..0] == [];
  }

  /** Filtering a catalog made of two parts filters each part, keeping catalog order. */
  lemma {:induction false} SelectedListAppend(sel: Selection, a: seq<TowingService>, b: seq<TowingService>)
    ensures SelectedList(sel, a + b) == SelectedList(sel, a) + SelectedList(sel, b)
  {
    if a == [] {
      assert a + b == b;
    } else {
      var ab := a + b;
      assert ab[0] == a[0];
      assert ab[1..] == a[1..] + b;
      var k := if IsSelected(sel, a[0].id) then [a[0]] else [];
      assert SelectedList(sel, ab) == k + SelectedList(sel, a[1..] + b);
      SelectedListAppend(sel, a[1..], b);
      JoinRegroups(k, SelectedList(sel, a[1..]), SelectedList(sel, b));
    }
  }

  /** Only the flags of ids in the catalog matter: setting an unknown id changes nothing. */
  lemma {:induction false} UnknownIdIgnored(sel: Selection, all: seq<TowingService>, id: int, flag: bool)
    requires forall s :: s in all ==> s.id != id
    ensures SelectedList(sel[id := flag], all) == SelectedList(sel, all)
  {
    if all != [] {
      assert all[0] in all;
      UnknownIdIgnored(sel, all[1..], id, flag);
    }
  }

  /** An explicit false and a missing key select the same services. */
  lemma {:induction false} FalseSameAsMissing(sel: Selection, all: seq<TowingService>, id: int)
    ensures SelectedList(sel[id := false], all) == SelectedList(sel - {id}, all)
  {
    if all != [] {
      FalseSameAsMissing(sel, all[1..], id);
    }
  }

  /** When no entry of `all` is selected the filter is empty. */
  lemma {:induction false} NothingSelected(sel: Selection, all: seq<TowingService>)
    requires forall s :: s in all ==> !IsSelected(sel, s.id)
    ensures SelectedList(sel, all) == []
  {
    if all != [] {
      assert all[0] in all;
      NothingSelected(sel, all[1..]);
    }
  }

  /** With nothing selected the invoice has no lines and every amount is 0. */
  lemma EmptySelectionCostsNothing(job: JobInfo, all: seq<TowingService>, date: string)
    ensures SelectedRatesReadable(map[], all)
    ensures CalculateInvoice(job, map[], all, date).services == []
    ensures CalculateInvoice(job, map[], all, date).subtotal == 0.0
    ensures CalculateInvoice(job, map[], all, date).total == 0.0
  {
    NothingSelected(map[], all);
  }

  /** A non-negative weight, rates and surcharge give amounts with 0 <= subtotal <= total. */
  lemma {:induction false} AmountsNonNegative(job: JobInfo, sel: Selection, all: seq<TowingService>, date: string)
    requires SelectedRatesReadable(sel, all)
    requires job.vehicleWeight >= 0 && job.fuelSurcharge >= 0.0
    requires forall s :: s in all && IsSelected(sel, s.id) ==> RateValue(s.rate).value >= 0.0
    ensures 0.0 <= CalculateInvoice(job, sel, all, date).subtotal <= CalculateInvoice(job, sel, all, date).total
  {
    var selected := SelectedList(sel, all);
    RateSumNonNegative(selected);
    var inv := CalculateInvoice(job, sel, all, date);
    LineCostNonNegative(job.vehicleWeight, RateSum(selected));
    SurchargeOnTopGrows(inv.subtotal, job.fuelSurcharge);
  }

  lemma LineCostNonNegative(weight: int, rate: real)
    requires weight >= 0 && rate >= 0.0
    ensures LineCost(weight, rate) >= 0.0
  {
    assert weight as real * rate >= 0.0;
  }

  lemma SurchargeOnTopGrows(x: real, pct: real)
    requires x >= 0.0 && pct >= 0.0
    ensures Percent(x, 100.0 + pct) >= x
  {
    PercentOnTop(x, pct);
    assert x * pct >= 0.0;
  }

  lemma {:induction false} RateSumNonNegative(list: seq<TowingService>)
    requires forall s :: s in list ==> RateReadable(s.rate) && RateValue(s.rate).value >= 0.0
    ensures RateSum(list) >= 0.0
  {
    if list != [] {
      assert list[0] in list;
      RateSumNonNegative(list[1..]);
    }
  }

  /** `a` and `b` list the same services entry by entry: same id, name and numeric rate. */
  predicate SameEntries(a: seq<TowingService>, b: seq<TowingService>) {
    && |a| == |b|
    && forall i :: 0 <= i < |a| ==>
         a[i].id == b[i].id && a[i].name == b[i].name && RateValue(a[i].rate) == RateValue(b[i].rate)
  }

  /** Entry-by-entry equal catalogs select entry-by-entry equal lists. */
  lemma {:induction false} SameEntriesSelectAlike(sel: Selection, a: seq<TowingService>, b: seq<TowingService>)
    requires SameEntries(a, b)
    ensures SameEntries(SelectedList(sel, a), SelectedList(sel, b))
  {
    if a != [] {
      SameEntriesSelectAlike(sel, a[1..], b[1..]);
      var ra := SelectedList(sel, a[1..]);
      var rb := SelectedList(sel, b[1..]);
      if IsSelected(sel, a[0].id) {
        assert SelectedList(sel, a) == [a[0]] + ra;
        assert SelectedList(sel, b) == [b[0]] + rb;
      } else {
        assert SelectedList(sel, a) == ra;
        assert SelectedList(sel, b) == rb;
      }
    }
  }

  /** Entry-by-entry equal lists price alike and sum to the same rate. */
  lemma {:induction false} SameEntriesPriceAlike(a: seq<TowingService>, b: seq<TowingService>, weight: int)
    requires SameEntries(a, b)
    requires forall s :: s in a ==> RateReadable(s.rate)
    ensures forall s :: s in b ==> RateReadable(s.rate)
    ensures PriceLines(a, weight) == PriceLines(b, weight)
    ensures RateSum(a) == RateSum(b)
  {
    forall s | s in b ensures RateReadable(s.rate) {
      var i :| 0 <= i < |b| && b[i] == s;
      assert a[i] in a;
    }
    if a != [] {
      assert a[0] in a;
      SameEntriesPriceAlike(a[1..], b[1..], weight);
    }
  }

  /** The same job, selection and date give the same invoice from either of two equivalent catalogs. */
  lemma EquivalentCatalogsSameInvoice(job: JobInfo, sel: Selection, a: seq<TowingService>, b: seq<TowingService>, date: string)
    requires SameEntries(a, b)
    requires SelectedRatesReadable(sel, a)
    ensures SelectedRatesReadable(sel, b)
    ensures CalculateInvoice(job, sel, a, date) == CalculateInvoice(job, sel, b, date)
  {
    SameEntriesSelectAlike(sel, a, b);
    SameEntriesPriceAlike(SelectedList(sel, a), SelectedList(sel, b), job.vehicleWeight);
  }

  /** When only the first entry's id is selected the filter keeps that entry alone. */
  lemma OnlyFirstSelected(sel: Selection, all: seq<TowingService>)
    requires all != [] && IsSelected(sel, all[0].id)
    requires forall i :: 1 <= i < |all| ==> !IsSelected(sel, all[i].id)
    ensures SelectedList(sel, all) == [all[0]]
  {
    forall s | s in all[1..] ensures !IsSelected(sel, s.id) {
      var i :| 0 <= i < |all[1..]| && all[1..][i] == s;
      assert s == all[i + 1];
    }
    NothingSelected(sel, all[1..]);
  }

  /** With only the first entry selected, the invoice has that one line and its cost as subtotal. */
  lemma OnlyFirstPriced(job: JobInfo, sel: Selection, all: seq<TowingService>, date: string)
    requires all != [] && IsSelected(sel, all[0].id) && RateReadable(all[0].rate)
    requires forall i :: 1 <= i < |all| ==> !IsSelected(sel, all[i].id)
    ensures SelectedRatesReadable(sel, all)
    ensures var inv := CalculateInvoice(job, sel, all, date);
      && inv.services == [WithCost(all[0], job.vehicleWeight)]
      && inv.subtotal == LineCost(job.vehicleWeight, RateValue(all[0].rate).value)
  {
    OnlyFirstSelected(sel, all);
    forall s | s in all && IsSelected(sel, s.id) ensures RateReadable(s.rate) {
      assert s in SelectedList(sel, all);
    }
    var chosen := [all[0]];
    assert RateSum(chosen) == RateValue(all[0].rate).value by {
      assert chosen[1..] == [];
    }
  }

  /** 10000 lb with "Normal Recovery" (4.0 cents per lb) at 15%: $400 + $60 = $460. */
  lemma NormalRecoveryExample(date: string)
    ensures SelectedRatesReadable(map[1 := true], Services)
    ensures var inv := CalculateInvoice(JobInfo("", "", "", 10000, "", 15.0), map[1 := true], Services, date);
      && |inv.services| == 1 && inv.services[0].cost == 400.0
      && inv.subtotal == 400.0 && inv.fuelSurchargeAmount == 60.0 && inv.total == 460.0
  {
    CatalogIds();
    assert Services[0].rate == Numeric(4.0);
    OnlyFirstPriced(JobInfo("", "", "", 10000, "", 15.0), map[1 := true], Services, date);
    assert LineCost(10000, 4.0) == 400.0;
    assert Percent(400.0, 15.0) == 60.0;
    assert Percent(400.0, 115.0) == 460.0;
  }
}
