/**
 * The services page: a button per catalog entry flips its flag in the
 * selection, and "Calculate Invoice" either stops (nothing selected, or no
 * weight) or computes the invoice and moves to the invoice route.
 */
module ServicesPage {
  import opened Catalog
  import opened InvoiceCalc
  import App

  /** `toggleService`: a new selection where `id` holds the negation of its truthiness; other keys as before. */
  function Toggle(sel: Selection, id: int): (r: Selection)
    ensures id in r && r[id] == !IsSelected(sel, id)
    ensures r.Keys == sel.Keys + {id}
    ensures forall k :: k in sel && k != id ==> r[k] == sel[k]
  {
    sel[id := !IsSelected(sel, id)]
  }

  /** Toggling flips whether the id is selected and leaves every other id's status alone. */
  lemma ToggleFlips(sel: Selection, id: int, other: int)
    requires other != id
    ensures IsSelected(Toggle(sel, id), id) == !IsSelected(sel, id)
    ensures IsSelected(Toggle(sel, id), other) == IsSelected(sel, other)
  {
  }

  /** Toggling twice restores the status; a key that was missing is now an explicit false. */
  lemma ToggleTwice(sel: Selection, id: int)
    ensures IsSelected(Toggle(Toggle(sel, id), id), id) == IsSelected(sel, id)
    ensures Toggle(Toggle(sel, id), id) == sel[id := IsSelected(sel, id)]
    ensures id !in sel ==> Toggle(Toggle(sel, id), id)[id] == false
  {
  }

  /** The button's label: ON exactly when the flag is true, OFF when false or missing. */
  function Label(sel: Selection, id: int): (shown: string)
    ensures shown == "ON" <==> id in sel && sel[id]
    ensures shown == "OFF" <==> !(id in sel && sel[id])
  {
    if IsSelected(sel, id) then "ON" else "OFF"
  }

  /** Toggling a service changes its own label and no other. */
  lemma ToggleChangesOneLabel(sel: Selection, id: int, other: int)
    ensures Label(Toggle(sel, id), id) != Label(sel, id)
    ensures other != id ==> Label(Toggle(sel, id), other) == Label(sel, other)
  {
  }

  /** "Calculate Invoice" stops when no catalog entry is selected or the weight is 0. */
  predicate Blocked(sel: Selection, catalog: seq<TowingService>, weight: int): (blocked: bool)
    ensures blocked <==> (forall s :: s in catalog ==> !IsSelected(sel, s.id)) || weight == 0
  {
    var list := SelectedList(sel, catalog);
    if list == [] then NothingSelectedExactly(sel, catalog); true
    else assert list[0] in list; weight == 0
  }

  lemma NothingSelectedExactly(sel: Selection, catalog: seq<TowingService>)
    requires SelectedList(sel, catalog) == []
    ensures forall s :: s in catalog ==> !IsSelected(sel, s.id)
  {
  }

  /** Only a zero weight blocks: a negative weight passes the gate once a service is on. */
  lemma OnlyZeroWeightBlocks(catalog: seq<TowingService>, i: int, weight: int)
    requires 0 <= i < |catalog|
    requires weight != 0
    ensures !Blocked(Toggle(map[], catalog[i].id), catalog, weight)
  {
    var sel := Toggle(map[], catalog[i].id);
    assert catalog[i] in catalog && IsSelected(sel, catalog[i].id);
    assert catalog[i] in SelectedList(sel, catalog);
  }

  /** A fresh wizard is blocked: its weight is 0. */
  lemma InitialStateBlocked(catalog: seq<TowingService>)
    ensures Blocked(App.Initial.selectedServices, catalog, App.Initial.jobInfo.vehicleWeight)
  {
  }

  /** `toggleService` wired to the router's selection cell. */
  method ToggleService(router: App.Router, id: int)
    modifies router
    ensures router.selectedServices == Toggle(old(router.selectedServices), id)
    ensures router.jobInfo == old(router.jobInfo) && router.invoice == old(router.invoice)
    ensures router.location == old(router.location)
  {
    router.SetSelectedServices(Toggle(router.selectedServices, id));
  }

  /**
   * `handleNext`: when the gate blocks, nothing changes; otherwise the
   * invoice is calculated once and the route becomes `/invoice`.
   * `catalog` is the list the page checks the selection against.
   */
  method HandleNext(router: App.Router, catalog: seq<TowingService>, date: string) returns (blocked: bool)
    requires !Blocked(router.selectedServices, catalog, router.jobInfo.vehicleWeight) ==>
      SelectedRatesReadable(router.selectedServices, router.services)
    modifies router
    ensures blocked == Blocked(old(router.selectedServices), catalog, old(router.jobInfo.vehicleWeight))
    ensures blocked ==> router.State() == old(router.State()) && router.location == old(router.location)
    ensures !blocked ==> router.State() == App.Calculate(old(router.State()), router.services, date)
    ensures !blocked ==> router.location == "/invoice"
  {
    blocked := Blocked(router.selectedServices, catalog, router.jobInfo.vehicleWeight);
    if blocked {
      return;
    }
    router.HandleCalculateInvoice(date);
    router.SetLocation("/invoice");
  }
}
