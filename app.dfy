/**
 * The wizard's router: three state cells (the job details, the service
 * selection and the computed invoice) shared by the three pages, plus the
 * current route. Calculating fills the invoice; resetting restores the
 * initial state.
 */
module App {
  import opened Wrappers
  import opened Catalog
  import opened InvoiceCalc
  import HomePage

  /** Empty texts, weight 0 and the 15 percent default surcharge. */
  const InitialJobInfo: JobInfo := JobInfo("", "", "", 0, "", 15.0)

  /** The three state cells as one value. */
  datatype WizardState = WizardState(jobInfo: JobInfo, selectedServices: Selection, invoice: Option<Invoice>)

  const Initial: WizardState := WizardState(InitialJobInfo, map[], None)

  /** `handleReset`: whatever the state was, the job details, selection and invoice start over. */
  function Reset(state: WizardState): (r: WizardState)
    ensures r.jobInfo.vehicleWeight == 0 && r.jobInfo.fuelSurcharge == 15.0
    ensures r.jobInfo.customerName == "" && r.jobInfo.invoiceNumber == "" && r.jobInfo.vehicleType == ""
    ensures r.jobInfo.problemDescription == ""
    ensures r.selectedServices == map[] && r.invoice.None?
  {
    Initial
  }

  /** Resetting twice is resetting once. */
  lemma ResetIdempotent(state: WizardState)
    ensures Reset(Reset(state)) == Reset(state)
  {
  }

  /** After a reset the state is the initial state, whatever it was before. */
  lemma ResetForgetsEverything(state: WizardState, other: WizardState)
    ensures Reset(state) == Initial
    ensures Reset(state) == Reset(other)
  {
  }

  /** `handleCalculateInvoice` as a step on the state: only the invoice cell changes. */
  function Calculate(state: WizardState, services: seq<TowingService>, date: string): (r: WizardState)
    requires SelectedRatesReadable(state.selectedServices, services)
    ensures r.jobInfo == state.jobInfo && r.selectedServices == state.selectedServices
    ensures r.invoice.Some? && r.invoice.value.date == date
    ensures |r.invoice.value.services| == |SelectedList(state.selectedServices, services)|
    ensures r.invoice == Some(CalculateInvoice(state.jobInfo, state.selectedServices, services, date))
  {
    state.(invoice := Some(CalculateInvoice(state.jobInfo, state.selectedServices, services, date)))
  }

  /** Calculating from the initial state gives an invoice with no lines and nothing to pay. */
  lemma CalculateFromInitial(services: seq<TowingService>, date: string)
    ensures SelectedRatesReadable(Initial.selectedServices, services)
    ensures Calculate(Initial, services, date).invoice.value.services == []
    ensures Calculate(Initial, services, date).invoice.value.total == 0.0
  {
    EmptySelectionCostsNothing(InitialJobInfo, services, date);
  }

  /** The router component: the state cells, the fetched service list and the current route. */
  class Router {
    var jobInfo: JobInfo
    var selectedServices: Selection
    var invoice: Option<Invoice>
    var location: string
    /** The service rows fetched from the server, which the calculation prices. */
    const services: seq<TowingService>

    function State(): WizardState
      reads this
    {
      WizardState(jobInfo, selectedServices, invoice)
    }

    /** The first render: the initial state on the home route. */
    constructor(services: seq<TowingService>)
      ensures State() == Initial
      ensures location == "/" && this.services == services
    {
      jobInfo := InitialJobInfo;
      selectedServices := map[];
      invoice := None;
      location := "/";
      this.services := services;
    }

    /** `handleCalculateInvoice`: the invoice cell takes the calculator's result for the current job and selection. */
    method HandleCalculateInvoice(date: string)
      requires SelectedRatesReadable(selectedServices, services)
      modifies this
      ensures State() == Calculate(old(State()), services, date)
      ensures location == old(location)
    {
      invoice := Some(CalculateInvoice(jobInfo, selectedServices, services, date));
    }

    /** `handleReset`: the job details, the selection and the invoice go back to their initial values. */
    method HandleReset()
      modifies this
      ensures State() == Reset(old(State()))
      ensures location == old(location)
    {
      jobInfo := InitialJobInfo;
      selectedServices := map[];
      invoice := None;
    }

    /** The selection setter handed to the services page. */
    method SetSelectedServices(selection: Selection)
      modifies this
      ensures selectedServices == selection
      ensures jobInfo == old(jobInfo) && invoice == old(invoice) && location == old(location)
    {
      selectedServices := selection;
    }

    /** A partial update of the job details, as the home page's inputs intend it. */
    method EditJobInfo(patch: HomePage.JobPatch)
      modifies this
      ensures jobInfo == HomePage.Merge(old(jobInfo), patch)
      ensures selectedServices == old(selectedServices) && invoice == old(invoice) && location == old(location)
    {
      jobInfo := HomePage.Merge(jobInfo, patch);
    }

    /** Navigation to another route. */
    method SetLocation(path: string)
      modifies this
      ensures location == path
      ensures State() == old(State())
    {
      location := path;
    }
  }

  /** The job details with every field supplied. */
  function Whole(job: JobInfo): HomePage.JobPatch {
    HomePage.JobPatch(Some(job.customerName), Some(job.invoiceNumber), Some(job.vehicleType),
                      Some(job.vehicleWeight), Some(job.problemDescription), Some(job.fuelSurcharge))
  }

  /**
   * The home page's update as the router wires it: the cell's own setter,
   * which replaces the whole job details by the one-field update it is given.
   */
  function SetJobInfoAsWritten(current: HomePage.JobPatch, update: HomePage.JobPatch): (r: HomePage.JobPatch)
    ensures HomePage.Supplied(r) == HomePage.Supplied(update)
    ensures r == update
  {
    update
  }

  /** Typing a name and then a weight: as wired, the name and every other field are gone. */
  lemma AsWrittenEditsLoseFields()
    ensures var s := SetJobInfoAsWritten(
                       SetJobInfoAsWritten(Whole(InitialJobInfo), HomePage.CustomerNameChanged("Acme")),
                       HomePage.VehicleWeightChanged("5000"));
      && s.customerName.None? && s.fuelSurcharge.None? && HomePage.Supplied(s) == 1
  {
  }

  /** Merged as the page intends, each edit keeps the fields typed before it. */
  lemma MergedEditsKeepFields(job: JobInfo, name: string, weightText: string)
    ensures var j := HomePage.Merge(HomePage.Merge(job, HomePage.CustomerNameChanged(name)),
                                    HomePage.VehicleWeightChanged(weightText));
      && j.customerName == name && j.vehicleWeight == HomePage.WeightInput(weightText)
      && j.invoiceNumber == job.invoiceNumber && j.vehicleType == job.vehicleType
      && j.problemDescription == job.problemDescription && j.fuelSurcharge == job.fuelSurcharge
  {
  }
}
