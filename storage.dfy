/**
 * The server's storage layer over four tables (jobs, towing services,
 * invoice lines, company settings), each held as a sequence of rows in
 * insertion order, with a serial counter per table for new ids.
 */
module Storage {
  import opened Wrappers
  import opened Schema
  import Catalog
  import InvoiceCalc
  import JsNumber
  import SqlDecimal

  /** A stored job with the time it was created. */
  datatype JobRow = JobRow(job: Job, createdAt: int)

  /** A `towing_services` row: the rate column reads back as decimal text. */
  datatype ServiceRow = ServiceRow(id: int, name: string, rate: string)

  /** An `invoice_services` row: one priced line of a stored job. */
  datatype InvoiceServiceRow = InvoiceServiceRow(id: int, jobId: int, serviceId: int, cost: real)

  /** A `company_settings` row: the fields that hold a value. */
  datatype SettingsRow = SettingsRow(id: int, values: map<CompanyField, string>)

  /** A line handed to `createInvoiceServices`. */
  datatype LineInput = LineInput(serviceId: int, cost: real)

  /** What `getJob` returns: the job and its invoice lines. */
  datatype JobWithLines = JobWithLines(job: Job, invoiceServices: seq<InvoiceServiceRow>)

  datatype ServiceSeed = ServiceSeed(name: string, rate: string)

  /** The services seeded into an empty table, in order. */
  const SeedList: seq<ServiceSeed> := [
    ServiceSeed("Normal Recovery (On or Near Highway)", "4.0"),
    ServiceSeed("Contained Recovery/Winching", "4.0"),
    ServiceSeed("Salvage/Debris Recovery", "5.5"),
    ServiceSeed("Handle Complete Recovery", "6.0"),
    ServiceSeed("Total Loss Recovery", "5.0"),
    ServiceSeed("Rollover", "4.0"),
    ServiceSeed("Inclement Weather", "2.5"),
    ServiceSeed("Nights/Weekends/Holidays", "2.5"),
    ServiceSeed("Travel Within 50 Miles", "3.5"),
    ServiceSeed("Travel Beyond 50 Miles", "6.5"),
    ServiceSeed("Wheels Higher than Roof", "2.0"),
    ServiceSeed("Embankment or Inclines", "4.5"),
    ServiceSeed("Back Doors Open", "2.0"),
    ServiceSeed("Tractor from Under Trailer", "2.0"),
    ServiceSeed("Major Suspension Damage", "6.0"),
    ServiceSeed("10 MPH Collision Factor", "2.0"),
    ServiceSeed("30 MPH Collision Factor", "3.0"),
    ServiceSeed("50 MPH Collision Factor", "4.0"),
    ServiceSeed("70+ MPH Collision Factor", "5.0")
  ]

  /** The settings row seeded when there is none. */
  const DefaultCompanySettings: map<CompanyField, string> := map[
    CompanyName := "Professional Towing",
    CompanySubtitle := "Heavy Duty Recovery Services",
    CompanyLogo := "\U{1F69B}",
    DefaultSurcharge := "15",
    InvoiceFooter := "Thank you for your business!\nPayment due within 30 days"
  ]

  /** How many jobs `getRecentJobs` lists when no limit is given. */
  const DefaultRecentLimit: nat := 10

  /**
   * The rows a bulk insert of `seeds` creates, with serial ids from
   * `firstId` and each rate as the decimal column stores it; `None` when the
   * column refuses one of the rates, and then the statement inserts nothing.
   */
  function SeedRows(seeds: seq<ServiceSeed>, firstId: int): (r: Option<seq<ServiceRow>>)
    ensures r.None? <==> exists i :: 0 <= i < |seeds| && !SqlDecimal.Accepts(seeds[i].rate)
    ensures r.Some? ==> |r.value| == |seeds| && forall i :: 0 <= i < |seeds| ==>
      r.value[i] == ServiceRow(firstId + i, seeds[i].name, SqlDecimal.Stored(seeds[i].rate))
  {
    if forall i :: 0 <= i < |seeds| ==> SqlDecimal.Accepts(seeds[i].rate) then Some(AcceptedRows(seeds, firstId))
    else None
  }

  /** The rows of a bulk insert whose every rate the column takes, one per seed and in order. */
  function AcceptedRows(seeds: seq<ServiceSeed>, firstId: int): (rows: seq<ServiceRow>)
    requires forall i :: 0 <= i < |seeds| ==> SqlDecimal.Accepts(seeds[i].rate)
    ensures |rows| == |seeds| && forall i :: 0 <= i < |seeds| ==>
      rows[i] == ServiceRow(firstId + i, seeds[i].name, SqlDecimal.Stored(seeds[i].rate))
  {
    seq(|seeds|, i requires 0 <= i < |seeds| => ServiceRow(firstId + i, seeds[i].name, SqlDecimal.Stored(seeds[i].rate)))
  }

  /** The column takes every seeded rate. */
  lemma SeedRatesAccepted()
    ensures forall i :: 0 <= i < |SeedList| ==> SqlDecimal.Accepts(SeedList[i].rate)
  {
    forall i | 0 <= i < |SeedList| ensures SqlDecimal.Accepts(SeedList[i].rate) {
      var whole, tenth := SeedRatesShape(i);
      SqlDecimal.OneDecimalStored(whole, tenth);
    }
  }

  /** `seedTowingServices` on the table and its serial: an empty table gets the seed list, any other is left alone. */
  function SeedServices(rows: seq<ServiceRow>, nextId: int): (r: (seq<ServiceRow>, int))
    ensures |rows| > 0 ==> r == (rows, nextId)
    ensures |rows| == 0 ==> Some(r.0) == SeedRows(SeedList, nextId) && r.1 == nextId + 19
  {
    if |rows| > 0 then (rows, nextId)
    else
      SeedRatesAccepted();
      (SeedRows(SeedList, nextId).value, nextId + |SeedList|)
  }

  /** Seeding twice is seeding once. */
  lemma SeedServicesIdempotent(rows: seq<ServiceRow>, nextId: int)
    ensures var once := SeedServices(rows, nextId);
      SeedServices(once.0, once.1) == once
  {
  }

  /** The rows with that id take the rate text `text`; nothing else changes. */
  function ReplaceRate(rows: seq<ServiceRow>, id: int, text: string): (r: seq<ServiceRow>)
    ensures |r| == |rows|
    ensures forall i :: 0 <= i < |rows| ==> r[i] == if rows[i].id == id then rows[i].(rate := text) else rows[i]
  {
    if rows == [] then []
    else [if rows[0].id == id then rows[0].(rate := text) else rows[0]] + ReplaceRate(rows[1..], id, text)
  }

  lemma ReplaceRateTwice(rows: seq<ServiceRow>, id: int, first: string, second: string)
    ensures ReplaceRate(ReplaceRate(rows, id, first), id, second) == ReplaceRate(rows, id, second)
  {
  }

  lemma ReplaceAbsentRate(rows: seq<ServiceRow>, id: int, text: string)
    requires forall i :: 0 <= i < |rows| ==> rows[i].id != id
    ensures ReplaceRate(rows, id, text) == rows
  {
  }

  /**
   * `update ... set rate where id`: `None` when the column refuses the rate,
   * and otherwise the rows with that id hold the rate as the column stores it.
   */
  function SetRate(rows: seq<ServiceRow>, id: int, rate: string): (r: Option<seq<ServiceRow>>)
    ensures r.None? <==> !SqlDecimal.Accepts(rate)
    ensures r.Some? ==> r.value == ReplaceRate(rows, id, SqlDecimal.Stored(rate))
  {
    match SqlDecimal.ColumnValue(rate)
    case None => None
    case Some(h) => Some(ReplaceRate(rows, id, SqlDecimal.ColumnText(h)))
  }

  /**
   * Of two accepted updates of one rate the second wins; texts the column
   * reads as the same number update alike; writing back the rate a read
   * returned changes nothing; an id absent from the table changes nothing.
   */
  lemma SetRateProperties(rows: seq<ServiceRow>, id: int, first: string, second: string)
    ensures SqlDecimal.Accepts(first) && SqlDecimal.Accepts(second) ==>
      SetRate(SetRate(rows, id, first).value, id, second) == SetRate(rows, id, second)
    ensures SqlDecimal.ColumnValue(first) == SqlDecimal.ColumnValue(second) ==>
      SetRate(rows, id, first) == SetRate(rows, id, second)
    ensures SqlDecimal.Accepts(first) ==>
      && SqlDecimal.Accepts(SqlDecimal.Stored(first))
      && SetRate(SetRate(rows, id, first).value, id, SqlDecimal.Stored(first)) == SetRate(rows, id, first)
    ensures SqlDecimal.Accepts(first) && (forall i :: 0 <= i < |rows| ==> rows[i].id != id) ==>
      SetRate(rows, id, first) == Some(rows)
  {
    if SqlDecimal.Accepts(first) && SqlDecimal.Accepts(second) {
      ReplaceRateTwice(rows, id, SqlDecimal.Stored(first), SqlDecimal.Stored(second));
    }
    if SqlDecimal.Accepts(first) {
      var stored := SqlDecimal.Stored(first);
      SqlDecimal.StoredIsFixed(first);
      ReplaceRateTwice(rows, id, stored, stored);
      if forall i :: 0 <= i < |rows| ==> rows[i].id != id {
        ReplaceAbsentRate(rows, id, stored);
      }
    }
  }

  /** The rows a bulk insert of invoice lines creates for `jobId`, with serial ids from `firstId`. */
  function LineRows(jobId: int, lines: seq<LineInput>, firstId: int): (rows: seq<InvoiceServiceRow>)
    ensures |rows| == |lines|
    ensures forall i :: 0 <= i < |rows| ==>
      rows[i] == InvoiceServiceRow(firstId + i, jobId, lines[i].serviceId, lines[i].cost)
  {
    if lines == [] then []
    else [InvoiceServiceRow(firstId, jobId, lines[0].serviceId, lines[0].cost)] + LineRows(jobId, lines[1..], firstId + 1)
  }

  /** `where invoice_services.job_id = jobId`: the lines of one job, in table order. */
  function LinesOf(rows: seq<InvoiceServiceRow>, jobId: int): (r: seq<InvoiceServiceRow>)
    ensures forall x :: x in r <==> x in rows && x.jobId == jobId
  {
    if rows == [] then []
    else (if rows[0].jobId == jobId then [rows[0]] else []) + LinesOf(rows[1..], jobId)
  }

  /** Filtering by job distributes over appending rows. */
  lemma {:induction false} LinesOfAppend(a: seq<InvoiceServiceRow>, b: seq<InvoiceServiceRow>, jobId: int)
    ensures LinesOf(a + b, jobId) == LinesOf(a, jobId) + LinesOf(b, jobId)
  {
    if a == [] {
      assert a + b == b;
    } else {
      assert (a + b)[0] == a[0];
      assert (a + b)[1..] == a[1..] + b;
      LinesOfAppend(a[1..], b, jobId);
    }
  }

  lemma {:induction false} NoLinesOf(rows: seq<InvoiceServiceRow>, jobId: int)
    requires forall x :: x in rows ==> x.jobId != jobId
    ensures LinesOf(rows, jobId) == []
  {
    if rows != [] {
      assert rows[0] in rows;
      NoLinesOf(rows[1..], jobId);
    }
  }

  lemma {:induction false} AllLinesOf(rows: seq<InvoiceServiceRow>, jobId: int)
    requires forall x :: x in rows ==> x.jobId == jobId
    ensures LinesOf(rows, jobId) == rows
  {
    if rows != [] {
      assert rows[0] in rows;
      AllLinesOf(rows[1..], jobId);
      assert [rows[0]] + rows[1..] == rows;
    }
  }

  /** `select ... where id`: the first job row with that id. */
  function FindJob(rows: seq<JobRow>, id: int): (r: Option<Job>)
    ensures r.None? <==> forall i :: 0 <= i < |rows| ==> rows[i].job.id != id
    ensures r.Some? ==> r.value.id == id && exists i :: 0 <= i < |rows| && rows[i].job == r.value
  {
    if rows == [] then None
    else if rows[0].job.id == id then Some(rows[0].job)
    else
      var r := FindJob(rows[1..], id);
      assert forall i :: 1 <= i < |rows| ==> rows[i] == rows[1..][i - 1];
      r
  }

  /** The first settings row, if any: what `getCompanySettings` returns. */
  function FirstSettings(rows: seq<SettingsRow>): (r: Option<SettingsRow>)
    ensures r.None? <==> rows == []
    ensures r.Some? ==> r.value == rows[0]
  {
    if rows == [] then None else Some(rows[0])
  }

  /**
   * `updateCompanySettings` on the table and its serial: the first row takes
   * the given fields and keeps the others; with no row, one is inserted.
   */
  function UpsertSettings(rows: seq<SettingsRow>, nextId: int, patch: map<CompanyField, string>)
    : (r: (seq<SettingsRow>, int, SettingsRow))
    ensures |r.0| == if rows == [] then 1 else |rows|
    ensures r.0 != [] && r.0[0] == r.2
    ensures r.0[1..] == if rows == [] then [] else rows[1..]
    ensures forall f :: f in patch ==> f in r.2.values && r.2.values[f] == patch[f]
    ensures rows != [] ==> (r.2.id == rows[0].id && r.1 == nextId
      && forall f :: f in rows[0].values && f !in patch ==> f in r.2.values && r.2.values[f] == rows[0].values[f])
    ensures rows != [] ==> r.2.values.Keys == rows[0].values.Keys + patch.Keys
    ensures rows == [] ==> r.2 == SettingsRow(nextId, patch) && r.1 == nextId + 1
  {
    if rows == [] then
      var row := SettingsRow(nextId, patch);
      ([row], nextId + 1, row)
    else
      var row := rows[0].(values := rows[0].values + patch);
      ([row] + rows[1..], nextId, row)
  }

  /** The same update applied twice leaves the table as one application does. */
  lemma UpsertSettingsIdempotent(rows: seq<SettingsRow>, nextId: int, patch: map<CompanyField, string>)
    ensures var once := UpsertSettings(rows, nextId, patch);
      UpsertSettings(once.0, once.1, patch).0 == once.0
  {
    var once := UpsertSettings(rows, nextId, patch);
    var row := once.2;
    assert row.values + patch == row.values;
    assert [row] + once.0[1..] == once.0;
  }

  /** `seedCompanySettings` on the table and its serial: the default row only when there is none. */
  function SeedSettings(rows: seq<SettingsRow>, nextId: int): (r: (seq<SettingsRow>, int))
    ensures rows != [] ==> r == (rows, nextId)
    ensures rows == [] ==> r.0 == [SettingsRow(nextId, DefaultCompanySettings)] && r.1 == nextId + 1
  {
    if rows == [] then ([SettingsRow(nextId, DefaultCompanySettings)], nextId + 1) else (rows, nextId)
  }

  /** Seeding the settings twice is seeding them once; the seeded surcharge is the jobs' default surcharge. */
  lemma SeedSettingsIdempotent(rows: seq<SettingsRow>, nextId: int)
    ensures var once := SeedSettings(rows, nextId);
      SeedSettings(once.0, once.1) == once
    ensures DefaultCompanySettings[DefaultSurcharge] == DefaultFuelSurcharge
  {
  }

  /** Jobs in id order and in creation order, under ids below `nextId`. */
  predicate JobsOrdered(jobs: seq<JobRow>, nextId: int) {
    && (forall i, j :: 0 <= i < j < |jobs| ==> jobs[i].job.id < jobs[j].job.id)
    && (forall i :: 0 <= i < |jobs| ==> jobs[i].job.id < nextId)
    && (forall i, j :: 0 <= i < j < |jobs| ==> jobs[i].createdAt <= jobs[j].createdAt)
  }

  /** A row stored under the next id, no earlier than any stored row, keeps the jobs ordered. */
  lemma AppendKeepsOrder(jobs: seq<JobRow>, nextId: int, row: JobRow)
    requires JobsOrdered(jobs, nextId)
    requires row.job.id == nextId
    requires forall i :: 0 <= i < |jobs| ==> jobs[i].createdAt <= row.createdAt
    ensures JobsOrdered(jobs + [row], nextId + 1)
  {
  }

  /** The tables, their serial counters, and the job table's ordering by id and creation time. */
  class DatabaseStorage {
    var jobs: seq<JobRow>
    var towingServices: seq<ServiceRow>
    var invoiceServices: seq<InvoiceServiceRow>
    var companySettings: seq<SettingsRow>
    var nextJobId: int
    var nextServiceId: int
    var nextInvoiceServiceId: int
    var nextSettingsId: int

    /** Jobs were stored in id order and in creation order, under ids the serial has handed out. */
    predicate Valid()
      reads this
    {
      JobsOrdered(jobs, nextJobId)
    }

    /** An empty database whose serials start at 1. */
    constructor()
      ensures Valid()
      ensures jobs == [] && towingServices == [] && invoiceServices == [] && companySettings == []
      ensures nextJobId == 1 && nextServiceId == 1 && nextInvoiceServiceId == 1 && nextSettingsId == 1
    {
      jobs := [];
      towingServices := [];
      invoiceServices := [];
      companySettings := [];
      nextJobId := 1;
      nextServiceId := 1;
      nextInvoiceServiceId := 1;
      nextSettingsId := 1;
    }

    /**
     * `createJob`: the row gets the next serial id and the surcharge as the
     * column stores it (the default one if none is given); `now` stamps it.
     * `None` when the weight is out of the `integer` range or the column
     * refuses the surcharge: nothing is stored.
     * Only the job table and its serial can change.
     */
    method CreateJob(insert: InsertJob, now: int) returns (job: Option<Job>)
      requires Valid()
      requires forall i :: 0 <= i < |jobs| ==> jobs[i].createdAt <= now
      modifies this`jobs, this`nextJobId
      ensures Valid()
      ensures job == StoredJob(insert, old(nextJobId))
      ensures job.None? <==> !FitsInteger(insert.vehicleWeight) || !SqlDecimal.Accepts(SurchargeText(insert))
      ensures job.Some? ==> jobs == old(jobs) + [JobRow(job.value, now)] && nextJobId == old(nextJobId) + 1
      ensures job.None? ==> jobs == old(jobs) && nextJobId == old(nextJobId)
    {
      job := StoredJob(insert, nextJobId);
      if job.None? {
        return;
      }
      var row := JobRow(job.value, now);
      AppendKeepsOrder(jobs, nextJobId, row);
      jobs := jobs + [row];
      nextJobId := nextJobId + 1;
    }

    /** `getJob`: nothing for an unknown id; otherwise the job with exactly its invoice lines. */
    function GetJob(id: int): (r: Option<JobWithLines>)
      reads this
      ensures r.None? <==> forall i :: 0 <= i < |jobs| ==> jobs[i].job.id != id
      ensures r.Some? ==> r.value.job.id == id && (exists i :: 0 <= i < |jobs| && jobs[i].job == r.value.job)
      ensures r.Some? ==> forall x :: x in r.value.invoiceServices <==> x in invoiceServices && x.jobId == id
    {
      match FindJob(jobs, id)
      case None => None
      case Some(job) => Some(JobWithLines(job, LinesOf(invoiceServices, id)))
    }

    /** `getAllJobs`: every job, in table order. */
    function GetAllJobs(): (r: seq<Job>)
      reads this
      ensures |r| == |jobs|
      ensures forall i :: 0 <= i < |jobs| ==> r[i] == jobs[i].job
    {
      seq(|jobs|, i requires 0 <= i < |jobs| reads this => jobs[i].job)
    }

    /**
     * `getRecentJobs`: the `limit` newest jobs, newest first. Rows created at
     * the same time come latest-stored first.
     */
    method GetRecentJobs(limit: nat) returns (recent: seq<JobRow>)
      requires Valid()
      ensures |recent| == if limit < |jobs| then limit else |jobs|
      ensures forall i :: 0 <= i < |recent| ==> recent[i] == jobs[|jobs| - 1 - i]
      ensures forall i, j :: 0 <= i < j < |recent| ==> recent[i].createdAt >= recent[j].createdAt
      ensures forall i, k :: 0 <= i < |recent| && 0 <= k < |jobs| - |recent| ==>
        jobs[k].createdAt <= recent[i].createdAt
    {
      recent := [];
      var i := |jobs|;
      while i > 0 && |recent| < limit
        invariant 0 <= i <= |jobs|
        invariant |recent| == |jobs| - i && |recent| <= limit
        invariant forall k :: 0 <= k < |recent| ==> recent[k] == jobs[|jobs| - 1 - k]
      {
        i := i - 1;
        recent := recent + [jobs[i]];
      }
    }

    /** `getRecentJobs()` with its default limit: the ten newest jobs, newest first. */
    method GetDefaultRecentJobs() returns (recent: seq<JobRow>)
      requires Valid()
      ensures |recent| == if DefaultRecentLimit < |jobs| then DefaultRecentLimit else |jobs|
      ensures forall i :: 0 <= i < |recent| ==> recent[i] == jobs[|jobs| - 1 - i]
      ensures forall i, k :: 0 <= i < |recent| && 0 <= k < |jobs| - |recent| ==>
        jobs[k].createdAt <= recent[i].createdAt
    {
      recent := GetRecentJobs(DefaultRecentLimit);
    }

    /** `getTowingServices`: the service rows in table order. */
    function GetTowingServices(): (r: seq<ServiceRow>)
      reads this
      ensures |r| == |towingServices| && forall i :: 0 <= i < |r| ==> r[i] == towingServices[i]
    {
      towingServices
    }

    /**
     * `updateTowingServiceRate`: `ok` is whether the column takes the rate.
     * If it does, only the rate of the row with that id changes; if not,
     * nothing does.
     */
    method UpdateTowingServiceRate(id: int, rate: string) returns (ok: bool)
      requires Valid()
      modifies this
      ensures Valid()
      ensures ok <==> SqlDecimal.Accepts(rate)
      ensures towingServices == if ok then SetRate(old(towingServices), id, rate).value else old(towingServices)
      ensures jobs == old(jobs) && invoiceServices == old(invoiceServices) && companySettings == old(companySettings)
      ensures nextJobId == old(nextJobId) && nextServiceId == old(nextServiceId)
      ensures nextInvoiceServiceId == old(nextInvoiceServiceId) && nextSettingsId == old(nextSettingsId)
    {
      var updated := SetRate(towingServices, id, rate);
      if updated.None? {
        return false;
      }
      towingServices := updated.value;
      ok := true;
    }

    /** `seedTowingServices`: check, then insert the seed list into an empty table. */
    method SeedTowingServices()
      requires Valid()
      modifies this
      ensures Valid()
      ensures (towingServices, nextServiceId) == SeedServices(old(towingServices), old(nextServiceId))
      ensures jobs == old(jobs) && invoiceServices == old(invoiceServices) && companySettings == old(companySettings)
      ensures nextJobId == old(nextJobId)
      ensures nextInvoiceServiceId == old(nextInvoiceServiceId) && nextSettingsId == old(nextSettingsId)
    {
      if |GetTowingServices()| > 0 {
        return;
      }
      SeedRatesAccepted();
      towingServices := SeedRows(SeedList, nextServiceId).value;
      nextServiceId := nextServiceId + |SeedList|;
    }

    /** `createInvoiceServices`: nothing for no lines, else one row per line for `jobId`. */
    method CreateInvoiceServices(jobId: int, services: seq<LineInput>)
      requires Valid()
      modifies this
      ensures Valid()
      ensures invoiceServices == old(invoiceServices) + LineRows(jobId, services, old(nextInvoiceServiceId))
      ensures nextInvoiceServiceId == old(nextInvoiceServiceId) + |services|
      ensures jobs == old(jobs) && towingServices == old(towingServices) && companySettings == old(companySettings)
      ensures nextJobId == old(nextJobId) && nextServiceId == old(nextServiceId) && nextSettingsId == old(nextSettingsId)
    {
      if |services| > 0 {
        invoiceServices := invoiceServices + LineRows(jobId, services, nextInvoiceServiceId);
        nextInvoiceServiceId := nextInvoiceServiceId + |services|;
      }
    }

    /** `getCompanySettings`: the first settings row, if any. */
    function GetCompanySettings(): (r: Option<SettingsRow>)
      reads this
      ensures r.None? <==> companySettings == []
      ensures r.Some? ==> r.value == companySettings[0]
    {
      FirstSettings(companySettings)
    }

    /** `updateCompanySettings`: update the existing row, or insert one; returns the row as stored. */
    method UpdateCompanySettings(patch: map<CompanyField, string>) returns (row: SettingsRow)
      requires Valid()
      modifies this
      ensures Valid()
      ensures (companySettings, nextSettingsId, row) == UpsertSettings(old(companySettings), old(nextSettingsId), patch)
      ensures |companySettings| <= |old(companySettings)| + 1
      ensures GetCompanySettings() == Some(row)
      ensures jobs == old(jobs) && towingServices == old(towingServices) && invoiceServices == old(invoiceServices)
      ensures nextJobId == old(nextJobId) && nextServiceId == old(nextServiceId)
      ensures nextInvoiceServiceId == old(nextInvoiceServiceId)
    {
      var existing := GetCompanySettings();
      if existing.Some? {
        row := existing.value.(values := existing.value.values + patch);
        companySettings := [row] + companySettings[1..];
      } else {
        row := SettingsRow(nextSettingsId, patch);
        companySettings := [row];
        nextSettingsId := nextSettingsId + 1;
      }
    }

    /** `seedCompanySettings`: the default row when no settings row exists. */
    method SeedCompanySettings()
      requires Valid()
      modifies this
      ensures Valid()
      ensures (companySettings, nextSettingsId) == SeedSettings(old(companySettings), old(nextSettingsId))
      ensures jobs == old(jobs) && towingServices == old(towingServices) && invoiceServices == old(invoiceServices)
      ensures nextJobId == old(nextJobId) && nextServiceId == old(nextServiceId)
      ensures nextInvoiceServiceId == old(nextInvoiceServiceId)
    {
      var existing := GetCompanySettings();
      if existing.None? {
        companySettings := [SettingsRow(nextSettingsId, DefaultCompanySettings)];
        nextSettingsId := nextSettingsId + 1;
      }
    }
  }

  /**
   * Lines stored for a job that had none are exactly what its lookup lists,
   * in the order given; lines of any other job are untouched by the insert.
   */
  lemma StoredLinesReadBack(rows: seq<InvoiceServiceRow>, jobId: int, lines: seq<LineInput>,
                            firstId: int, other: int)
    requires forall x :: x in rows ==> x.jobId != jobId
    requires other != jobId
    ensures LinesOf(rows + LineRows(jobId, lines, firstId), jobId) == LineRows(jobId, lines, firstId)
    ensures LinesOf(rows + LineRows(jobId, lines, firstId), other) == LinesOf(rows, other)
  {
    var added := LineRows(jobId, lines, firstId);
    forall x | x in added ensures x.jobId == jobId {
      var i :| 0 <= i < |added| && added[i] == x;
    }
    LinesOfAppend(rows, added, jobId);
    LinesOfAppend(rows, added, other);
    NoLinesOf(rows, jobId);
    AllLinesOf(added, jobId);
    NoLinesOf(added, other);
    assert [] + added == added;
    assert LinesOf(rows, other) + [] == LinesOf(rows, other);
  }

  /** A service row as the calculator sees it: the rate stays text until it is priced. */
  function AsCatalog(rows: seq<ServiceRow>): (r: seq<Catalog.TowingService>)
    ensures |r| == |rows|
    ensures forall i :: 0 <= i < |rows| ==>
      r[i] == Catalog.TowingService(rows[i].id, rows[i].name, Catalog.Text(rows[i].rate))
  {
    if rows == [] then [] else [Catalog.TowingService(rows[0].id, rows[0].name, Catalog.Text(rows[0].rate))] + AsCatalog(rows[1..])
  }

  /** The seed list names the catalog's entries, in the catalog's order. */
  lemma SeedNamesMatch()
    ensures |SeedList| == |Catalog.Services|
    ensures forall i :: 0 <= i < |SeedList| ==> SeedList[i].name == Catalog.Services[i].name
  {
  }

  /** A rate written as one digit, a point and one digit. */
  function OneDecimalText(whole: nat, tenth: nat): (text: string)
    requires whole < 10 && tenth < 10
    ensures |text| == 3 && text[1] == '.'
  {
    [JsNumber.DigitChar(whole), '.', JsNumber.DigitChar(tenth)]
  }

  /** Every seeded rate is written `d.d`, and the catalog's rate is that number. */
  lemma SeedRatesShape(i: int) returns (whole: nat, tenth: nat)
    requires 0 <= i < |SeedList|
    ensures whole < 10 && tenth < 10 && SeedList[i].rate == OneDecimalText(whole, tenth)
    ensures Catalog.Services[i].rate == Catalog.Numeric(whole as real + tenth as real / 10.0)
  {
    var digits := [(4, 0), (4, 0), (5, 5), (6, 0), (5, 0), (4, 0), (2, 5), (2, 5), (3, 5), (6, 5),
                   (2, 0), (4, 5), (2, 0), (2, 0), (6, 0), (2, 0), (3, 0), (4, 0), (5, 0)];
    whole, tenth := digits[i].0, digits[i].1;
  }

  /** The seeded rates, as the column stores them, read as the built-in catalog's rates. */
  lemma SeedMatchesCatalog()
    ensures |SeedList| == |Catalog.Services|
    ensures forall i :: 0 <= i < |SeedList| ==>
      && SeedList[i].name == Catalog.Services[i].name
      && SqlDecimal.Accepts(SeedList[i].rate)
      && JsNumber.ParseFloat(SqlDecimal.Stored(SeedList[i].rate)) == InvoiceCalc.RateValue(Catalog.Services[i].rate)
  {
    SeedNamesMatch();
    forall i | 0 <= i < |SeedList|
      ensures SqlDecimal.Accepts(SeedList[i].rate)
      ensures JsNumber.ParseFloat(SqlDecimal.Stored(SeedList[i].rate)) == InvoiceCalc.RateValue(Catalog.Services[i].rate)
    {
      var whole, tenth, x := SeedRateValue(i);
      var negative, digits := SeedRateStored(i, whole, tenth);
      WrittenReads(negative, digits, tenth, x);
    }
  }

  /** The seeded rate at `i` is written `d.d`, and the catalog's rate there is that number. */
  lemma SeedRateValue(i: int) returns (whole: nat, tenth: nat, x: real)
    requires 0 <= i < |SeedList|
    ensures whole < 10 && tenth < 10 && SeedList[i].rate == OneDecimalText(whole, tenth)
    ensures x == whole as real + tenth as real / 10.0
    ensures InvoiceCalc.RateValue(Catalog.Services[i].rate) == Some(x)
  {
    whole, tenth := SeedRatesShape(i);
    x := whole as real + tenth as real / 10.0;
  }

  /** The column stores the rate `d.d` as `d.d0`. */
  lemma SeedRateStored(i: int, whole: nat, tenth: nat) returns (negative: bool, digits: string)
    requires 0 <= i < |SeedList|
    requires whole < 10 && tenth < 10 && SeedList[i].rate == OneDecimalText(whole, tenth)
    ensures digits != [] && JsNumber.AllDigits(digits) && JsNumber.DigitsValue(digits) == whole && !negative
    ensures SqlDecimal.Accepts(SeedList[i].rate)
    ensures SqlDecimal.Stored(SeedList[i].rate) == SqlDecimal.Written(negative, digits, tenth, 0)
  {
    negative, digits := false, [JsNumber.DigitChar(whole)];
    assert JsNumber.AllDigits(digits) && JsNumber.DigitsValue(digits) == whole by {
      assert digits[..0] == [];
    }
    SqlDecimal.OneDecimalStored(whole, tenth);
    assert SqlDecimal.ColumnValue(SeedList[i].rate) == Some(100 * whole + 10 * tenth);
    SqlDecimal.OneDecimalReadsBack(whole, tenth);
  }

  /** Text written as `digits`, a point, `tenth` and a zero reads as the number `x` it writes. */
  lemma WrittenReads(negative: bool, digits: string, tenth: nat, x: real)
    requires digits != [] && JsNumber.AllDigits(digits) && tenth < 10
    requires x == JsNumber.DigitsValue(digits) as real + tenth as real / 10.0
    ensures JsNumber.ParseFloat(SqlDecimal.Written(negative, digits, tenth, 0)) == Some(if negative then -x else x)
  {
    var v := SqlDecimal.ParseFloatOfWritten(negative, digits, tenth, 0);
    assert v == x;
    assert JsNumber.ParseFloat(SqlDecimal.Written(negative, digits, tenth, 0)) == Some(if negative then -v else v);
    assert (if negative then -v else v) == (if negative then -x else x);
  }

  /** Rows seeded with a catalog's names, its ids and rates the column stores as its rates list that catalog. */
  lemma SeededRowsList(seeds: seq<ServiceSeed>, firstId: int, catalog: seq<Catalog.TowingService>)
    requires |seeds| == |catalog|
    requires forall i :: 0 <= i < |seeds| ==>
      && catalog[i].id == firstId + i && seeds[i].name == catalog[i].name
      && SqlDecimal.Accepts(seeds[i].rate)
      && JsNumber.ParseFloat(SqlDecimal.Stored(seeds[i].rate)) == InvoiceCalc.RateValue(catalog[i].rate)
    ensures SeedRows(seeds, firstId).Some?
    ensures InvoiceCalc.SameEntries(AsCatalog(SeedRows(seeds, firstId).value), catalog)
  {
    var rows := SeedRows(seeds, firstId).value;
    SeedRowsMatchCatalog(seeds, firstId, catalog, rows);
    RowsListCatalog(rows, catalog);
  }

  /** Rows built from seeds whose stored rates read as a catalog's rates carry that catalog's ids, names and rates. */
  lemma SeedRowsMatchCatalog(seeds: seq<ServiceSeed>, firstId: int, catalog: seq<Catalog.TowingService>, rows: seq<ServiceRow>)
    requires |seeds| == |catalog| && |rows| == |seeds|
    requires forall i :: 0 <= i < |seeds| ==>
      && catalog[i].id == firstId + i && seeds[i].name == catalog[i].name
      && SqlDecimal.Accepts(seeds[i].rate)
      && JsNumber.ParseFloat(SqlDecimal.Stored(seeds[i].rate)) == InvoiceCalc.RateValue(catalog[i].rate)
    requires forall i :: 0 <= i < |rows| ==> rows[i] == ServiceRow(firstId + i, seeds[i].name, SqlDecimal.Stored(seeds[i].rate))
    ensures forall i :: 0 <= i < |rows| ==>
      && rows[i].id == catalog[i].id && rows[i].name == catalog[i].name
      && JsNumber.ParseFloat(rows[i].rate) == InvoiceCalc.RateValue(catalog[i].rate)
  {
  }

  /** Rows with a catalog's ids and names, whose rate texts read as its rates, list that catalog. */
  lemma RowsListCatalog(rows: seq<ServiceRow>, catalog: seq<Catalog.TowingService>)
    requires |rows| == |catalog|
    requires forall i :: 0 <= i < |rows| ==>
      && rows[i].id == catalog[i].id && rows[i].name == catalog[i].name
      && JsNumber.ParseFloat(rows[i].rate) == InvoiceCalc.RateValue(catalog[i].rate)
    ensures InvoiceCalc.SameEntries(AsCatalog(rows), catalog)
  {
  }

  /** A freshly seeded table lists the built-in catalog: same ids, names and rates. */
  lemma FreshSeedIsCatalog()
    ensures InvoiceCalc.SameEntries(AsCatalog(SeedServices([], 1).0), Catalog.Services)
  {
    SeedMatchesCatalog();
    Catalog.CatalogIds();
    SeededRowsList(SeedList, 1, Catalog.Services);
  }

  /** Pricing against a freshly seeded server table gives the invoice the built-in catalog gives. */
  lemma FreshSeedPricesLikeCatalog(job: InvoiceCalc.JobInfo, sel: InvoiceCalc.Selection, date: string)
    requires InvoiceCalc.SelectedRatesReadable(sel, Catalog.Services)
    ensures InvoiceCalc.SelectedRatesReadable(sel, AsCatalog(SeedServices([], 1).0))
    ensures InvoiceCalc.CalculateInvoice(job, sel, AsCatalog(SeedServices([], 1).0), date)
         == InvoiceCalc.CalculateInvoice(job, sel, Catalog.Services, date)
  {
    var seeded := AsCatalog(SeedServices([], 1).0);
    FreshSeedIsCatalog();
    SameEntriesSymmetric(seeded, Catalog.Services);
    InvoiceCalc.EquivalentCatalogsSameInvoice(job, sel, Catalog.Services, seeded, date);
  }

  lemma SameEntriesSymmetric(a: seq<Catalog.TowingService>, b: seq<Catalog.TowingService>)
    requires InvoiceCalc.SameEntries(a, b)
    ensures InvoiceCalc.SameEntries(b, a)
  {
  }
}
