# PPP-app price-per-pound invoice wizard, modelled in Dafny

PPP-app prices heavy-duty towing jobs by the pound. A dispatcher enters the
job details, switches on the recovery services that apply, and gets an
invoice. Each selected service costs `weight × rate / 100`, where the rate
is in cents per pound. The costs add up to a subtotal, and a percentage
fuel surcharge on top gives the total. A settings sidebar edits the service
rates and company details. An admin page creates users and companies. The
server keeps jobs, invoice lines, services and company settings in four
tables, and it applies one SQL migration file at start-up.

The model covers that logic with the amounts in exact `real` arithmetic:

| module | file | what it models |
|---|---|---|
| `Wrappers` | wrappers.dfy | `Option` |
| `JsText` | js_text.dfy | `String.prototype.trim`, `split` on one character, `startsWith`, `includes` |
| `JsNumber` | js_number.dfy | decimal `parseInt` and `parseFloat`; decimal rendering of integers |
| `SqlDecimal` | sql_decimal.dfy | the `decimal(5, 2)` columns: what PostgreSQL stores for a text and the text it gives back (shared/schema.ts) |
| `Catalog` | catalog.dfy | the 19-entry service catalog (client/src/lib/services.ts) |
| `Schema` | schema.dfy | jobs and insert-job records, decimal column limits, the invoice form's validation rules (shared/schema.ts) |
| `InvoiceCalc` | invoice.dfy | `calculateInvoice` (client/src/lib/invoice.ts) |
| `HomePage` | home.dfy | the job-details inputs and the photo list (client/src/pages/home.tsx) |
| `App` | app.dfy | the router's three state cells, calculate and reset (client/src/App.tsx) |
| `ServicesPage` | services_page.dfy | the ON/OFF toggles and the "Calculate Invoice" gate (client/src/pages/services.tsx) |
| `SettingsSidebar` | sidebar.dfy | the pending-edit maps committed on blur (client/src/components/Sidebar.tsx) |
| `AdminPage` | admin.dfy | the company-name lookup and the two creation forms (client/src/pages/admin.tsx) |
| `Migrate` | migrate.dfy | statement splitting and in-order execution (server/migrate.ts) |
| `Storage` | storage.dfy | `DatabaseStorage` over in-memory tables (server/storage.ts) |

How each kind of code is modelled:
- Pure code (the calculator, parsing, toggling, splitting) is written as
  functions and lemmas.
- Stateful code is written as classes whose methods state their new state:
  - the router's state cells;
  - the sidebar's pending maps;
  - the admin forms;
  - the storage tables.
- The migration loop is a method with loop invariants.
- The database and the HTTP mutations are replaced by sequences of rows
  and by a log of issued requests.

## Model

| member | source | states |
|---|---|---|
| InvoiceCalc.SelectedList | client/src/lib/invoice.ts:35 | a catalog entry is kept exactly when its id maps to true; no more entries than the catalog |
| InvoiceCalc.UnknownIdIgnored | client/src/lib/invoice.ts:35 | a selection flag for an id no catalog entry has changes nothing |
| InvoiceCalc.FalseSameAsMissing | client/src/lib/invoice.ts:35 | an id mapped to false selects the same entries as a missing id |
| InvoiceCalc.NothingSelected | client/src/lib/invoice.ts:35 | when no entry's id is on, nothing is kept |
| InvoiceCalc.SelectedListAppend | client/src/lib/invoice.ts:35 | filtering keeps catalog order: it distributes over concatenation |
| InvoiceCalc.OnlyFirstSelected | client/src/lib/invoice.ts:35 | with only the first entry on, exactly that entry is kept |
| InvoiceCalc.WithCost | client/src/lib/invoice.ts:37-44 | the line keeps the service's id and name, carries the rate `parseFloat` reads from it, and costs weight × that rate / 100 |
| InvoiceCalc.PriceLines | client/src/lib/invoice.ts:37-45 | one line per kept service with its id and name; the line carries the parsed numeric rate and costs weight × rate / 100 |
| InvoiceCalc.LineCostAdds | client/src/lib/invoice.ts:39 | the line cost is linear in the rate |
| InvoiceCalc.Subtotal | client/src/lib/invoice.ts:47 | lines with non-negative costs add up to a non-negative amount; one line adds up to its own cost |
| InvoiceCalc.SubtotalCons | client/src/lib/invoice.ts:47 | a line put in front adds its cost to the sum |
| InvoiceCalc.SubtotalAppend | client/src/lib/invoice.ts:47 | the subtotal of concatenated lines is the sum of the subtotals |
| InvoiceCalc.SubtotalOfLines | client/src/lib/invoice.ts:39-47 | lines each costing weight × rate / 100 add up to weight × (sum of their rates) / 100 |
| InvoiceCalc.LineRatesSum | client/src/lib/invoice.ts:37-45 | the rates carried by the priced lines add up to the numeric rates of the kept services |
| InvoiceCalc.SubtotalOfPricedLines | client/src/lib/invoice.ts:37-47 | the sum of the line costs is weight × (sum of the rates) / 100 |
| InvoiceCalc.SurchargeAmount | client/src/lib/invoice.ts:48 | the surcharge amount is the surcharge percentage of the subtotal |
| InvoiceCalc.PercentOnTop | client/src/lib/invoice.ts:49 | subtotal plus p percent of it is (100 + p) percent of it |
| InvoiceCalc.CalculateInvoice | client/src/lib/invoice.ts:30-59 | the six job fields and the date are copied; the lines are the priced selected entries; subtotal = weight × rate sum / 100; surcharge = subtotal × s / 100; total = subtotal × (100 + s) / 100 |
| InvoiceCalc.EmptySelectionCostsNothing | client/src/lib/invoice.ts:35-49 | an empty selection gives no lines, subtotal 0 and total 0 |
| InvoiceCalc.AmountsNonNegative | client/src/lib/invoice.ts:39-49 | non-negative weight, rates and surcharge give 0 ≤ subtotal ≤ total |
| InvoiceCalc.RateSumNonNegative | client/src/lib/invoice.ts:47 | non-negative rates sum to a non-negative amount |
| InvoiceCalc.SameEntriesSelectAlike | client/src/lib/invoice.ts:35 | catalogs equal entry by entry select equal lists |
| InvoiceCalc.SameEntriesPriceAlike | client/src/lib/invoice.ts:37-45 | catalogs equal entry by entry, text or numeric rates alike, price alike |
| InvoiceCalc.EquivalentCatalogsSameInvoice | client/src/lib/invoice.ts:30-59 | the invoice depends only on ids, names and rate values, not on whether a rate is text or a number |
| InvoiceCalc.OnlyFirstPriced | client/src/lib/invoice.ts:35-47 | with only the first entry on, the invoice has exactly that entry's line and its cost as subtotal |
| InvoiceCalc.NormalRecoveryExample | client/src/lib/invoice.ts:30-59 | 10 000 lb with service 1 at 4.0 ¢/lb and 15 %: subtotal 400, surcharge 60, total 460 |
| Catalog.CatalogIds | client/src/lib/services.ts:8-28 | 19 entries with ids 1 to 19 in order |
| Catalog.CatalogIdsDistinct | client/src/lib/services.ts:8-28 | no two entries share an id |
| Catalog.CatalogRates | client/src/lib/services.ts:9-27 | every rate is numeric, between 2.0 and 6.5, with at most one decimal |
| Catalog.TenthsHaveOneDecimal | client/src/lib/services.ts:9-27 | a whole number of tenths has at most one decimal |
| Schema.StoredJob | shared/schema.ts:6-14 | nothing is stored exactly when the weight is outside the 32-bit range of the `integer` column or the surcharge column refuses the surcharge text (the one given, else "15"); otherwise the job has the given id, the insert's other fields, and the surcharge as the column gives it back |
| Schema.StoreOmitted | shared/schema.ts:16-18 | storing a job's insert record under its own id gives the job back, for a job whose weight fits the `integer` column and whose surcharge is in the column's own form |
| Schema.OutOfRangeWeightRefused | shared/schema.ts:11 | an insert with a weight of 3000000000 is refused, whatever its surcharge |
| Schema.LargestWeightStored | shared/schema.ts:11 | an insert with weight 2147483647 and the default surcharge is stored |
| Schema.OmitStored | shared/schema.ts:13-18 | a stored job without its id is its insert with the surcharge normalised; that surcharge is in the column's own form, so storing it again gives the same job; an insert already in that form comes back unchanged |
| Schema.DefaultSurchargeStored | shared/schema.ts:13 | the default "15" is stored as 1500 hundredths and reads back as "15.00" |
| Schema.OneDecimalFitsRateColumn | shared/schema.ts:27 | a one-decimal rate below 1000 in magnitude fits decimal(5, 2) |
| Schema.CatalogRatesFitColumn | shared/schema.ts:27 | every catalog rate fits the rate column |
| Schema.DefaultFuelSurchargeIsFifteen | shared/schema.ts:13 | the default surcharge text reads as 15 and fits decimal(5, 2) |
| SqlDecimal.ColumnValue | shared/schema.ts:27 | a stored value comes from a readable number and its magnitude is under 1000 |
| SqlDecimal.ColumnValueMeaning | shared/schema.ts:27 | the column refuses exactly the texts that are no number and those whose rounded magnitude reaches 1000; otherwise it stores the rounded magnitude with the literal's sign |
| SqlDecimal.RoundingIsNearest | shared/schema.ts:27 | the stored hundredths lie within half a hundredth of the exact value, a half rounding away from zero, and are exact for two decimals or fewer |
| SqlDecimal.ColumnText | shared/schema.ts:27 | the text read back ends with a point and two decimals |
| SqlDecimal.ColumnTextParts | shared/schema.ts:27 | the text read back for h hundredths writes the whole part and the two decimals of h |
| SqlDecimal.ReadColumnText | shared/schema.ts:27 | the text read back is read again as the literal it writes |
| SqlDecimal.StoredTextRoundTrip | shared/schema.ts:27 | the text read back for any storable value is stored as that same value |
| SqlDecimal.StoredIsFixed | shared/schema.ts:27 | the text read back for an accepted text is accepted and reads back unchanged |
| SqlDecimal.ParseFloatOfWritten | shared/schema.ts:27 | `parseFloat` reads a text in the column's form as its whole part plus its two decimals, negated after a minus |
| SqlDecimal.WholeNumberStored | shared/schema.ts:13 | a whole number below 1000 written without a point is stored as that many units |
| SqlDecimal.ReadWholeNumber | shared/schema.ts:13 | digits alone are read as a whole number |
| SqlDecimal.FifteenReadsBack | shared/schema.ts:13 | 15 units read back as "15.00" |
| SqlDecimal.ReadPointed | shared/schema.ts:27 | unsigned digits, a point and more digits are read as that literal |
| SqlDecimal.OneDecimalStored | shared/schema.ts:27 | a text `w.t` is stored as w units and t tenths |
| SqlDecimal.OneDecimalReadsBack | shared/schema.ts:27 | w units and t tenths read back as `w.t0` |
| Schema.FailingAmong | shared/schema.ts:33-41 | the failing fields are exactly the listed fields whose rule the form breaks |
| Schema.Violations | shared/schema.ts:33-41 | every field whose rule the form breaks is reported, and only those |
| Schema.ValidFormMeetsEveryConstraint | shared/schema.ts:34-39 | a form is valid exactly when the four texts are non-empty, the weight is at least 1 and the surcharge lies in [0, 100] |
| JsText.Trim | server/migrate.ts:27 | the result has no leading or trailing whitespace, and it is a contiguous part of the input with only whitespace cut from either end |
| JsText.TrimKeepsCharacters | server/migrate.ts:27 | trimming removes only whitespace: every non-whitespace character survives and nothing is added |
| JsText.TrimIdempotent | server/migrate.ts:27 | trimming twice is trimming once |
| JsText.TrimmedIsFixed | server/migrate.ts:27 | trimming leaves trimmed text unchanged |
| JsText.Split | server/migrate.ts:26 | one more piece than separators, and no piece contains the separator |
| JsText.JoinSplit | server/migrate.ts:26 | joining the pieces with the separator gives the text back |
| JsText.SplitAppend | server/migrate.ts:26 | splitting `a;b` is splitting `a` followed by splitting `b` |
| JsText.SplitWithoutSeparator | server/migrate.ts:26 | text without the separator is one piece |
| JsNumber.ParseInt | client/src/pages/home.tsx:86 | NaN exactly when, after leading whitespace and an optional sign, the text does not start with a digit |
| JsNumber.ParseFloat | client/src/pages/home.tsx:107 | NaN exactly when, after leading whitespace and an optional sign, the text starts with neither a digit nor a point followed by a digit |
| JsNumber.ParseIntOfIntToString | client/src/pages/admin.tsx:180 | an integer written in decimal parses back to itself |
| JsNumber.ParseIntOfDigitsThen | client/src/pages/home.tsx:86 | `parseInt` reads the leading digit run and ignores what follows |
| JsNumber.ParseFloatOfNatToString | client/src/pages/home.tsx:107 | a whole number written in decimal reads back as itself |
| JsNumber.ParseFloatOneDecimal | client/src/lib/invoice.ts:38 | `d.d` text reads as whole plus tenths |
| JsNumber.ParseFloatWithoutDigits | client/src/pages/home.tsx:86 | text that starts with no digit, sign, point or space is unreadable to both parsers |
| HomePage.Merge | client/src/pages/home.tsx:9 | a partial update replaces exactly the supplied fields and keeps the rest |
| HomePage.MergeNothing | client/src/pages/home.tsx:9 | an empty update changes nothing |
| HomePage.MergeIdempotent | client/src/pages/home.tsx:9 | applying the same update twice is applying it once |
| HomePage.WeightDisplay | client/src/pages/home.tsx:85 | the weight shows as empty text exactly when it is 0 |
| HomePage.WeightDisplayRoundTrip | client/src/pages/home.tsx:85-86 | the displayed weight reads back as the weight |
| HomePage.WeightInputReadsLeadingDigits | client/src/pages/home.tsx:86 | typed weight text becomes the value of its leading digits |
| HomePage.UnreadableInputIsZero | client/src/pages/home.tsx:86-107 | unreadable weight or surcharge text becomes 0 |
| HomePage.WeightInput | client/src/pages/home.tsx:86 | the integer `parseInt` reads from the text, or 0 when it reads none |
| HomePage.SurchargeInput | client/src/pages/home.tsx:107 | the number `parseFloat` reads from the text, or 0 when it reads none |
| HomePage.CustomerNameChanged | client/src/pages/home.tsx:55 | the update supplies the customer name, as typed, and nothing else |
| HomePage.InvoiceNumberChanged | client/src/pages/home.tsx:65 | the update supplies the invoice number, as typed, and nothing else |
| HomePage.VehicleTypeChanged | client/src/pages/home.tsx:75 | the update supplies the vehicle type, as typed, and nothing else |
| HomePage.VehicleWeightChanged | client/src/pages/home.tsx:86 | the update supplies the weight the text reads as, and nothing else |
| HomePage.ProblemDescriptionChanged | client/src/pages/home.tsx:96 | the update supplies the problem description, as typed, and nothing else |
| HomePage.FuelSurchargeChanged | client/src/pages/home.tsx:107 | the update supplies the surcharge the text reads as, and nothing else |
| HomePage.EachInputEditsOneField | client/src/pages/home.tsx:55-107 | each input's update supplies one field and changes only that field |
| HomePage.AddPhotos | client/src/pages/home.tsx:17-22 | with a setter the list becomes the old photos followed by the new files in order; without one nothing is set |
| HomePage.WithoutIndex | client/src/pages/home.tsx:26 | an index in range removes one element; an index out of range removes none |
| HomePage.WithoutIndexSplices | client/src/pages/home.tsx:26 | removing index i keeps the elements before and after i, in order |
| HomePage.RemovePhoto | client/src/pages/home.tsx:24-28 | with a setter, the photo at an index in range is dropped and the rest keep their order; an index out of range changes nothing; without a setter nothing is set |
| HomePage.RemoveAddedPhoto | client/src/pages/home.tsx:17-28 | removing the photo just added restores the list |
| App.Reset | client/src/App.tsx:38-49 | reset gives empty texts, weight 0, surcharge 15, an empty selection and no invoice |
| App.ResetIdempotent | client/src/App.tsx:38-49 | resetting twice is resetting once |
| App.ResetForgetsEverything | client/src/App.tsx:17-49 | after reset the state is the initial state, whatever it was |
| App.Calculate | client/src/App.tsx:33-36 | the invoice cell becomes the `calculateInvoice` result for the current job, selection and catalog, dated with the given date and with one line per selected entry; the job and selection stay |
| App.CalculateFromInitial | client/src/App.tsx:17-36 | calculating from the initial state gives no lines and a total of 0 |
| App.Router.constructor | client/src/App.tsx:16-27 | the first render holds the initial state on the home route |
| App.Router.HandleCalculateInvoice | client/src/App.tsx:33-36 | the router's state becomes the calculate step of the old state |
| App.Router.HandleReset | client/src/App.tsx:38-49 | the router's state becomes the reset of the old state; the route stays |
| App.Router.SetSelectedServices | client/src/App.tsx:62 | the selection cell takes the new map; the other cells stay |
| App.Router.EditJobInfo | client/src/pages/home.tsx:9 | the job cell takes the merged partial update; the other cells stay |
| App.Router.SetLocation | client/src/pages/home.tsx:30-32 | the route becomes the path; the job, selection and invoice cells stay |
| App.SetJobInfoAsWritten | client/src/App.tsx:56 | as wired, the job cell becomes the last update itself, so nothing of the current job details survives, and it supplies only as many fields as that update |
| App.AsWrittenEditsLoseFields | client/src/App.tsx:56 | typing a name and then a weight leaves no name and no surcharge |
| App.MergedEditsKeepFields | client/src/pages/home.tsx:9 | merged edits keep every earlier field |
| ServicesPage.Toggle | client/src/pages/services.tsx:21-25 | the id maps to the negation of its status, a missing key counting as off; other keys keep their values |
| ServicesPage.ToggleFlips | client/src/pages/services.tsx:21-25 | toggling flips that id's status and no other id's |
| ServicesPage.ToggleTwice | client/src/pages/services.tsx:24 | toggling twice restores the status; a missing key ends as an explicit false |
| ServicesPage.Label | client/src/pages/services.tsx:59-79 | ON exactly when the flag is true; OFF when it is false or missing |
| ServicesPage.ToggleChangesOneLabel | client/src/pages/services.tsx:21-79 | toggling changes its own button's label and no other |
| ServicesPage.Blocked | client/src/pages/services.tsx:33-35 | the gate blocks exactly when no catalog entry is on or the weight is 0 |
| ServicesPage.OnlyZeroWeightBlocks | client/src/pages/services.tsx:35 | with a service on, any non-zero weight, negative included, passes |
| ServicesPage.InitialStateBlocked | client/src/App.tsx:17-27 | a fresh wizard cannot calculate |
| ServicesPage.ToggleService | client/src/pages/services.tsx:21-25 | the router's selection becomes the toggled map; nothing else changes |
| ServicesPage.HandleNext | client/src/pages/services.tsx:32-42 | blocked: no state change and no navigation; otherwise one calculate step, then the `/invoice` route |
| SettingsSidebar.Edit | client/src/components/Sidebar.tsx:82-107 | the typed text becomes the key's pending value; other pending keys are untouched |
| SettingsSidebar.Commit | client/src/components/Sidebar.tsx:89-120 | a pending value is sent and only its key is dropped; with none pending nothing is sent or changed |
| SettingsSidebar.EditThenCommit | client/src/components/Sidebar.tsx:82-100 | edit then blur sends exactly the typed text and forgets only that key |
| SettingsSidebar.CommitTwice | client/src/components/Sidebar.tsx:91 | a second blur sends nothing |
| SettingsSidebar.DisplayedRate | client/src/components/Sidebar.tsx:253 | the rate field shows the pending value, else the stored rate |
| SettingsSidebar.DisplayFollowsEdits | client/src/components/Sidebar.tsx:82-100 | the field shows the typed text until the blur, then the stored rate |
| SettingsSidebar.DisplayedCompanyField | client/src/components/Sidebar.tsx:276-382 | pending, else stored, else `''` for the optional fields |
| SettingsSidebar.Sidebar.constructor | client/src/components/Sidebar.tsx:14-15 | both pending maps start empty and nothing has been sent |
| SettingsSidebar.Sidebar.ServiceRateChange | client/src/components/Sidebar.tsx:82-87 | the rate map takes the edit; nothing is sent |
| SettingsSidebar.Sidebar.ServiceRateBlur | client/src/components/Sidebar.tsx:89-100 | with a pending rate, one update for (id, rate) is sent and the id is dropped; otherwise nothing happens |
| SettingsSidebar.Sidebar.CompanySettingsChange | client/src/components/Sidebar.tsx:102-107 | the settings map takes the edit; nothing is sent |
| SettingsSidebar.Sidebar.CompanySettingsBlur | client/src/components/Sidebar.tsx:109-120 | with a pending value, one update holding only that field is sent and the field is dropped; otherwise nothing happens |
| SettingsSidebar.CompanyUpdateNamesOneField | client/src/components/Sidebar.tsx:112 | the company update names exactly one field |
| AdminPage.FindCompany | client/src/pages/admin.tsx:195 | nothing exactly when no company has the id; otherwise the first company with it |
| AdminPage.GetCompanyName | client/src/pages/admin.tsx:193-197 | null or 0 gives "No company"; an id no company has gives "Unknown"; otherwise the first company with the id gives its name, or "Unknown" when that name is empty |
| AdminPage.CompanyNameCases | client/src/pages/admin.tsx:193-197 | a null or 0 id gives "No company"; an unknown id gives "Unknown"; a found, named company gives its name |
| AdminPage.FirstMatchIsFound | client/src/pages/admin.tsx:195 | the first company holding an id is the one found |
| AdminPage.EmptyNameIsUnknown | client/src/pages/admin.tsx:196 | a company found with an empty name reads as "Unknown" |
| AdminPage.CompanyIdOf | client/src/pages/admin.tsx:180 | no company picked sends `null` |
| AdminPage.PickedCompanyIdRoundTrip | client/src/pages/admin.tsx:180 | a picked company's id is sent as that id |
| AdminPage.UserRequest | client/src/pages/admin.tsx:170-182 | no request exactly when the username or password is empty; otherwise the fields and the parsed company id |
| AdminPage.CompanyRequest | client/src/pages/admin.tsx:184-191 | no request exactly when the name is empty; otherwise a request with that name |
| AdminPage.AdminForms.constructor | client/src/pages/admin.tsx:170-191 | the forms start blank with nothing sent |
| AdminPage.AdminForms.HandleCreateUser | client/src/pages/admin.tsx:170-182 | sent exactly when both fields are filled; the log grows by that request only; the form is kept |
| AdminPage.AdminForms.UserCreated | client/src/pages/admin.tsx:60-67 | the user form goes back to `''`, `''`, user, `''` |
| AdminPage.AdminForms.HandleCreateCompany | client/src/pages/admin.tsx:184-191 | sent exactly when the name is filled, with that name |
| AdminPage.AdminForms.CompanyCreated | client/src/pages/admin.tsx:142-146 | the company name is cleared; nothing else changes |
| AdminPage.ClearedFormsSendNothing | client/src/pages/admin.tsx:170-191 | a form cleared after a creation cannot send again until refilled |
| Migrate.Cleaned | server/migrate.ts:27-28 | no more statements than pieces |
| Migrate.CleanedIsClean | server/migrate.ts:27-28 | every statement is trimmed, non-empty and does not start with `--` |
| Migrate.KeptPiece | server/migrate.ts:27-28 | a piece is kept, trimmed, exactly when its trimmed text is non-empty and does not start with `--` |
| Migrate.CleanedKeepsOut | server/migrate.ts:26-28 | a character absent from every piece is absent from every statement |
| Migrate.CleanedAppend | server/migrate.ts:27-28 | filtering keeps order: it distributes over concatenation |
| Migrate.Statements | server/migrate.ts:25-28 | at most one statement more than there are `;` |
| Migrate.StatementsAreClean | server/migrate.ts:25-28 | every statement is trimmed, non-empty, free of `;` and does not start with `--` |
| Migrate.StatementsAppend | server/migrate.ts:25-28 | the statements of `a;b` are those of `a` followed by those of `b`, in source order |
| Migrate.StatementsOfOnePiece | server/migrate.ts:25-28 | text without `;` is one statement, its trimmed text, unless that is empty or a comment |
| Migrate.CommentedPieceDropped | server/migrate.ts:28 | a piece starting with `--` is dropped whole, even with SQL on its later lines |
| Migrate.Classify | server/migrate.ts:46-51 | an error mentioning "already exists" or "duplicate" means already applied; any other is a failure with its message |
| Migrate.ExecuteInOrder | server/migrate.ts:32-40 | statements run in order, each once, up to the first failure; all run exactly when all succeed; a failure is the last one run |
| Migrate.RunMigrations | server/migrate.ts:6-55 | no file: nothing runs; otherwise a prefix of the statements runs in order, success means all ran, and every error becomes an outcome instead of escaping |
| Storage.SeedRows | server/storage.ts:69-91 | refused exactly when the rate column refuses some seed rate; otherwise one row per seed, in order, with serial ids and each rate as the column gives it back |
| Storage.AcceptedRows | server/storage.ts:69-91 | when the column takes every seed rate, the insert gives one row per seed, in order, with serial ids from the first id and each rate as the column stores it |
| Storage.SeedRatesAccepted | server/storage.ts:70-88 | the rate column accepts every seeded rate |
| Storage.SeedServices | server/storage.ts:61-92 | an empty table gets the rows seeded from the 19 seeds and the serial moves on by 19; a non-empty table is unchanged |
| Storage.SeedServicesIdempotent | server/storage.ts:63-66 | seeding twice is seeding once |
| Storage.ReplaceRate | server/storage.ts:57-59 | the rows with the id take the new rate text; every other row and the row order stay |
| Storage.SetRate | server/storage.ts:57-59 | refused exactly when the rate column refuses the text; otherwise the rows with the id take the rate as the column gives it back, and nothing else changes |
| Storage.SetRateProperties | server/storage.ts:57-59 | the last accepted rate written wins; two texts the column stores as the same value give the same table; writing back the rate as read changes nothing; an absent id changes nothing |
| Storage.LineRows | server/storage.ts:94-104 | one row per line with the job id, the service id and the cost, under serial ids |
| Storage.LinesOf | server/storage.ts:33-36 | a row is listed exactly when it belongs to the job |
| Storage.LinesOfAppend | server/storage.ts:33-36 | filtering by job keeps table order |
| Storage.StoredLinesReadBack | server/storage.ts:28-104 | lines inserted for a job with none read back exactly, in order; other jobs' lines are unaffected |
| Storage.FindJob | server/storage.ts:29-30 | nothing exactly when no row has the id; otherwise a stored job with that id |
| Storage.FirstSettings | server/storage.ts:106-109 | nothing exactly when the table is empty, else the first row |
| Storage.UpsertSettings | server/storage.ts:111-128 | the first row takes the given fields and keeps the others, so its fields are the old ones plus the given ones; with no row, one is inserted; no other row changes |
| Storage.UpsertSettingsIdempotent | server/storage.ts:111-128 | the same update twice leaves the table as once |
| Storage.SeedSettings | server/storage.ts:130-141 | the default row is inserted only when there is no row |
| Storage.SeedSettingsIdempotent | server/storage.ts:130-141 | seeding twice is seeding once; the seeded surcharge equals the jobs' default |
| Storage.DatabaseStorage.constructor | server/storage.ts:19 | empty tables with serials at 1 |
| Storage.AppendKeepsOrder | server/storage.ts:20-26 | appending a row under the next serial id with a stamp no earlier than the others keeps ids increasing and stamps in order |
| Storage.DatabaseStorage.CreateJob | server/storage.ts:20-26 | refused exactly when the weight is outside the 32-bit `integer` range or the surcharge column refuses the surcharge (the one given, else "15"): nothing changes; otherwise the `StoredJob` row is appended under the next serial id; the order invariant holds; only the job table and its serial can change |
| Storage.DatabaseStorage.GetJob | server/storage.ts:28-42 | nothing exactly for an unknown id; otherwise the job with exactly its invoice lines |
| Storage.DatabaseStorage.GetAllJobs | server/storage.ts:44-46 | every job in table order |
| Storage.DatabaseStorage.GetRecentJobs | server/storage.ts:48-51 | at most `limit` jobs, newest first, and none left out is newer than one listed |
| Storage.DatabaseStorage.GetDefaultRecentJobs | server/storage.ts:48-51 | without a limit, the ten newest jobs (fewer when there are fewer), newest first, and none left out is newer than one listed |
| Storage.DatabaseStorage.GetTowingServices | server/storage.ts:53-55 | every service row, in table order |
| Storage.DatabaseStorage.UpdateTowingServiceRate | server/storage.ts:57-59 | succeeds exactly when the rate column accepts the text; the service table is then the `SetRate` of the old one, and otherwise unchanged; nothing else changes |
| Storage.DatabaseStorage.SeedTowingServices | server/storage.ts:61-92 | the service table and serial are the `SeedServices` of the old ones |
| Storage.DatabaseStorage.CreateInvoiceServices | server/storage.ts:94-104 | the lines are appended, none for an empty list |
| Storage.DatabaseStorage.GetCompanySettings | server/storage.ts:106-109 | nothing exactly when the table is empty, else its first row |
| Storage.DatabaseStorage.UpdateCompanySettings | server/storage.ts:111-128 | the table is the `UpsertSettings` of the old one, at most one row longer; the returned row is the first row |
| Storage.DatabaseStorage.SeedCompanySettings | server/storage.ts:130-141 | the table is the `SeedSettings` of the old one |
| Storage.SeedNamesMatch | server/storage.ts:70-88 | the seed names are the catalog names, in order |
| Storage.SeedRatesShape | server/storage.ts:70-88 | every seed rate is a text `d.d` of two decimal digits, and the catalog rate at the same position is that number |
| Storage.SeedMatchesCatalog | server/storage.ts:70-88 | the seed list and the catalog agree entry by entry on names; the column accepts each seed rate, and `parseFloat` of the rate as read back is the catalog's rate |
| Storage.SeedRateValue | server/storage.ts:70-88 | each seed rate is a text `w.t`, and the catalog rate at the same position is w + t/10 |
| Storage.SeedRateStored | server/storage.ts:70-88 | each seed rate `w.t` is accepted and reads back as `w.t0` |
| Storage.WrittenReads | server/storage.ts:70-88 | a text `w.t0` in the column's form reads, with `parseFloat`, as w + t/10 |
| Storage.SeededRowsList | server/storage.ts:91 | rows seeded from texts the column accepts and whose read-back `parseFloat`s are a catalog's rates list that catalog |
| Storage.SeedRowsMatchCatalog | server/storage.ts:91 | rows built from seeds whose stored rates read as a catalog's rates carry that catalog's ids, names and rates, row by row |
| Storage.RowsListCatalog | server/storage.ts:53-55 | rows with a catalog's ids and names, whose rates read as the catalog's rates, list that catalog |
| Storage.AsCatalog | server/storage.ts:53-55 | a served row keeps its id and name, with the rate as text |
| Storage.FreshSeedIsCatalog | server/storage.ts:61-92 | a freshly seeded table lists the built-in catalog |
| Storage.FreshSeedPricesLikeCatalog | server/storage.ts:61-92 | pricing against a fresh server table gives the built-in catalog's invoice |

## Left out

- JsNumber.ParseInt, JsNumber.ParseFloat: parsing covers decimal text
  only. Hex prefixes, exponents and `Infinity` are not modelled, and an
  unreadable number is `None` instead of NaN.
- SqlDecimal.ColumnValue: PostgreSQL's numeric input also takes exponents
  (`1e2`), `NaN`, `Infinity` and, in recent versions, `_` between digits.
  The model refuses all of these, so for such texts it promises less than
  the database does.
- Every statement the database refuses is an error thrown to the caller
  in the source. In the model it is a `None` or `false` result.
- InvoiceCalc.CalculateInvoice: requires every selected text rate to be
  readable. The source would go on with NaN, and the model has no NaN.
- App.Calculate, App.Router.HandleCalculateInvoice and ServicesPage.HandleNext
  carry the same requirement for the same reason.
- Rates, costs and the surcharge are exact reals, not JavaScript doubles.
  Rounding, `toFixed` and `toLocaleString` display are not modelled.
- Storage.LineRows: the cost is stored as a number, not as the text
  `Number#toString` produces, because number formatting is not modelled.
- Storage.DatabaseStorage.CreateJob:
  - the creation time is a parameter;
  - a refused insert leaves the serial where it was, whereas PostgreSQL
    may already have drawn a value from the sequence for it;
  - the clock is assumed never to go backwards;
  - serial ids grow without bound, so the 32-bit limit of a `serial` column
    is not modelled (the weight's `integer` range is);
  - the jobs table in shared/schema.ts:6-14 has no `createdAt` column,
    although storage.ts:49 orders by one, so the model gives each row a
    creation stamp.
- Storage.DatabaseStorage.GetRecentJobs: SQL leaves the order of jobs with
  equal creation times open. The model lists the later-stored one first.
- Storage.DatabaseStorage.UpdateCompanySettings: the `updatedAt` stamp is not
  modelled. The company-settings and invoice-services tables are not
  declared in shared/schema.ts, so their columns are taken from their use
  in storage.ts and Sidebar.tsx.
- The invoice date is a parameter. `toLocaleDateString` is locale-dependent.
- Rendering, the invoice page, sharing, printing and PDF output are not
  modelled (client/src/pages/invoice.tsx, client/src/lib/invoice.ts:61-84).
- Network calls, react-query caching, toasts, `alert` and `confirm` dialogs are not
  modelled. Mutations appear as entries in a log of issued requests.
- Logo upload (client/src/components/Sidebar.tsx:122-149) is form-data and
  HTTP plumbing, and is not modelled.
- The surcharge input shows `fuelSurcharge || ''`
  (client/src/pages/home.tsx:106). That display needs number formatting and
  is not modelled. The weight display is modelled.
- The router never wires a photo setter to the home page, so in the app as
  written the photo operations are no-ops. The model covers both cases.
- server/routes.ts, the database connection and the scripts (setup-admin.js,
  create-test-users.js, server/create-user.ts, add-users.js) are not part of
  this model.
- Migrate.RunMigrations:
  - the file is given as its text, or as absent;
  - a failure of `readFileSync` itself is not modelled;
  - the loop's `statement.length > 0` test (server/migrate.ts:34) is left
    out, because every statement that passes the filter is non-empty (see
    Migrate.StatementsAreClean);
  - logging is not modelled.
- `calculateInvoice` (client/src/lib/invoice.ts:30-59) prices catalog
  services only. It has no custom line items or subcontractor charges, so
  the model has none either.
- ServicesPage.HandleNext, ServicesPage.Blocked, ServicesPage.Label: these
  take the service catalog as a parameter. client/src/pages/services.tsx:33
  and :58 read a `services` list that the file never declares. It imports
  `useQuery` at line 2 but never calls it. As written, the page cannot
  render. The model assumes it is given the catalog it evidently meant to
  fetch.
- Storage.SetRate, Storage.DatabaseStorage.UpdateTowingServiceRate: a rate
  the column refuses fails the statement even when no row has the id,
  because the database converts the parameter before it matches rows.

## Findings

| source | as written | input that shows it | evidently intended | confidence | as-written member | corrected member |
|---|---|---|---|---|---|---|
| client/src/App.tsx:56 | the job-details cell's own setter is passed where the home page expects a partial-update function (client/src/pages/home.tsx:9), so each keystroke replaces the whole job details with a one-field object | type "Acme" as the customer name, then "5000" as the weight: the name, invoice number, vehicle type, description and surcharge are gone | each input merges its one field into the current job details | high (not executed) | App.SetJobInfoAsWritten, App.AsWrittenEditsLoseFields | HomePage.Merge, App.MergedEditsKeepFields, App.Router.EditJobInfo |
