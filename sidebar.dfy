/**
 * The settings sidebar's unsaved edits: a rate typed for a service, or a
 * value typed into a company-settings field, waits in a local map until the
 * input loses focus; then one update carrying that value is issued and the
 * waiting entry is dropped.
 */
module SettingsSidebar {
  import opened Wrappers
  import opened Schema

  /** A change handler: the typed text becomes the pending value of `key`. */
  function Edit<K>(pending: map<K, string>, key: K, value: string): (r: map<K, string>)
    ensures key in r && r[key] == value
    ensures r.Keys == pending.Keys + {key}
    ensures forall k :: k in pending && k != key ==> r[k] == pending[k]
  {
    pending[key := value]
  }

  /**
   * A blur handler: the value to send, if one is pending, and the pending map
   * afterwards, without that key. With nothing pending nothing is sent and
   * nothing changes.
   */
  function Commit<K>(pending: map<K, string>, key: K): (r: (Option<string>, map<K, string>))
    ensures key in pending ==> r.0 == Some(pending[key]) && r.1 == pending - {key}
    ensures key !in pending ==> r.0.None? && r.1 == pending
  {
    if key in pending then (Some(pending[key]), pending - {key}) else (None, pending)
  }

  /** Editing and then leaving the field sends exactly the typed text and forgets only that key. */
  lemma EditThenCommit<K>(pending: map<K, string>, key: K, value: string)
    ensures Commit(Edit(pending, key, value), key).0 == Some(value)
    ensures Commit(Edit(pending, key, value), key).1 == pending - {key}
    ensures key !in pending ==> Commit(Edit(pending, key, value), key).1 == pending
  {
  }

  /** A second blur right after the first sends nothing. */
  lemma CommitTwice<K>(pending: map<K, string>, key: K)
    ensures Commit(Commit(pending, key).1, key).0.None?
    ensures Commit(Commit(pending, key).1, key).1 == Commit(pending, key).1
  {
  }

  /** The rate field shows `localServiceRates[id] ?? service.rate`. */
  function DisplayedRate(pending: map<int, string>, id: int, stored: string): (shown: string)
    ensures id in pending ==> shown == pending[id]
    ensures id !in pending ==> shown == stored
  {
    if id in pending then pending[id] else stored
  }

  /** The field shows what was typed until the blur, then the stored rate again. */
  lemma DisplayFollowsEdits(pending: map<int, string>, id: int, typed: string, stored: string)
    ensures DisplayedRate(Edit(pending, id, typed), id, stored) == typed
    ensures DisplayedRate(Commit(Edit(pending, id, typed), id).1, id, stored) == stored
  {
  }

  /** The company fields the database may hold empty; their inputs fall back to `''`. */
  predicate Optional(field: CompanyField) {
    field == Address || field == Phone || field == Email || field == InvoiceFooter
  }

  /**
   * A company field shows its pending value, else the stored one, else `''`
   * for the optional fields; `None` is a required field with no value.
   */
  function DisplayedCompanyField(pending: map<CompanyField, string>, stored: map<CompanyField, string>,
                                 field: CompanyField): (shown: Option<string>)
    ensures field in pending ==> shown == Some(pending[field])
    ensures field !in pending && field in stored ==> shown == Some(stored[field])
    ensures field !in pending && field !in stored ==> (shown == Some("") <==> Optional(field))
    ensures field !in pending && field !in stored ==> (shown.None? <==> !Optional(field))
  {
    if field in pending then Some(pending[field])
    else if field in stored then Some(stored[field])
    else if Optional(field) then Some("")
    else None
  }

  /** What a blur issues: a rate update for one service, or a company update naming one field. */
  datatype Mutation =
    | UpdateServiceRate(id: int, rate: string)
    | UpdateCompany(settings: map<CompanyField, string>)

  /** The sidebar's two pending maps and the updates issued so far. */
  class Sidebar {
    var localServiceRates: map<int, string>
    var localCompanySettings: map<CompanyField, string>
    var sent: seq<Mutation>

    constructor()
      ensures localServiceRates == map[] && localCompanySettings == map[] && sent == []
    {
      localServiceRates := map[];
      localCompanySettings := map[];
      sent := [];
    }

    /** `handleServiceRateChange`. */
    method ServiceRateChange(id: int, rate: string)
      modifies this
      ensures localServiceRates == Edit(old(localServiceRates), id, rate)
      ensures localCompanySettings == old(localCompanySettings) && sent == old(sent)
    {
      localServiceRates := Edit(localServiceRates, id, rate);
    }

    /** `handleServiceRateBlur`: with a pending rate, one update for (id, rate) and the entry dropped. */
    method ServiceRateBlur(id: int)
      modifies this
      ensures id in old(localServiceRates) ==>
        && sent == old(sent) + [UpdateServiceRate(id, old(localServiceRates)[id])]
        && localServiceRates == old(localServiceRates) - {id}
      ensures id !in old(localServiceRates) ==> sent == old(sent) && localServiceRates == old(localServiceRates)
      ensures localCompanySettings == old(localCompanySettings)
    {
      var (value, rest) := Commit(localServiceRates, id);
      if value.Some? {
        sent := sent + [UpdateServiceRate(id, value.value)];
        localServiceRates := rest;
      }
    }

    /** `handleCompanySettingsChange`. */
    method CompanySettingsChange(field: CompanyField, value: string)
      modifies this
      ensures localCompanySettings == Edit(old(localCompanySettings), field, value)
      ensures localServiceRates == old(localServiceRates) && sent == old(sent)
    {
      localCompanySettings := Edit(localCompanySettings, field, value);
    }

    /** `handleCompanySettingsBlur`: with a pending value, one update holding only that field, and the entry dropped. */
    method CompanySettingsBlur(field: CompanyField)
      modifies this
      ensures field in old(localCompanySettings) ==>
        && sent == old(sent) + [UpdateCompany(map[field := old(localCompanySettings)[field]])]
        && localCompanySettings == old(localCompanySettings) - {field}
      ensures field !in old(localCompanySettings) ==>
        sent == old(sent) && localCompanySettings == old(localCompanySettings)
      ensures localServiceRates == old(localServiceRates)
    {
      var (value, rest) := Commit(localCompanySettings, field);
      if value.Some? {
        sent := sent + [UpdateCompany(map[field := value.value])];
        localCompanySettings := rest;
      }
    }
  }

  /** The company update a blur sends names exactly one field. */
  lemma CompanyUpdateNamesOneField(field: CompanyField, value: string)
    ensures UpdateCompany(map[field := value]).settings.Keys == {field}
  {
  }
}
