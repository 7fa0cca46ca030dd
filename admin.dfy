/**
 * The admin page: the company-name lookup shown next to each user, and the
 * two creation forms, which refuse to send a request while a required field
 * is empty and clear themselves once the server accepts one.
 */
module AdminPage {
  import opened Wrappers
  import JsNumber

  datatype Company = Company(id: int, name: string, createdAt: string)

  datatype Role = User | Admin

  /** The requests the forms issue. A missing or unreadable company id travels as `null`, here `None`. */
  datatype Request =
    | CreateUser(username: string, password: string, role: Role, companyId: Option<int>)
    | CreateCompany(name: string)

  /** `companies.find(c => c.id === id)`: the first company with that id. */
  function FindCompany(companies: seq<Company>, id: int): (r: Option<Company>)
    ensures r.None? <==> forall c :: c in companies ==> c.id != id
    ensures r.Some? ==> r.value in companies && r.value.id == id
    ensures r.Some? ==> exists i :: (0 <= i < |companies| && companies[i] == r.value
      && forall j :: 0 <= j < i ==> companies[j].id != id)
  {
    if companies == [] then None
    else if companies[0].id == id then
      Some(companies[0])
    else
      var r := FindCompany(companies[1..], id);
      if r.Some? then
        var i :| 0 <= i < |companies[1..]| && companies[1..][i] == r.value
          && forall j :: 0 <= j < i ==> companies[1..][j].id != id;
        assert companies[i + 1] == r.value;
        assert forall j :: 0 <= j < i + 1 ==> companies[j].id != id by {
          forall j | 0 <= j < i + 1 ensures companies[j].id != id {
            if j > 0 {
              assert companies[j] == companies[1..][j - 1];
            }
          }
        }
        r
      else r
  }

  /**
   * `getCompanyName`: "No company" for a null or 0 id, the company's name
   * when the id is found with a non-empty name, and "Unknown" otherwise.
   */
  function GetCompanyName(companyId: Option<int>, companies: seq<Company>): (name: string)
    ensures companyId.None? || companyId.value == 0 ==> name == "No company"
    ensures companyId.Some? && companyId.value != 0 && (forall c :: c in companies ==> c.id != companyId.value)
      ==> name == "Unknown"
    ensures companyId.Some? && companyId.value != 0 && (exists c :: c in companies && c.id == companyId.value) ==>
      exists i :: && 0 <= i < |companies| && companies[i].id == companyId.value
        && (forall j :: 0 <= j < i ==> companies[j].id != companyId.value)
        && name == (if companies[i].name != "" then companies[i].name else "Unknown")
  {
    if companyId.None? || companyId.value == 0 then "No company"
    else
      var found := FindCompany(companies, companyId.value);
      if found.Some? && found.value.name != "" then found.value.name else "Unknown"
  }

  /** The three outcomes of the lookup and when each happens. */
  lemma CompanyNameCases(companyId: Option<int>, companies: seq<Company>)
    ensures companyId.None? || companyId == Some(0) ==> GetCompanyName(companyId, companies) == "No company"
    ensures companyId.Some? && companyId.value != 0 && (forall c :: c in companies ==> c.id != companyId.value)
      ==> GetCompanyName(companyId, companies) == "Unknown"
    ensures forall i :: (0 <= i < |companies| && companies[i].id != 0 && companies[i].name != ""
      && (forall j :: 0 <= j < i ==> companies[j].id != companies[i].id)
      ==> GetCompanyName(Some(companies[i].id), companies) == companies[i].name)
  {
    forall i | 0 <= i < |companies| && companies[i].id != 0 && companies[i].name != ""
      && (forall j :: 0 <= j < i ==> companies[j].id != companies[i].id)
      ensures GetCompanyName(Some(companies[i].id), companies) == companies[i].name
    {
      FirstMatchIsFound(companies, i);
    }
  }

  /** The company at the first position holding its id is the one `find` returns. */
  lemma {:induction false} FirstMatchIsFound(companies: seq<Company>, i: int)
    requires 0 <= i < |companies|
    requires forall j :: 0 <= j < i ==> companies[j].id != companies[i].id
    ensures FindCompany(companies, companies[i].id) == Some(companies[i])
  {
    if i > 0 {
      assert companies[1..][i - 1] == companies[i];
      FirstMatchIsFound(companies[1..], i - 1);
    }
  }

  /** A company found under an empty name reads as "Unknown", like a missing one. */
  lemma EmptyNameIsUnknown(companies: seq<Company>, i: int)
    requires 0 <= i < |companies| && companies[i].id != 0 && companies[i].name == ""
    requires forall j :: 0 <= j < i ==> companies[j].id != companies[i].id
    ensures GetCompanyName(Some(companies[i].id), companies) == "Unknown"
  {
    FirstMatchIsFound(companies, i);
  }

  /** The company id sent for the company picker's value: `null` when nothing is picked, else `parseInt`. */
  function CompanyIdOf(selection: string): (r: Option<int>)
    ensures selection == "" ==> r.None?
  {
    if selection == "" then None else JsNumber.ParseInt(selection)
  }

  /** A picked company's id, written in decimal, is sent back as that id. */
  lemma PickedCompanyIdRoundTrip(id: int)
    ensures CompanyIdOf(JsNumber.IntToString(id)) == Some(id)
  {
    JsNumber.ParseIntOfIntToString(id);
  }

  /** The request `handleCreateUser` sends for the form's fields: none while username or password is empty. */
  function UserRequest(username: string, password: string, role: Role, company: string): (r: Option<Request>)
    ensures r.None? <==> username == "" || password == ""
    ensures r.Some? ==> (r.value.CreateUser? && r.value.username == username && r.value.password == password
      && r.value.role == role && r.value.companyId == CompanyIdOf(company))
  {
    if username == "" || password == "" then None
    else Some(CreateUser(username, password, role, CompanyIdOf(company)))
  }

  /** The request `handleCreateCompany` sends: none while the name is empty. */
  function CompanyRequest(name: string): (r: Option<Request>)
    ensures r.None? <==> name == ""
    ensures r.Some? ==> r.value == CreateCompany(name)
  {
    if name == "" then None else Some(CreateCompany(name))
  }

  /** The creation forms' fields and the requests issued so far. */
  class AdminForms {
    var newUsername: string
    var newPassword: string
    var newUserRole: Role
    var newUserCompany: string
    var newCompanyName: string
    var requests: seq<Request>

    predicate UserFormBlank()
      reads this
    {
      newUsername == "" && newPassword == "" && newUserRole == User && newUserCompany == ""
    }

    constructor()
      ensures UserFormBlank() && newCompanyName == "" && requests == []
    {
      newUsername := "";
      newPassword := "";
      newUserRole := User;
      newUserCompany := "";
      newCompanyName := "";
      requests := [];
    }

    /** `handleCreateUser`: the user request is sent unless a required field is empty; the form is left as is. */
    method HandleCreateUser() returns (sent: bool)
      modifies this
      ensures sent <==> newUsername != "" && newPassword != ""
      ensures var r := UserRequest(newUsername, newPassword, newUserRole, newUserCompany);
        requests == old(requests) + (if r.Some? then [r.value] else [])
      ensures newUsername == old(newUsername) && newPassword == old(newPassword)
      ensures newUserRole == old(newUserRole) && newUserCompany == old(newUserCompany)
      ensures newCompanyName == old(newCompanyName)
    {
      var r := UserRequest(newUsername, newPassword, newUserRole, newUserCompany);
      sent := r.Some?;
      if sent {
        requests := requests + [r.value];
      }
    }

    /** The server accepted a user: the user form goes back to `''`, `''`, user, `''`. */
    method UserCreated()
      modifies this
      ensures UserFormBlank()
      ensures newCompanyName == old(newCompanyName) && requests == old(requests)
    {
      newUsername := "";
      newPassword := "";
      newUserRole := User;
      newUserCompany := "";
    }

    /** `handleCreateCompany`: the company request is sent unless the name is empty. */
    method HandleCreateCompany() returns (sent: bool)
      modifies this
      ensures sent <==> newCompanyName != ""
      ensures sent ==> requests == old(requests) + [CreateCompany(newCompanyName)]
      ensures !sent ==> requests == old(requests)
      ensures newCompanyName == old(newCompanyName)
      ensures newUsername == old(newUsername) && newPassword == old(newPassword)
      ensures newUserRole == old(newUserRole) && newUserCompany == old(newUserCompany)
    {
      var r := CompanyRequest(newCompanyName);
      sent := r.Some?;
      if sent {
        requests := requests + [r.value];
      }
    }

    /** The server accepted a company: the name field is cleared. */
    method CompanyCreated()
      modifies this
      ensures newCompanyName == ""
      ensures newUsername == old(newUsername) && newPassword == old(newPassword)
      ensures newUserRole == old(newUserRole) && newUserCompany == old(newUserCompany)
      ensures requests == old(requests)
    {
      newCompanyName := "";
    }
  }

  /** A form cleared after a creation cannot send a second request until it is filled in again. */
  lemma ClearedFormsSendNothing(role: Role)
    ensures UserRequest("", "", role, "").None?
    ensures CompanyRequest("").None?
  {
  }
}
