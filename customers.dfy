/** The customer pages: the create form (which strips the telephone to its
    digits in place before checking it), the edit form, and the customer
    list with its search and local delete. CPF and telephone display use
    fixed digit patterns. */
module Customers {
  import opened Wrappers
  import Seqs
  import opened Text
  import Records

  // ---- validators and formatters ----

  /** `validateCPF`: the CPF has 11 digits, or none at all. */
  predicate ValidCpf(cpf: string)
  {
    |Digits(cpf)| == 11 || |Digits(cpf)| == 0
  }

  /** `"$1.$2.$3-$4"`. */
  function CpfGroups(g1: string, g2: string, g3: string, g4: string): string
  {
    g1 + "." + g2 + "." + g3 + "-" + g4
  }

  /** `numbers.replace(/(\d{3})(\d{3})(\d{3})(\d{2})/, "$1.$2.$3-$4")` on a
      digit string: the first eleven digits are grouped, any further digits
      follow unchanged, and a shorter string is left as it is. */
  function CpfPattern(d: string): string
  {
    if |d| >= 11 then CpfGroups(d[..3], d[3..6], d[6..9], d[9..11]) + d[11..]
    else d
  }

  /** `formatCPF`. */
  function FormatCpf(s: string): string
  {
    CpfPattern(Digits(s))
  }

  /** `"($1) $2-$3"`. */
  function PhoneGroups(area: string, g1: string, g2: string): string
  {
    "(" + area + ") " + g1 + "-" + g2
  }

  /** The phone patterns on a digit string: ten digits as `(dd) dddd-dddd`,
      eleven or more as `(dd) ddddd-dddd` followed by the rest, fewer than
      ten unchanged. */
  function PhonePattern(d: string): string
  {
    if |d| <= 10 then
      (if |d| == 10 then PhoneGroups(d[..2], d[2..6], d[6..10]) else d)
    else PhoneGroups(d[..2], d[2..7], d[7..11]) + d[11..]
  }

  /** `formatPhone`. */
  function FormatPhone(s: string): string
  {
    PhonePattern(Digits(s))
  }

  /** A trailing separator without digits adds no digits. */
  lemma DigitsThenSep(x: string, sep: string)
    requires forall i :: 0 <= i < |sep| ==> !IsDigit(sep[i])
    ensures Digits(x + sep) == Digits(x)
  {
    DigitsAppend(x, sep);
    DigitsOfNonDigits(sep);
    assert Digits(x) + Digits(sep) == Digits(x);
  }

  /** Trailing digits are kept as they are. */
  lemma DigitsThenDigits(x: string, g: string)
    requires AllDigits(g)
    ensures Digits(x + g) == Digits(x) + g
  {
    DigitsAppend(x, g);
    DigitsOfDigits(g);
  }

  /** The CPF groups only add punctuation between digit strings. */
  lemma CpfGroupsDigits(g1: string, g2: string, g3: string, g4: string)
    requires AllDigits(g1) && AllDigits(g2) && AllDigits(g3) && AllDigits(g4)
    ensures Digits(CpfGroups(g1, g2, g3, g4)) == g1 + g2 + g3 + g4
  {
    DigitsThenDigits("", g1);
    assert "" + g1 == g1;
    DigitsThenSep(g1, ".");
    DigitsThenDigits(g1 + ".", g2);
    DigitsThenSep(g1 + "." + g2, ".");
    DigitsThenDigits(g1 + "." + g2 + ".", g3);
    DigitsThenSep(g1 + "." + g2 + "." + g3, "-");
    DigitsThenDigits(g1 + "." + g2 + "." + g3 + "-", g4);
  }

  /** The phone groups only add punctuation between digit strings. */
  lemma PhoneGroupsDigits(area: string, g1: string, g2: string)
    requires AllDigits(area) && AllDigits(g1) && AllDigits(g2)
    ensures Digits(PhoneGroups(area, g1, g2)) == area + g1 + g2
  {
    DigitsThenSep("", "(");
    assert "" + "(" == "(";
    DigitsThenDigits("(", area);
    DigitsThenSep("(" + area, ") ");
    DigitsThenDigits("(" + area + ") ", g1);
    DigitsThenSep("(" + area + ") " + g1, "-");
    DigitsThenDigits("(" + area + ") " + g1 + "-", g2);
  }

  /** The CPF pattern only inserts punctuation: the digits come out as they
      went in. */
  lemma CpfPatternKeepsDigits(d: string)
    requires AllDigits(d)
    ensures Digits(CpfPattern(d)) == d
  {
    if |d| >= 11 {
      CpfGroupsDigits(d[..3], d[3..6], d[6..9], d[9..11]);
      DigitsAppend(CpfGroups(d[..3], d[3..6], d[6..9], d[9..11]), d[11..]);
      DigitsOfDigits(d[11..]);
      assert d == d[..3] + d[3..6] + d[6..9] + d[9..11] + d[11..];
    } else {
      DigitsOfDigits(d);
    }
  }

  /** The phone patterns only insert punctuation. */
  lemma PhonePatternKeepsDigits(d: string)
    requires AllDigits(d)
    ensures Digits(PhonePattern(d)) == d
  {
    if |d| > 10 {
      PhoneGroupsDigits(d[..2], d[2..7], d[7..11]);
      DigitsAppend(PhoneGroups(d[..2], d[2..7], d[7..11]), d[11..]);
      DigitsOfDigits(d[11..]);
      assert d == d[..2] + d[2..7] + d[7..11] + d[11..];
    } else if |d| == 10 {
      PhoneGroupsDigits(d[..2], d[2..6], d[6..10]);
      assert d == d[..2] + d[2..6] + d[6..10];
    } else {
      DigitsOfDigits(d);
    }
  }

  /** `formatCPF` keeps exactly the input's digits, so formatting twice is
      formatting once and the CPF check gives the same answer before and
      after formatting. */
  lemma FormatCpfKeepsDigits(s: string)
    ensures Digits(FormatCpf(s)) == Digits(s)
    ensures FormatCpf(FormatCpf(s)) == FormatCpf(s)
    ensures ValidCpf(FormatCpf(s)) == ValidCpf(s)
  {
    CpfPatternKeepsDigits(Digits(s));
  }

  /** `formatPhone` keeps exactly the input's digits and is idempotent. */
  lemma FormatPhoneKeepsDigits(s: string)
    ensures Digits(FormatPhone(s)) == Digits(s)
    ensures FormatPhone(FormatPhone(s)) == FormatPhone(s)
  {
    PhonePatternKeepsDigits(Digits(s));
  }

  /** The CPF layout: groups of three, three, three and two digits
      separated by '.', '.' and '-'. */
  lemma CpfGroupsLayout(g1: string, g2: string, g3: string, g4: string)
    requires |g1| == 3 && |g2| == 3 && |g3| == 3 && |g4| == 2
    ensures var f := CpfGroups(g1, g2, g3, g4);
      |f| == 14 && f[3] == '.' && f[7] == '.' && f[11] == '-' && f[..3] == g1 && f[12..] == g4
  {
  }

  /** An eleven-digit CPF is shown as `ddd.ddd.ddd-dd`; a shorter one as its
      bare digits. */
  lemma FormatCpfShape(s: string)
    ensures |Digits(s)| == 11 ==>
      var f := FormatCpf(s);
      |f| == 14 && f[3] == '.' && f[7] == '.' && f[11] == '-'
      && f[..3] == Digits(s)[..3] && f[12..] == Digits(s)[9..]
    ensures |Digits(s)| < 11 ==> FormatCpf(s) == Digits(s)
  {
    var d := Digits(s);
    if |d| == 11 {
      CpfGroupsLayout(d[..3], d[3..6], d[6..9], d[9..11]);
      assert d[11..] == [] && d[9..] == d[9..11];
      assert FormatCpf(s) == CpfGroups(d[..3], d[3..6], d[6..9], d[9..11]) + [];
    }
  }

  /** The telephone layout: the area code in parentheses, a space, then two
      groups joined by '-'. */
  lemma PhoneGroupsLayout(area: string, g1: string, g2: string)
    requires |area| == 2
    ensures var f := PhoneGroups(area, g1, g2);
      |f| == 6 + |g1| + |g2| && f[0] == '(' && f[3] == ')' && f[4] == ' ' && f[5 + |g1|] == '-'
  {
  }

  /** Ten digits are shown as `(dd) dddd-dddd`, eleven as `(dd) ddddd-dddd`,
      fewer than ten as bare digits. */
  lemma FormatPhoneShape(s: string)
    ensures |Digits(s)| == 10 ==>
      var f := FormatPhone(s);
      |f| == 14 && f[0] == '(' && f[3] == ')' && f[4] == ' ' && f[9] == '-'
    ensures |Digits(s)| == 11 ==>
      var f := FormatPhone(s);
      |f| == 15 && f[0] == '(' && f[3] == ')' && f[4] == ' ' && f[10] == '-'
    ensures |Digits(s)| < 10 ==> FormatPhone(s) == Digits(s)
  {
    var d := Digits(s);
    if |d| == 10 {
      PhoneGroupsLayout(d[..2], d[2..6], d[6..10]);
    } else if |d| == 11 {
      PhoneGroupsLayout(d[..2], d[2..7], d[7..11]);
      assert d[11..] == [];
      assert FormatPhone(s) == PhoneGroups(d[..2], d[2..7], d[7..11]) + [];
    }
  }

  // ---- the form data ----

  /** The fields of the create and edit forms. */
  datatype ClientData = ClientData(name: string, telephone: string, address: string,
                                   anniversary: string, cpf: string)

  datatype ClientField = NameField | TelephoneField | AddressField | AnniversaryField | CpfField

  /** `{ ...prev, [name]: value }`. */
  function SetField(d: ClientData, field: ClientField, value: string): (r: ClientData)
  {
    match field
    case NameField => d.(name := value)
    case TelephoneField => d.(telephone := value)
    case AddressField => d.(address := value)
    case AnniversaryField => d.(anniversary := value)
    case CpfField => d.(cpf := value)
  }

  function GetField(d: ClientData, field: ClientField): string
  {
    match field
    case NameField => d.name
    case TelephoneField => d.telephone
    case AddressField => d.address
    case AnniversaryField => d.anniversary
    case CpfField => d.cpf
  }

  /** A change sets the named field and leaves every other field alone. */
  lemma SetFieldEffect(d: ClientData, field: ClientField, value: string)
    ensures GetField(SetField(d, field, value), field) == value
    ensures forall other :: other != field ==> GetField(SetField(d, field, value), other) == GetField(d, other)
  {
  }

  // ---- creating a customer ----

  datatype CreateError = CpfRejected | PhoneRejected

  /** What `handleSubmit` decides for the form as it stands: the CPF check
      first, then the check on the telephone's digits; an accepted form is
      sent with its telephone reduced to digits. */
  function CreateCheck(d: ClientData): Result<ClientData, CreateError>
  {
    if !ValidCpf(d.cpf) then Err(CpfRejected)
    else
      var phone := Digits(d.telephone);
      if |phone| < 10 || |phone| > 11 then Err(PhoneRejected)
      else Ok(d.(telephone := phone))
  }

  /** A form is sent iff its CPF has 11 or 0 digits and its telephone 10 or
      11; a bad CPF is reported even when the telephone is bad too; what is
      sent differs from the form only in the telephone, which is all digits. */
  lemma CreateCheckIff(d: ClientData)
    ensures CreateCheck(d).Ok? <==> ValidCpf(d.cpf) && 10 <= |Digits(d.telephone)| <= 11
    ensures CreateCheck(d) == Err(CpfRejected) <==> !ValidCpf(d.cpf)
    ensures CreateCheck(d).Ok? ==>
      var sent := CreateCheck(d).value;
      AllDigits(sent.telephone) && sent.telephone == Digits(d.telephone)
      && sent == d.(telephone := sent.telephone)
  {
  }

  /** Submitting twice gives the same answer: stripping the telephone to its
      digits does not change the check. */
  lemma CreateCheckStable(d: ClientData)
    requires ValidCpf(d.cpf)
    ensures CreateCheck(d.(telephone := Digits(d.telephone))) == CreateCheck(d)
  {
    DigitsIdempotent(d.telephone);
  }

  /** The create form's state; `handleSubmit` rewrites its telephone in
      place. */
  class CreateForm {
    var name: string
    var telephone: string
    var address: string
    var anniversary: string
    var cpf: string

    function Data(): ClientData
      reads this
    {
      ClientData(name, telephone, address, anniversary, cpf)
    }

    constructor ()
      ensures Data() == ClientData("", "", "", "", "")
    {
      name, telephone, address, anniversary, cpf := "", "", "", "", "";
    }

    /** `handleChange`. */
    method HandleChange(field: ClientField, value: string)
      modifies this
      ensures Data() == SetField(old(Data()), field, value)
    {
      match field
      case NameField => name := value;
      case TelephoneField => telephone := value;
      case AddressField => address := value;
      case AnniversaryField => anniversary := value;
      case CpfField => cpf := value;
    }

    /** `handleSubmit` up to the create call: a rejected CPF leaves the form
      as it was; otherwise the telephone is replaced by its digits, whether
      or not the telephone check then passes. */
    method HandleSubmit() returns (outcome: Result<ClientData, CreateError>)
      modifies this
      ensures outcome == CreateCheck(old(Data()))
      ensures !ValidCpf(old(cpf)) ==> Data() == old(Data())
      ensures ValidCpf(old(cpf)) ==> Data() == old(Data()).(telephone := Digits(old(telephone)))
      ensures outcome.Ok? ==> outcome.value == Data()
    {
      if !ValidCpf(cpf) {
        return Err(CpfRejected);
      }
      telephone := Digits(telephone);
      if |telephone| < 10 || |telephone| > 11 {
        return Err(PhoneRejected);
      }
      return Ok(Data());
    }
  }

  // ---- editing a customer ----

  /** A client as loaded for editing; the back end may leave fields out. */
  datatype StoredClient = StoredClient(name: Option<string>, telephone: Option<string>,
                                       address: Option<string>, anniversary: Option<string>,
                                       cpf: Option<string>)

  function OrEmpty(s: Option<string>): (r: string)
    ensures s.None? ==> r == ""
    ensures s.Some? ==> r == s.value
  {
    if s.Some? then s.value else ""
  }

  /** `loadClient`: missing fields become "", the anniversary keeps its first
      ten characters (the date part of an ISO timestamp). */
  function LoadForm(c: StoredClient): ClientData
  {
    ClientData(OrEmpty(c.name), OrEmpty(c.telephone), OrEmpty(c.address),
               Seqs.Take(OrEmpty(c.anniversary), 10), OrEmpty(c.cpf))
  }

  /** Every loaded field is the stored one or ""; the anniversary is a prefix
      of the stored one of at most ten characters, and all of it when it is
      shorter. */
  lemma LoadFormShape(c: StoredClient)
    ensures var d := LoadForm(c);
      d.name == OrEmpty(c.name) && d.telephone == OrEmpty(c.telephone)
      && d.address == OrEmpty(c.address) && d.cpf == OrEmpty(c.cpf)
      && |d.anniversary| <= 10
      && (c.anniversary.Some? ==> d.anniversary == c.anniversary.value[..|d.anniversary|])
      && (c.anniversary.Some? && |c.anniversary.value| <= 10 ==> d.anniversary == c.anniversary.value)
      && (c.anniversary.None? ==> d.anniversary == "")
  {
  }

  /** A form loaded and saved without changes sends the client back with the
      anniversary cut to its date part. */
  lemma LoadFormIdempotent(c: StoredClient)
    ensures var d := LoadForm(c);
      LoadForm(StoredClient(Some(d.name), Some(d.telephone), Some(d.address),
                            Some(d.anniversary), Some(d.cpf))) == d
  {
  }

  datatype EditError = NameRequired | CpfInvalid | NoClientId

  /** `handleSubmit` of the edit form: the name must not be blank, then the
      CPF must pass, then there must be an id in the route. The form is sent
      as it stands. */
  function EditCheck(d: ClientData, id: Option<string>): Result<(string, ClientData), EditError>
  {
    if Trim(d.name) == "" then Err(NameRequired)
    else if !ValidCpf(d.cpf) then Err(CpfInvalid)
    else if id.None? || id.value == "" then Err(NoClientId)
    else Ok((id.value, d))
  }

  /** The update is sent iff the name has a non-space character, the CPF has
      11 or 0 digits and the id is present; the checks come in that order. */
  lemma EditCheckIff(d: ClientData, id: Option<string>)
    ensures EditCheck(d, id).Ok? <==>
      Trim(d.name) != "" && ValidCpf(d.cpf) && id.Some? && id.value != ""
    ensures EditCheck(d, id) == Err(NameRequired) <==> Trim(d.name) == ""
    ensures EditCheck(d, id) == Err(CpfInvalid) <==> Trim(d.name) != "" && !ValidCpf(d.cpf)
    ensures EditCheck(d, id).Ok? ==> EditCheck(d, id).value == (id.value, d)
  {
  }

  /** A name made only of spaces is blank. */
  lemma BlankNameRejected(d: ClientData, id: Option<string>)
    requires forall i :: 0 <= i < |d.name| ==> IsSpace(d.name[i])
    ensures EditCheck(d, id) == Err(NameRequired)
  {
    var a, b := TrimRemovesSpaces(d.name);
    if a < b {
      assert IsSpace(d.name[a]);
      TrimShape(d.name);
    }
  }

  // ---- the customer list ----

  /** `filteredClients`: the name matches ignoring case, or the telephone or
      CPF contains the raw term. */
  predicate ClientMatches(c: Records.Client, term: string)
  {
    Contains(Lower(c.name), Lower(term)) || Contains(c.telephone, term) || Contains(c.cpf, term)
  }

  function FilteredClients(clients: seq<Records.Client>, term: string): seq<Records.Client>
  {
    Seqs.Filter(clients, (c: Records.Client) => ClientMatches(c, term))
  }

  /** The filtered list holds exactly the matching clients, in list order, and
      an empty term keeps every client. The counter shows the filtered
      length, never more than the total. */
  lemma FilteredClientsEffect(clients: seq<Records.Client>, term: string)
    ensures forall c :: c in FilteredClients(clients, term) ==> c in clients && ClientMatches(c, term)
    ensures forall c :: c in clients && ClientMatches(c, term) ==> c in FilteredClients(clients, term)
    ensures |FilteredClients(clients, term)| <= |clients|
    ensures term == "" ==> FilteredClients(clients, term) == clients
  {
    if term == "" {
      forall c | c in clients ensures ClientMatches(c, term) {
        ContainsEmpty(Lower(c.name));
      }
      Seqs.FilterAll(clients, (c: Records.Client) => ClientMatches(c, term));
    }
  }

  /** `deleteCustomer`: nothing happens unless the user confirms and the
      delete call succeeds; then the client with that id leaves the local
      list. */
  function DeleteCustomer(clients: seq<Records.Client>, id: string, confirmed: bool, deleted: bool): seq<Records.Client>
  {
    if !confirmed || !deleted then clients
    else Seqs.Filter(clients, (c: Records.Client) => c.id != id)
  }

  /** A confirmed and successful delete removes exactly the clients with that
      id and keeps the rest; otherwise the list is unchanged. */
  lemma DeleteCustomerEffect(clients: seq<Records.Client>, id: string, confirmed: bool, deleted: bool)
    ensures !confirmed || !deleted ==> DeleteCustomer(clients, id, confirmed, deleted) == clients
    ensures confirmed && deleted ==>
      (forall c :: c in DeleteCustomer(clients, id, confirmed, deleted) <==> c in clients && c.id != id)
    ensures (forall c :: c in clients ==> c.id != id) ==> DeleteCustomer(clients, id, confirmed, deleted) == clients
  {
    if forall c :: c in clients ==> c.id != id {
      Seqs.FilterAll(clients, (c: Records.Client) => c.id != id);
    }
  }

  /** `deleteCustomer` as the page is shipped: the API client defines no
      `deleteClient`, so the call throws, the page catches it as a failed
      delete, and the list never changes. */
  function DeleteCustomerAsWritten(clients: seq<Records.Client>, id: string, confirmed: bool): (r: seq<Records.Client>)
    ensures r == clients
  {
    DeleteCustomer(clients, id, confirmed, false)
  }

  /** A confirmed delete of a listed client, which the page intends to
      remove, leaves it on the list as shipped. */
  lemma DeleteNeverRemoves(clients: seq<Records.Client>, id: string)
    requires exists c :: c in clients && c.id == id
    ensures DeleteCustomerAsWritten(clients, id, true) != DeleteCustomer(clients, id, true, true)
  {
    var c :| c in clients && c.id == id;
    DeleteCustomerEffect(clients, id, true, true);
    assert c !in DeleteCustomer(clients, id, true, true);
  }
}
