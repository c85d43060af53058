/** The phone-contact import page: contacts picked on the device are listed,
    edited or dropped, then created as clients in batches of ten while a
    progress bar advances. The device picker and the create call are
    parameters of the model. */
module ContactImport {
  import opened Wrappers
  import Seqs
  import opened Text
  import Money

  // ---- picking ----

  /** A contact handed back by the device picker: its list of names and its
      list of telephone numbers, either of which may be absent. */
  datatype PickedContact = PickedContact(name: Option<seq<string>>, tel: Option<seq<string>>)

  /** A contact as the page lists it. */
  datatype Contact = Contact(id: string, name: string, telephone: string)

  const NoName: string := "Sem nome"

  /** Picked contacts without a name list or without any telephone are
      dropped. */
  predicate Usable(p: PickedContact)
  {
    p.name.Some? && p.tel.Some? && |p.tel.value| > 0
  }

  /** The listed form of the `index`-th usable contact; `stamp` is the clock
      reading that prefixes every id. */
  function Listed(p: PickedContact, stamp: string, index: nat): (c: Contact)
    requires Usable(p)
  {
    var names := p.name.value;
    Contact(stamp + "-" + Decimal(index),
            if |names| > 0 && names[0] != "" then names[0] else NoName,
            p.tel.value[0])
  }

  datatype SelectError = NoContactSelected

  /** The contacts listed after a pick, or the error shown when no picked
      contact has both a name and a telephone. */
  function SelectContacts(picked: seq<PickedContact>, stamp: string): Result<seq<Contact>, SelectError>
  {
    var kept := Seqs.Filter(picked, Usable);
    if kept == [] then Err(NoContactSelected)
    else Ok(seq(|kept|, i requires 0 <= i < |kept| => Listed(kept[i], stamp, i)))
  }

  /** A pick is refused exactly when no contact is usable; otherwise there is
      one listed contact per usable one, in pick order, with a non-empty name
      taken from its first name (or the placeholder) and its first
      telephone. The ids `stamp-i` are pairwise distinct, as the page's list
      keys and its edit and delete handlers need. */
  lemma SelectContactsEffect(picked: seq<PickedContact>, stamp: string)
    ensures SelectContacts(picked, stamp).Err? <==> forall p :: p in picked ==> !Usable(p)
    ensures SelectContacts(picked, stamp).Ok? ==>
      var cs := SelectContacts(picked, stamp).value;
      var kept := Seqs.Filter(picked, Usable);
      |cs| == |kept| == Seqs.Count(picked, Usable)
      && forall i :: 0 <= i < |cs| ==>
           cs[i].id == stamp + "-" + Decimal(i)
           && cs[i].name != ""
           && (cs[i].name == NoName || cs[i].name == kept[i].name.value[0])
           && cs[i].telephone == kept[i].tel.value[0]
    ensures SelectContacts(picked, stamp).Ok? ==>
      var cs := SelectContacts(picked, stamp).value;
      forall i, j :: 0 <= i < j < |cs| ==> cs[i].id != cs[j].id
  {
    var kept := Seqs.Filter(picked, Usable);
    if kept != [] {
      assert kept[0] in picked && Usable(kept[0]);
      var cs := SelectContacts(picked, stamp).value;
      forall i, j | 0 <= i < j < |cs| ensures cs[i].id != cs[j].id {
        var k := |stamp| + 1;
        assert cs[i].id[k..] == Decimal(i);
        assert cs[j].id[k..] == Decimal(j);
        DecimalInjective(i, j);
      }
    }
  }

  // ---- editing the list ----

  datatype ContactField = NameField | TelephoneField

  function SetField(c: Contact, field: ContactField, value: string): Contact
  {
    match field
    case NameField => c.(name := value)
    case TelephoneField => c.(telephone := value)
  }

  /** `handleUpdateContact`: sets one field of the contacts with the given id. */
  function UpdateContact(cs: seq<Contact>, id: string, field: ContactField, value: string): (r: seq<Contact>)
    ensures |r| == |cs|
  {
    if cs == [] then []
    else [if cs[0].id == id then SetField(cs[0], field, value) else cs[0]]
         + UpdateContact(cs[1..], id, field, value)
  }

  /** Only the named field of the matching contacts changes. */
  lemma {:induction false} UpdateContactEffect(cs: seq<Contact>, id: string, field: ContactField, value: string)
    ensures var r := UpdateContact(cs, id, field, value);
      forall i :: 0 <= i < |cs| ==>
        r[i].id == cs[i].id
        && (cs[i].id != id ==> r[i] == cs[i])
        && (cs[i].id == id && field == NameField ==> r[i].name == value && r[i].telephone == cs[i].telephone)
        && (cs[i].id == id && field == TelephoneField ==> r[i].telephone == value && r[i].name == cs[i].name)
  {
    if cs != [] {
      UpdateContactEffect(cs[1..], id, field, value);
    }
  }

  /** `handleDeleteContact`: drops the contacts with the given id. */
  function DeleteContact(cs: seq<Contact>, id: string): (r: seq<Contact>)
  {
    Seqs.Filter(cs, (c: Contact) => c.id != id)
  }

  /** No contact with the id is left, every other one is kept, and the list
      shrinks by exactly the number of contacts with that id. */
  lemma DeleteContactEffect(cs: seq<Contact>, id: string)
    ensures forall c :: c in DeleteContact(cs, id) ==> c in cs && c.id != id
    ensures forall c :: c in cs && c.id != id ==> c in DeleteContact(cs, id)
    ensures |DeleteContact(cs, id)| == |cs| - Seqs.Count(cs, (c: Contact) => c.id == id)
  {
    Seqs.CountSplit(cs, (c: Contact) => c.id == id, (c: Contact) => c.id != id);
  }

  /** Editing a contact and then deleting it leaves the same list as deleting
      it straight away: an edit never changes which contacts carry an id. */
  lemma {:induction false} DeleteAfterUpdate(cs: seq<Contact>, id: string, field: ContactField, value: string)
    ensures DeleteContact(UpdateContact(cs, id, field, value), id) == DeleteContact(cs, id)
  {
    if cs != [] {
      DeleteAfterUpdate(cs[1..], id, field, value);
      var r := UpdateContact(cs, id, field, value);
      assert r[1..] == UpdateContact(cs[1..], id, field, value);
    }
  }

  // ---- importing ----

  /** The create-client request sent for one contact. */
  datatype ClientRequest = ClientRequest(name: string, telephone: string, address: string, anniversary: string)

  /** `.replace(/^55/, "")`: one leading country code removed. */
  function StripCountryCode(d: string): string
  {
    if |d| >= 2 && d[..2] == "55" then d[2..] else d
  }

  function RequestFor(c: Contact): ClientRequest
  {
    ClientRequest(Trim(c.name), StripCountryCode(Digits(c.telephone)), "", "")
  }

  /** Removing the country code keeps a digit string a digit string and
      takes off exactly one leading "55" when there is one. */
  lemma StripCountryCodeShape(d: string)
    requires AllDigits(d)
    ensures var t := StripCountryCode(d);
      AllDigits(t)
      && (|d| >= 2 && d[..2] == "55" ==> d == "55" + t)
      && (!(|d| >= 2 && d[..2] == "55") ==> d == t)
  {
    if |d| >= 2 && d[..2] == "55" {
      assert d == d[..2] + d[2..];
    }
  }

  /** The telephone sent holds only digits: the contact's digits with at most
      one leading "55" removed. The name sent is already trimmed. */
  lemma RequestForShape(c: Contact)
    ensures AllDigits(RequestFor(c).telephone)
    ensures Digits(c.telephone) == RequestFor(c).telephone
         || Digits(c.telephone) == "55" + RequestFor(c).telephone
    ensures Trim(RequestFor(c).name) == RequestFor(c).name
  {
    StripCountryCodeShape(Digits(c.telephone));
    TrimIdempotent(c.name);
  }

  /** Only one country code is removed. */
  lemma StripCountryCodeOnce()
    ensures StripCountryCode("555511") == "5511"
    ensures StripCountryCode("11987654321") == "11987654321"
  {
    assert "555511"[..2] == "55";
    assert "11987654321"[..2] != "55" by { assert "11987654321"[0] == '1'; }
  }

  /** The outcome recorded for one contact. */
  datatype ImportResult = ImportResult(contact: Contact, success: bool, error: Option<string>)

  /** The create call, as the response it gives to a request: `Some(e)` when
      the response carries the error message `e`. */
  type Responder = ClientRequest -> Option<string>

  /** A response with a non-empty error message is a failure with that
      message; any other response is a success. */
  function Attempt(c: Contact, respond: Responder): (r: ImportResult)
  {
    var resp := respond(RequestFor(c));
    if resp.Some? && resp.value != "" then ImportResult(c, false, Some(resp.value))
    else ImportResult(c, true, None)
  }

  const BatchSize: nat := 10

  function Min(a: int, b: int): int { if a < b then a else b }

  /** The progress shown after the batch numbered `k` (from 0):
      `Math.round((i + batch.length) / total * 100)`. */
  function ProgressAfter(k: nat, total: nat): (p: int)
    requires total > 0
  {
    Money.RoundDiv(100 * Min((k + 1) * BatchSize, total), total)
  }

  /** How many batches a list of `total` contacts takes. */
  function BatchCount(total: nat): nat
  {
    (total + BatchSize - 1) / BatchSize
  }

  datatype ImportError = NothingToImport

  datatype ImportRun = ImportRun(results: seq<ImportResult>, progress: seq<int>)

  /** The create call for each contact, as a function to map over a batch. */
  function Attempter(respond: Responder): Contact -> ImportResult
  {
    c => Attempt(c, respond)
  }

  /** `Promise.all(batch.map(...))`: one outcome per contact of the batch, in
      batch order. */
  method RunBatch(batch: seq<Contact>, respond: Responder) returns (outcomes: seq<ImportResult>)
    ensures outcomes == Seqs.Map(batch, Attempter(respond))
  {
    outcomes := [];
    var j := 0;
    while j < |batch|
      invariant 0 <= j <= |batch|
      invariant outcomes == Seqs.Map(batch[..j], Attempter(respond))
    {
      var r := Attempt(batch[j], respond);
      assert batch[..j + 1] == batch[..j] + [batch[j]];
      Seqs.MapAppend(batch[..j], [batch[j]], Attempter(respond));
      outcomes := outcomes + [r];
      j := j + 1;
    }
    assert batch[..j] == batch;
  }

  /** The batch numbered `k` starts at `10 * k` and ends where
      `ProgressAfter` measures. */
  lemma ProgressStep(k: nat, total: nat)
    requires 0 < total
    ensures ProgressAfter(k, total) == Money.RoundDiv(100 * Min(10 * k + 10, total), total)
  {
    assert (k + 1) * BatchSize == 10 * k + 10;
  }

  /** `n` batches of ten cover `total` contacts, the last one partly. */
  lemma BatchCountIs(total: nat, n: nat)
    requires 10 * n - 10 < total <= 10 * n
    ensures BatchCount(total) == n
  {
  }

  /** `handleImportContacts`: an empty list is refused; otherwise the
      contacts are sent in batches of ten, their results appended in list
      order and the progress recorded after each batch. The calls inside a
      batch run one after another here. */
  method ImportContacts(selected: seq<Contact>, respond: Responder) returns (run: Result<ImportRun, ImportError>)
    ensures run.Err? <==> selected == []
    ensures run.Ok? ==>
      run.value.results == Seqs.Map(selected, Attempter(respond))
      && |run.value.progress| == BatchCount(|selected|)
      && forall k :: 0 <= k < |run.value.progress| ==> run.value.progress[k] == ProgressAfter(k, |selected|)
  {
    if |selected| == 0 {
      return Err(NothingToImport);
    }
    var total := |selected|;
    var results: seq<ImportResult> := [];
    var progress: seq<int> := [];
    var i := 0;
    while i < total
      invariant i == 10 * |progress|
      invariant i - 10 < total
      invariant results == Seqs.Map(selected[..Min(i, total)], Attempter(respond))
      invariant forall k :: 0 <= k < |progress| ==> progress[k] == ProgressAfter(k, total)
      decreases total - i
    {
      var batch := selected[i..Min(i + 10, total)];
      BatchAt(selected, |progress|);
      assert batch == Batches(selected)[|progress|];
      var outcomes := RunBatch(batch, respond);
      assert selected[..Min(i + 10, total)] == selected[..i] + batch;
      Seqs.MapAppend(selected[..i], batch, Attempter(respond));
      results := results + outcomes;
      ProgressStep(|progress|, total);
      progress := progress + [Money.RoundDiv(100 * (i + |batch|), total)];
      i := i + 10;
    }
    BatchCountIs(total, |progress|);
    assert selected[..Min(i, total)] == selected;
    return Ok(ImportRun(results, progress));
  }

  /** Multiplying by a positive number keeps the order. */
  lemma MulLe(x: int, y: int, m: int)
    requires m > 0 && x <= y
    ensures x * m <= y * m
  {
    var k := y - x;
    assert y * m == x * m + k * m;
  }

  /** Rounded division never decreases as the numerator grows. */
  lemma RoundDivMonotone(a: int, b: int, d: int)
    requires d > 0 && a <= b
    ensures Money.RoundDiv(a, d) <= Money.RoundDiv(b, d)
  {
    var ra := Money.RoundDiv(a, d);
    var rb := Money.RoundDiv(b, d);
    assert (rb + 1) * (2 * d) == 2 * rb * d + 2 * d;
    assert ra * (2 * d) == 2 * ra * d;
    if ra > rb {
      MulLe(rb + 1, ra, 2 * d);
    }
  }

  /** Rounded division of an exact multiple gives the factor back. */
  lemma RoundDivExact(q: int, d: int)
    requires d > 0
    ensures Money.RoundDiv(q * d, d) == q
  {
    var r := Money.RoundDiv(q * d, d);
    assert r * (2 * d) == 2 * r * d;
    assert q * (2 * d) == 2 * (q * d);
    assert (q + 1) * (2 * d) == q * (2 * d) + 2 * d;
    assert (r + 1) * (2 * d) == r * (2 * d) + 2 * d;
    if r > q {
      MulLe(q + 1, r, 2 * d);
    } else if r < q {
      MulLe(r + 1, q, 2 * d);
    }
  }

  /** The progress bar stays within 0..100, never moves back, and shows 100
      after the last batch. */
  lemma {:induction false} ProgressRises(total: nat)
    requires total > 0
    ensures forall k :: 0 <= k < BatchCount(total) ==> 0 <= ProgressAfter(k, total) <= 100
    ensures forall j, k :: 0 <= j <= k ==> ProgressAfter(j, total) <= ProgressAfter(k, total)
    ensures ProgressAfter(BatchCount(total) - 1, total) == 100
  {
    forall k | 0 <= k < BatchCount(total)
      ensures 0 <= ProgressAfter(k, total) <= 100
    {
      RoundDivMonotone(0, 100 * Min((k + 1) * BatchSize, total), total);
      RoundDivMonotone(100 * Min((k + 1) * BatchSize, total), 100 * total, total);
      RoundDivExact(0, total);
      RoundDivExact(100, total);
    }
    forall j, k | 0 <= j <= k
      ensures ProgressAfter(j, total) <= ProgressAfter(k, total)
    {
      assert (j + 1) * BatchSize <= (k + 1) * BatchSize;
      RoundDivMonotone(100 * Min((j + 1) * BatchSize, total), 100 * Min((k + 1) * BatchSize, total), total);
    }
    var n := BatchCount(total);
    assert n * BatchSize >= total;
    RoundDivExact(100, total);
  }

  /** The slices `[i, min(i + 10, total))` taken by the loop. */
  function Batches(s: seq<Contact>): seq<seq<Contact>>
    decreases |s|
  {
    if s == [] then []
    else [s[..Min(BatchSize, |s|)]] + Batches(s[Min(BatchSize, |s|)..])
  }

  function Flatten(bs: seq<seq<Contact>>): seq<Contact>
  {
    if bs == [] then [] else bs[0] + Flatten(bs[1..])
  }

  /** The batches are non-empty, hold at most ten contacts each, number
      `BatchCount`, and put back together give the list itself: every
      contact is sent exactly once and in order. */
  lemma {:induction false} BatchesCover(s: seq<Contact>)
    decreases |s|
    ensures Flatten(Batches(s)) == s
    ensures |Batches(s)| == BatchCount(|s|)
    ensures forall b :: b in Batches(s) ==> 1 <= |b| <= BatchSize
  {
    if s != [] {
      var m := Min(BatchSize, |s|);
      BatchesCover(s[m..]);
      assert Batches(s)[1..] == Batches(s[m..]);
      assert s == s[..m] + s[m..];
    }
  }

  /** The batch numbered `k` is the slice the loop takes at `i = 10 * k`:
      `selected.slice(i, i + BATCH_SIZE)`. */
  lemma {:induction false} BatchAt(s: seq<Contact>, k: nat)
    requires 10 * k < |s|
    ensures k < |Batches(s)|
    ensures Batches(s)[k] == s[10 * k..Min(10 * k + 10, |s|)]
    decreases k
  {
    if k > 0 {
      assert Min(BatchSize, |s|) == 10;
      var t := s[10..];
      assert Batches(s) == [s[..10]] + Batches(t);
      BatchAt(t, k - 1);
      assert Batches(s)[k] == Batches(t)[k - 1];
      var lo, hi := 10 * k, Min(10 * k + 10, |s|);
      assert 10 * (k - 1) == lo - 10 && Min(10 * (k - 1) + 10, |t|) == hi - 10;
      assert forall x :: 0 <= x < hi - lo ==> t[lo - 10..hi - 10][x] == s[lo..hi][x];
      assert t[lo - 10..hi - 10] == s[lo..hi];
    }
  }

  // ---- the final toast ----

  datatype Summary = AllImported(successCount: nat) | AllFailed(failCount: nat) | PartialImport(successCount: nat, failCount: nat)

  predicate Succeeded(r: ImportResult) { r.success }
  predicate Failed(r: ImportResult) { !r.success }

  /** The toast chosen from the success and failure counts. */
  function Summarize(results: seq<ImportResult>): Summary
  {
    var successCount := Seqs.Count(results, Succeeded);
    var failCount := Seqs.Count(results, Failed);
    if failCount == 0 then AllImported(successCount)
    else if successCount == 0 then AllFailed(failCount)
    else PartialImport(successCount, failCount)
  }

  lemma CountZero(results: seq<ImportResult>, p: ImportResult -> bool)
    ensures Seqs.Count(results, p) == 0 <==> forall r :: r in results ==> !p(r)
  {
    var f := Seqs.Filter(results, p);
    if f != [] {
      assert f[0] in results && p(f[0]);
    }
  }

  /** Every result is counted once; "all imported" means no failure, "all
      failed" means failures and no success, and anything else is partial
      with both counts positive. */
  lemma SummarizeAccounts(results: seq<ImportResult>)
    ensures Seqs.Count(results, Succeeded) + Seqs.Count(results, Failed) == |results|
    ensures Summarize(results).AllImported? <==> forall r :: r in results ==> r.success
    ensures Summarize(results).AllFailed? <==>
      results != [] && forall r :: r in results ==> !r.success
    ensures Summarize(results).PartialImport? ==>
      Summarize(results).successCount > 0 && Summarize(results).failCount > 0
      && Summarize(results).successCount + Summarize(results).failCount == |results|
  {
    Seqs.CountSplit(results, Succeeded, Failed);
    CountZero(results, Succeeded);
    CountZero(results, Failed);
  }
}
