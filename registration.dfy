/** The financial register: the list page with its filter pipeline, the
    per-type totals and the truncated balance display, and the edit page
    with its balance calculation, tag editing and cents conversion. */
module Registration {
  import opened Wrappers
  import Seqs
  import opened Text
  import Sorting
  import Money

  // ---- the list page ----

  /** A register entry. `when` is the instant of its `date`, or of its
      `createAt` when it has no date, and is `None` when that text is not a
      date; `createAt` is the creation instant the list sorts by. */
  datatype Entry = Entry(id: string, kind: string, value: int, category: string,
                         description: string, tags: seq<string>, createAt: int,
                         when: Option<int>)

  /** The filter bar. Empty text fields and absent bounds switch a filter
      off; `kind` is "*" for every type. `dateFrom` and `dateTo` are the
      instants at which those days start; the value bounds are in cents. */
  datatype Filters = Filters(search: string, kind: string, category: string, tag: string,
                             dateFrom: Option<int>, dateTo: Option<int>,
                             valueMin: Option<int>, valueMax: Option<int>)

  const AllKinds: string := "*"

  /** `to.setHours(23, 59, 59, 999)`: the last millisecond of the `dateTo`
      day. The page parses `dateTo` as UTC midnight and sets the hours in
      local time; the two agree only in a UTC time zone, which this model
      assumes. */
  const EndOfDay: int := 86_399_999

  predicate SearchMatches(e: Entry, term: string)
  {
    Contains(Lower(e.description), Lower(term)) || Contains(Lower(e.category), Lower(term))
  }

  predicate CategoryMatches(e: Entry, term: string)
  {
    Contains(Lower(e.category), Lower(term))
  }

  predicate TagMatches(e: Entry, term: string)
  {
    exists i :: 0 <= i < |e.tags| && Contains(Lower(e.tags[i]), Lower(term))
  }

  predicate FromOk(e: Entry, from: int) { e.when.Some? && e.when.value >= from }

  predicate ToOk(e: Entry, to: int) { e.when.Some? && e.when.value <= to + EndOfDay }

  /** What the whole pipeline asks of an entry: each filter that is switched
      on accepts it. */
  predicate Kept(f: Filters, e: Entry)
  {
    (f.search == "" || SearchMatches(e, f.search))
    && (f.kind == AllKinds || e.kind == f.kind)
    && (f.category == "" || CategoryMatches(e, f.category))
    && (f.tag == "" || TagMatches(e, f.tag))
    && (f.dateFrom.None? || FromOk(e, f.dateFrom.value))
    && (f.dateTo.None? || ToOk(e, f.dateTo.value))
    && (f.valueMin.None? || e.value >= f.valueMin.value)
    && (f.valueMax.None? || e.value <= f.valueMax.value)
  }

  /** Filter number `n` of the pipeline (1 to 8) is switched on. */
  predicate Active(f: Filters, n: nat)
  {
    match n
    case 1 => f.search != ""
    case 2 => f.kind != AllKinds
    case 3 => f.category != ""
    case 4 => f.tag != ""
    case 5 => f.dateFrom.Some?
    case 6 => f.dateTo.Some?
    case 7 => f.valueMin.Some?
    case 8 => f.valueMax.Some?
    case _ => false
  }

  /** The predicate filter number `n` applies when it is on. */
  function Test(f: Filters, n: nat): Entry -> bool
    requires Active(f, n)
  {
    match n
    case 1 => (e: Entry) => SearchMatches(e, f.search)
    case 2 => (e: Entry) => e.kind == f.kind
    case 3 => (e: Entry) => CategoryMatches(e, f.category)
    case 4 => (e: Entry) => TagMatches(e, f.tag)
    case 5 => (e: Entry) => FromOk(e, f.dateFrom.value)
    case 6 => (e: Entry) => ToOk(e, f.dateTo.value)
    case 7 => (e: Entry) => e.value >= f.valueMin.value
    case 8 => (e: Entry) => e.value <= f.valueMax.value
  }

  /** The entry survives the first `n` filters. */
  predicate Survives(f: Filters, e: Entry, n: nat)
  {
    n == 0 || (Survives(f, e, n - 1) && (!Active(f, n) || Test(f, n)(e)))
  }

  function SurvivesUpTo(f: Filters, n: nat): Entry -> bool
  {
    (e: Entry) => Survives(f, e, n)
  }

  /** The list after the first `n` steps of the pipeline: each step
      filters with its predicate when it is on and passes the list through
      when it is off. */
  function Pipeline(entries: seq<Entry>, f: Filters, n: nat): seq<Entry>
  {
    if n == 0 then entries
    else if Active(f, n) then Seqs.Filter(Pipeline(entries, f, n - 1), Test(f, n))
    else Pipeline(entries, f, n - 1)
  }

  /** The first `n` steps keep exactly the entries that survive the first
      `n` filters, in their original order. */
  lemma {:induction false} PipelineFilters(entries: seq<Entry>, f: Filters, n: nat)
    ensures Pipeline(entries, f, n) == Seqs.Filter(entries, SurvivesUpTo(f, n))
  {
    if n == 0 {
      Seqs.FilterAll(entries, SurvivesUpTo(f, 0));
    } else {
      PipelineFilters(entries, f, n - 1);
      if Active(f, n) {
        Seqs.FilterFilter(entries, SurvivesUpTo(f, n - 1), Test(f, n), SurvivesUpTo(f, n));
      } else {
        Seqs.FilterSame(entries, SurvivesUpTo(f, n - 1), SurvivesUpTo(f, n));
      }
    }
  }

  /** Surviving all eight filters is what the pipeline asks. */
  lemma SurvivesAll(f: Filters)
    ensures forall e :: SurvivesUpTo(f, 8)(e) == Kept(f, e)
  {
    forall e ensures SurvivesUpTo(f, 8)(e) == Kept(f, e) {
      assert Survives(f, e, 8) == (Survives(f, e, 7) && (!Active(f, 8) || Test(f, 8)(e)));
      assert Survives(f, e, 7) == (Survives(f, e, 6) && (!Active(f, 7) || Test(f, 7)(e)));
      assert Survives(f, e, 6) == (Survives(f, e, 5) && (!Active(f, 6) || Test(f, 6)(e)));
      assert Survives(f, e, 5) == (Survives(f, e, 4) && (!Active(f, 5) || Test(f, 5)(e)));
      assert Survives(f, e, 4) == (Survives(f, e, 3) && (!Active(f, 4) || Test(f, 4)(e)));
      assert Survives(f, e, 3) == (Survives(f, e, 2) && (!Active(f, 3) || Test(f, 3)(e)));
      assert Survives(f, e, 2) == (Survives(f, e, 1) && (!Active(f, 2) || Test(f, 2)(e)));
      assert Survives(f, e, 1) == (!Active(f, 1) || Test(f, 1)(e));
    }
  }

  /** The newest entry first: `new Date(b.createAt) - new Date(a.createAt)`. */
  function NewerFirst(): (Entry, Entry) -> bool
  {
    (a: Entry, b: Entry) => b.createAt - a.createAt < 0
  }

  lemma NewerFirstIsStrict()
    ensures Sorting.StrictOrder(NewerFirst())
  {
  }

  /** `applyFilters`: each switched-on filter narrows the list in turn, then
      the result is sorted newest first. The result is exactly the entries
      the pipeline accepts, newest first. */
  method ApplyFilters(entries: seq<Entry>, f: Filters) returns (filtered: seq<Entry>)
    ensures filtered == Sorting.Sort(Seqs.Filter(entries, (e: Entry) => Kept(f, e)), NewerFirst())
  {
    filtered := entries;
    if f.search != "" {
      filtered := Seqs.Filter(filtered, Test(f, 1));
    }
    assert filtered == Pipeline(entries, f, 1);
    if f.kind != AllKinds {
      filtered := Seqs.Filter(filtered, Test(f, 2));
    }
    assert filtered == Pipeline(entries, f, 2);
    if f.category != "" {
      filtered := Seqs.Filter(filtered, Test(f, 3));
    }
    assert filtered == Pipeline(entries, f, 3);
    if f.tag != "" {
      filtered := Seqs.Filter(filtered, Test(f, 4));
    }
    assert filtered == Pipeline(entries, f, 4);
    if f.dateFrom.Some? {
      filtered := Seqs.Filter(filtered, Test(f, 5));
    }
    assert filtered == Pipeline(entries, f, 5);
    if f.dateTo.Some? {
      filtered := Seqs.Filter(filtered, Test(f, 6));
    }
    assert filtered == Pipeline(entries, f, 6);
    if f.valueMin.Some? {
      filtered := Seqs.Filter(filtered, Test(f, 7));
    }
    assert filtered == Pipeline(entries, f, 7);
    if f.valueMax.Some? {
      filtered := Seqs.Filter(filtered, Test(f, 8));
    }
    assert filtered == Pipeline(entries, f, 8);

    PipelineFilters(entries, f, 8);
    SurvivesAll(f);
    Seqs.FilterSame(entries, SurvivesUpTo(f, 8), (e: Entry) => Kept(f, e));
    filtered := Sorting.Sort(filtered, NewerFirst());
  }

  /** The filtered list holds exactly the accepted entries, each as often as
      the input holds it, and it runs from the newest entry to the oldest. */
  lemma FilteredEntries(entries: seq<Entry>, f: Filters)
    ensures var r := Sorting.Sort(Seqs.Filter(entries, (e: Entry) => Kept(f, e)), NewerFirst());
      multiset(r) == multiset(Seqs.Filter(entries, (e: Entry) => Kept(f, e)))
      && (forall e :: e in r <==> e in entries && Kept(f, e))
      && |r| <= |entries|
      && forall i, j :: 0 <= i < j < |r| ==> r[i].createAt >= r[j].createAt
  {
    var kept := Seqs.Filter(entries, (e: Entry) => Kept(f, e));
    var r := Sorting.Sort(kept, NewerFirst());
    assert forall e :: e in r <==> e in kept by {
      forall e ensures e in r <==> e in kept {
        assert e in r <==> e in multiset(r);
        assert e in kept <==> e in multiset(kept);
      }
    }
    NewerFirstIsStrict();
    Sorting.SortSorted(kept, NewerFirst());
    forall i, j | 0 <= i < j < |r| ensures r[i].createAt >= r[j].createAt {
      assert !NewerFirst()(r[j], r[i]);
    }
  }

  /** With every filter off nothing is dropped. */
  lemma NoFilterKeepsAll(entries: seq<Entry>)
    ensures Seqs.Filter(entries, (e: Entry) => Kept(Filters("", AllKinds, "", "", None, None, None, None), e)) == entries
  {
    Seqs.FilterAll(entries, (e: Entry) => Kept(Filters("", AllKinds, "", "", None, None, None, None), e));
  }

  /** A type filter other than "*" keeps only entries of exactly that type;
      an entry without a parsable date never passes a date bound; the upper
      date bound ends with the `dateTo` day read in UTC; the value bounds are
      inclusive. */
  lemma KeptRespectsBounds(f: Filters, e: Entry)
    requires Kept(f, e)
    ensures f.kind != AllKinds ==> e.kind == f.kind
    ensures (f.dateFrom.Some? || f.dateTo.Some?) ==> e.when.Some?
    ensures f.dateTo.Some? ==> e.when.value < f.dateTo.value + 86_400_000
    ensures f.valueMin.Some? ==> f.valueMin.value <= e.value
    ensures f.valueMax.Some? ==> e.value <= f.valueMax.value
  {
  }

  function Value(e: Entry): int { e.value }

  predicate IsIn(e: Entry) { e.kind == "In" }
  predicate IsOut(e: Entry) { e.kind == "Out" }
  predicate IsNeither(e: Entry) { !IsIn(e) && !IsOut(e) }
  predicate NotIn(e: Entry) { !IsIn(e) }

  /** `getStats`: the value of the "In" entries and of the "Out" entries. */
  function Stats(entries: seq<Entry>): (int, int)
  {
    (Seqs.SumBy(Seqs.Filter(entries, IsIn), Value), Seqs.SumBy(Seqs.Filter(entries, IsOut), Value))
  }

  /** The entry's effect on the balance. */
  function Signed(e: Entry): int
  {
    if IsIn(e) then e.value else if IsOut(e) then -e.value else 0
  }

  /** Inflows minus outflows is the net effect of the entries on the
      balance, and the two totals together with the entries of any other
      type account for the whole sum. */
  lemma {:induction false} StatsAccount(entries: seq<Entry>)
    ensures Stats(entries).0 - Stats(entries).1 == Seqs.SumBy(entries, Signed)
    ensures Stats(entries).0 + Stats(entries).1 + Seqs.SumBy(Seqs.Filter(entries, IsNeither), Value)
         == Seqs.SumBy(entries, Value)
  {
    if entries != [] {
      StatsAccount(entries[1..]);
      var e := entries[0];
      var hin := if IsIn(e) then [e] else [];
      var hout := if IsOut(e) then [e] else [];
      var hnone := if IsNeither(e) then [e] else [];
      Seqs.SumByAppend(hin, Seqs.Filter(entries[1..], IsIn), Value);
      Seqs.SumByAppend(hout, Seqs.Filter(entries[1..], IsOut), Value);
      Seqs.SumByAppend(hnone, Seqs.Filter(entries[1..], IsNeither), Value);
    }
  }

  /** `Math.trunc(cents / 100)`: whole reais, rounded toward zero. */
  function TruncReais(cents: int): (r: int)
    ensures cents >= 0 ==> 0 <= 100 * r <= cents < 100 * r + 100
    ensures cents < 0 ==> 100 * r - 100 < cents <= 100 * r <= 0
  {
    if cents >= 0 then cents / 100 else -((-cents) / 100)
  }

  /** Truncation is symmetric around zero, unlike floor division. */
  lemma TruncReaisSymmetric(cents: int)
    ensures TruncReais(-cents) == -TruncReais(cents)
  {
  }

  lemma TruncReaisExamples()
    ensures TruncReais(42040) == 420
    ensures TruncReais(-42040) == -420
    ensures TruncReais(-42099) == -420
    ensures -42099 / 100 == -421
  {
  }

  /** The first financial summary the back end returns. */
  datatype Financial = Financial(current: int, moneyOut: int, cashInflow: int, pendentIn: int)

  /** The balance card: whole reais of inflow minus outflow, and the colour
      flag, which the page takes from `current` instead. A missing summary
      counts as zeros. */
  function BalanceCard(fin: Option<Financial>): (r: (int, bool))
  {
    var inflow := if fin.Some? then fin.value.cashInflow else 0;
    var outflow := if fin.Some? then fin.value.moneyOut else 0;
    var current := if fin.Some? then fin.value.current else 0;
    (TruncReais(inflow - outflow), current >= 0)
  }

  /** The amount shown on the balance card is within one real of inflow
      minus outflow, on the side of zero; with no summary it is 0. */
  lemma BalanceCardAmount(fin: Option<Financial>)
    ensures fin.None? ==> BalanceCard(fin) == (0, true)
    ensures fin.Some? ==>
      var net := fin.value.cashInflow - fin.value.moneyOut;
      var shown := BalanceCard(fin).0;
      (net >= 0 ==> 0 <= net - 100 * shown < 100)
      && (net < 0 ==> 0 <= 100 * shown - net < 100)
  {
  }

  // ---- the edit page ----

  /** A register entry as loaded for editing; amounts in cents, any of
      which may be missing. */
  datatype StoredEntry = StoredEntry(previousBalance: Option<int>, newBalance: Option<int>,
                                     kind: string, value: Option<int>, category: string,
                                     description: string, tags: Option<seq<string>>,
                                     paid: Option<bool>)

  /** The edit form; amounts in reais. */
  datatype EntryForm = EntryForm(previousBalance: real, newBalance: real, kind: string,
                                 value: real, category: string, description: string,
                                 tags: seq<string>, paid: bool)

  function ReaisOf(cents: Option<int>): real
  {
    if cents.Some? then Money.ToReais(cents.value) else 0.0
  }

  /** `loadRegistro`: cents become reais, a missing amount 0, missing tags
      the empty list and a missing paid flag false. */
  function LoadEntry(s: StoredEntry): EntryForm
  {
    EntryForm(ReaisOf(s.previousBalance), ReaisOf(s.newBalance), s.kind, ReaisOf(s.value),
              s.category, s.description, if s.tags.Some? then s.tags.value else [],
              s.paid.Some? && s.paid.value)
  }

  /** `calculateNewBalance`: an inflow adds the value to the previous
      balance and anything else subtracts it. */
  function CalculateNewBalance(form: EntryForm): (r: EntryForm)
  {
    form.(newBalance := if form.kind == "In" then form.previousBalance + form.value
                        else form.previousBalance - form.value)
  }

  /** Only the new balance changes; it moves away from the previous balance
      by the value, up for "In" and down for anything else. */
  lemma CalculateNewBalanceEffect(form: EntryForm)
    ensures var r := CalculateNewBalance(form);
      r == form.(newBalance := r.newBalance)
      && (form.kind == "In" ==> r.newBalance - r.previousBalance == form.value)
      && (form.kind != "In" ==> r.previousBalance - r.newBalance == form.value)
  {
  }

  /** For amounts loaded from cents, the new balance saved is the previous
      balance plus or minus the value, exactly, in cents. */
  lemma NewBalanceInCents(prev: int, value: int, kind: string)
    ensures var form := CalculateNewBalance(LoadEntry(StoredEntry(Some(prev), None, kind, Some(value), "", "", None, None)));
      Money.ToCents(form.newBalance) == if kind == "In" then prev + value else prev - value
  {
    var form := LoadEntry(StoredEntry(Some(prev), None, kind, Some(value), "", "", None, None));
    if kind == "In" {
      assert form.previousBalance + form.value == Money.ToReais(prev + value);
      Money.CentsRoundTrip(prev + value);
    } else {
      assert form.previousBalance - form.value == Money.ToReais(prev - value);
      Money.CentsRoundTrip(prev - value);
    }
  }

  /** `addTag`: the trimmed tag is appended when it is non-empty and not yet
      present, and the input is cleared; otherwise nothing changes. */
  function AddTag(tags: seq<string>, input: string): (r: (seq<string>, string))
  {
    var t := Trim(input);
    if t != "" && t !in tags then (tags + [t], "") else (tags, input)
  }

  /** Tags that start distinct and non-empty stay so; a tag that is added
      was absent before and ends up last. */
  lemma AddTagKeepsDistinct(tags: seq<string>, input: string)
    requires forall i, j :: 0 <= i < j < |tags| ==> tags[i] != tags[j]
    requires forall i :: 0 <= i < |tags| ==> tags[i] != ""
    ensures var r := AddTag(tags, input).0;
      (forall i, j :: 0 <= i < j < |r| ==> r[i] != r[j])
      && (forall i :: 0 <= i < |r| ==> r[i] != "")
      && (r == tags || (r == tags + [Trim(input)] && Trim(input) != "" && Trim(input) !in tags))
  {
  }

  /** Adding a tag the list already holds, or a blank one, changes nothing;
      adding twice is adding once. */
  lemma AddTagIdempotent(tags: seq<string>, input: string)
    ensures AddTag(AddTag(tags, input).0, input).0 == AddTag(tags, input).0
  {
  }

  /** `removeTag`: every occurrence of the tag goes, the others keep their
      order. */
  function RemoveTag(tags: seq<string>, tag: string): (r: seq<string>)
  {
    Seqs.Filter(tags, (t: string) => t != tag)
  }

  lemma RemoveTagEffect(tags: seq<string>, tag: string)
    ensures tag !in RemoveTag(tags, tag)
    ensures forall t :: t in RemoveTag(tags, tag) <==> t in tags && t != tag
  {
  }

  /** Removing a tag just added gives the old list back. */
  lemma RemoveAddedTag(tags: seq<string>, input: string)
    requires Trim(input) != "" && Trim(input) !in tags
    ensures RemoveTag(AddTag(tags, input).0, Trim(input)) == tags
  {
    var t := Trim(input);
    Seqs.FilterAppend(tags, [t], (x: string) => x != t);
    Seqs.FilterAll(tags, (x: string) => x != t);
  }

  /** What is sent to the back end; amounts in cents. */
  datatype EntryPayload = EntryPayload(previousBalance: int, newBalance: int, kind: string,
                                       value: int, category: string, description: string,
                                       tags: seq<string>, paid: bool)

  datatype EntryError = MissingFields | NoEntryId

  /** `handleSubmit`: category, description and a positive value are
      required, then an id; the amounts go out as `Math.round(x * 100)`. */
  function SubmitEntry(form: EntryForm, id: Option<string>): Result<EntryPayload, EntryError>
  {
    if form.category == "" || form.description == "" || form.value <= 0.0 then Err(MissingFields)
    else if id.None? || id.value == "" then Err(NoEntryId)
    else Ok(EntryPayload(Money.ToCents(form.previousBalance), Money.ToCents(form.newBalance),
                         form.kind, Money.ToCents(form.value), form.category,
                         form.description, form.tags, form.paid))
  }

  /** The form is sent iff the required fields are filled, the value is
      positive and there is an id; an entry loaded and saved unchanged
      goes back with the same amounts in cents. */
  lemma SubmitEntryEffect(form: EntryForm, id: Option<string>)
    ensures SubmitEntry(form, id).Ok? <==>
      form.category != "" && form.description != "" && form.value > 0.0 && id.Some? && id.value != ""
    ensures SubmitEntry(form, id) == Err(MissingFields) <==>
      form.category == "" || form.description == "" || form.value <= 0.0
  {
  }

  lemma LoadSaveRoundTrip(s: StoredEntry, id: string)
    requires s.previousBalance.Some? && s.newBalance.Some? && s.value.Some?
    requires s.category != "" && s.description != "" && s.value.value > 0 && id != ""
    ensures var r := SubmitEntry(LoadEntry(s), Some(id));
      r.Ok? && r.value.previousBalance == s.previousBalance.value
      && r.value.newBalance == s.newBalance.value && r.value.value == s.value.value
  {
    Money.CentsRoundTrip(s.previousBalance.value);
    Money.CentsRoundTrip(s.newBalance.value);
    Money.CentsRoundTrip(s.value.value);
  }
}
