/** The order list page: search, the summary figures, the legacy due-day
    countdown and the two orderings of the list. Money is in integer cents;
    instants are milliseconds on the local calendar of `Calendar`. */
module OrderList {
  import opened Wrappers
  import Seqs
  import opened Text
  import opened Money
  import opened Calendar
  import Sorting
  import opened Records

  /** An order joined with its client. `paid` is the open balance in cents;
      `installmentsTotal` is `None` when it is absent or not a number;
      `date` is the creation instant. An absent `_id` is the empty string,
      which matches a search exactly when the name field does. */
  datatype ListedOrder = ListedOrder(
    id: string, client: Option<Client>, price: Option<int>, totalAmount: Option<int>,
    paid: Option<int>, installmentsTotal: Option<int>, date: int)

  function ClientName(o: ListedOrder): string { if o.client.Some? then o.client.value.name else "" }
  function ClientCpf(o: ListedOrder): string { if o.client.Some? then o.client.value.cpf else "" }
  function ClientPhone(o: ListedOrder): string { if o.client.Some? then o.client.value.telephone else "" }

  /** The search predicate of `filteredOrders`: name, CPF and id compared in
      lower case, the telephone against the term as typed. */
  predicate Matches(o: ListedOrder, term: string)
  {
    var t := Lower(term);
    Contains(Lower(ClientName(o)), t) || Contains(Lower(ClientCpf(o)), t)
    || Contains(ClientPhone(o), term) || Contains(Lower(o.id), t)
  }

  function FilteredOrders(orders: seq<ListedOrder>, term: string): seq<ListedOrder>
  {
    Seqs.Filter(orders, (o: ListedOrder) => Matches(o, term))
  }

  /** An empty search keeps every order, in order. */
  lemma EmptySearchKeepsAll(orders: seq<ListedOrder>)
    ensures FilteredOrders(orders, "") == orders
  {
    forall o | o in orders ensures Matches(o, "") {
      ContainsEmpty(Lower(ClientName(o)));
    }
    Seqs.FilterAll(orders, (o: ListedOrder) => Matches(o, ""));
  }

  /** The search keeps exactly the matching orders, in their order. */
  lemma SearchKeepsMatches(orders: seq<ListedOrder>, term: string)
    ensures var r := FilteredOrders(orders, term);
      (forall o :: o in r ==> o in orders && Matches(o, term))
      && (forall o :: o in orders && Matches(o, term) ==> o in r)
  {
  }

  function PriceOf(o: ListedOrder): int { o.price.GetOr(0) }
  function ItemsOf(o: ListedOrder): int { o.totalAmount.GetOr(0) }
  function OpenOf(o: ListedOrder): int { o.paid.GetOr(0) }

  /** `totalRevenue`, `totalItems` and `averageOrderValue` over the shown
      orders. */
  function TotalRevenue(shown: seq<ListedOrder>): int { Seqs.SumBy(shown, PriceOf) }
  function TotalItems(shown: seq<ListedOrder>): int { Seqs.SumBy(shown, ItemsOf) }

  function AverageOrderValue(shown: seq<ListedOrder>): (r: int)
    ensures shown == [] ==> r == 0
    ensures shown != [] ==>
      2 * r * |shown| - |shown| <= 2 * TotalRevenue(shown) < 2 * r * |shown| + |shown|
  {
    if |shown| > 0 then RoundDiv(TotalRevenue(shown), |shown|) else 0
  }

  /** The average is `Math.round(totalRevenue / length)`. */
  lemma AverageIsRoundedMean(shown: seq<ListedOrder>)
    requires shown != []
    ensures AverageOrderValue(shown) == JsRound(TotalRevenue(shown) as real / |shown| as real)
  {
    RoundDivIsJsRound(TotalRevenue(shown), |shown|);
  }

  /** `expectedRevenue`: the open balances of all orders. */
  function ExpectedRevenue(orders: seq<ListedOrder>): int { Seqs.SumBy(orders, OpenOf) }

  /** The pending revenue ignores the search: it is the open balance of the
      shown orders plus that of the hidden ones. */
  lemma ExpectedRevenueIgnoresSearch(orders: seq<ListedOrder>, term: string)
    ensures ExpectedRevenue(orders)
         == Seqs.SumBy(FilteredOrders(orders, term), OpenOf)
          + Seqs.SumBy(Seqs.Filter(orders, (o: ListedOrder) => !Matches(o, term)), OpenOf)
  {
    Seqs.SumByFilterSplit(orders, OpenOf, (o: ListedOrder) => Matches(o, term),
                          (o: ListedOrder) => !Matches(o, term));
  }

  // ---- the due-day countdown ----

  /** The moment the page reads the clock: a local date and the milliseconds
      since its midnight. */
  datatype Now = Now(today: Date, ms: int)

  predicate ValidNow(now: Now) { ValidDate(now.today) && ValidTimeOfDay(now.ms) }

  /** 23:59:59, the time of day of a due date. */
  const DueTime: int := 86_399_000

  function NowInstant(now: Now): int
    requires ValidNow(now)
  {
    Instant(now.today, now.ms)
  }

  /** `clampDayForMonth`: the due day, cut to the last day of the month. */
  function ClampDayForMonth(y: int, m: int, day: int): (r: int)
    requires 0 <= m < 12
    ensures r <= DaysInMonth(y, m)
    ensures r == day || r == DaysInMonth(y, m)
    ensures day >= 1 ==> ValidDate(Date(y, m, r))
  {
    if day < DaysInMonth(y, m) then day else DaysInMonth(y, m)
  }

  /** The due date in the current month, or in the next one when the current
      month's has passed. */
  function Candidate(now: Now, dueDay: int): Date
    requires ValidNow(now)
  {
    var y := now.today.year;
    var m := now.today.month;
    var here := Date(y, m, ClampDayForMonth(y, m, dueDay));
    if Instant(here, DueTime) < NowInstant(now) then
      var (ny, nm) := NextMonth(y, m);
      Date(ny, nm, ClampDayForMonth(ny, nm, dueDay))
    else here
  }

  /** `getDaysUntilDue`: `None` stands for `Infinity`. The ceiling of the
      difference in days is written with Euclidean division. */
  function DaysUntilDue(o: ListedOrder, now: Now): (r: Option<int>)
    requires ValidNow(now)
    ensures r.None? <==> o.installmentsTotal.None? || o.installmentsTotal.value <= 0
    ensures r.Some? ==> r.value >= 0
  {
    match o.installmentsTotal
    case None => None
    case Some(dueDay) =>
      if dueDay <= 0 then None
      else
        var diff := Instant(Candidate(now, dueDay), DueTime) - NowInstant(now);
        var days := -((-diff) / DayMs);
        Some(if days >= 0 then days else 0)
  }

  /** The candidate is a real date carrying the clamped due day; it lies in
      the current month when that month's due moment has not passed, and
      otherwise in the next month; either way it is never before now. */
  lemma CandidateIsNextDue(now: Now, dueDay: int)
    requires ValidNow(now) && dueDay >= 1
    ensures var c := Candidate(now, dueDay);
      var y := now.today.year;
      var m := now.today.month;
      var here := Date(y, m, ClampDayForMonth(y, m, dueDay));
      ValidDate(c)
      && c.day == ClampDayForMonth(c.year, c.month, dueDay)
      && (Instant(here, DueTime) >= NowInstant(now) ==> c == here)
      && (Instant(here, DueTime) < NowInstant(now) ==> (c.year, c.month) == NextMonth(y, m))
      && Instant(c, DueTime) >= NowInstant(now)
  {
    var y := now.today.year;
    var m := now.today.month;
    var here := Date(y, m, ClampDayForMonth(y, m, dueDay));
    if Instant(here, DueTime) < NowInstant(now) {
      var c := Candidate(now, dueDay);
      NextMonthIsLater(y, m, now.today.day, c.day);
      assert DayNumber(c) >= DayNumber(now.today) + 1;
    }
  }

  /** The countdown is the exact ceiling of the distance to the due moment
      in days, and at most 62: the due moment is at most the last day of the
      next month. */
  lemma DaysUntilDueIsCeiling(o: ListedOrder, now: Now)
    requires ValidNow(now)
    requires o.installmentsTotal.Some? && o.installmentsTotal.value >= 1
    ensures var d := DaysUntilDue(o, now).value;
      var diff := Instant(Candidate(now, o.installmentsTotal.value), DueTime) - NowInstant(now);
      (d - 1) * DayMs < diff <= d * DayMs && 0 <= d <= 62
  {
    var dueDay := o.installmentsTotal.value;
    CandidateIsNextDue(now, dueDay);
    var c := Candidate(now, dueDay);
    var y := now.today.year;
    var m := now.today.month;
    var (ny, nm) := NextMonth(y, m);
    NextMonthStart(y, m);
    assert DayNumber(c) <= DayNumber(Date(ny, nm, 1)) + 30;
    assert DayNumber(now.today) >= DayNumber(Date(y, m, 1));
    assert DayNumber(c) - DayNumber(now.today) <= 61;
  }

  /** A missing, non-numeric or non-positive due day means no due date. */
  lemma NoDueDay(o: ListedOrder, now: Now)
    requires ValidNow(now)
    requires o.installmentsTotal.None? || o.installmentsTotal.value <= 0
    ensures DaysUntilDue(o, now) == None
  {
  }

  /** `(paid || 0) === 0 ? 1 : 0`: 1 for an order with nothing left to pay. */
  function PaidFlag(o: ListedOrder): int { if OpenOf(o) == 0 then 1 else 0 }

  /** `compareByDue`, reduced to its sign where it would subtract
      infinities: `Infinity - x` is positive and `x - Infinity` negative. */
  function CompareByDue(a: ListedOrder, b: ListedOrder, now: Now): int
    requires ValidNow(now)
  {
    if PaidFlag(a) != PaidFlag(b) then PaidFlag(a) - PaidFlag(b)
    else
      var da := DaysUntilDue(a, now);
      var db := DaysUntilDue(b, now);
      if da == db then a.date - b.date
      else if da.None? then 1
      else if db.None? then -1
      else da.value - db.value
  }

  /** `x` is strictly sooner than `y`, where `None` is infinitely far. */
  predicate Sooner(x: Option<int>, y: Option<int>)
  {
    x.Some? && (y.None? || x.value < y.value)
  }

  /** The comparator orders by the paid flag, then by the countdown, then by
      creation date. */
  lemma CompareByDueIsLexicographic(a: ListedOrder, b: ListedOrder, now: Now)
    requires ValidNow(now)
    ensures CompareByDue(a, b, now) < 0 <==>
      PaidFlag(a) < PaidFlag(b)
      || (PaidFlag(a) == PaidFlag(b)
          && (Sooner(DaysUntilDue(a, now), DaysUntilDue(b, now))
              || (DaysUntilDue(a, now) == DaysUntilDue(b, now) && a.date < b.date)))
  {
  }

  function DueOrder(now: Now): (ListedOrder, ListedOrder) -> bool
    requires ValidNow(now)
  {
    (a: ListedOrder, b: ListedOrder) => CompareByDue(a, b, now) < 0
  }

  /** The comparator is consistent: irreflexive and transitive. */
  lemma DueOrderIsStrict(now: Now)
    requires ValidNow(now)
    ensures Sorting.StrictOrder(DueOrder(now))
  {
    forall a: ListedOrder, b: ListedOrder ensures DueOrder(now)(a, b) == (CompareByDue(a, b, now) < 0) {
    }
    forall a: ListedOrder, b: ListedOrder, c: ListedOrder
      | CompareByDue(a, b, now) < 0 && CompareByDue(b, c, now) < 0
      ensures CompareByDue(a, c, now) < 0
    {
      CompareByDueIsLexicographic(a, b, now);
      CompareByDueIsLexicographic(b, c, now);
      CompareByDueIsLexicographic(a, c, now);
    }
  }

  /** The default comparator: most recent first. */
  function NewestFirst(): (ListedOrder, ListedOrder) -> bool
  {
    (a: ListedOrder, b: ListedOrder) => b.date - a.date < 0
  }

  lemma NewestFirstIsStrict()
    ensures Sorting.StrictOrder(NewestFirst())
  {
  }

  /** `sortedOrders`: a sorted copy of the shown orders. */
  function SortedOrders(shown: seq<ListedOrder>, sortByDue: bool, now: Now): (r: seq<ListedOrder>)
    requires ValidNow(now)
    ensures multiset(r) == multiset(shown)
  {
    if sortByDue then Sorting.Sort(shown, DueOrder(now)) else Sorting.Sort(shown, NewestFirst())
  }

  /** Sorted by due date, every order with an open balance comes before
      every order with nothing to pay, and within each group the countdowns
      never decrease, equal countdowns running from the oldest order to the
      newest; the shown list itself is a permutation of the result. */
  lemma SortByDueOrdering(shown: seq<ListedOrder>, now: Now)
    requires ValidNow(now)
    ensures var r := SortedOrders(shown, true, now);
      multiset(r) == multiset(shown)
      && (forall i, j :: 0 <= i < j < |r| ==> PaidFlag(r[i]) <= PaidFlag(r[j]))
      && (forall i, j :: 0 <= i < j < |r| && PaidFlag(r[i]) == PaidFlag(r[j]) ==>
            !Sooner(DaysUntilDue(r[j], now), DaysUntilDue(r[i], now)))
      && (forall i, j ::
            0 <= i < j < |r| && PaidFlag(r[i]) == PaidFlag(r[j]) && DaysUntilDue(r[i], now) == DaysUntilDue(r[j], now)
            ==> r[i].date <= r[j].date)
  {
    var r := SortedOrders(shown, true, now);
    DueOrderIsStrict(now);
    Sorting.SortSorted(shown, DueOrder(now));
    forall i, j | 0 <= i < j < |r|
      ensures PaidFlag(r[i]) <= PaidFlag(r[j])
      ensures PaidFlag(r[i]) == PaidFlag(r[j]) ==> !Sooner(DaysUntilDue(r[j], now), DaysUntilDue(r[i], now))
      ensures (PaidFlag(r[i]) == PaidFlag(r[j]) && DaysUntilDue(r[i], now) == DaysUntilDue(r[j], now))
                ==> r[i].date <= r[j].date
    {
      assert !DueOrder(now)(r[j], r[i]);
      CompareByDueIsLexicographic(r[j], r[i], now);
    }
  }

  /** Without the due ordering the newest order comes first. */
  lemma SortByDateOrdering(shown: seq<ListedOrder>, now: Now)
    requires ValidNow(now)
    ensures var r := SortedOrders(shown, false, now);
      forall i, j :: 0 <= i < j < |r| ==> r[i].date >= r[j].date
  {
    var r := SortedOrders(shown, false, now);
    NewestFirstIsStrict();
    Sorting.SortSorted(shown, NewestFirst());
    forall i, j | 0 <= i < j < |r| ensures r[i].date >= r[j].date {
      assert !NewestFirst()(r[j], r[i]);
    }
  }
}
