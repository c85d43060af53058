/** The installment schedule an order is created with (`buildInstallments`
    in the order-creation page): an integer-cent total split into `count`
    installments, marked paid by walking a budget of cents already paid. */
module Installments {
  import opened Wrappers
  import Seqs

  /** The persisted status strings "pendente", "pago" and "atrasado". */
  datatype Status = Pendente | Pago | Atrasado

  /** The string stored for each status. */
  function StatusText(s: Status): string
  {
    match s
    case Pendente => "pendente"
    case Pago => "pago"
    case Atrasado => "atrasado"
  }

  /** What a due-date input holds: nothing, text that does not parse as a
      date, or a calendar day (as a day number). */
  datatype DateField = Blank | Unparseable | OnDay(day: int)

  datatype Installment = Installment(number: int, dueDate: int, amount: int, status: Status)

  /** `Math.floor(totalCents / count)`. */
  function Base(totalCents: int, count: int): int
    requires count >= 1
  {
    totalCents / count
  }

  /** The cents left over after `count` base installments. */
  function Remainder(totalCents: int, count: int): int
    requires count >= 1
  {
    totalCents - Base(totalCents, count) * count
  }

  /** The amount of installment `i` (0-based): one extra cent for each of
      the first `Remainder` installments. */
  function AmountAt(totalCents: int, count: int, i: int): int
    requires count >= 1
  {
    Base(totalCents, count) + (if i < Remainder(totalCents, count) then 1 else 0)
  }

  /** The budget of paid cents left when installment `i` is reached: it
      starts at `max(0, paidCents)` and drops by each amount it covers. */
  function BudgetBefore(totalCents: int, count: int, paidCents: int, i: nat): int
    requires count >= 1
  {
    if i == 0 then (if paidCents > 0 then paidCents else 0)
    else
      var b := BudgetBefore(totalCents, count, paidCents, i - 1);
      var a := AmountAt(totalCents, count, i - 1);
      if b >= a then b - a else b
  }

  /** Installment `i` is paid exactly when the budget left covers it. */
  function StatusAt(totalCents: int, count: int, paidCents: int, i: nat): Status
    requires count >= 1
  {
    if BudgetBefore(totalCents, count, paidCents, i) >= AmountAt(totalCents, count, i)
    then Pago else Pendente
  }

  /** The due date of installment `i`: the date typed for it, or, when the
      field is missing, blank or unparseable, today plus `i` months
      (`monthsAhead` stands for that clock-dependent fallback). */
  function DueDate(dates: Option<seq<DateField>>, i: nat, monthsAhead: int -> int): int
  {
    if dates.Some? && i < |dates.value| && dates.value[i].OnDay? then dates.value[i].day
    else monthsAhead(i)
  }

  /** A non-negative total gives non-negative amounts. */
  lemma AmountNonNegative(totalCents: int, count: int, i: int)
    requires count >= 1 && totalCents >= 0
    ensures AmountAt(totalCents, count, i) >= 0
  {
    assert Base(totalCents, count) * count <= totalCents;
  }

  /** The schedule `buildInstallments` returns. */
  function Schedule(count: int, dates: Option<seq<DateField>>, totalCents: int, paidCents: int,
                    monthsAhead: int -> int): seq<Installment>
  {
    if count < 1 then
      []
    else
      seq(count, i requires 0 <= i < count =>
        Installment(i + 1, DueDate(dates, i, monthsAhead), AmountAt(totalCents, count, i),
                    StatusAt(totalCents, count, paidCents, i)))
  }

  /** `buildInstallments(instalCount, dates, totalCents, paidCents)`. */
  method BuildInstallments(count: int, dates: Option<seq<DateField>>, totalCents: int, paidCents: int,
                           monthsAhead: int -> int)
    returns (installments: seq<Installment>)
    ensures installments == Schedule(count, dates, totalCents, paidCents, monthsAhead)
  {
    installments := [];
    if count < 1 {
      return;
    }
    var base := totalCents / count;
    var remainder := totalCents - base * count;
    var paidLeft := if paidCents > 0 then paidCents else 0;
    var i := 0;
    while i < count
      invariant 0 <= i <= count
      invariant paidLeft == BudgetBefore(totalCents, count, paidCents, i)
      invariant |installments| == i
      invariant forall k :: 0 <= k < i ==> installments[k] == Schedule(count, dates, totalCents, paidCents, monthsAhead)[k]
    {
      var extra := if i < remainder then 1 else 0;
      var amount := base + extra;
      var dueDate := if dates.Some? && i < |dates.value| && dates.value[i].OnDay?
                     then dates.value[i].day else monthsAhead(i);
      var status := if paidLeft >= amount then Pago else Pendente;
      if paidLeft >= amount {
        paidLeft := paidLeft - amount;
      }
      installments := installments + [Installment(i + 1, dueDate, amount, status)];
      i := i + 1;
    }
  }

  /** No schedule for a count below one; otherwise exactly `count` entries
      numbered 1..count in order, each due on its own date. */
  lemma ScheduleShape(count: int, dates: Option<seq<DateField>>, totalCents: int, paidCents: int,
                      monthsAhead: int -> int)
    ensures var s := Schedule(count, dates, totalCents, paidCents, monthsAhead);
      (count < 1 ==> s == [])
      && (count >= 1 ==>
            |s| == count
            && forall i :: 0 <= i < count ==> s[i].number == i + 1 && s[i].dueDate == DueDate(dates, i, monthsAhead))
  {
  }

  /** Each amount is `base` or `base + 1`, with `base = floor(total / count)`,
      and exactly the first `total - base * count` entries get the extra cent. */
  lemma ScheduleAmounts(count: int, dates: Option<seq<DateField>>, totalCents: int, paidCents: int,
                        monthsAhead: int -> int)
    requires count >= 1
    ensures var s := Schedule(count, dates, totalCents, paidCents, monthsAhead);
      var base := totalCents / count;
      var remainder := totalCents - base * count;
      0 <= remainder < count
      && forall i :: 0 <= i < count ==>
           (s[i].amount == base + 1 <==> i < remainder) && (s[i].amount == base <==> i >= remainder)
  {
  }

  function Amount(x: Installment): int { x.amount }

  /** One more installment adds `base` and, below the remainder, one cent. */
  lemma PrefixStep(k: nat, b: int, r: int)
    requires k > 0
    ensures (k - 1) * b + (if k - 1 < r then k - 1 else r) + b + (if k - 1 < r then 1 else 0)
         == k * b + (if k < r then k else r)
  {
    assert (k - 1) * b + b == k * b;
  }

  /** The amounts of the first `k` installments sum to `k * base` plus one
      cent for each of them below the remainder. */
  lemma {:induction false} PrefixSum(count: int, dates: Option<seq<DateField>>, totalCents: int, paidCents: int,
                                     monthsAhead: int -> int, k: nat)
    requires count >= 1 && k <= count
    ensures var s := Schedule(count, dates, totalCents, paidCents, monthsAhead);
      var r := Remainder(totalCents, count);
      Seqs.SumBy(s[..k], Amount) == k * Base(totalCents, count) + (if k < r then k else r)
  {
    var s := Schedule(count, dates, totalCents, paidCents, monthsAhead);
    var b, r := Base(totalCents, count), Remainder(totalCents, count);
    if k > 0 {
      PrefixSum(count, dates, totalCents, paidCents, monthsAhead, k - 1);
      Seqs.SumByPrefix(s, k, Amount);
      assert s[k - 1].amount == b + (if k - 1 < r then 1 else 0);
      PrefixStep(k, b, r);
    }
  }

  /** No cent is lost or gained: the amounts sum exactly to the total. */
  lemma ScheduleSumsToTotal(count: int, dates: Option<seq<DateField>>, totalCents: int, paidCents: int,
                            monthsAhead: int -> int)
    requires count >= 1
    ensures Seqs.SumBy(Schedule(count, dates, totalCents, paidCents, monthsAhead), Amount) == totalCents
  {
    var s := Schedule(count, dates, totalCents, paidCents, monthsAhead);
    PrefixSum(count, dates, totalCents, paidCents, monthsAhead, count);
    assert s[..count] == s;
  }

  function PaidAmount(x: Installment): int { if x.status == Pago then x.amount else 0 }

  /** The budget is the paid cents minus the amounts already marked paid,
      and never goes negative. */
  lemma {:induction false} BudgetAccounts(count: int, dates: Option<seq<DateField>>, totalCents: int, paidCents: int,
                                          monthsAhead: int -> int, k: nat)
    requires count >= 1 && k <= count
    ensures var s := Schedule(count, dates, totalCents, paidCents, monthsAhead);
      var start := if paidCents > 0 then paidCents else 0;
      BudgetBefore(totalCents, count, paidCents, k) == start - Seqs.SumBy(s[..k], PaidAmount)
      && BudgetBefore(totalCents, count, paidCents, k) >= 0
  {
    var s := Schedule(count, dates, totalCents, paidCents, monthsAhead);
    if k > 0 {
      BudgetAccounts(count, dates, totalCents, paidCents, monthsAhead, k - 1);
      Seqs.SumByPrefix(s, k, PaidAmount);
    }
  }

  /** The amounts marked "pago" add up to at most the paid cents, and what is
      left of the budget is exactly the difference. */
  lemma PaidWithinBudget(count: int, dates: Option<seq<DateField>>, totalCents: int, paidCents: int,
                         monthsAhead: int -> int)
    requires count >= 1
    ensures var s := Schedule(count, dates, totalCents, paidCents, monthsAhead);
      var start := if paidCents > 0 then paidCents else 0;
      Seqs.SumBy(s, PaidAmount) <= start
      && BudgetBefore(totalCents, count, paidCents, count) == start - Seqs.SumBy(s, PaidAmount)
  {
    var s := Schedule(count, dates, totalCents, paidCents, monthsAhead);
    BudgetAccounts(count, dates, totalCents, paidCents, monthsAhead, count);
    assert s[..count] == s;
  }

  /** The builder never produces "atrasado": lateness is not its business. */
  lemma NeverLate(count: int, dates: Option<seq<DateField>>, totalCents: int, paidCents: int,
                  monthsAhead: int -> int)
    ensures forall x :: x in Schedule(count, dates, totalCents, paidCents, monthsAhead) ==> x.status != Atrasado
  {
  }

  /** With a non-negative total the budget only shrinks along the schedule. */
  lemma {:induction false} BudgetNonIncreasing(totalCents: int, count: int, paidCents: int, i: nat, j: nat)
    requires count >= 1 && totalCents >= 0 && i <= j
    ensures BudgetBefore(totalCents, count, paidCents, j) <= BudgetBefore(totalCents, count, paidCents, i)
  {
    if i < j {
      BudgetNonIncreasing(totalCents, count, paidCents, i, j - 1);
      AmountNonNegative(totalCents, count, j - 1);
    }
  }

  /** Paid installments need not form a prefix, but one can follow a pending
      one only when it is a cent smaller: the pending one carries the extra
      cent and the paid one does not. */
  lemma PaidAfterPendingIsSmaller(count: int, dates: Option<seq<DateField>>, totalCents: int, paidCents: int,
                                  monthsAhead: int -> int, i: nat, j: nat)
    requires count >= 1 && totalCents >= 0 && i < j < count
    requires var s := Schedule(count, dates, totalCents, paidCents, monthsAhead);
      s[i].status == Pendente && s[j].status == Pago
    ensures var s := Schedule(count, dates, totalCents, paidCents, monthsAhead);
      s[i].amount == totalCents / count + 1 && s[j].amount == totalCents / count
  {
    BudgetNonIncreasing(totalCents, count, paidCents, i, j);
  }

  /** Paying at least the first `k` amounts marks the first `k` installments
      "pago". */
  lemma {:induction false} CoveredPrefixIsPaid(count: int, dates: Option<seq<DateField>>, totalCents: int, paidCents: int,
                                               monthsAhead: int -> int, k: nat)
    requires count >= 1 && totalCents >= 0 && k <= count
    requires paidCents >= Seqs.SumBy(Schedule(count, dates, totalCents, paidCents, monthsAhead)[..k], Amount)
    ensures var s := Schedule(count, dates, totalCents, paidCents, monthsAhead);
      forall i :: 0 <= i < k ==> s[i].status == Pago
  {
    var s := Schedule(count, dates, totalCents, paidCents, monthsAhead);
    if k > 0 {
      var t := s[..k - 1];
      assert s[..k] == t + [s[k - 1]];
      Seqs.SumByAppend(t, [s[k - 1]], Amount);
      AmountNonNegative(totalCents, count, k - 1);
      assert s[k - 1].amount == AmountAt(totalCents, count, k - 1);
      CoveredPrefixIsPaid(count, dates, totalCents, paidCents, monthsAhead, k - 1);
      assert forall i :: 0 <= i < |t| ==> t[i].status == Pago;
      SumPaidAllPaid(t);
      BudgetAccounts(count, dates, totalCents, paidCents, monthsAhead, k - 1);
      assert BudgetBefore(totalCents, count, paidCents, k - 1) >= AmountAt(totalCents, count, k - 1);
      assert s[k - 1].status == StatusAt(totalCents, count, paidCents, k - 1) == Pago;
    }
  }

  lemma {:induction false} SumPaidAllPaid(s: seq<Installment>)
    requires forall i :: 0 <= i < |s| ==> s[i].status == Pago
    ensures Seqs.SumBy(s, PaidAmount) == Seqs.SumBy(s, Amount)
  {
    if s != [] {
      SumPaidAllPaid(s[1..]);
    }
  }

  /** 1000 cents in 3 installments with nothing paid: 334, 333, 333, all
      pending. */
  lemma ExampleNothingPaid(dates: Option<seq<DateField>>, monthsAhead: int -> int)
    ensures var s := Schedule(3, dates, 1000, 0, monthsAhead);
      |s| == 3 && s[0].amount == 334 && s[1].amount == 333 && s[2].amount == 333
      && s[0].status == Pendente && s[1].status == Pendente && s[2].status == Pendente
  {
  }

  /** With 400 paid only the first installment is covered. */
  lemma ExamplePartlyPaid(dates: Option<seq<DateField>>, monthsAhead: int -> int)
    ensures var s := Schedule(3, dates, 1000, 400, monthsAhead);
      s[0].status == Pago && s[1].status == Pendente && s[2].status == Pendente
      && BudgetBefore(1000, 3, 400, 3) == 66
  {
  }

  /** With 333 paid the first installment (334) is not covered but the
      second (333) is: the paid entries are not a prefix. */
  lemma ExampleNotPrefix(dates: Option<seq<DateField>>, monthsAhead: int -> int)
    ensures var s := Schedule(3, dates, 1000, 333, monthsAhead);
      s[0].status == Pendente && s[1].status == Pago && s[2].status == Pendente
  {
  }
}
