/** The public bill page: which installment is due next, what has been paid,
    what is still open, and the masked telephone. Instants are milliseconds;
    money is in integer cents. */
module Bill {
  import opened Wrappers
  import Seqs
  import opened Text
  import Sorting
  import Installments

  /** An installment as the page receives it; the status may be absent. */
  datatype BillInstallment = BillInstallment(number: int, dueDate: int, amount: int, status: Option<string>)

  datatype Payment = Payment(value: int, date: int)

  datatype BillOrder = BillOrder(price: int, installments: Option<seq<BillInstallment>>,
                                 paymentHistory: Option<seq<Payment>>)

  /** The page's "paid" test: the lower-cased status contains "pago" or
      "paga", or is "paid"; a missing status reads as pending. */
  predicate IsPaidStatus(status: Option<string>)
  {
    var s := Lower(status.GetOr(""));
    Contains(s, "pago") || Contains(s, "paga") || s == "paid"
  }

  predicate IsPending(x: BillInstallment) { !IsPaidStatus(x.status) }

  /** Of the statuses the order form stores, exactly "pago" reads as paid;
      an absent status reads as pending; case does not matter. */
  lemma StoredStatusesRead(s: Installments.Status)
    ensures IsPaidStatus(Some(Installments.StatusText(s))) <==> s == Installments.Pago
    ensures !IsPaidStatus(None)
    ensures IsPaidStatus(Some("PAGA")) && IsPaidStatus(Some("Paid"))
  {
    assert OccursAt(Lower("pago"), "pago", 0);
    assert OccursAt(Lower("PAGA"), "paga", 0);
    assert Lower("Paid") == "paid";
    var pend := Lower("pendente");
    assert pend == "pendente";
    forall i | 0 <= i <= |pend| - 4 ensures !OccursAt(pend, "pago", i) && !OccursAt(pend, "paga", i) {
      assert pend[i..i + 4][1] == pend[i + 1];
    }
    var late := Lower("atrasado");
    assert late == "atrasado";
    forall i | 0 <= i <= |late| - 4 ensures !OccursAt(late, "pago", i) && !OccursAt(late, "paga", i) {
      assert late[i..i + 4][0] == late[i];
    }
  }

  /** Earlier due date first. */
  function EarlierDue(): (BillInstallment, BillInstallment) -> bool
  {
    (a: BillInstallment, b: BillInstallment) => a.dueDate - b.dueDate < 0
  }

  /** The effect that picks `nextInstallment`. */
  function NextInstallment(o: BillOrder): Option<BillInstallment>
  {
    if o.installments.None? || o.installments.value == [] then None
    else
      var pending := Seqs.Filter(o.installments.value, IsPending);
      if pending == [] then None
      else Some(Sorting.Sort(pending, EarlierDue())[0])
  }

  /** The next installment is a pending installment of the order whose due
      date is no later than any other pending one's; there is none exactly
      when no installment is pending. */
  lemma NextInstallmentIsEarliestPending(o: BillOrder)
    ensures var r := NextInstallment(o);
      var all := o.installments.GetOr([]);
      (r.None? <==> forall x :: x in all ==> !IsPending(x))
      && (r.Some? ==>
            r.value in all && IsPending(r.value)
            && forall y :: y in all && IsPending(y) ==> r.value.dueDate <= y.dueDate)
  {
    var all := o.installments.GetOr([]);
    var pending := Seqs.Filter(all, IsPending);
    if exists x :: x in all && IsPending(x) {
      var x :| x in all && IsPending(x);
      assert x in pending;
      Sorting.SortFirstIsMinimum(pending, EarlierDue());
      var first := Sorting.Sort(pending, EarlierDue())[0];
      assert first in pending;
      forall y | y in all && IsPending(y) ensures first.dueDate <= y.dueDate {
        assert y in pending;
        assert !EarlierDue()(y, first);
      }
    }
  }

  function PaymentValue(p: Payment): int { p.value }

  /** `calculateTotalPaid`: 0 with no order or no history. */
  function TotalPaid(o: Option<BillOrder>): int
  {
    if o.None? || o.value.paymentHistory.None? then 0
    else Seqs.SumBy(o.value.paymentHistory.value, PaymentValue)
  }

  /** `calculateAmountDue`: may be negative when more was paid than the
      price. */
  function AmountDue(o: Option<BillOrder>): int
  {
    if o.None? then 0 else o.value.price - TotalPaid(o)
  }

  /** Whether the "valor em aberto" block is shown. */
  predicate ShowsOpenBalance(o: Option<BillOrder>) { AmountDue(o) > 0 }

  /** What is due and what was paid add up to the price; the open balance
      is shown exactly when the payments fall short of it; a new payment
      lowers the amount due by its value. */
  lemma AmountDueAccounts(o: BillOrder, p: Payment)
    ensures AmountDue(Some(o)) + TotalPaid(Some(o)) == o.price
    ensures ShowsOpenBalance(Some(o)) <==> TotalPaid(Some(o)) < o.price
    ensures var history := o.paymentHistory.GetOr([]);
      AmountDue(Some(o.(paymentHistory := Some(history + [p])))) == AmountDue(Some(o)) - p.value
  {
    var history := o.paymentHistory.GetOr([]);
    Seqs.SumByAppend(history, [p], PaymentValue);
  }

  /** Later payment first. */
  function LaterPayment(): (Payment, Payment) -> bool
  {
    (a: Payment, b: Payment) => b.date - a.date < 0
  }

  /** `getLastPaymentDate`. */
  function LastPaymentDate(o: BillOrder): Option<int>
  {
    if o.paymentHistory.None? || o.paymentHistory.value == [] then None
    else Some(Sorting.Sort(o.paymentHistory.value, LaterPayment())[0].date)
  }

  /** The last payment date is the latest date in the history, and there is
      none exactly when the history is absent or empty. */
  lemma LastPaymentDateIsLatest(o: BillOrder)
    ensures var r := LastPaymentDate(o);
      var history := o.paymentHistory.GetOr([]);
      (r.None? <==> history == [])
      && (r.Some? ==>
            (exists p :: p in history && p.date == r.value)
            && forall p :: p in history ==> p.date <= r.value)
  {
    var history := o.paymentHistory.GetOr([]);
    if history != [] {
      Sorting.SortFirstIsMinimum(history, LaterPayment());
      var last := Sorting.Sort(history, LaterPayment())[0];
      forall p | p in history ensures p.date <= last.date {
        assert !LaterPayment()(p, last);
      }
    }
  }

  /** The due date of the next installment is shown as late when it has
      passed. */
  predicate IsOverdue(o: BillOrder, now: int)
  {
    var next := NextInstallment(o);
    next.Some? && next.value.dueDate < now
  }

  /** Late means some pending installment is past due. */
  lemma OverdueIffSomePendingPast(o: BillOrder, now: int)
    ensures IsOverdue(o, now) <==>
      exists x :: x in o.installments.GetOr([]) && IsPending(x) && x.dueDate < now
  {
    NextInstallmentIsEarliestPending(o);
  }

  // ---- the telephone mask ----

  /** The four characters after index `i` are digits (`(?=\d{4})`). */
  predicate FollowedByFourDigits(s: string, i: int)
  {
    0 <= i && i + 4 < |s| && forall k :: i + 1 <= k <= i + 4 ==> IsDigit(s[k])
  }

  /** `telephone.replace(/\d(?=\d{4})/g, "*")`: the lookahead reads the
      original string, so every position is decided on its own. */
  function MaskPhone(s: string): (r: string)
    ensures |r| == |s|
  {
    seq(|s|, i requires 0 <= i < |s| => if IsDigit(s[i]) && FollowedByFourDigits(s, i) then '*' else s[i])
  }

  /** `s[a..b]` is a maximal run of digits. */
  predicate DigitRun(s: string, a: int, b: int)
  {
    0 <= a < b <= |s|
    && (forall k :: a <= k < b ==> IsDigit(s[k]))
    && (a == 0 || !IsDigit(s[a - 1]))
    && (b == |s| || !IsDigit(s[b]))
  }

  /** Only digits change, and only into '*'. In every maximal run of digits
      all but the last four are hidden and the last four (the whole run, when
      it is shorter) stay visible. */
  lemma MaskPhoneEffect(s: string)
    ensures var r := MaskPhone(s);
      (forall i :: 0 <= i < |s| ==> r[i] == s[i] || (r[i] == '*' && IsDigit(s[i])))
      && (forall a, b :: DigitRun(s, a, b) ==>
            (forall k :: a <= k < b - 4 ==> r[k] == '*')
            && (forall k :: a <= k < b && b - 4 <= k ==> r[k] == s[k]))
  {
    var r := MaskPhone(s);
    forall a, b | DigitRun(s, a, b)
      ensures forall k :: a <= k < b - 4 ==> r[k] == '*'
      ensures forall k :: a <= k < b && b - 4 <= k ==> r[k] == s[k]
    {
      forall k | a <= k < b - 4 ensures r[k] == '*' {
        assert FollowedByFourDigits(s, k);
      }
      forall k | a <= k < b && b - 4 <= k ensures r[k] == s[k] {
        if b < |s| {
          assert !IsDigit(s[b]) && k + 1 <= b <= k + 4;
        }
        assert !FollowedByFourDigits(s, k);
      }
    }
  }

  /** Masking twice masks nothing more. */
  lemma MaskPhoneIdempotent(s: string)
    ensures MaskPhone(MaskPhone(s)) == MaskPhone(s)
  {
    var r := MaskPhone(s);
    forall i | 0 <= i < |r| && IsDigit(r[i]) && FollowedByFourDigits(r, i)
      ensures false
    {
      assert FollowedByFourDigits(s, i) by {
        forall k | i + 1 <= k <= i + 4 ensures IsDigit(s[k]) {
          assert IsDigit(r[k]);
        }
      }
    }
  }

  /** A mobile number keeps its first digit hidden and its last four shown. */
  lemma MaskPhoneExample()
    ensures MaskPhone("(11) 98765-4321") == "(11) *8765-4321"
  {
    var s := "(11) 98765-4321";
    var t := "(11) *8765-4321";
    var r := MaskPhone(s);
    assert !IsDigit(s[3]) && !IsDigit(s[10]);
    forall i | 0 <= i < |s| ensures r[i] == t[i] {
      if i == 5 {
        assert FollowedByFourDigits(s, 5);
      }
    }
  }
}
