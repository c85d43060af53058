/** The order-creation form: its item list, the per-installment due-date
    list that follows the installment count, the totals and the checks made
    before an order is submitted. Money is in integer cents. */
module OrderCreate {
  import opened Wrappers
  import Seqs
  import opened Installments
  import opened Records

  predicate HasItem(items: seq<OrderItem>, productId: string)
  {
    exists i :: 0 <= i < |items| && items[i].productId == productId
  }

  /** No product appears on two lines. */
  ghost predicate DistinctProducts(items: seq<OrderItem>)
  {
    forall i, j :: 0 <= i < j < |items| ==> items[i].productId != items[j].productId
  }

  function BumpAmount(items: seq<OrderItem>, productId: string, stock: int): seq<OrderItem>
  {
    seq(|items|, i requires 0 <= i < |items| =>
      if items[i].productId == productId
      then items[i].(amount := if items[i].amount + 1 < stock then items[i].amount + 1 else stock)
      else items[i])
  }

  /** `addProduct(productId)`: an unknown product changes nothing; a product
      already on the order gets one more unit, capped at its stock; any other
      product is appended with quantity 1 at its catalogue price. */
  function AddProduct(items: seq<OrderItem>, products: seq<Product>, productId: string): seq<OrderItem>
  {
    match FindProduct(products, productId)
    case None => items
    case Some(p) =>
      if HasItem(items, productId) then BumpAmount(items, productId, p.stock)
      else items + [OrderItem(productId, 1, p.price)]
  }

  /** `max(1, min(newQty, stock))`. */
  function ClampQuantity(newQty: int, stock: int): (q: int)
    ensures q >= 1
    ensures stock >= 1 ==> q <= stock
    ensures 1 <= newQty <= stock ==> q == newQty
  {
    var capped := if newQty < stock then newQty else stock;
    if capped > 1 then capped else 1
  }

  /** `updateQuantity(productId, newQty)`. */
  function UpdateQuantity(items: seq<OrderItem>, products: seq<Product>, productId: string, newQty: int): seq<OrderItem>
  {
    match FindProduct(products, productId)
    case None => items
    case Some(p) =>
      var q := ClampQuantity(newQty, p.stock);
      seq(|items|, i requires 0 <= i < |items| =>
        if items[i].productId == productId then items[i].(amount := q) else items[i])
  }

  /** `removeItem(productId)`. */
  function RemoveItem(items: seq<OrderItem>, productId: string): seq<OrderItem>
  {
    Seqs.Filter(items, (item: OrderItem) => item.productId != productId)
  }

  /** `updatePrice(productId, newPrice)`: the price is never negative. */
  function UpdatePrice(items: seq<OrderItem>, productId: string, newPrice: int): seq<OrderItem>
  {
    seq(|items|, i requires 0 <= i < |items| =>
      if items[i].productId == productId
      then items[i].(unitPrice := if newPrice > 0 then newPrice else 0)
      else items[i])
  }

  /** Adding a product touches only the lines of that product. An unknown
      product changes nothing; a product already on the order gains one unit
      while it is below its stock and is set to its stock otherwise; any
      other product gets one new last line with quantity 1 at its catalogue
      price. Afterwards the product is on the order exactly when it was
      before or it is in the catalogue. */
  lemma AddProductEffect(items: seq<OrderItem>, products: seq<Product>, productId: string)
    ensures var r := AddProduct(items, products, productId);
      var found := FindProduct(products, productId);
      |r| == |items| + (if found.Some? && !HasItem(items, productId) then 1 else 0)
      && (HasItem(r, productId) <==> HasItem(items, productId) || found.Some?)
      && (found.None? ==> r == items)
      && (forall i :: 0 <= i < |items| ==>
            r[i].productId == items[i].productId && r[i].unitPrice == items[i].unitPrice
            && (items[i].productId != productId ==> r[i] == items[i]))
      && (found.Some? ==>
            forall i :: 0 <= i < |items| && items[i].productId == productId ==>
              (items[i].amount < found.value.stock ==> r[i].amount == items[i].amount + 1)
              && (items[i].amount >= found.value.stock ==> r[i].amount == found.value.stock))
      && (found.Some? && !HasItem(items, productId) ==>
            r[|items|] == OrderItem(productId, 1, found.value.price))
  {
    var r := AddProduct(items, products, productId);
    var found := FindProduct(products, productId);
    if found.Some? && !HasItem(items, productId) {
      assert r[|items|].productId == productId;
    } else if HasItem(items, productId) {
      var k :| 0 <= k < |items| && items[k].productId == productId;
      assert r[k].productId == productId;
    }
  }

  /** With one line per product, the units on the order rise by one when the
      product is new to the order or its line is below stock; a line at or
      above its stock is set to the stock. An unknown product adds nothing. */
  lemma AddProductQuantity(items: seq<OrderItem>, products: seq<Product>, productId: string)
    requires DistinctProducts(items)
    ensures var r := AddProduct(items, products, productId);
      var found := FindProduct(products, productId);
      (found.None? ==> TotalQuantity(r) == TotalQuantity(items))
      && (found.Some? && !HasItem(items, productId) ==> TotalQuantity(r) == TotalQuantity(items) + 1)
      && (forall k :: 0 <= k < |items| && items[k].productId == productId && found.Some? ==>
            (items[k].amount < found.value.stock ==> TotalQuantity(r) == TotalQuantity(items) + 1)
            && (items[k].amount >= found.value.stock ==>
                  TotalQuantity(r) == TotalQuantity(items) - items[k].amount + found.value.stock))
  {
    var r := AddProduct(items, products, productId);
    var found := FindProduct(products, productId);
    if found.Some? {
      var p := found.value;
      if HasItem(items, productId) {
        forall k | 0 <= k < |items| && items[k].productId == productId
          ensures TotalQuantity(r) == TotalQuantity(items) - items[k].amount + r[k].amount
        {
          assert forall i :: 0 <= i < |items| && i != k ==> items[i].productId != productId;
          Seqs.SumByUpdate(items, r, k, Quantity);
        }
      } else {
        Seqs.SumByAppend(items, [OrderItem(productId, 1, p.price)], Quantity);
      }
    }
  }

  /** Adding a product never puts one product on two lines. */
  lemma AddProductKeepsDistinct(items: seq<OrderItem>, products: seq<Product>, productId: string)
    requires DistinctProducts(items)
    ensures DistinctProducts(AddProduct(items, products, productId))
  {
    var r := AddProduct(items, products, productId);
    if FindProduct(products, productId).Some? && !HasItem(items, productId) {
      forall i, j | 0 <= i < j < |r| ensures r[i].productId != r[j].productId {
        if j == |items| {
          assert r[i] == items[i];
        }
      }
    }
  }

  /** Updating a quantity sets `max(1, min(newQty, stock))` on the lines of
      that product, which is `newQty` itself when it lies between 1 and the
      stock, and leaves every other line alone; a product missing from the
      catalogue changes nothing. */
  lemma UpdateQuantityEffect(items: seq<OrderItem>, products: seq<Product>, productId: string, newQty: int)
    ensures var r := UpdateQuantity(items, products, productId, newQty);
      var found := FindProduct(products, productId);
      |r| == |items|
      && (found.None? ==> r == items)
      && forall i :: 0 <= i < |items| ==>
           if items[i].productId == productId && found.Some?
           then r[i].productId == productId && r[i].unitPrice == items[i].unitPrice
                && r[i].amount == ClampQuantity(newQty, found.value.stock)
                && r[i].amount >= 1 && (found.value.stock >= 1 ==> r[i].amount <= found.value.stock)
                && (1 <= newQty <= found.value.stock ==> r[i].amount == newQty)
           else r[i] == items[i]
  {
  }

  /** Removing drops exactly the lines of that product and keeps the others
      in order. */
  lemma RemoveItemEffect(items: seq<OrderItem>, productId: string)
    ensures var r := RemoveItem(items, productId);
      (forall x :: x in r ==> x.productId != productId)
      && (forall x :: x in items && x.productId != productId ==> x in r)
      && (forall x :: x in r ==> x in items)
  {
  }

  /** Changing a price sets `max(0, newPrice)` on the lines of that product
      and leaves every other line alone. */
  lemma UpdatePriceEffect(items: seq<OrderItem>, productId: string, newPrice: int)
    ensures var r := UpdatePrice(items, productId, newPrice);
      |r| == |items|
      && forall i :: 0 <= i < |items| ==>
           if items[i].productId == productId
           then r[i].productId == productId && r[i].amount == items[i].amount
                && r[i].unitPrice == (if newPrice > 0 then newPrice else 0)
                && r[i].unitPrice >= 0 && (newPrice >= 0 ==> r[i].unitPrice == newPrice)
           else r[i] == items[i]
  {
  }

  /** A product that is on no line is removed by nothing. */
  lemma {:induction false} RemoveAbsentItem(items: seq<OrderItem>, productId: string)
    requires !HasItem(items, productId)
    ensures RemoveItem(items, productId) == items
  {
    Seqs.FilterAll(items, (item: OrderItem) => item.productId != productId);
  }

  /** A new line removed again leaves the order as it was. */
  lemma AddThenRemove(items: seq<OrderItem>, products: seq<Product>, productId: string)
    requires !HasItem(items, productId)
    ensures RemoveItem(AddProduct(items, products, productId), productId) == items
  {
    var p := (item: OrderItem) => item.productId != productId;
    RemoveAbsentItem(items, productId);
    if FindProduct(products, productId).Some? {
      var added := FindProduct(products, productId).value;
      Seqs.FilterAppend(items, [OrderItem(productId, 1, added.price)], p);
    }
  }

  /** `remainingCents = max(0, total - paid)`. */
  function RemainingCents(totalCents: int, paidCents: int): (r: int)
    ensures r >= 0
    ensures r >= totalCents - paidCents
    ensures r == 0 || r == totalCents - paidCents
  {
    if totalCents - paidCents > 0 then totalCents - paidCents else 0
  }

  /** Appending a product line adds its quantity and its line total to the
      order totals. */
  lemma TotalsOfNewLine(items: seq<OrderItem>, products: seq<Product>, productId: string)
    requires FindProduct(products, productId).Some? && !HasItem(items, productId)
    ensures var p := FindProduct(products, productId).value;
      var r := AddProduct(items, products, productId);
      TotalQuantity(r) == TotalQuantity(items) + 1
      && TotalPrice(r) == TotalPrice(items) + p.price
  {
    var p := FindProduct(products, productId).value;
    Seqs.SumByAppend(items, [OrderItem(productId, 1, p.price)], Quantity);
    Seqs.SumByAppend(items, [OrderItem(productId, 1, p.price)], LineTotal);
  }

  // ---- due dates that follow the installment count ----

  /** `Math.max(1, parcelas || 1)`. */
  function TargetLength(parcelas: int): (n: int)
    ensures n >= 1
    ensures parcelas >= 1 ==> n == parcelas
  {
    if parcelas > 1 then parcelas else 1
  }

  function Min(a: int, b: int): int { if a < b then a else b }

  /** The date list after a change of the installment count, as the effect
      computes it: the kept prefix, then the default entry for position
      `kept + i` dated today plus `kept + 2 * i` months, because the month
      offset adds the loop counter to a length that grows with each push. */
  function ResizedAsWritten(prev: seq<DateField>, parcelas: int, monthsAhead: int -> int): seq<DateField>
  {
    var target := TargetLength(parcelas);
    if |prev| == target then prev
    else
      var kept := Min(|prev|, target);
      prev[..kept] + seq(target - kept, i requires 0 <= i < target - kept => OnDay(monthsAhead(kept + 2 * i)))
  }

  /** The date list as evidently intended: the default entry at position `k`
      is today plus `k` months. */
  function Resized(prev: seq<DateField>, parcelas: int, monthsAhead: int -> int): seq<DateField>
  {
    var target := TargetLength(parcelas);
    if |prev| == target then prev
    else
      var kept := Min(|prev|, target);
      prev[..kept] + seq(target - kept, i requires 0 <= i < target - kept => OnDay(monthsAhead(kept + i)))
  }

  /** The effect on `installmentDates` as written. */
  method ResizeDatesAsWritten(prev: seq<DateField>, parcelas: int, monthsAhead: int -> int)
    returns (res: seq<DateField>)
    ensures res == ResizedAsWritten(prev, parcelas, monthsAhead)
  {
    var targetLen := TargetLength(parcelas);
    if |prev| == targetLen {
      return prev;
    }
    res := prev[..Min(|prev|, targetLen)];
    if |res| < targetLen {
      ghost var kept := |res|;
      var needed := targetLen - |res|;
      var i := 0;
      while i < needed
        invariant 0 <= i <= needed
        invariant |res| == kept + i
        invariant res[..kept] == prev[..kept]
        invariant forall k :: 0 <= k < i ==> res[kept + k] == OnDay(monthsAhead(kept + 2 * k))
      {
        res := res + [OnDay(monthsAhead(|res| + i))];
        i := i + 1;
      }
    }
  }

  /** The effect on `installmentDates` with the intended month offset. */
  method ResizeDates(prev: seq<DateField>, parcelas: int, monthsAhead: int -> int)
    returns (res: seq<DateField>)
    ensures res == Resized(prev, parcelas, monthsAhead)
  {
    var targetLen := TargetLength(parcelas);
    if |prev| == targetLen {
      return prev;
    }
    res := prev[..Min(|prev|, targetLen)];
    if |res| < targetLen {
      ghost var kept := |res|;
      var needed := targetLen - |res|;
      var i := 0;
      while i < needed
        invariant 0 <= i <= needed
        invariant |res| == kept + i
        invariant res[..kept] == prev[..kept]
        invariant forall k :: kept <= k < kept + i ==> res[k] == OnDay(monthsAhead(k))
      {
        res := res + [OnDay(monthsAhead(|res|))];
        i := i + 1;
      }
    }
  }

  /** The list has `max(1, parcelas || 1)` entries; it is returned unchanged
      when its length already matches; otherwise the old entries are kept as
      a prefix and only new entries are appended, each dated today plus its
      own position in months, the date `buildInstallments` would fall back
      to for that installment. */
  lemma ResizedShape(prev: seq<DateField>, parcelas: int, monthsAhead: int -> int)
    ensures var r := Resized(prev, parcelas, monthsAhead);
      |r| == TargetLength(parcelas)
      && (|prev| == TargetLength(parcelas) ==> r == prev)
      && (forall k :: 0 <= k < |r| && k < |prev| ==> r[k] == prev[k])
      && (|prev| != TargetLength(parcelas) ==>
            forall k :: |prev| <= k < |r| ==>
              r[k] == OnDay(monthsAhead(k)) && DueDate(Some(r), k, monthsAhead) == DueDate(None, k, monthsAhead))
  {
    var target := TargetLength(parcelas);
    var r := Resized(prev, parcelas, monthsAhead);
    if |prev| != target {
      var kept := Min(|prev|, target);
      var added := seq(target - kept, i requires 0 <= i < target - kept => OnDay(monthsAhead(kept + i)));
      assert r == prev[..kept] + added;
      forall k | 0 <= k < kept ensures r[k] == prev[k] {
        assert r[k] == prev[..kept][k];
      }
      forall k | |prev| <= k < |r|
        ensures r[k] == OnDay(monthsAhead(k))
        ensures DueDate(Some(r), k, monthsAhead) == DueDate(None, k, monthsAhead)
      {
        assert kept == |prev|;
        assert r[k] == added[k - kept];
      }
    }
  }

  /** Growing a one-date list to three dates: the code dates the third
      installment three months ahead instead of two. */
  lemma ResizeSkipsAMonth(d: DateField, monthsAhead: int -> int)
    requires monthsAhead(2) != monthsAhead(3)
    ensures ResizedAsWritten([d], 3, monthsAhead)[2] == OnDay(monthsAhead(3))
    ensures Resized([d], 3, monthsAhead)[2] == OnDay(monthsAhead(2))
    ensures ResizedAsWritten([d], 3, monthsAhead) != Resized([d], 3, monthsAhead)
  {
    assert ResizedAsWritten([d], 3, monthsAhead)[2] != Resized([d], 3, monthsAhead)[2];
  }

  // ---- submit ----

  /** The fields of the order form. */
  datatype OrderForm = OrderForm(customerId: string, items: seq<OrderItem>, parcelas: int,
                                 dates: seq<DateField>, paidCents: int, vendedora: string)

  datatype SubmitError = NoCustomer | NoItems | InvalidDates

  /** The body of `api.createOrder`. `installmentsTotal` carries the number of
      installments. */
  datatype OrderPayload = OrderPayload(
    customerId: string, items: seq<OrderItem>, totalAmount: int, price: int,
    installmentsTotal: int, installmentsPaid: int, paid: int, parcelas: int, parcelasPagas: int,
    installments: seq<Installment>, vendedora: string)

  predicate IsPago(x: Installment) { x.status == Pago }

  /** `handleSubmit`: the checks in order, then the payload. */
  function Submit(form: OrderForm, monthsAhead: int -> int): Result<OrderPayload, SubmitError>
  {
    if form.customerId == "" then Err(NoCustomer)
    else if form.items == [] then Err(NoItems)
    else if |form.dates| != form.parcelas || Blank in form.dates then Err(InvalidDates)
    else
      var total := TotalPrice(form.items);
      var installments := Schedule(form.parcelas, Some(form.dates), total, form.paidCents, monthsAhead);
      Ok(OrderPayload(form.customerId, form.items, TotalQuantity(form.items), total,
                      form.parcelas, form.paidCents, RemainingCents(total, form.paidCents), form.parcelas,
                      Seqs.Count(installments, IsPago), installments, form.vendedora))
  }

  /** The submit is refused before any network call exactly when there is no
      customer, no item, or a date list whose length differs from the count
      or has an empty entry; the checks run in that order. */
  lemma SubmitRejects(form: OrderForm, monthsAhead: int -> int)
    ensures var r := Submit(form, monthsAhead);
      (r.Err? <==> form.customerId == "" || form.items == [] || |form.dates| != form.parcelas
                   || exists i :: 0 <= i < |form.dates| && form.dates[i] == Blank)
      && (form.customerId == "" ==> r == Err(NoCustomer))
      && (form.customerId != "" && form.items == [] ==> r == Err(NoItems))
  {
    if exists i :: 0 <= i < |form.dates| && form.dates[i] == Blank {
      var i :| 0 <= i < |form.dates| && form.dates[i] == Blank;
      assert form.dates[i] in form.dates;
    }
  }

  /** An accepted order carries the schedule for its own total, the open
      balance `max(0, total - paid)`, and the number of installments marked
      "pago"; its installments sum to its price. */
  lemma SubmitPayload(form: OrderForm, monthsAhead: int -> int)
    requires Submit(form, monthsAhead).Ok?
    ensures var o := Submit(form, monthsAhead).value;
      o.price == TotalPrice(form.items)
      && o.paid == RemainingCents(o.price, form.paidCents) && o.paid >= 0
      && o.installmentsTotal == form.parcelas && o.installmentsPaid == form.paidCents
      && o.installments == Schedule(form.parcelas, Some(form.dates), o.price, form.paidCents, monthsAhead)
      && o.parcelasPagas == |Seqs.Filter(o.installments, IsPago)|
      && (form.parcelas >= 1 ==> Seqs.SumBy(o.installments, Amount) == o.price)
  {
    var o := Submit(form, monthsAhead).value;
    if form.parcelas >= 1 {
      ScheduleSumsToTotal(form.parcelas, Some(form.dates), o.price, form.paidCents, monthsAhead);
    }
  }
}
