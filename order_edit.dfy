/** The order edit form: free-form item lines, the totals, the steppers and
    the checks made before an order is saved. Money is in integer cents. */
module OrderEdit {
  import opened Wrappers
  import Seqs
  import opened Records

  datatype EditForm = EditForm(customerId: string, items: seq<OrderItem>,
                               installmentsTotal: int, installmentsPaid: int)

  /** The line `addProduct` appends. */
  const BlankItem: OrderItem := OrderItem("", 1, 0)

  /** `addProduct`. */
  function AddProduct(f: EditForm): EditForm
  {
    f.(items := f.items + [BlankItem])
  }

  /** `items.filter((_, i) => i !== index)`. */
  function RemoveAt(items: seq<OrderItem>, index: int): (r: seq<OrderItem>)
  {
    if 0 <= index < |items| then
      seq(|items| - 1, j requires 0 <= j < |items| - 1 => if j < index then items[j] else items[j + 1])
    else items
  }

  /** `removeProduct(index)`. */
  function RemoveProduct(f: EditForm, index: int): EditForm
  {
    f.(items := RemoveAt(f.items, index))
  }

  /** The field `updateItem` writes and its new value. */
  datatype ItemEdit = SetProductId(id: string) | SetAmount(amount: int) | SetUnitPrice(price: int)

  function Apply(item: OrderItem, edit: ItemEdit, products: seq<Product>): OrderItem
  {
    match edit
    case SetProductId(pid) =>
      var found := FindProduct(products, pid);
      if found.Some? then item.(productId := pid, unitPrice := found.value.price)
      else item.(productId := pid)
    case SetAmount(a) => item.(amount := a)
    case SetUnitPrice(p) => item.(unitPrice := p)
  }

  /** `updateItem(index, field, value)`. */
  function UpdateItem(f: EditForm, products: seq<Product>, index: int, edit: ItemEdit): EditForm
  {
    f.(items := seq(|f.items|, i requires 0 <= i < |f.items| =>
                    if i == index then Apply(f.items[i], edit, products) else f.items[i]))
  }

  /** Adding a line appends exactly the blank line and changes nothing else;
      it adds one unit and nothing to the price. */
  lemma AddProductEffect(f: EditForm)
    ensures var g := AddProduct(f);
      g.items[..|f.items|] == f.items && |g.items| == |f.items| + 1 && g.items[|f.items|] == BlankItem
      && g.customerId == f.customerId && g.installmentsTotal == f.installmentsTotal
      && g.installmentsPaid == f.installmentsPaid
      && TotalQuantity(g.items) == TotalQuantity(f.items) + 1
      && TotalPrice(g.items) == TotalPrice(f.items)
  {
    Seqs.SumByAppend(f.items, [BlankItem], Quantity);
    Seqs.SumByAppend(f.items, [BlankItem], LineTotal);
  }

  /** Removing index `i` drops exactly that line and keeps the others in
      order; an index outside the list removes nothing. */
  lemma RemoveProductEffect(f: EditForm, index: int)
    ensures var g := RemoveProduct(f, index);
      (0 <= index < |f.items| ==> g.items == f.items[..index] + f.items[index + 1..])
      && (!(0 <= index < |f.items|) ==> g == f)
      && g.customerId == f.customerId
  {
    if 0 <= index < |f.items| {
      var r := RemoveAt(f.items, index);
      assert r == f.items[..index] + f.items[index + 1..];
    }
  }

  /** Removing a line takes its quantity and its line total off the totals. */
  lemma RemoveProductTotals(f: EditForm, index: int)
    requires 0 <= index < |f.items|
    ensures var g := RemoveProduct(f, index);
      TotalQuantity(g.items) == TotalQuantity(f.items) - f.items[index].amount
      && TotalPrice(g.items) == TotalPrice(f.items) - LineTotal(f.items[index])
  {
    RemoveProductEffect(f, index);
    var s := f.items;
    assert s == s[..index] + ([s[index]] + s[index + 1..]);
    Seqs.SumByAppend(s[..index], [s[index]] + s[index + 1..], Quantity);
    Seqs.SumByAppend([s[index]], s[index + 1..], Quantity);
    Seqs.SumByAppend(s[..index], s[index + 1..], Quantity);
    Seqs.SumByAppend(s[..index], [s[index]] + s[index + 1..], LineTotal);
    Seqs.SumByAppend([s[index]], s[index + 1..], LineTotal);
    Seqs.SumByAppend(s[..index], s[index + 1..], LineTotal);
  }

  /** Only the line at `index` changes. Choosing a catalogue product also
      takes its price; choosing an unknown id keeps the price typed. */
  lemma UpdateItemEffect(f: EditForm, products: seq<Product>, index: int, edit: ItemEdit)
    ensures var g := UpdateItem(f, products, index, edit);
      |g.items| == |f.items| && g.customerId == f.customerId
      && (forall i :: 0 <= i < |f.items| && i != index ==> g.items[i] == f.items[i])
      && (0 <= index < |f.items| ==>
            (edit.SetProductId? ==>
              g.items[index].productId == edit.id && g.items[index].amount == f.items[index].amount
              && g.items[index].unitPrice ==
                   (if FindProduct(products, edit.id).Some? then FindProduct(products, edit.id).value.price
                    else f.items[index].unitPrice))
            && (edit.SetAmount? ==> g.items[index] == f.items[index].(amount := edit.amount))
            && (edit.SetUnitPrice? ==> g.items[index] == f.items[index].(unitPrice := edit.price)))
  {
  }

  /** The "-" stepper: `Math.max(1, amount - 1)`. */
  function DecrementAmount(f: EditForm, products: seq<Product>, index: int): EditForm
    requires 0 <= index < |f.items|
  {
    var a := f.items[index].amount - 1;
    UpdateItem(f, products, index, SetAmount(if a > 1 then a else 1))
  }

  /** The "+" stepper of a line. */
  function IncrementAmount(f: EditForm, products: seq<Product>, index: int): EditForm
    requires 0 <= index < |f.items|
  {
    UpdateItem(f, products, index, SetAmount(f.items[index].amount + 1))
  }

  /** The "+" stepper of the paid installments: capped at their total. */
  function IncrementPaid(f: EditForm): EditForm
  {
    var next := f.installmentsPaid + 1;
    f.(installmentsPaid := if next < f.installmentsTotal then next else f.installmentsTotal)
  }

  /** The quantity stepper never goes below 1 and otherwise steps by one. */
  lemma StepperBounds(f: EditForm, products: seq<Product>, index: int)
    requires 0 <= index < |f.items|
    ensures var a := DecrementAmount(f, products, index).items[index].amount;
      a >= 1 && (f.items[index].amount >= 2 ==> a == f.items[index].amount - 1)
    ensures IncrementAmount(f, products, index).items[index].amount == f.items[index].amount + 1
  {
  }

  /** The paid count never passes the installment count, and it stays within
      `0..installmentsTotal` once it is there. */
  lemma IncrementPaidBounds(f: EditForm)
    ensures IncrementPaid(f).installmentsPaid <= f.installmentsTotal
    ensures 0 <= f.installmentsPaid <= f.installmentsTotal ==>
      f.installmentsPaid <= IncrementPaid(f).installmentsPaid <= f.installmentsPaid + 1
    ensures f.installmentsPaid < f.installmentsTotal ==>
      IncrementPaid(f).installmentsPaid == f.installmentsPaid + 1
  {
  }

  datatype EditError = NoCustomer | NoItems | InvalidItem | NoOrderId

  /** The body of `api.updateOrder`. */
  datatype EditPayload = EditPayload(customerId: string, items: seq<OrderItem>, totalAmout: int,
                                     price: int, installmentsTotal: int, installmentsPaid: int)

  predicate IsInvalidItem(item: OrderItem) { item.productId == "" || item.amount <= 0 }

  /** `handleSubmit`: customer, then items, then every line, then the route
      id (the empty string when absent). */
  function Submit(f: EditForm, id: string): Result<EditPayload, EditError>
  {
    if f.customerId == "" then Err(NoCustomer)
    else if f.items == [] then Err(NoItems)
    else if exists i :: 0 <= i < |f.items| && IsInvalidItem(f.items[i]) then Err(InvalidItem)
    else if id == "" then Err(NoOrderId)
    else Ok(EditPayload(f.customerId, f.items, TotalQuantity(f.items), TotalPrice(f.items),
                        f.installmentsTotal, f.installmentsPaid))
  }

  /** A save goes out exactly when there is a customer, at least one line,
      every line has a product and a positive quantity, and the order has an
      id; the payload carries the totals of the lines, and a blank line just
      added blocks the save until it is filled in. */
  lemma SubmitAccepts(f: EditForm, id: string)
    ensures Submit(f, id).Ok? <==>
      f.customerId != "" && f.items != [] && id != ""
      && forall item :: item in f.items ==> item.productId != "" && item.amount > 0
    ensures Submit(f, id).Ok? ==>
      Submit(f, id).value.totalAmout == TotalQuantity(f.items)
      && Submit(f, id).value.price == TotalPrice(f.items)
      && TotalQuantity(f.items) >= |f.items|
    ensures f.customerId != "" ==> Submit(AddProduct(f), id) == Err(InvalidItem)
  {
    if Submit(f, id).Ok? {
      QuantityAtLeastLines(f.items);
    }
    var g := AddProduct(f);
    assert IsInvalidItem(g.items[|f.items|]);
  }

  /** With every quantity positive there are at least as many units as
      lines. */
  lemma {:induction false} QuantityAtLeastLines(items: seq<OrderItem>)
    requires forall i :: 0 <= i < |items| ==> items[i].amount > 0
    ensures TotalQuantity(items) >= |items|
  {
    if items != [] {
      QuantityAtLeastLines(items[1..]);
    }
  }
}
