/** The records the pages receive from the back end, as far as the pages
    read them. Money fields are integer cents; a text field the back end
    leaves out is the empty string. */
module Records {
  import opened Wrappers
  import Seqs

  datatype Client = Client(id: string, name: string, telephone: string, address: string,
                           anniversary: string, cpf: string)

  datatype Product = Product(id: string, name: string, stock: int, category: string,
                             value: int, price: int, datePurchase: string, code: string)

  datatype OrderItem = OrderItem(productId: string, amount: int, unitPrice: int)

  /** `products.find((p) => p._id === productId)`: the first product with
      that id. */
  function FindProduct(products: seq<Product>, productId: string): (r: Option<Product>)
    ensures r.Some? ==> r.value in products && r.value.id == productId
    ensures r.None? <==> forall p :: p in products ==> p.id != productId
    ensures r.Some? ==> exists i :: 0 <= i < |products| && products[i] == r.value
                          && forall j :: 0 <= j < i ==> products[j].id != productId
  {
    if products == [] then None
    else if products[0].id == productId then Some(products[0])
    else
      var r := FindProduct(products[1..], productId);
      assert r.Some? ==> exists i :: 1 <= i < |products| && products[i] == r.value
                          && forall j :: 0 <= j < i ==> products[j].id != productId by {
        if r.Some? {
          var i :| 0 <= i < |products[1..]| && products[1..][i] == r.value
                   && forall j :: 0 <= j < i ==> products[1..][j].id != productId;
          assert products[i + 1] == r.value;
          assert forall j :: 1 <= j < i + 1 ==> products[j].id == products[1..][j - 1].id;
        }
      }
      r
  }

  function Quantity(item: OrderItem): int { item.amount }
  function LineTotal(item: OrderItem): int { item.amount * item.unitPrice }

  /** The units on an order: the sum of the line quantities. */
  function TotalQuantity(items: seq<OrderItem>): int { Seqs.SumBy(items, Quantity) }

  /** The order total: the sum of quantity times unit price. */
  function TotalPrice(items: seq<OrderItem>): int { Seqs.SumBy(items, LineTotal) }
}
