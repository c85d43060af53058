/** The product catalogue: the list page with its search, category filter,
    category list, stock badge and inventory sums, and the create and edit
    forms with their checks and cents conversion. */
module Products {
  import opened Wrappers
  import Seqs
  import opened Text
  import Money
  import opened Records

  // ---- the list page ----

  /** `filteredProducts`: the name or code contains the term ignoring case,
      and the category equals the chosen one when one is chosen. */
  predicate ProductMatches(p: Product, term: string, category: string)
  {
    (Contains(Lower(p.name), Lower(term)) || Contains(Lower(p.code), Lower(term)))
    && (category == "" || p.category == category)
  }

  function FilteredProducts(products: seq<Product>, term: string, category: string): seq<Product>
  {
    Seqs.Filter(products, (p: Product) => ProductMatches(p, term, category))
  }

  /** The shown products are exactly the matching ones; with no term and no
      category every product is shown, and a chosen category shows only
      products of that category. */
  lemma FilteredProductsEffect(products: seq<Product>, term: string, category: string)
    ensures forall p :: p in FilteredProducts(products, term, category) <==>
      p in products && ProductMatches(p, term, category)
    ensures term == "" && category == "" ==> FilteredProducts(products, term, category) == products
    ensures category != "" ==> forall p :: p in FilteredProducts(products, term, category) ==> p.category == category
  {
    if term == "" && category == "" {
      forall p | p in products ensures ProductMatches(p, term, category) {
        ContainsEmpty(Lower(p.name));
      }
      Seqs.FilterAll(products, (p: Product) => ProductMatches(p, term, category));
    }
  }

  /** `[...new Set(products.map((p) => p.category))].filter(Boolean)`: each
      non-empty category once, in the order it first appears. */
  function Categories(products: seq<Product>): (r: seq<string>)
  {
    if products == [] then []
    else
      var before := Categories(products[..|products| - 1]);
      var c := products[|products| - 1].category;
      if c == "" || c in before then before else before + [c]
  }

  /** The index of the first product of category `c`, or the length of the
      list when no product has it. */
  function FirstOf(products: seq<Product>, c: string): (i: nat)
    ensures i <= |products|
    ensures i < |products| ==> products[i].category == c
    ensures forall j :: 0 <= j < i ==> products[j].category != c
  {
    if products == [] then 0
    else if products[0].category == c then 0
    else 1 + FirstOf(products[1..], c)
  }

  /** Adding a product at the end keeps every earlier first occurrence; a
      category first seen in the new product is first found there. */
  lemma FirstOfExtend(products: seq<Product>, c: string)
    requires products != []
    ensures var n := |products| - 1;
      (FirstOf(products[..n], c) < n ==> FirstOf(products, c) == FirstOf(products[..n], c))
      && (FirstOf(products[..n], c) == n ==>
            (FirstOf(products, c) == n <==> products[n].category == c) && FirstOf(products, c) >= n)
  {
    var n := |products| - 1;
    var i := FirstOf(products[..n], c);
    assert forall j :: 0 <= j < n ==> products[j] == products[..n][j];
    if i < n {
      assert products[i] == products[..n][i];
    }
  }

  /** The listed categories are exactly the non-empty categories some
      product has. */
  lemma {:induction false} CategoriesListed(products: seq<Product>)
    ensures forall c :: c in Categories(products) <==> c != "" && FirstOf(products, c) < |products|
  {
    if products != [] {
      var n := |products| - 1;
      CategoriesListed(products[..n]);
      forall c ensures c in Categories(products) <==> c != "" && FirstOf(products, c) < |products| {
        FirstOfExtend(products, c);
      }
    }
  }

  /** No category is listed twice. */
  lemma {:induction false} CategoriesDistinct(products: seq<Product>)
    ensures forall i, j :: 0 <= i < j < |Categories(products)| ==>
      Categories(products)[i] != Categories(products)[j]
  {
    if products != [] {
      var n := |products| - 1;
      CategoriesDistinct(products[..n]);
      var before := Categories(products[..n]);
      var r := Categories(products);
      if r != before {
        var c := products[n].category;
        assert r == before + [c] && c !in before;
        forall i, j | 0 <= i < j < |r| ensures r[i] != r[j] {
          if j == |before| {
            assert r[i] == before[i] && before[i] in before;
            assert r[j] == c;
          } else {
            assert r[i] == before[i] && r[j] == before[j];
            assert before[i] != before[j];
          }
        }
      }
    }
  }

  /** The categories come in the order of their first product. */
  lemma {:induction false} CategoriesOrdered(products: seq<Product>)
    ensures forall i, j :: 0 <= i < j < |Categories(products)| ==>
      FirstOf(products, Categories(products)[i]) < FirstOf(products, Categories(products)[j])
  {
    if products != [] {
      var n := |products| - 1;
      var init := products[..n];
      CategoriesOrdered(init);
      CategoriesListed(init);
      var before := Categories(init);
      var r := Categories(products);
      forall i | 0 <= i < |before| ensures FirstOf(products, before[i]) == FirstOf(init, before[i]) < n {
        assert before[i] in before;
        FirstOfExtend(products, before[i]);
      }
      if r != before {
        var c := products[n].category;
        assert r == before + [c] && c != "" && c !in before;
        assert FirstOf(products, c) == n by {
          assert FirstOf(init, c) == n;
          FirstOfExtend(products, c);
        }
        forall i, j | 0 <= i < j < |r| ensures FirstOf(products, r[i]) < FirstOf(products, r[j]) {
          assert r[i] == before[i];
          if j < |before| {
            assert r[j] == before[j];
            assert FirstOf(init, before[i]) < FirstOf(init, before[j]);
          } else {
            assert r[j] == c;
          }
        }
      }
    }
  }

  /** The categories are distinct and non-empty, every non-empty category of
      the catalogue is listed, and they come in the order of their first
      product. */
  lemma CategoriesEffect(products: seq<Product>)
    ensures var r := Categories(products);
      (forall i, j :: 0 <= i < j < |r| ==> r[i] != r[j])
      && (forall c :: c in r <==> c != "" && FirstOf(products, c) < |products|)
      && (forall i, j :: 0 <= i < j < |r| ==> FirstOf(products, r[i]) < FirstOf(products, r[j]))
  {
    CategoriesDistinct(products);
    CategoriesListed(products);
    CategoriesOrdered(products);
  }

  datatype StockStatus = OutOfStock | LowStock | InStock

  /** `getStockStatus`. */
  function GetStockStatus(quantity: int): StockStatus
  {
    if quantity == 0 then OutOfStock else if quantity <= 5 then LowStock else InStock
  }

  function StatusText(s: StockStatus): string
  {
    match s
    case OutOfStock => "Sem estoque"
    case LowStock => "Estoque baixo"
    case InStock => "Em estoque"
  }

  /** Zero is out of stock, one to five and every negative count are low,
      and more than five is in stock. */
  lemma StockStatusCases(quantity: int)
    ensures GetStockStatus(quantity) == OutOfStock <==> quantity == 0
    ensures GetStockStatus(quantity) == LowStock <==> quantity != 0 && quantity <= 5
    ensures GetStockStatus(quantity) == InStock <==> quantity > 5
  {
  }

  function CostOf(p: Product): int { p.value * p.stock }
  function RevenueOf(p: Product): int { p.price * p.stock }

  /** The profit shown on a product card: price minus cost. */
  function Margin(p: Product): int { p.price - p.value }

  function ProfitOf(p: Product): int { (p.price - p.value) * p.stock }

  /** The three inventory cards, in cents: stock cost, expected revenue and
      expected profit. */
  function InventorySums(shown: seq<Product>): (int, int, int)
  {
    (Seqs.SumBy(shown, CostOf), Seqs.SumBy(shown, RevenueOf), Seqs.SumBy(shown, ProfitOf))
  }

  /** Expected profit is expected revenue minus stock cost, and it is each
      product's margin times its stock. */
  lemma ProfitIsRevenueMinusCost(shown: seq<Product>)
    ensures InventorySums(shown).2 == InventorySums(shown).1 - InventorySums(shown).0
    ensures forall p :: p in shown ==> ProfitOf(p) == Margin(p) * p.stock
  {
    forall p | p in shown ensures ProfitOf(p) == RevenueOf(p) - CostOf(p) {
      assert (p.price - p.value) * p.stock == p.price * p.stock - p.value * p.stock;
    }
    Seqs.SumByDifference(shown, RevenueOf, CostOf, ProfitOf);
  }

  /** With no product priced below cost and no negative stock, the expected
      profit is not negative. */
  lemma ProfitNonNegative(shown: seq<Product>)
    requires forall p :: p in shown ==> p.price >= p.value && p.stock >= 0
    ensures InventorySums(shown).2 >= 0
  {
    forall p | p in shown ensures ProfitOf(p) >= 0 {
      assert Margin(p) >= 0;
    }
    Seqs.SumByNonNegative(shown, ProfitOf);
  }

  // ---- the create and edit forms ----

  /** A product form; the numeric inputs hold reais as numbers. */
  datatype ProductForm = ProductForm(name: string, stock: real, category: string, value: real,
                                     price: real, datePurchase: string, code: string)

  datatype ProductField = NameField | StockField | CategoryField | ValueField
                        | PriceField | DatePurchaseField | CodeField

  predicate IsNumberField(field: ProductField)
  {
    field == StockField || field == ValueField || field == PriceField
  }

  /** `parseFloat(value) || 0`: a number input that does not parse (`None`)
      becomes 0. */
  function NumberInput(parsed: Option<real>): real
  {
    if parsed.Some? then parsed.value else 0.0
  }

  /** `handleChange` / `handleInputChange`: a number input stores its parsed
      value, any other input its raw text. */
  function HandleChange(form: ProductForm, field: ProductField, raw: string, parsed: Option<real>): (r: ProductForm)
  {
    match field
    case NameField => form.(name := raw)
    case StockField => form.(stock := NumberInput(parsed))
    case CategoryField => form.(category := raw)
    case ValueField => form.(value := NumberInput(parsed))
    case PriceField => form.(price := NumberInput(parsed))
    case DatePurchaseField => form.(datePurchase := raw)
    case CodeField => form.(code := raw)
  }

  /** A change sets its own field, to the parsed number for a number input
      (0 when the input does not parse) and to the raw text for any other
      input, and touches no other field. */
  lemma HandleChangeEffect(form: ProductForm, field: ProductField, raw: string, parsed: Option<real>)
    ensures var r := HandleChange(form, field, raw, parsed);
      (field != NameField ==> r.name == form.name)
      && (field != StockField ==> r.stock == form.stock)
      && (field != CategoryField ==> r.category == form.category)
      && (field != ValueField ==> r.value == form.value)
      && (field != PriceField ==> r.price == form.price)
      && (field != DatePurchaseField ==> r.datePurchase == form.datePurchase)
      && (field != CodeField ==> r.code == form.code)
      && (field == NameField ==> r.name == raw)
      && (field == CategoryField ==> r.category == raw)
      && (field == DatePurchaseField ==> r.datePurchase == raw)
      && (field == CodeField ==> r.code == raw)
      && (field == StockField ==> r.stock == NumberInput(parsed))
      && (field == ValueField ==> r.value == NumberInput(parsed))
      && (field == PriceField ==> r.price == NumberInput(parsed))
      && (field == StockField && parsed.None? ==> r.stock == 0.0)
      && (field == PriceField && parsed.None? ==> r.price == 0.0)
      && (field == ValueField && parsed.None? ==> r.value == 0.0)
  {
  }

  /** What the create and update calls receive: amounts in cents. */
  datatype ProductPayload = ProductPayload(name: string, stock: real, category: string, value: int,
                                           price: int, datePurchase: Option<string>, code: string)

  datatype CreateError = StockNotPositive | PricesNotPositive

  /** `mutationFn`: stock must be positive, then cost and price; amounts go
      out as `Math.round(x * 100)` and an empty purchase date is left out. */
  function CreateProduct(form: ProductForm): Result<ProductPayload, CreateError>
  {
    if form.stock <= 0.0 then Err(StockNotPositive)
    else if form.value <= 0.0 || form.price <= 0.0 then Err(PricesNotPositive)
    else Ok(ProductPayload(form.name, form.stock, form.category, Money.ToCents(form.value),
                           Money.ToCents(form.price),
                           if form.datePurchase == "" then None else Some(form.datePurchase),
                           form.code))
  }

  /** A product is created iff stock, cost and price are all positive; the
      stock check comes first; the purchase date is sent iff it was filled
      in; positive reais never round to fewer than 0 cents. */
  lemma CreateProductEffect(form: ProductForm)
    ensures CreateProduct(form).Ok? <==> form.stock > 0.0 && form.value > 0.0 && form.price > 0.0
    ensures CreateProduct(form) == Err(StockNotPositive) <==> form.stock <= 0.0
    ensures CreateProduct(form).Ok? ==>
      var p := CreateProduct(form).value;
      (p.datePurchase.None? <==> form.datePurchase == "")
      && p.value >= 0 && p.price >= 0
      && p.name == form.name && p.stock == form.stock && p.code == form.code
  {
  }

  /** The margin preview: shown only when cost and price are both positive,
      as the margin in reais and as a percentage of the price. */
  function MarginPreview(form: ProductForm): Option<(real, real)>
  {
    if form.value > 0.0 && form.price > 0.0
    then Some((form.price - form.value, (form.price - form.value) / form.price * 100.0))
    else None
  }

  /** A shown margin percentage is below 100, and positive exactly when the
      price is above the cost. */
  lemma MarginPreviewBounds(form: ProductForm)
    ensures MarginPreview(form).Some? <==> form.value > 0.0 && form.price > 0.0
    ensures MarginPreview(form).Some? ==>
      var pct := MarginPreview(form).value.1;
      pct < 100.0 && (pct > 0.0 <==> form.price > form.value)
  {
    if form.value > 0.0 && form.price > 0.0 {
      var m := form.price - form.value;
      assert m / form.price < 1.0 by {
        assert m < form.price;
      }
      if m > 0.0 {
        assert m / form.price > 0.0;
      } else {
        assert m / form.price <= 0.0;
      }
    }
  }

  /** `loadProduct`: cents become reais; the purchase date keeps its date
      part. A product without a purchase date cannot be loaded: `new
      Date(undefined).toISOString()` throws, and the page reports a load
      error. */
  function LoadProduct(p: Product): Option<ProductForm>
  {
    if p.datePurchase == "" then None
    else Some(ProductForm(p.name, p.stock as real, p.category, Money.ToReais(p.value),
                          Money.ToReais(p.price), Seqs.Take(p.datePurchase, 10), p.code))
  }

  /** Loading fails exactly when the purchase date is missing; otherwise the
      form holds the stored amounts in reais, which convert back to the same
      cents, and the first ten characters of the date. */
  lemma LoadProductEffect(p: Product)
    ensures LoadProduct(p).None? <==> p.datePurchase == ""
    ensures LoadProduct(p).Some? ==>
      var form := LoadProduct(p).value;
      Money.ToCents(form.value) == p.value && Money.ToCents(form.price) == p.price
      && form.name == p.name && form.category == p.category && form.code == p.code
      && |form.datePurchase| <= 10 && form.datePurchase == p.datePurchase[..|form.datePurchase|]
      && (|p.datePurchase| <= 10 ==> form.datePurchase == p.datePurchase)
  {
    Money.CentsRoundTrip(p.value);
    Money.CentsRoundTrip(p.price);
  }

  datatype EditError = NameRequired | NegativeStock | NegativePrices | NoProductId

  /** `handleSubmit` of the edit form: a non-blank name, then a stock of at
      least 0, then cost and price of at least 0, then an id. */
  function UpdateProduct(form: ProductForm, id: Option<string>): Result<(string, ProductPayload), EditError>
  {
    if Trim(form.name) == "" then Err(NameRequired)
    else if form.stock < 0.0 then Err(NegativeStock)
    else if form.value < 0.0 || form.price < 0.0 then Err(NegativePrices)
    else if id.None? || id.value == "" then Err(NoProductId)
    else Ok((id.value, ProductPayload(form.name, form.stock, form.category, Money.ToCents(form.value),
                                      Money.ToCents(form.price), Some(form.datePurchase), form.code)))
  }

  /** The update goes out iff every check passes; unlike creation, zero
      stock and zero prices are allowed; the checks run name, stock, prices. */
  lemma UpdateProductEffect(form: ProductForm, id: Option<string>)
    ensures UpdateProduct(form, id).Ok? <==>
      Trim(form.name) != "" && form.stock >= 0.0 && form.value >= 0.0 && form.price >= 0.0
      && id.Some? && id.value != ""
    ensures UpdateProduct(form, id) == Err(NameRequired) <==> Trim(form.name) == ""
    ensures UpdateProduct(form, id) == Err(NegativeStock) <==> Trim(form.name) != "" && form.stock < 0.0
    ensures Trim(form.name) != "" && id.Some? && id.value != "" && CreateProduct(form).Ok? ==>
      UpdateProduct(form, id).Ok?
  {
  }

  /** A product with a purchase date, loaded and saved without edits, keeps
      its cents, stock, name, category and code. */
  lemma LoadSaveRoundTrip(p: Product, id: string)
    requires Trim(p.name) != "" && p.stock >= 0 && p.value >= 0 && p.price >= 0 && id != ""
    requires p.datePurchase != ""
    ensures LoadProduct(p).Some?
    ensures var r := UpdateProduct(LoadProduct(p).value, Some(id));
      r.Ok? && r.value.1.value == p.value && r.value.1.price == p.price
      && r.value.1.stock == p.stock as real && r.value.1.name == p.name
      && r.value.1.category == p.category && r.value.1.code == p.code
  {
    Money.CentsRoundTrip(p.value);
    Money.CentsRoundTrip(p.price);
  }
}
