/**
 * The shop handlers of controllers/shop.js that hold logic: the catalogue
 * listings, the checkout total and line items, the order snapshot taken at
 * checkout success, and the invoice's access check and total.
 */
module Shop {
  import opened Wrappers
  import opened Domain
  import opened Pagination
  import Cart
  import UserModel
  import Database

  /** `getIndex` and `getProducts`: the whole catalogue, two products a page. */
  function ProductListing(products: seq<Product>, q: PageParam): (r: Listing<Product>)
    ensures r.StoreError? <==> q.Number? && q.n < 0
    ensures r.Listed? ==> forall p :: p in r.view.items ==> p in products
    ensures r.Listed? && q.Missing? ==> r.view.currentPage == 1 && r.view.items == products[..Min(2, |products|)]
    ensures r.Listed? ==> PageNumber(q) >= 1 && r.view.currentPage == PageNumber(q)
    ensures r.Listed? ==> r.view.items == PageSlice(products, PageNumber(q))
    ensures r.Listed? ==> r.view.nextPage == PageNumber(q) + 1 && r.view.previousPage == PageNumber(q) - 1
    ensures r.Listed? ==> (r.view.hasPreviousPage <==> PageNumber(q) > 1)
    ensures r.Listed? ==> (r.view.hasNextPage <==> ItemsPerPage * PageNumber(q) < |products|)
    ensures r.Listed? ==> r.view.lastPage == LastPage(|products|)
  {
    Paginate(products, PageNumber(q))
  }

  /** A cart entry after `populate("cart.items.productId")`: its product, or null when the product is gone. */
  datatype PopulatedItem = PopulatedItem(product: Option<Product>, quantity: int)

  function Populate(items: seq<CartItem>, products: seq<Product>): (r: seq<PopulatedItem>)
    ensures |r| == |items|
    ensures forall k :: 0 <= k < |items| ==> r[k].quantity == items[k].quantity
    ensures forall k :: 0 <= k < |items| ==>
      (r[k].product.None? <==> forall p :: p in products ==> p.id != items[k].productId)
    ensures forall k :: 0 <= k < |items| && r[k].product.Some? ==>
      r[k].product.value in products && r[k].product.value.id == items[k].productId
  {
    seq(|items|, k requires 0 <= k < |items| =>
      PopulatedItem(FindProduct(products, items[k].productId), items[k].quantity))
  }

  predicate AllFound(cart: seq<PopulatedItem>)
  {
    forall k :: 0 <= k < |cart| ==> cart[k].product.Some?
  }

  /** `{ ...product.productId._doc, quantity }` with the fields `title price` selected. */
  function ItemOf(p: PopulatedItem): OrderItem
    requires p.product.Some?
  {
    OrderItem(p.product.value.id, p.product.value.title, p.product.value.price, p.quantity)
  }

  /** The order items a checkout snapshots: one per cart entry, in cart order. */
  function Snapshot(cart: seq<PopulatedItem>): (r: seq<OrderItem>)
    requires AllFound(cart)
    ensures |r| == |cart|
    ensures forall k :: 0 <= k < |cart| ==>
      && r[k].productId == cart[k].product.value.id
      && r[k].title == cart[k].product.value.title
      && r[k].price == cart[k].product.value.price
      && r[k].quantity == cart[k].quantity
  {
    seq(|cart|, k requires 0 <= k < |cart| && AllFound(cart) => ItemOf(cart[k]))
  }

  /** Σ price × quantity; never negative when no price or quantity is. */
  function Total(items: seq<OrderItem>): (r: int)
    ensures (forall it :: it in items ==> it.price >= 0 && it.quantity >= 0) ==> r >= 0
  {
    if items == [] then 0 else items[0].price * items[0].quantity + Total(items[1..])
  }

  lemma {:induction false} TotalAppend(a: seq<OrderItem>, b: seq<OrderItem>)
    ensures Total(a + b) == Total(a) + Total(b)
  {
    if a != [] {
      assert (a + b)[1..] == a[1..] + b;
      TotalAppend(a[1..], b);
    } else {
      assert a + b == b;
    }
  }

  /** What a cart costs at the store's current prices: Σ price × quantity over its entries. */
  function CartTotal(items: seq<CartItem>, products: seq<Product>): int
    requires forall e :: e in items ==> FindProduct(products, e.productId).Some?
  {
    if items == [] then 0
    else FindProduct(products, items[0].productId).value.price * items[0].quantity + CartTotal(items[1..], products)
  }

  /**
   * When every entry's product exists, the snapshot totals what the cart
   * costs at the store's prices: entry by entry, price × quantity.
   */
  lemma {:induction false} SnapshotTotal(items: seq<CartItem>, products: seq<Product>)
    requires AllFound(Populate(items, products))
    ensures forall e :: e in items ==> FindProduct(products, e.productId).Some?
    ensures Total(Snapshot(Populate(items, products))) == CartTotal(items, products)
  {
    var cart := Populate(items, products);
    forall e | e in items ensures FindProduct(products, e.productId).Some? {
      var k :| 0 <= k < |items| && items[k] == e;
      assert cart[k].product.Some?;
    }
    if items != [] {
      assert cart[1..] == Populate(items[1..], products);
      SnapshotTotal(items[1..], products);
      TotalHead(cart);
    }
  }

  /** Taking one more entry into the snapshot adds its price × quantity to the total. */
  lemma SnapshotStep(cart: seq<PopulatedItem>, i: nat)
    requires i < |cart| && forall k :: 0 <= k <= i ==> cart[k].product.Some?
    ensures AllFound(cart[..i]) && AllFound(cart[..i + 1])
    ensures Total(Snapshot(cart[..i + 1])) == Total(Snapshot(cart[..i])) + cart[i].product.value.price * cart[i].quantity
  {
    assert cart[..i] == cart[..i + 1][..i];
    var a, b := Snapshot(cart[..i]), Snapshot(cart[..i + 1]);
    assert b == a + [ItemOf(cart[i])];
    TotalAppend(a, [ItemOf(cart[i])]);
  }

  /** A product line handed to the payment processor. */
  datatype LineItem = LineItem(name: string, description: string, amount: int, currency: string, quantity: int)

  function LineItemOf(p: PopulatedItem): LineItem
    requires p.product.Some?
  {
    LineItem(p.product.value.title, p.product.value.description, p.product.value.price * 100, "usd", p.quantity)
  }

  function LineItems(cart: seq<PopulatedItem>): (r: seq<LineItem>)
    requires AllFound(cart)
    ensures |r| == |cart|
    ensures forall k :: 0 <= k < |cart| ==>
      && r[k].name == cart[k].product.value.title
      && r[k].description == cart[k].product.value.description
      && r[k].amount == cart[k].product.value.price * 100
      && r[k].currency == "usd"
      && r[k].quantity == cart[k].quantity
  {
    seq(|cart|, k requires 0 <= k < |cart| && AllFound(cart) => LineItemOf(cart[k]))
  }

  /** What the processor charges for a list of line items, in cents. */
  function Charge(lines: seq<LineItem>): int
  {
    if lines == [] then 0 else lines[0].amount * lines[0].quantity + Charge(lines[1..])
  }

  /** The first entry's share of the snapshot total, and the rest. */
  lemma TotalHead(cart: seq<PopulatedItem>)
    requires cart != [] && AllFound(cart)
    ensures AllFound(cart[1..])
    ensures Total(Snapshot(cart)) == cart[0].product.value.price * cart[0].quantity + Total(Snapshot(cart[1..]))
  {
    assert forall k :: 0 <= k < |cart| - 1 ==> cart[1..][k] == cart[k + 1];
    assert Snapshot(cart)[1..] == Snapshot(cart[1..]);
  }

  /** The first entry's share of the charge, and the rest. */
  lemma ChargeHead(cart: seq<PopulatedItem>)
    requires cart != [] && AllFound(cart)
    ensures AllFound(cart[1..])
    ensures Charge(LineItems(cart)) == cart[0].product.value.price * 100 * cart[0].quantity + Charge(LineItems(cart[1..]))
  {
    assert forall k :: 0 <= k < |cart| - 1 ==> cart[1..][k] == cart[k + 1];
    assert LineItems(cart)[1..] == LineItems(cart[1..]);
  }

  /** The processor is asked for exactly 100 times the `totalSum` shown on the checkout page. */
  lemma {:induction false} ChargeMatchesTotal(cart: seq<PopulatedItem>)
    requires AllFound(cart)
    ensures Charge(LineItems(cart)) == 100 * Total(Snapshot(cart))
  {
    if cart != [] {
      var price, quantity := cart[0].product.value.price, cart[0].quantity;
      var rest := cart[1..];
      assert AllFound(rest) by {
        assert forall k :: 0 <= k < |rest| ==> rest[k] == cart[k + 1];
      }
      calc {
        Charge(LineItems(cart));
        == { ChargeHead(cart); }
        price * 100 * quantity + Charge(LineItems(rest));
        == { ChargeMatchesTotal(rest); }
        price * 100 * quantity + 100 * Total(Snapshot(rest));
        == { assert price * 100 * quantity == 100 * (price * quantity); }
        100 * (price * quantity + Total(Snapshot(rest)));
        == { TotalHead(cart); }
        100 * Total(Snapshot(cart));
      }
    }
  }

  datatype CheckoutView = CheckoutView(products: seq<PopulatedItem>, totalSum: int, lineItems: seq<LineItem>)

  /**
   * `getCheckout`: sums price × quantity over the populated cart and builds
   * one line item per entry. A missing items array or an entry whose product
   * is gone makes the handler throw; the result is then `None` (a 500).
   */
  method Checkout(items: Option<seq<CartItem>>, products: seq<Product>) returns (r: Option<CheckoutView>)
    ensures r.Some? <==> items.Some? && AllFound(Populate(items.value, products))
    ensures r.Some? ==> r.value.products == Populate(items.value, products)
    ensures r.Some? ==> r.value.totalSum == Total(Snapshot(r.value.products))
    ensures r.Some? ==> r.value.lineItems == LineItems(r.value.products)
  {
    if items.None? {
      return None;
    }
    var cart := Populate(items.value, products);
    var totalSum := 0;
    var i := 0;
    while i < |cart|
      invariant 0 <= i <= |cart|
      invariant forall k :: 0 <= k < i ==> cart[k].product.Some?
      invariant totalSum == Total(Snapshot(cart[..i]))
    {
      match cart[i].product
      case None =>
        return None;
      case Some(p) =>
        SnapshotStep(cart, i);
        totalSum := totalSum + p.price * cart[i].quantity;
      i := i + 1;
    }
    assert cart[..i] == cart;
    return Some(CheckoutView(cart, totalSum, LineItems(cart)));
  }

  /**
   * `getCheckoutSuccess` (and `postOrder`, the same code): snapshot the cart
   * into a new order of the acting user, save it, then clear the cart. If the
   * snapshot throws (no items array, or a product gone), nothing is written.
   */
  method PlaceOrder(store: Database.Store, user: UserModel.User, orderId: OrderId) returns (resp: Response)
    requires orderId !in store.orders
    modifies store`orders, user`items
    ensures var items := old(user.items);
      items.None? || !AllFound(Populate(items.value, store.products)) ==>
        resp == NextError("TypeError") && store.orders == old(store.orders) && user.items == items
    ensures var items := old(user.items);
      items.Some? && AllFound(Populate(items.value, store.products)) ==>
        && resp == Redirect("/orders")
        && store.orders == old(store.orders)[orderId := Order(Snapshot(Populate(items.value, store.products)), user.id, user.email)]
        && user.items == Some([])
  {
    if user.items.None? {
      return NextError("TypeError");
    }
    var cart := Populate(user.items.value, store.products);
    if !AllFound(cart) {
      return NextError("TypeError");
    }
    var order := Order(Snapshot(cart), user.id, user.email);
    store.orders := store.orders[orderId := order];
    user.ClearCart();
    resp := Redirect("/orders");
  }

  /**
   * `postCart`: `findById` of the posted id, then `addToCart`. An unknown id
   * gives null, `addToCart` throws on it, and the handler answers 500 with the
   * cart as it was.
   */
  method PostCart(products: seq<Product>, user: UserModel.User, productId: ProductId) returns (resp: Response)
    modifies user`items
    ensures FindProduct(products, productId).None? ==> resp == NextError("TypeError") && user.items == old(user.items)
    ensures FindProduct(products, productId).Some? ==>
      && resp == Redirect("/cart")
      && user.items == Some(Cart.Added(old(user.items).GetOr([]), productId))
      && Cart.QuantityOf(user.items.value, productId) == Cart.QuantityOf(old(user.items).GetOr([]), productId) + 1
    ensures old(user.CartValid()) ==> user.CartValid()
  {
    var ok := user.AddToCart(FindProduct(products, productId));
    resp := if ok then Redirect("/cart") else NextError("TypeError");
  }

  datatype InvoiceOutcome =
    | Invoice(lines: seq<OrderItem>, totalPrice: int)
    | InvoiceRefused(message: string)

  /**
   * `getInvoice`: only the buyer may see an order's invoice; its total is
   * summed over the items stored in the order, never over live products.
   */
  method GetInvoice(orders: map<OrderId, Order>, orderId: OrderId, actor: UserId) returns (r: InvoiceOutcome)
    ensures orderId !in orders ==> r == InvoiceRefused("Order doesn't exist!")
    ensures orderId in orders && orders[orderId].userId != actor ==>
      r == InvoiceRefused("This user is unathorized to view this document")
    ensures orderId in orders && orders[orderId].userId == actor ==>
      r == Invoice(orders[orderId].items, Total(orders[orderId].items))
  {
    if orderId !in orders {
      return InvoiceRefused("Order doesn't exist!");
    }
    var order := orders[orderId];
    if order.userId != actor {
      return InvoiceRefused("This user is unathorized to view this document");
    }
    var totalPrice := 0;
    for i := 0 to |order.items|
      invariant totalPrice == Total(order.items[..i])
    {
      var prod := order.items[i];
      assert order.items[..i + 1] == order.items[..i] + [prod];
      TotalAppend(order.items[..i], [prod]);
      totalPrice := totalPrice + prod.price * prod.quantity;
    }
    assert order.items[..|order.items|] == order.items;
    r := Invoice(order.items, totalPrice);
  }

  /**
   * The invoice of the order a checkout creates bills what the cart cost at
   * checkout: one item per entry, with its product and quantity, totalling
   * Σ price × quantity at the store's prices of that moment.
   */
  lemma InvoiceOfPlacedOrder(items: seq<CartItem>, products: seq<Product>, user: UserId, email: string)
    requires AllFound(Populate(items, products))
    ensures forall e :: e in items ==> FindProduct(products, e.productId).Some?
    ensures var order := Order(Snapshot(Populate(items, products)), user, email);
      Total(order.items) == CartTotal(items, products)
      && |order.items| == |items|
      && forall k :: 0 <= k < |items| ==>
           order.items[k].productId == items[k].productId && order.items[k].quantity == items[k].quantity
  {
    SnapshotTotal(items, products);
  }

  /**
   * A cart holding product A (price 10) twice and product B (price 5) once
   * totals 25.
   */
  lemma CheckoutExample()
    ensures var a := Product(1, "A", 10, "", "", 0);
      var b := Product(2, "B", 5, "", "", 0);
      var items := Cart.Added(Cart.Added(Cart.Added([], 1), 1), 2);
      items == [CartItem(1, 2), CartItem(2, 1)]
      && AllFound(Populate(items, [a, b]))
      && Total(Snapshot(Populate(items, [a, b]))) == 25
  {
    var a := Product(1, "A", 10, "", "", 0);
    var b := Product(2, "B", 5, "", "", 0);
    Cart.AddTwiceToEmpty(1);
    var items := Cart.Added([CartItem(1, 2)], 2);
    assert !Cart.Has([CartItem(1, 2)], 2);
    assert items == [CartItem(1, 2), CartItem(2, 1)];
    var cart := Populate(items, [a, b]);
    assert FindProduct([a, b], 1) == Some(a);
    assert FindProduct([a, b], 2) == Some(b) by {
      assert [a, b][1..] == [b];
    }
    var snap := Snapshot(cart);
    assert snap == [OrderItem(1, "A", 10, 2), OrderItem(2, "B", 5, 1)];
    assert snap[1..] == [OrderItem(2, "B", 5, 1)] && snap[1..][1..] == [];
    assert Total(snap[1..]) == 5;
  }
}
