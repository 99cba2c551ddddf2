/**
 * The records the controllers work on: products, cart entries, orders and
 * the responses a handler can send. Database ids are modelled as naturals;
 * the source compares them through `toString()`, which is equality here.
 */
module Domain {
  import opened Wrappers

  type ProductId = nat
  type UserId = nat
  type OrderId = nat

  /** A catalogue product. `price` is the stored number, restricted to integers. */
  datatype Product = Product(
    id: ProductId,
    title: string,
    price: int,
    description: string,
    imageUrl: string,
    userId: UserId)

  /** One entry of a user's `cart.items`. */
  datatype CartItem = CartItem(productId: ProductId, quantity: int)

  /**
   * One item of a stored order: the product fields selected by
   * `populate("cart.items.productId", "title price")` plus the quantity.
   */
  datatype OrderItem = OrderItem(productId: ProductId, title: string, price: int, quantity: int)

  /** An order: the item snapshot and the buyer (`user._id`, `user.email`). */
  datatype Order = Order(items: seq<OrderItem>, userId: UserId, email: string)

  /** What a request handler sends back. */
  datatype Response =
    | Render(status: int, message: string)      // res.status(s).render(view, { errorMessage })
    | Redirect(path: string)                    // res.redirect(path)
    | Json(status: int, message: string)        // res.status(s).json({ message })
    | NextError(message: string)                // next(error): the 500 error page

  predicate UniqueProductIds(products: seq<Product>)
  {
    forall i, j :: 0 <= i < j < |products| ==> products[i].id != products[j].id
  }

  /** `Product.findById(id)`: the first product with that id, if any. */
  function FindProduct(products: seq<Product>, id: ProductId): (r: Option<Product>)
    ensures r.Some? ==> r.value in products && r.value.id == id
    ensures r.None? <==> forall p :: p in products ==> p.id != id
  {
    if products == [] then None
    else if products[0].id == id then Some(products[0])
    else FindProduct(products[1..], id)
  }

  /** `a` is `b` with some elements left out, the rest in their original order. */
  predicate IsSubsequence<T(==)>(a: seq<T>, b: seq<T>)
    decreases |b|
  {
    if b == [] then a == []
    else (a != [] && a[0] == b[0] && IsSubsequence(a[1..], b[1..])) || IsSubsequence(a, b[1..])
  }

  lemma {:induction false} SubsequenceMembers<T>(a: seq<T>, b: seq<T>)
    requires IsSubsequence(a, b)
    ensures forall e :: e in a ==> e in b
    decreases |b|
  {
    if b != [] {
      if a != [] && a[0] == b[0] && IsSubsequence(a[1..], b[1..]) {
        SubsequenceMembers(a[1..], b[1..]);
        assert a == [a[0]] + a[1..];
      } else {
        SubsequenceMembers(a, b[1..]);
      }
    }
  }
}
