/**
 * The user record of models/user.js. The cart methods change the record's
 * `cart.items` in place; the reset-token fields and the password are changed
 * in place by the handlers of module Auth. Saving is a commit that cannot fail.
 */
module UserModel {
  import opened Wrappers
  import opened Domain
  import Cart

  class User {
    const id: UserId
    var email: string
    /** The stored bcrypt hash: an opaque string here. */
    var password: string
    var resetToken: Option<string>
    /** Milliseconds since the epoch. */
    var resetTokenExpiration: Option<int>
    /** `cart.items`; `None` when the record has no items array. */
    var items: Option<seq<CartItem>>

    /** The cart's ledger invariant (a missing array counts as an empty cart). */
    predicate CartValid()
      reads this
    {
      items.None? || Cart.WellFormed(items.value)
    }

    /** A user as signup creates it: no token, an empty cart. */
    constructor (id: UserId, email: string, password: string)
      ensures this.id == id && this.email == email && this.password == password
      ensures resetToken == None && resetTokenExpiration == None
      ensures items == Some([])
    {
      this.id := id;
      this.email := email;
      this.password := password;
      resetToken := None;
      resetTokenExpiration := None;
      items := Some([]);
    }

    /**
     * `addToCart(product)`: a missing array is first replaced by an empty one;
     * then the product's entry is incremented, or `{id, 1}` is appended.
     * `product` is what `findById` gave, null for an unknown id: reading its
     * `_id` throws before the record is saved, so `ok` is false and the stored
     * cart is unchanged.
     */
    method AddToCart(product: Option<Product>) returns (ok: bool)
      modifies this`items
      ensures ok <==> product.Some?
      ensures !ok ==> items == old(items)
      ensures ok ==> items == Some(Cart.Added(old(items).GetOr([]), product.value.id))
      ensures ok ==> Cart.QuantityOf(items.value, product.value.id) == Cart.QuantityOf(old(items).GetOr([]), product.value.id) + 1
      ensures old(CartValid()) ==> CartValid()
    {
      if product.None? {
        return false;
      }
      ok := true;
      var id := product.value.id;
      Cart.AddedQuantity(items.GetOr([]), id, id);
      Cart.AddPreservesWellFormed(items.GetOr([]), id);
      if items.None? {
        items := Some([]);
      }
      var cartItems := items.value;
      var i := Cart.IndexOf(cartItems, id);
      if i >= 0 {
        items := Some(cartItems[i := cartItems[i].(quantity := cartItems[i].quantity + 1)]);
      } else {
        items := Some(cartItems + [CartItem(id, 1)]);
      }
    }

    /**
     * `removeFromCart(id)`: keeps the entries of other products. On a record
     * without an items array `filter` throws: `ok` is false and nothing changes.
     */
    method RemoveFromCart(id: ProductId) returns (ok: bool)
      modifies this`items
      ensures ok <==> old(items).Some?
      ensures ok ==> items == Some(Cart.Removed(old(items).value, id))
      ensures !ok ==> items == old(items)
      ensures old(CartValid()) ==> CartValid()
    {
      if items.None? {
        return false;
      }
      Cart.RemovePreservesWellFormed(items.value, id);
      items := Some(Cart.Removed(items.value, id));
      return true;
    }

    /** `clearCart()`: the cart becomes `{ items: [] }`, whatever it held. */
    method ClearCart()
      modifies this`items
      ensures items == Some([])
      ensures CartValid()
    {
      items := Some([]);
    }

    /**
     * `getCart(products)`: `[]` without an items array, otherwise one record
     * per stored product that has an entry, carrying that entry's quantity.
     */
    method GetCart(products: seq<Product>) returns (lines: seq<Cart.CartLine>)
      ensures items.None? ==> lines == []
      ensures items.Some? ==> lines == Cart.Joined(items.value, products)
    {
      if items.None? {
        return [];
      }
      lines := Cart.Joined(items.value, products);
    }
  }
}
