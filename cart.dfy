/**
 * The cart ledger of models/user.js on values: the list `cart.items` and what
 * `addToCart`, `removeFromCart` and `getCart` do to it or read from it.
 * The class `UserModel.User` applies these to the stored user record.
 */
module Cart {
  import opened Domain

  /** The product has an entry in the cart. */
  predicate Has(items: seq<CartItem>, id: ProductId)
  {
    exists j :: 0 <= j < |items| && items[j].productId == id
  }

  /** The ledger invariant: one entry per product, every quantity at least 1. */
  predicate WellFormed(items: seq<CartItem>)
  {
    && (forall i, j :: 0 <= i < j < |items| ==> items[i].productId != items[j].productId)
    && (forall i :: 0 <= i < |items| ==> items[i].quantity >= 1)
  }

  /** `items.findIndex(item => item.productId == id)`: the first match, or -1. */
  function IndexOf(items: seq<CartItem>, id: ProductId): (i: int)
    ensures -1 <= i < |items|
    ensures i >= 0 ==> items[i].productId == id
    ensures i >= 0 ==> forall j :: 0 <= j < i ==> items[j].productId != id
    ensures i < 0 <==> !Has(items, id)
  {
    if |items| == 0 then -1
    else if items[0].productId == id then 0
    else
      var k := IndexOf(items[1..], id);
      assert Has(items, id) ==> Has(items[1..], id) by {
        if Has(items, id) {
          var j :| 0 <= j < |items| && items[j].productId == id;
          assert items[1..][j - 1].productId == id;
        }
      }
      if k < 0 then -1 else k + 1
  }

  /**
   * The quantity the cart records for a product: that of the first entry with
   * its id (`items.find(...).quantity` in `getCart`), and 0 without one.
   */
  function QuantityOf(items: seq<CartItem>, id: ProductId): (q: int)
    ensures !Has(items, id) ==> q == 0
    ensures Has(items, id) ==> exists j :: 0 <= j < |items| && items[j].productId == id && items[j].quantity == q
    ensures WellFormed(items) && Has(items, id) ==> q >= 1
  {
    var i := IndexOf(items, id);
    if i < 0 then 0 else items[i].quantity
  }

  /** `addToCart`: increment the product's entry, or append `{id, 1}`. */
  function Added(items: seq<CartItem>, id: ProductId): (r: seq<CartItem>)
    ensures Has(items, id) ==> |r| == |items|
    ensures !Has(items, id) ==> r == items + [CartItem(id, 1)]
    ensures forall j :: 0 <= j < |items| && j != IndexOf(items, id) ==> r[j] == items[j]
    ensures Has(r, id)
  {
    var i := IndexOf(items, id);
    if i >= 0 then
      assert items[i := items[i].(quantity := items[i].quantity + 1)][i].productId == id;
      items[i := items[i].(quantity := items[i].quantity + 1)]
    else
      assert (items + [CartItem(id, 1)])[|items|].productId == id;
      items + [CartItem(id, 1)]
  }

  /** `addToCart(id)` raises the quantity recorded for `id` by exactly 1 and leaves every other product's as it was. */
  lemma AddedQuantity(items: seq<CartItem>, id: ProductId, q: ProductId)
    ensures QuantityOf(Added(items, id), q) == QuantityOf(items, q) + (if q == id then 1 else 0)
  {
    var i := IndexOf(items, id);
    var r := Added(items, id);
    if q == id {
      var k := if i >= 0 then i else |items|;
      assert r[k].productId == id;
      assert forall j :: 0 <= j < k ==> r[j].productId != id;
      var m := IndexOf(r, id);
      assert !(m < k) && !(k < m);
    } else {
      var k := IndexOf(items, q);
      if k >= 0 {
        assert r[k] == items[k];
        assert forall j :: 0 <= j < k ==> r[j].productId == items[j].productId;
      } else {
        assert forall j :: 0 <= j < |r| ==> r[j].productId != q;
      }
    }
  }

  /** `addToCart` keeps the ledger invariant: it neither duplicates an entry nor lowers a quantity. */
  lemma AddPreservesWellFormed(items: seq<CartItem>, id: ProductId)
    ensures WellFormed(items) ==> WellFormed(Added(items, id))
  {
  }

  /** `items.filter(item => item.productId != id)` */
  function Removed(items: seq<CartItem>, id: ProductId): (r: seq<CartItem>)
    ensures |r| <= |items|
    ensures forall e :: e in r <==> e in items && e.productId != id
    ensures !Has(r, id)
  {
    if items == [] then []
    else if items[0].productId == id then Removed(items[1..], id)
    else [items[0]] + Removed(items[1..], id)
  }

  lemma {:induction false} RemovedIsSubsequence(items: seq<CartItem>, id: ProductId)
    ensures IsSubsequence(Removed(items, id), items)
  {
    if items != [] {
      RemovedIsSubsequence(items[1..], id);
    }
  }

  /** Leaving entries out of a well-formed cart keeps it well formed. */
  lemma {:induction false} SubsequenceWellFormed(a: seq<CartItem>, b: seq<CartItem>)
    requires IsSubsequence(a, b) && WellFormed(b)
    ensures WellFormed(a)
    decreases |b|
  {
    if b != [] {
      if a != [] && a[0] == b[0] && IsSubsequence(a[1..], b[1..]) {
        SubsequenceWellFormed(a[1..], b[1..]);
        SubsequenceMembers(a[1..], b[1..]);
        assert forall e :: e in b[1..] ==> e.productId != b[0].productId by {
          forall e | e in b[1..] ensures e.productId != b[0].productId {
            var j :| 0 <= j < |b[1..]| && b[1..][j] == e;
            assert b[j + 1] == e;
          }
        }
        forall j | 0 < j < |a| ensures a[0].productId != a[j].productId {
          assert a[1..][j - 1] in b[1..];
        }
        assert forall i, j :: 0 < i < j < |a| ==> a[i].productId != a[j].productId by {
          forall i, j | 0 < i < j < |a| ensures a[i].productId != a[j].productId {
            assert a[1..][i - 1] == a[i] && a[1..][j - 1] == a[j];
          }
        }
        assert forall i :: 0 < i < |a| ==> a[i].quantity >= 1 by {
          forall i | 0 < i < |a| ensures a[i].quantity >= 1 {
            assert a[1..][i - 1] == a[i];
          }
        }
      } else {
        SubsequenceWellFormed(a, b[1..]);
      }
    }
  }

  /** `removeFromCart` keeps the ledger invariant. */
  lemma RemovePreservesWellFormed(items: seq<CartItem>, id: ProductId)
    ensures WellFormed(items) ==> WellFormed(Removed(items, id))
  {
    if WellFormed(items) {
      RemovedIsSubsequence(items, id);
      SubsequenceWellFormed(Removed(items, id), items);
    }
  }

  /** Removing a product that has no entry leaves the cart as it was. */
  lemma {:induction false} RemoveAbsentIsNoOp(items: seq<CartItem>, id: ProductId)
    requires !Has(items, id)
    ensures Removed(items, id) == items
  {
    if items != [] {
      assert items[0].productId != id;
      assert forall j :: 0 <= j < |items[1..]| ==> items[1..][j] == items[j + 1];
      RemoveAbsentIsNoOp(items[1..], id);
      assert items == [items[0]] + items[1..];
    }
  }

  lemma QuantityOfCons(items: seq<CartItem>, q: ProductId)
    requires items != []
    ensures QuantityOf(items, q) ==
      if items[0].productId == q then items[0].quantity else QuantityOf(items[1..], q)
  {
  }

  /** After `removeFromCart(id)` the cart records nothing for `id` and the same quantity as before for every other product. */
  lemma {:induction false} RemovedQuantity(items: seq<CartItem>, id: ProductId, q: ProductId)
    ensures QuantityOf(Removed(items, id), q) == if q == id then 0 else QuantityOf(items, q)
  {
    if items != [] {
      RemovedQuantity(items[1..], id, q);
      QuantityOfCons(items, q);
      if items[0].productId != id {
        QuantityOfCons(Removed(items, id), q);
        assert Removed(items, id)[1..] == Removed(items[1..], id);
      }
    }
  }

  lemma {:induction false} RemovedAppend(items: seq<CartItem>, e: CartItem, id: ProductId)
    requires e.productId == id
    ensures Removed(items + [e], id) == Removed(items, id)
  {
    if items == [] {
      assert items + [e] == [e];
    } else {
      assert (items + [e])[1..] == items[1..] + [e];
      RemovedAppend(items[1..], e, id);
    }
  }

  lemma {:induction false} RemovedUpdate(items: seq<CartItem>, i: nat, e: CartItem, id: ProductId)
    requires i < |items| && items[i].productId == id && e.productId == id
    ensures Removed(items[i := e], id) == Removed(items, id)
  {
    if i > 0 {
      assert items[i := e][1..] == items[1..][i - 1 := e];
      RemovedUpdate(items[1..], i - 1, e, id);
    } else {
      assert items[i := e][1..] == items[1..];
    }
  }

  /** Removing a product undoes every `addToCart` of it: `removeFromCart(id)` after `addToCart(id)` gives what `removeFromCart(id)` alone gives. */
  lemma RemoveAfterAdd(items: seq<CartItem>, id: ProductId)
    ensures Removed(Added(items, id), id) == Removed(items, id)
  {
    var i := IndexOf(items, id);
    if i >= 0 {
      assert Added(items, id) == items[i := items[i].(quantity := items[i].quantity + 1)];
      RemovedUpdate(items, i, items[i].(quantity := items[i].quantity + 1), id);
    } else {
      RemovedAppend(items, CartItem(id, 1), id);
    }
  }

  /** Adding the same product twice to an empty cart yields one entry of quantity 2. */
  lemma AddTwiceToEmpty(id: ProductId)
    ensures Added(Added([], id), id) == [CartItem(id, 2)]
  {
    assert Added([], id) == [CartItem(id, 1)];
    assert IndexOf([CartItem(id, 1)], id) == 0;
  }

  /** One record of `getCart`: the product's fields and the cart entry's quantity. */
  datatype CartLine = CartLine(product: Product, quantity: int)

  /** The store product each record of `getCart` carries. */
  function ProductsOf(lines: seq<CartLine>): (r: seq<Product>)
    ensures |r| == |lines|
    ensures forall k :: 0 <= k < |lines| ==> r[k] == lines[k].product
  {
    seq(|lines|, k requires 0 <= k < |lines| => lines[k].product)
  }

  /**
   * `getCart` once `cart.items` exists: the products of the store whose id is
   * in the cart, in the store's order (`Product.find({ _id: { $in: ids } })`),
   * each with the quantity of its cart entry.
   */
  function Joined(items: seq<CartItem>, products: seq<Product>): (r: seq<CartLine>)
    ensures |r| <= |products|
    ensures forall l :: l in r ==>
      l.product in products && Has(items, l.product.id) && l.quantity == QuantityOf(items, l.product.id)
    ensures forall p :: p in products && Has(items, p.id) ==> CartLine(p, QuantityOf(items, p.id)) in r
    ensures IsSubsequence(ProductsOf(r), products)
  {
    if products == [] then []
    else
      var rest := Joined(items, products[1..]);
      if Has(items, products[0].id) then
        var r := [CartLine(products[0], QuantityOf(items, products[0].id))] + rest;
        assert ProductsOf(r)[1..] == ProductsOf(rest);
        r
      else rest
  }

  /**
   * Each cart entry whose product is in the store gives a line with its
   * quantity; an entry whose product is gone gives none.
   */
  lemma JoinedEntry(items: seq<CartItem>, products: seq<Product>, k: nat)
    requires WellFormed(items) && k < |items|
    ensures FindProduct(products, items[k].productId).Some? ==>
      CartLine(FindProduct(products, items[k].productId).value, items[k].quantity) in Joined(items, products)
    ensures FindProduct(products, items[k].productId).None? ==>
      forall l :: l in Joined(items, products) ==> l.product.id != items[k].productId
  {
    var id := items[k].productId;
    assert Has(items, id);
    assert IndexOf(items, id) == k;
  }
}
