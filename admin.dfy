/**
 * The admin handlers of controllers/admin.js: the owner's product listing,
 * product creation, the owner-filtered edit and the delete with its image
 * removal and cart cleanup.
 */
module Admin {
  import opened Wrappers
  import opened Domain
  import opened Pagination
  import Cart
  import UserModel
  import Database

  /** `Product.find({ userId: actor })`, in store order. */
  function Owned(products: seq<Product>, actor: UserId): (r: seq<Product>)
    ensures |r| <= |products|
    ensures forall p :: p in r <==> p in products && p.userId == actor
    ensures forall p :: multiset(r)[p] == if p.userId == actor then multiset(products)[p] else 0
    ensures IsSubsequence(r, products)
  {
    if products == [] then []
    else
      var rest := Owned(products[1..], actor);
      assert multiset(products) == multiset([products[0]]) + multiset(products[1..]) by {
        assert products == [products[0]] + products[1..];
      }
      if products[0].userId == actor then [products[0]] + rest else rest
  }

  /** admin `getProducts`: only the acting user's products are counted and paged. */
  function OwnListing(products: seq<Product>, actor: UserId, q: PageParam): (r: Listing<Product>)
    ensures r.StoreError? <==> q.Number? && q.n < 0
    ensures r.Listed? ==> forall p :: p in r.view.items ==> p in products && p.userId == actor
    ensures r.Listed? ==> r.view.lastPage == LastPage(|Owned(products, actor)|)
    ensures r.Listed? ==> PageNumber(q) >= 1 && r.view.currentPage == PageNumber(q)
    ensures r.Listed? ==> r.view.items == PageSlice(Owned(products, actor), PageNumber(q))
    ensures r.Listed? ==> r.view.nextPage == PageNumber(q) + 1 && r.view.previousPage == PageNumber(q) - 1
    ensures r.Listed? ==> (r.view.hasPreviousPage <==> PageNumber(q) > 1)
    ensures r.Listed? ==> (r.view.hasNextPage <==> ItemsPerPage * r.view.currentPage < |Owned(products, actor)|)
  {
    Paginate(Owned(products, actor), PageNumber(q))
  }

  /** The image files after multer has stored the upload, if one was accepted. */
  function Uploaded(files: set<string>, image: Option<string>): (r: set<string>)
    ensures image.None? ==> r == files
    ensures image.Some? ==> image.value in r && r - {image.value} == files - {image.value}
  {
    if image.Some? then files + {image.value} else files
  }

  /**
   * `postAddProduct`: without an uploaded image, or with validation errors,
   * the form is shown again with status 422; otherwise the product is created
   * with the uploaded path as `imageUrl` and the acting user as owner.
   * An accepted upload is on disk before the handler runs, so it stays there
   * even when no product is created. `productId` is the fresh id the store
   * gives the new document.
   */
  method PostAddProduct(store: Database.Store, actor: UserId, image: Option<string>, errors: seq<string>,
                        title: string, price: int, description: string, productId: ProductId)
    returns (resp: Response)
    requires store.Valid()
    requires forall p :: p in store.products ==> p.id != productId
    modifies store`products, store`files
    ensures store.Valid()
    ensures store.files == Uploaded(old(store.files), image)
    ensures image.None? ==>
      resp == Render(422, "Attached file is not an image") && store.products == old(store.products)
    ensures image.Some? && errors != [] ==>
      resp == Render(422, errors[0]) && store.products == old(store.products)
    ensures image.Some? && errors == [] ==>
      && resp == Redirect("/admin/products")
      && store.products == old(store.products) + [Product(productId, title, price, description, image.value, actor)]
  {
    store.files := Uploaded(store.files, image);
    if image.None? {
      return Render(422, "Attached file is not an image");
    }
    if errors != [] {
      return Render(422, errors[0]);
    }
    store.products := store.products + [Product(productId, title, price, description, image.value, actor)];
    resp := Redirect("/admin/products");
  }

  /** `Product.findOne({ _id: id, userId: actor })`: the index of the first match, or -1. */
  function OwnedIndex(products: seq<Product>, id: ProductId, actor: UserId): (i: int)
    ensures -1 <= i < |products|
    ensures i >= 0 ==> products[i].id == id && products[i].userId == actor
    ensures i < 0 <==> forall p :: p in products ==> !(p.id == id && p.userId == actor)
  {
    if products == [] then -1
    else if products[0].id == id && products[0].userId == actor then 0
    else
      var k := OwnedIndex(products[1..], id, actor);
      if k < 0 then -1 else k + 1
  }

  /** The fields an edit assigns: title, description and price, and the image path only when a file was uploaded. */
  function Edited(p: Product, title: string, price: int, description: string, image: Option<string>): (r: Product)
    ensures r.id == p.id && r.userId == p.userId
    ensures r.title == title && r.price == price && r.description == description
    ensures r.imageUrl == image.GetOr(p.imageUrl)
  {
    p.(title := title, description := description, price := price, imageUrl := image.GetOr(p.imageUrl))
  }

  /**
   * `postEditProduct`: with validation errors the form is shown again; a
   * product that does not exist or is not the actor's is left alone with a
   * redirect to "/"; otherwise its fields are replaced in place, and a new
   * image replaces the old one, whose file is deleted. An accepted upload is
   * on disk before the handler runs, whichever way it answers.
   */
  method PostEditProduct(store: Database.Store, actor: UserId, errors: seq<string>, productId: ProductId,
                         title: string, price: int, description: string, image: Option<string>)
    returns (resp: Response)
    requires store.Valid()
    modifies store`products, store`files
    ensures store.Valid()
    ensures errors != [] ==>
      && resp == Render(200, errors[0]) && store.products == old(store.products)
      && store.files == Uploaded(old(store.files), image)
    ensures errors == [] && OwnedIndex(old(store.products), productId, actor) < 0 ==>
      && resp == Redirect("/") && store.products == old(store.products)
      && store.files == Uploaded(old(store.files), image)
    ensures var i := OwnedIndex(old(store.products), productId, actor);
      errors == [] && i >= 0 ==>
        && resp == Redirect("/admin/products")
        && store.products == old(store.products)[i := Edited(old(store.products)[i], title, price, description, image)]
        && store.files == if image.Some? then Uploaded(old(store.files), image) - {old(store.products)[i].imageUrl}
                          else old(store.files)
  {
    store.files := Uploaded(store.files, image);
    if errors != [] {
      return Render(200, errors[0]);
    }
    var i := OwnedIndex(store.products, productId, actor);
    if i < 0 {
      return Redirect("/");
    }
    var product := store.products[i];
    if image.Some? {
      store.files := store.files - {product.imageUrl};
    }
    store.products := store.products[i := Edited(product, title, price, description, image)];
    resp := Redirect("/admin/products");
  }

  /** `Product.findOneAndRemove({ _id: id, userId: actor })` */
  function WithoutOwned(products: seq<Product>, id: ProductId, actor: UserId): (r: seq<Product>)
    ensures forall p :: p in r <==> p in products && !(p.id == id && p.userId == actor)
    ensures (forall p :: p in products ==> !(p.id == id && p.userId == actor)) ==> r == products
    ensures IsSubsequence(r, products)
  {
    if products == [] then []
    else
      var rest := WithoutOwned(products[1..], id, actor);
      if products[0].id == id && products[0].userId == actor then rest
      else [products[0]] + rest
  }

  /** Deleting keeps the store's ids unique. */
  lemma {:induction false} WithoutOwnedUnique(products: seq<Product>, id: ProductId, actor: UserId)
    requires UniqueProductIds(products)
    ensures UniqueProductIds(WithoutOwned(products, id, actor))
  {
    if products != [] {
      var tail := products[1..];
      assert UniqueProductIds(tail) by {
        forall i, j | 0 <= i < j < |tail| ensures tail[i].id != tail[j].id {
          assert tail[i] == products[i + 1] && tail[j] == products[j + 1];
        }
      }
      WithoutOwnedUnique(tail, id, actor);
      if !(products[0].id == id && products[0].userId == actor) {
        var rest := WithoutOwned(tail, id, actor);
        forall p | p in rest ensures p.id != products[0].id {
          var j :| 0 <= j < |tail| && tail[j] == p;
          assert products[j + 1] == p;
        }
        UniqueCons(products[0], rest);
      }
    }
  }

  lemma UniqueCons(p: Product, rest: seq<Product>)
    requires UniqueProductIds(rest) && forall q :: q in rest ==> q.id != p.id
    ensures UniqueProductIds([p] + rest)
  {
    var s := [p] + rest;
    forall i, j | 0 <= i < j < |s| ensures s[i].id != s[j].id {
      assert s[j] == rest[j - 1];
      if i > 0 {
        assert s[i] == rest[i - 1];
      }
    }
  }

  /**
   * `deleteProduct`: a missing product is an error and nothing changes.
   * Otherwise the image file is deleted first, whoever owns the product; the
   * product is removed only if the actor owns it; and the id is purged from
   * the acting user's cart (a record without an items array makes that throw:
   * the handler answers 500 after the removal).
   */
  method DeleteProduct(store: Database.Store, actor: UserModel.User, productId: ProductId) returns (resp: Response)
    requires store.Valid()
    modifies store`products, store`files, actor`items
    ensures store.Valid()
    ensures FindProduct(old(store.products), productId).None? ==>
      && resp == NextError("Product not found!")
      && store.products == old(store.products) && store.files == old(store.files) && actor.items == old(actor.items)
    ensures var found := FindProduct(old(store.products), productId);
      found.Some? ==>
        && store.files == old(store.files) - {found.value.imageUrl}
        && store.products == WithoutOwned(old(store.products), productId, actor.id)
        && (old(actor.items).Some? ==>
              actor.items == Some(Cart.Removed(old(actor.items).value, productId)) && resp == Json(200, "Success!"))
        && (old(actor.items).None? ==>
              actor.items == None && resp == Json(500, "Deleting product failed."))
  {
    var found := FindProduct(store.products, productId);
    if found.None? {
      return NextError("Product not found!");
    }
    store.files := store.files - {found.value.imageUrl};
    WithoutOwnedUnique(store.products, productId, actor.id);
    store.products := WithoutOwned(store.products, productId, actor.id);
    var ok := actor.RemoveFromCart(productId);
    resp := if ok then Json(200, "Success!") else Json(500, "Deleting product failed.");
  }

  /** A delete by someone other than the owner removes no product. */
  lemma DeleteByNonOwnerKeepsProduct(products: seq<Product>, id: ProductId, actor: UserId)
    requires UniqueProductIds(products)
    requires FindProduct(products, id).Some? && FindProduct(products, id).value.userId != actor
    ensures WithoutOwned(products, id, actor) == products
  {
    var p := FindProduct(products, id).value;
    forall q | q in products ensures !(q.id == id && q.userId == actor) {
      if q.id == id {
        var i :| 0 <= i < |products| && products[i] == q;
        var j :| 0 <= j < |products| && products[j] == p;
        assert i == j;
      }
    }
  }
}
