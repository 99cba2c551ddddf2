/**
 * The document store the controllers read and write: the products in their
 * natural (insertion) order, the orders by id, and the image files on disk.
 */
module Database {
  import opened Domain

  class Store {
    var products: seq<Product>
    var orders: map<OrderId, Order>
    /** Paths of the image files on disk: the uploads multer has stored, less those `deleteFile` removed. */
    var files: set<string>

    predicate Valid()
      reads this
    {
      UniqueProductIds(products)
    }

    constructor ()
      ensures products == [] && orders == map[] && files == {}
      ensures Valid()
    {
      products := [];
      orders := map[];
      files := {};
    }
  }
}
