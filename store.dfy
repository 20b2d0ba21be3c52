/** The database session as an in-memory store: one map per table keyed by
    primary key (inventory keyed by product id), the sale-item table as a
    sequence of rows in insertion order, and one id counter per table that
    stands for the table's auto-increment key. */
module Store {
  import opened Common
  import opened Models

  class Session {
    var users: map<int, User>
    var categories: map<int, Category>
    var products: map<int, Product>
    var inventory: map<int, InventoryItem>
    var sales: map<int, Sale>
    var saleItems: seq<SaleItem>

    var nextUserId: int
    var nextCategoryId: int
    var nextProductId: int
    var nextSaleId: int
    var nextSaleItemId: int

    /** The store's invariant: keys match row ids and lie below the counters
        (which start at 1),
        every inventory row belongs to an existing product, and every sale
        item's own id and sale id were handed out before. */
    ghost predicate Valid()
      reads this
    {
      && 1 <= nextUserId && 1 <= nextCategoryId && 1 <= nextProductId && 1 <= nextSaleId
      && (forall k :: k in users ==> 1 <= k < nextUserId && users[k].id == k)
      && (forall k :: k in categories ==> 1 <= k < nextCategoryId && categories[k].id == k)
      && (forall k :: k in products ==> 1 <= k < nextProductId && products[k].id == k)
      && (forall k :: k in sales ==> 1 <= k < nextSaleId && sales[k].id == k)
      && (forall k :: k in inventory ==> inventory[k].productId == k && k in products)
      && (forall i :: 0 <= i < |saleItems| ==> saleItems[i].id < nextSaleItemId && saleItems[i].saleId < nextSaleId)
    }

    constructor ()
      ensures Valid()
      ensures users == map[] && categories == map[] && products == map[]
      ensures inventory == map[] && sales == map[] && saleItems == []
    {
      users, categories, products, inventory, sales, saleItems := map[], map[], map[], map[], map[], [];
      nextUserId, nextCategoryId, nextProductId, nextSaleId, nextSaleItemId := 1, 1, 1, 1, 1;
    }
  }
}
