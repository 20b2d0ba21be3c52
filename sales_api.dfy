/** The sales handlers: creating a sale, which walks its line items, checks
    and decrements stock in place and writes one sale-item row per accepted
    item; and the two reads, the date-windowed listing and the single sale.

    The item loop is specified by `Run`, a fold of `Step` over the items;
    the lemmas about `Run` carry what the handler promises, and the handler's
    contract ties the store it leaves behind to `Run`. */
module SalesApi {
  import opened Common
  import opened Schemas
  import opened Models
  import opened Store

  /** Below this quantity a product is low on stock. */
  const LowStockThreshold: int := 5

  /** The status after a decrement to `q`: out of stock at or below zero,
      low below the threshold, and otherwise the status the row had. */
  function StatusAfterSale(q: int, prev: StockStatus): (s: StockStatus)
    ensures q < LowStockThreshold ==> s == DerivedStatus(q)
    ensures q >= LowStockThreshold ==> s == prev
  {
    if q <= 0 then OutOfStock
    else if q < LowStockThreshold then LowStock
    else prev
  }

  /** A two-sided rule that also resets a well-stocked row to in stock. */
  function DerivedStatus(q: int): StockStatus {
    if q <= 0 then OutOfStock
    else if q < LowStockThreshold then LowStock
    else InStock
  }

  /** The one-sided rule agrees with the two-sided one exactly when the
      quantity is below the threshold or the row already said in stock. */
  lemma StatusRuleIsOneSided(q: int, prev: StockStatus)
    ensures StatusAfterSale(q, prev) == DerivedStatus(q) <==> q < LowStockThreshold || prev == InStock
    ensures q >= LowStockThreshold ==> StatusAfterSale(q, prev) == prev
  {
  }

  /** A second decrement to a lower quantity decides the status as if the
      row had only been decremented once. */
  lemma StatusAfterSaleTwice(q: int, q': int, prev: StockStatus)
    requires q <= q'
    ensures StatusAfterSale(q, StatusAfterSale(q', prev)) == StatusAfterSale(q, prev)
  {
  }

  /** The sale header the handler writes: the caller's id, the customer
      fields, the total and the payment method copied from the request, and
      the server's timestamp. */
  function NewSale(id: int, userId: int, s: SaleCreate, now: int): (h: Sale)
    ensures h.id == id && h.userId == userId && h.createdAt == now
    ensures h.customerName == s.customerName && h.customerEmail == s.customerEmail
    ensures h.customerPhone == s.customerPhone
    ensures h.totalAmount == s.totalAmount && h.paymentMethod == s.paymentMethod
  {
    Sale(id, userId, s.customerName, s.customerEmail, s.customerPhone, s.totalAmount, s.paymentMethod, now)
  }

  /** The sale-item row written for an accepted item. */
  function ItemRow(id: int, saleId: int, item: SaleItemCreate): SaleItem {
    SaleItem(id, saleId, item.productId, item.quantity, item.unitPrice, item.totalPrice)
  }

  /** The part of the store the item loop changes, the sale-item rows it has
      added, the next sale-item id, and the error that stopped it, if any. */
  datatype SaleProgress = SaleProgress(
    inventory: map<int, InventoryItem>,
    rows: seq<SaleItem>,
    nextItemId: int,
    failure: Option<Error>)

  /** One pass of the item loop. Once a failure is recorded nothing more
      happens. A missing product fails with an error naming the product id;
      a missing inventory row or too little stock fails with an error naming
      the product; otherwise a row is added and the inventory row is
      decremented in place and given its new status. A failing check
      records its error and changes nothing else. */
  function Step(products: map<int, Product>, saleId: int, st: SaleProgress, item: SaleItemCreate): (r: SaleProgress)
    ensures st.failure.Some? ==> r == st
    ensures r.failure.Some? ==> r.inventory == st.inventory && r.rows == st.rows && r.nextItemId == st.nextItemId
  {
    var pid := item.productId;
    if st.failure.Some? then st
    else if pid !in products then st.(failure := Some(ProductIdNotFound(pid)))
    else if pid !in st.inventory || st.inventory[pid].quantity < item.quantity then
      st.(failure := Some(InsufficientInventory(products[pid].name)))
    else
      SaleProgress(Decrement(st.inventory, item), st.rows + [ItemRow(st.nextItemId, saleId, item)], st.nextItemId + 1, None)
  }

  /** The inventory after an accepted item: its product's row loses the
      item's quantity and takes the status that the new quantity calls for. */
  function Decrement(inventory: map<int, InventoryItem>, item: SaleItemCreate): (r: map<int, InventoryItem>)
    requires item.productId in inventory
    ensures r.Keys == inventory.Keys
    ensures forall pid :: pid in inventory && pid != item.productId ==> r[pid] == inventory[pid]
    ensures r[item.productId].quantity + item.quantity == inventory[item.productId].quantity
    ensures r[item.productId].status == StatusAfterSale(r[item.productId].quantity, inventory[item.productId].status)
    ensures r[item.productId].productId == inventory[item.productId].productId
    ensures r[item.productId].location == inventory[item.productId].location
  {
    var inv := inventory[item.productId];
    var q := inv.quantity - item.quantity;
    inventory[item.productId := inv.(quantity := q, status := StatusAfterSale(q, inv.status))]
  }

  /** One more item of the loop. */
  lemma RunNext(products: map<int, Product>, saleId: int, st: SaleProgress, items: seq<SaleItemCreate>, i: int)
    requires 0 <= i < |items|
    ensures Run(products, saleId, st, items[..i + 1]) == Step(products, saleId, Run(products, saleId, st, items[..i]), items[i])
  {
    assert items[..i + 1][..i] == items[..i];
  }

  /** The item loop over `items`, from state `st`. A run that starts after
      a failure does nothing: the `raise` has already left the loop. */
  function Run(products: map<int, Product>, saleId: int, st: SaleProgress, items: seq<SaleItemCreate>): (r: SaleProgress)
    ensures st.failure.Some? ==> r == st
    decreases |items|
  {
    if items == [] then st
    else Step(products, saleId, Run(products, saleId, st, items[..|items| - 1]), items[|items| - 1])
  }

  /** The total quantity of `pid` that `items` ask for. */
  function QuantityOf(items: seq<SaleItemCreate>, pid: int): int
    decreases |items|
  {
    if items == [] then 0
    else QuantityOf(items[..|items| - 1], pid) + (if items[|items| - 1].productId == pid then items[|items| - 1].quantity else 0)
  }

  /** Some item of `items` names `pid`. */
  predicate Mentions(items: seq<SaleItemCreate>, pid: int) {
    exists i :: 0 <= i < |items| && items[i].productId == pid
  }

  /** Item `i` passes its checks in a run started at `inventory`: its product
      exists, has an inventory row, and the row still holds the item's
      quantity after the items before it of the same product have been taken. */
  predicate Admits(products: map<int, Product>, inventory: map<int, InventoryItem>, items: seq<SaleItemCreate>, i: int)
    requires 0 <= i < |items|
  {
    var pid := items[i].productId;
    pid in products && pid in inventory && QuantityOf(items[..i + 1], pid) <= inventory[pid].quantity
  }

  lemma RunSnoc(products: map<int, Product>, saleId: int, st: SaleProgress, items: seq<SaleItemCreate>, x: SaleItemCreate)
    ensures Run(products, saleId, st, items + [x]) == Step(products, saleId, Run(products, saleId, st, items), x)
  {
    assert (items + [x])[..|items|] == items;
  }

  lemma QuantityOfSnoc(items: seq<SaleItemCreate>, x: SaleItemCreate, pid: int)
    ensures QuantityOf(items + [x], pid) == QuantityOf(items, pid) + (if x.productId == pid then x.quantity else 0)
  {
    assert (items + [x])[..|items|] == items;
  }

  /** Running `a + b` is running `a`, then `b`. */
  lemma {:induction false} RunConcat(products: map<int, Product>, saleId: int, st: SaleProgress, a: seq<SaleItemCreate>, b: seq<SaleItemCreate>)
    ensures Run(products, saleId, st, a + b) == Run(products, saleId, Run(products, saleId, st, a), b)
    decreases |b|
  {
    if b == [] {
      assert a + b == a;
    } else {
      assert (a + b)[..|a + b| - 1] == a + b[..|b| - 1];
      RunConcat(products, saleId, st, a, b[..|b| - 1]);
    }
  }

  /** Once an item fails, the items after it are not looked at. */
  lemma RunStopsAtFailure(products: map<int, Product>, saleId: int, st: SaleProgress, a: seq<SaleItemCreate>, b: seq<SaleItemCreate>)
    requires Run(products, saleId, st, a).failure.Some?
    ensures Run(products, saleId, st, a + b) == Run(products, saleId, st, a)
  {
    RunConcat(products, saleId, st, a, b);
  }

  /** A run that ends in success succeeded on every prefix. */
  lemma {:induction false} RunPrefixSucceeds(products: map<int, Product>, saleId: int, st: SaleProgress, items: seq<SaleItemCreate>, k: nat)
    requires k <= |items|
    requires Run(products, saleId, st, items).failure.None?
    ensures Run(products, saleId, st, items[..k]).failure.None?
  {
    assert items[..k] + items[k..] == items;
    if Run(products, saleId, st, items[..k]).failure.Some? {
      RunStopsAtFailure(products, saleId, st, items[..k], items[k..]);
    }
  }

  /** A failed run failed at one item `k`: every item before it was accepted,
      the state is what item `k`'s checks left, so the error is the one that
      item raised, and no item after it changed anything. */
  lemma {:induction false} RunFailsAtOneItem(products: map<int, Product>, saleId: int, st: SaleProgress, items: seq<SaleItemCreate>)
    requires st.failure.None?
    requires Run(products, saleId, st, items).failure.Some?
    ensures exists k :: 0 <= k < |items| && Run(products, saleId, st, items[..k]).failure.None? &&
                        Run(products, saleId, st, items) == Step(products, saleId, Run(products, saleId, st, items[..k]), items[k])
    decreases |items|
  {
    var n := |items|;
    var prefix := items[..n - 1];
    if Run(products, saleId, st, prefix).failure.Some? {
      RunFailsAtOneItem(products, saleId, st, prefix);
      var k :| 0 <= k < |prefix| && Run(products, saleId, st, prefix[..k]).failure.None? &&
               Run(products, saleId, st, prefix) == Step(products, saleId, Run(products, saleId, st, prefix[..k]), prefix[k]);
      assert prefix[..k] == items[..k];
      assert Run(products, saleId, st, items[..k]).failure.None? &&
             Run(products, saleId, st, items) == Step(products, saleId, Run(products, saleId, st, items[..k]), items[k]);
    } else {
      assert Run(products, saleId, st, items[..n - 1]).failure.None? &&
             Run(products, saleId, st, items) == Step(products, saleId, Run(products, saleId, st, items[..n - 1]), items[n - 1]);
    }
  }

  /** A successful run added one row per item, in input order, each carrying
      the sale's id and the item's product id, quantity and prices, with
      consecutive row ids. */
  lemma {:induction false} RunRows(products: map<int, Product>, saleId: int, st: SaleProgress, items: seq<SaleItemCreate>)
    requires Run(products, saleId, st, items).failure.None?
    ensures && |Run(products, saleId, st, items).rows| == |st.rows| + |items|
            && Run(products, saleId, st, items).rows[..|st.rows|] == st.rows
            && Run(products, saleId, st, items).nextItemId == st.nextItemId + |items|
            && forall i :: 0 <= i < |items| ==> Run(products, saleId, st, items).rows[|st.rows| + i] == ItemRow(st.nextItemId + i, saleId, items[i])
    decreases |items|
  {
    if items != [] {
      var n := |items|;
      RunPrefixSucceeds(products, saleId, st, items, n - 1);
      RunRows(products, saleId, st, items[..n - 1]);
      var mid := Run(products, saleId, st, items[..n - 1]);
      var out := Run(products, saleId, st, items);
      assert out.rows == mid.rows + [ItemRow(mid.nextItemId, saleId, items[n - 1])];
      forall i | 0 <= i < n
        ensures out.rows[|st.rows| + i] == ItemRow(st.nextItemId + i, saleId, items[i])
      {
        if i < n - 1 {
          assert items[..n - 1][i] == items[i];
        }
      }
    }
  }

  /** Every run, failed or not, hands out one row id per row it adds. */
  lemma {:induction false} RunCountsRows(products: map<int, Product>, saleId: int, st: SaleProgress, items: seq<SaleItemCreate>)
    ensures |Run(products, saleId, st, items).rows| >= |st.rows|
    ensures Run(products, saleId, st, items).nextItemId == st.nextItemId + |Run(products, saleId, st, items).rows| - |st.rows|
    decreases |items|
  {
    if items != [] {
      RunCountsRows(products, saleId, st, items[..|items| - 1]);
    }
  }

  /** A run never adds or removes an inventory row. */
  lemma {:induction false} RunKeepsInventoryKeys(products: map<int, Product>, saleId: int, st: SaleProgress, items: seq<SaleItemCreate>)
    ensures Run(products, saleId, st, items).inventory.Keys == st.inventory.Keys
    decreases |items|
  {
    if items != [] {
      RunKeepsInventoryKeys(products, saleId, st, items[..|items| - 1]);
    }
  }

  /** A successful run took from each inventory row exactly the total
      quantity the items ask of its product, and left the rest of the row as
      it was. */
  lemma {:induction false} RunInventory(products: map<int, Product>, saleId: int, st: SaleProgress, items: seq<SaleItemCreate>)
    requires Run(products, saleId, st, items).failure.None?
    ensures forall pid :: pid in st.inventory ==>
              && pid in Run(products, saleId, st, items).inventory
              && Run(products, saleId, st, items).inventory[pid].quantity == st.inventory[pid].quantity - QuantityOf(items, pid)
              && Run(products, saleId, st, items).inventory[pid].productId == st.inventory[pid].productId
              && Run(products, saleId, st, items).inventory[pid].location == st.inventory[pid].location
    decreases |items|
  {
    RunKeepsInventoryKeys(products, saleId, st, items);
    if items != [] {
      var n := |items|;
      RunPrefixSucceeds(products, saleId, st, items, n - 1);
      RunInventory(products, saleId, st, items[..n - 1]);
      forall pid | pid in st.inventory
        ensures QuantityOf(items, pid) == QuantityOf(items[..n - 1], pid) + (if items[n - 1].productId == pid then items[n - 1].quantity else 0)
      {
        QuantityOfSnoc(items[..n - 1], items[n - 1], pid);
        assert items[..n - 1] + [items[n - 1]] == items;
      }
    }
  }

  /** After a successful run of items that each take a positive quantity,
      a row some item took from has the status the threshold rule gives its
      final quantity (starting from its old status), and a row no item took
      from is unchanged. */
  lemma {:induction false} RunStatus(products: map<int, Product>, saleId: int, st: SaleProgress, items: seq<SaleItemCreate>)
    requires forall i :: 0 <= i < |items| ==> items[i].quantity > 0
    requires Run(products, saleId, st, items).failure.None?
    ensures forall pid :: pid in st.inventory ==>
              && pid in Run(products, saleId, st, items).inventory
              && (Mentions(items, pid) ==> Run(products, saleId, st, items).inventory[pid].status == StatusAfterSale(Run(products, saleId, st, items).inventory[pid].quantity, st.inventory[pid].status))
              && (!Mentions(items, pid) ==> Run(products, saleId, st, items).inventory[pid] == st.inventory[pid])
    decreases |items|
  {
    RunKeepsInventoryKeys(products, saleId, st, items);
    if items != [] {
      var n := |items|;
      var prefix := items[..n - 1];
      var x := items[n - 1];
      RunPrefixSucceeds(products, saleId, st, items, n - 1);
      RunStatus(products, saleId, st, prefix);
      RunKeepsInventoryKeys(products, saleId, st, prefix);
      var mid := Run(products, saleId, st, prefix);
      var out := Run(products, saleId, st, items);
      forall pid | pid in st.inventory
        ensures Mentions(items, pid) ==> out.inventory[pid].status == StatusAfterSale(out.inventory[pid].quantity, st.inventory[pid].status)
        ensures !Mentions(items, pid) ==> out.inventory[pid] == st.inventory[pid]
      {
        if pid == x.productId {
          assert Mentions(items, pid) by { assert items[n - 1].productId == pid; }
          if Mentions(prefix, pid) {
            StatusAfterSaleTwice(out.inventory[pid].quantity, mid.inventory[pid].quantity, st.inventory[pid].status);
          }
        } else {
          assert Mentions(items, pid) <==> Mentions(prefix, pid) by {
            if Mentions(items, pid) {
              var i :| 0 <= i < n && items[i].productId == pid;
              assert prefix[i] == items[i];
            }
            if Mentions(prefix, pid) {
              var i :| 0 <= i < n - 1 && prefix[i].productId == pid;
              assert items[i] == prefix[i];
            }
          }
        }
      }
    }
  }

  /** No run drives a quantity below zero: each decrement is guarded by the
      stock check, so rows that start non-negative stay non-negative. */
  lemma {:induction false} RunNeverNegative(products: map<int, Product>, saleId: int, st: SaleProgress, items: seq<SaleItemCreate>)
    requires forall pid :: pid in st.inventory ==> st.inventory[pid].quantity >= 0
    ensures forall pid :: pid in Run(products, saleId, st, items).inventory ==> Run(products, saleId, st, items).inventory[pid].quantity >= 0
    decreases |items|
  {
    if items != [] {
      RunNeverNegative(products, saleId, st, items[..|items| - 1]);
    }
  }

  /** A run from a clean state succeeds exactly when every item passes its
      checks against the stock that the earlier items of the same product
      have left. */
  lemma {:induction false} RunSucceedsIff(products: map<int, Product>, saleId: int, st: SaleProgress, items: seq<SaleItemCreate>)
    requires st.failure.None?
    ensures Run(products, saleId, st, items).failure.None? <==>
            forall i :: 0 <= i < |items| ==> Admits(products, st.inventory, items, i)
    decreases |items|
  {
    if items != [] {
      var n := |items|;
      var prefix := items[..n - 1];
      var x := items[n - 1];
      RunSucceedsIff(products, saleId, st, prefix);
      forall i | 0 <= i < n - 1
        ensures Admits(products, st.inventory, prefix, i) == Admits(products, st.inventory, items, i)
      {
        assert prefix[..i + 1] == items[..i + 1];
      }
      var mid := Run(products, saleId, st, prefix);
      assert Run(products, saleId, st, items) == Step(products, saleId, mid, x);
      if mid.failure.None? {
        RunInventory(products, saleId, st, prefix);
        RunKeepsInventoryKeys(products, saleId, st, prefix);
        QuantityOfSnoc(prefix, x, x.productId);
        assert prefix + [x] == items[..n];
        assert items[..n] == items;
        assert Admits(products, st.inventory, items, n - 1) <==>
               x.productId in products && x.productId in mid.inventory && mid.inventory[x.productId].quantity >= x.quantity;
      }
    }
  }

  /** For items that each take a positive quantity, a run from a clean state
      succeeds exactly when every product named exists, has an inventory row,
      and the row holds the sale's whole demand for it. */
  lemma {:induction false} RunSucceedsIffStock(products: map<int, Product>, saleId: int, st: SaleProgress, items: seq<SaleItemCreate>)
    requires st.failure.None?
    requires forall i :: 0 <= i < |items| ==> items[i].quantity > 0
    ensures Run(products, saleId, st, items).failure.None? <==>
            forall i :: 0 <= i < |items| ==>
              && items[i].productId in products && items[i].productId in st.inventory
              && QuantityOf(items, items[i].productId) <= st.inventory[items[i].productId].quantity
    decreases |items|
  {
    RunSucceedsIff(products, saleId, st, items);
    if items != [] {
      var n := |items|;
      var prefix := items[..n - 1];
      var x := items[n - 1];
      assert items[..n] == items;
      RunSucceedsIffStock(products, saleId, st, prefix);
      forall pid ensures QuantityOf(items, pid) == QuantityOf(prefix, pid) + (if x.productId == pid then x.quantity else 0) {
        QuantityOfSnoc(prefix, x, pid);
        assert prefix + [x] == items;
      }
      if Run(products, saleId, st, items).failure.None? {
        RunPrefixSucceeds(products, saleId, st, items, n - 1);
        assert Admits(products, st.inventory, items, n - 1);
      } else {
        var i :| 0 <= i < n && !Admits(products, st.inventory, items, i);
        QuantityOfPrefix(items, i + 1, items[i].productId);
      }
    }
  }

  /** A sale that passed the request validator asks for positive
      quantities, so its loop succeeds exactly when the starting stock of
      each product named covers the sale's whole demand for it; and then
      every row the sale touched carries the threshold status of its new
      quantity, every other row is as it was, and no quantity is negative
      when none was before. */
  lemma ValidSaleOutcome(products: map<int, Product>, saleId: int, st: SaleProgress, sale: SaleCreate)
    requires ValidSaleCreate(sale)
    requires st.failure.None?
    requires forall pid :: pid in st.inventory ==> st.inventory[pid].quantity >= 0
    ensures Run(products, saleId, st, sale.items).failure.None? <==>
            forall i :: 0 <= i < |sale.items| ==>
              && sale.items[i].productId in products && sale.items[i].productId in st.inventory
              && QuantityOf(sale.items, sale.items[i].productId) <= st.inventory[sale.items[i].productId].quantity
    ensures Run(products, saleId, st, sale.items).failure.None? ==>
            forall pid :: pid in st.inventory ==>
              && pid in Run(products, saleId, st, sale.items).inventory
              && 0 <= Run(products, saleId, st, sale.items).inventory[pid].quantity
                    == st.inventory[pid].quantity - QuantityOf(sale.items, pid)
              && (Mentions(sale.items, pid) ==>
                    Run(products, saleId, st, sale.items).inventory[pid].status ==
                    StatusAfterSale(Run(products, saleId, st, sale.items).inventory[pid].quantity, st.inventory[pid].status))
              && (!Mentions(sale.items, pid) ==> Run(products, saleId, st, sale.items).inventory[pid] == st.inventory[pid])
  {
    forall i | 0 <= i < |sale.items|
      ensures sale.items[i].quantity > 0
    {
      assert ValidSaleItem(sale.items[i]);
    }
    RunSucceedsIffStock(products, saleId, st, sale.items);
    RunNeverNegative(products, saleId, st, sale.items);
    if Run(products, saleId, st, sale.items).failure.None? {
      RunInventory(products, saleId, st, sale.items);
      RunStatus(products, saleId, st, sale.items);
    }
  }

  /** With positive quantities, a prefix never asks for more than the whole. */
  lemma {:induction false} QuantityOfPrefix(items: seq<SaleItemCreate>, k: nat, pid: int)
    requires k <= |items|
    requires forall i :: 0 <= i < |items| ==> items[i].quantity > 0
    ensures QuantityOf(items[..k], pid) <= QuantityOf(items, pid)
    decreases |items|
  {
    if k < |items| {
      var n := |items|;
      assert items[..n - 1][..k] == items[..k];
      QuantityOfPrefix(items[..n - 1], k, pid);
    } else {
      assert items[..k] == items;
    }
  }

  /** The rows of the sale-item table that belong to sale `saleId`, in table
      order: the items the sale's `items` relationship loads. */
  function ItemsOf(table: seq<SaleItem>, saleId: int): (r: seq<SaleItem>)
    ensures forall i :: 0 <= i < |r| ==> r[i] in table && r[i].saleId == saleId
    ensures forall x :: x in table && x.saleId == saleId ==> x in r
    decreases |table|
  {
    if table == [] then []
    else ItemsOf(table[..|table| - 1], saleId) + (if table[|table| - 1].saleId == saleId then [table[|table| - 1]] else [])
  }

  lemma {:induction false} ItemsOfConcat(a: seq<SaleItem>, b: seq<SaleItem>, saleId: int)
    ensures ItemsOf(a + b, saleId) == ItemsOf(a, saleId) + ItemsOf(b, saleId)
    decreases |b|
  {
    if b == [] {
      assert a + b == a;
    } else {
      assert (a + b)[..|a + b| - 1] == a + b[..|b| - 1];
      ItemsOfConcat(a, b[..|b| - 1], saleId);
    }
  }

  /** A table of rows all belonging to `saleId` is its own item list. */
  lemma {:induction false} ItemsOfOwn(rows: seq<SaleItem>, saleId: int)
    requires forall i :: 0 <= i < |rows| ==> rows[i].saleId == saleId
    ensures ItemsOf(rows, saleId) == rows
    decreases |rows|
  {
    if rows != [] {
      var prefix := rows[..|rows| - 1];
      ItemsOfOwn(prefix, saleId);
      assert ItemsOf(rows, saleId) == ItemsOf(prefix, saleId) + [rows[|rows| - 1]];
      assert prefix + [rows[|rows| - 1]] == rows;
    }
  }

  /** A sale as the handlers return it: the header with its items. */
  datatype SaleView = SaleView(sale: Sale, items: seq<SaleItem>)

  /** Creating a sale. The header is written first; then each item is
      checked and, when accepted, recorded and taken from stock in place.
      An item that fails deletes the header and stops the loop, but the rows
      and decrements of the items accepted before it stay in the store. */
  method CreateSale(db: Session, sale: SaleCreate, currentUser: User, now: int) returns (r: Result<SaleView, Error>)
    requires db.Valid()
    requires ValidSaleCreate(sale)
    modifies db`sales, db`nextSaleId, db`inventory, db`saleItems, db`nextSaleItemId
    ensures db.Valid()
    ensures db.nextSaleId == old(db.nextSaleId) + 1
    ensures var header := NewSale(old(db.nextSaleId), currentUser.id, sale, now);
            var out := Run(db.products, header.id, SaleProgress(old(db.inventory), [], old(db.nextSaleItemId), None), sale.items);
            && db.inventory == out.inventory
            && db.saleItems == old(db.saleItems) + out.rows
            && db.nextSaleItemId == out.nextItemId
            && (out.failure.None? ==> r == Ok(SaleView(header, out.rows)) && db.sales == old(db.sales)[header.id := header])
            && (out.failure.Some? ==> r == Err(out.failure.value) && db.sales == old(db.sales))
    ensures r.Ok? ==> r.value.items == ItemsOf(db.saleItems, r.value.sale.id) && GetSale(db, r.value.sale.id) == r
  {
    var header := NewSale(db.nextSaleId, currentUser.id, sale, now);
    AddSale(db, header);
    ghost var table0 := db.saleItems;
    var failure := SellItems(db, header.id, sale.items);
    if failure.Some? {
      DropSale(db, header.id);
      return Err(failure.value);
    }
    NewRowsAreTheSale(db.products, header.id, SaleProgress(old(db.inventory), [], old(db.nextSaleItemId), None), sale.items, table0);
    r := Ok(SaleView(header, ItemsOf(db.saleItems, header.id)));
  }

  /** `db.add(db_sale); db.commit()`: the header is stored under the next
      sale id before any item is looked at. */
  method AddSale(db: Session, header: Sale)
    requires db.Valid()
    requires header.id == db.nextSaleId
    modifies db`sales, db`nextSaleId
    ensures db.Valid()
    ensures db.sales == old(db.sales)[header.id := header] && header.id !in old(db.sales)
    ensures db.nextSaleId == old(db.nextSaleId) + 1
  {
    db.sales := db.sales[header.id := header];
    db.nextSaleId := db.nextSaleId + 1;
  }

  /** `db.delete(db_sale)`: the header goes; its id is not handed out again. */
  method DropSale(db: Session, id: int)
    requires db.Valid()
    modifies db`sales
    ensures db.Valid()
    ensures db.sales == old(db.sales) - {id}
  {
    db.sales := db.sales - {id};
  }

  /** The item loop of a sale whose header has id `saleId`: it stops at the
      first item that fails and reports that item's error; the rows and
      decrements of the items before it are kept. */
  method SellItems(db: Session, saleId: int, items: seq<SaleItemCreate>) returns (failure: Option<Error>)
    requires db.Valid()
    requires saleId < db.nextSaleId
    modifies db`inventory, db`saleItems, db`nextSaleItemId
    ensures db.Valid()
    ensures var out := Run(db.products, saleId, SaleProgress(old(db.inventory), [], old(db.nextSaleItemId), None), items);
            && failure == out.failure
            && db.inventory == out.inventory
            && db.saleItems == old(db.saleItems) + out.rows
            && db.nextSaleItemId == out.nextItemId
  {
    ghost var st0 := SaleProgress(db.inventory, [], db.nextSaleItemId, None);
    ghost var table0 := db.saleItems;
    ghost var st := st0;
    var i := 0;
    while i < |items|
      invariant 0 <= i <= |items|
      invariant db.Valid()
      invariant st == Run(db.products, saleId, st0, items[..i]) && st.failure.None?
      invariant db.inventory == st.inventory
      invariant db.saleItems == table0 + st.rows
      invariant db.nextSaleItemId == st.nextItemId
    {
      RunNext(db.products, saleId, st0, items, i);
      failure := SellItem(db, saleId, st, items[i]);
      if failure.Some? {
        FailureIsFinal(db.products, saleId, st0, items, i + 1);
        return;
      }
      st := Step(db.products, saleId, st, items[i]);
      i := i + 1;
    }
    assert items[..i] == items;
    failure := None;
  }

  /** One pass of the item loop from progress `st`: the product check, the
      stock check, and, when both pass, the row and the decrement. */
  method SellItem(db: Session, saleId: int, ghost st: SaleProgress, item: SaleItemCreate) returns (failure: Option<Error>)
    requires db.Valid()
    requires saleId < db.nextSaleId
    requires st.failure.None? && db.inventory == st.inventory && db.nextSaleItemId == st.nextItemId
    modifies db`inventory, db`saleItems, db`nextSaleItemId
    ensures db.Valid()
    ensures failure == Step(db.products, saleId, st, item).failure
    ensures failure.Some? ==>
              db.inventory == old(db.inventory) && db.saleItems == old(db.saleItems) && db.nextSaleItemId == old(db.nextSaleItemId)
    ensures failure.None? ==>
              && db.inventory == Step(db.products, saleId, st, item).inventory
              && db.saleItems == old(db.saleItems) + [ItemRow(st.nextItemId, saleId, item)]
              && Step(db.products, saleId, st, item).rows == st.rows + [ItemRow(st.nextItemId, saleId, item)]
              && db.nextSaleItemId == Step(db.products, saleId, st, item).nextItemId
  {
    if item.productId !in db.products {
      return Some(ProductIdNotFound(item.productId));
    }
    if item.productId !in db.inventory || db.inventory[item.productId].quantity < item.quantity {
      return Some(InsufficientInventory(db.products[item.productId].name));
    }
    TakeItem(db, saleId, item);
    failure := None;
  }

  /** One accepted item: a sale-item row is added, and the product's
      inventory row is decremented in place and given its new status. */
  method TakeItem(db: Session, saleId: int, item: SaleItemCreate)
    requires db.Valid()
    requires saleId < db.nextSaleId
    requires item.productId in db.inventory && db.inventory[item.productId].quantity >= item.quantity
    modifies db`inventory, db`saleItems, db`nextSaleItemId
    ensures db.Valid()
    ensures db.saleItems == old(db.saleItems) + [ItemRow(old(db.nextSaleItemId), saleId, item)]
    ensures db.nextSaleItemId == old(db.nextSaleItemId) + 1
    ensures db.inventory == Decrement(old(db.inventory), item)
  {
    db.saleItems := db.saleItems + [ItemRow(db.nextSaleItemId, saleId, item)];
    db.nextSaleItemId := db.nextSaleItemId + 1;
    var inv := db.inventory[item.productId];
    inv := inv.(quantity := inv.quantity - item.quantity);
    if inv.quantity <= 0 {
      inv := inv.(status := OutOfStock);
    } else if inv.quantity < LowStockThreshold {
      inv := inv.(status := LowStock);
    }
    db.inventory := db.inventory[item.productId := inv];
  }

  /** A failure at item `k - 1` is the run's outcome over all the items. */
  lemma FailureIsFinal(products: map<int, Product>, saleId: int, st: SaleProgress, items: seq<SaleItemCreate>, k: nat)
    requires k <= |items|
    requires Run(products, saleId, st, items[..k]).failure.Some?
    ensures Run(products, saleId, st, items) == Run(products, saleId, st, items[..k])
  {
    RunStopsAtFailure(products, saleId, st, items[..k], items[k..]);
    assert items[..k] + items[k..] == items;
  }

  /** The items a new sale reports are exactly the rows its run added,
      because no earlier row carries the new sale's id. */
  lemma NewRowsAreTheSale(products: map<int, Product>, saleId: int, st: SaleProgress, items: seq<SaleItemCreate>,
                          table: seq<SaleItem>)
    requires st.rows == []
    requires Run(products, saleId, st, items).failure.None?
    requires forall i :: 0 <= i < |table| ==> table[i].saleId < saleId
    ensures ItemsOf(table + Run(products, saleId, st, items).rows, saleId) == Run(products, saleId, st, items).rows
  {
    var out := Run(products, saleId, st, items);
    RunRows(products, saleId, st, items);
    ItemsOfConcat(table, out.rows, saleId);
    ItemsOfOwn(out.rows, saleId);
    assert ItemsOf(table, saleId) == [];
  }

  /** A sale of an accepted item followed by an item whose product is
      missing fails, yet the first item's row and decrement stay. */
  lemma AbortKeepsEarlierItems(products: map<int, Product>, saleId: int, st: SaleProgress, a: SaleItemCreate, b: SaleItemCreate)
    requires st.failure.None?
    requires a.productId in products && a.productId in st.inventory && st.inventory[a.productId].quantity >= a.quantity
    requires b.productId !in products
    ensures Run(products, saleId, st, [a, b]).failure == Some(ProductIdNotFound(b.productId))
    ensures Run(products, saleId, st, [a, b]).rows == st.rows + [ItemRow(st.nextItemId, saleId, a)]
    ensures a.productId in Run(products, saleId, st, [a, b]).inventory
    ensures Run(products, saleId, st, [a, b]).inventory[a.productId].quantity == st.inventory[a.productId].quantity - a.quantity
  {
    RunSnoc(products, saleId, st, [], a);
    assert [] + [a] == [a];
    RunSnoc(products, saleId, st, [a], b);
    assert [a] + [b] == [a, b];
  }

  /** Creating a sale all or nothing: as `CreateSale`, but a failing item
      also restores the inventory and sale-item rows it found. */
  method CreateSaleAtomic(db: Session, sale: SaleCreate, currentUser: User, now: int) returns (r: Result<SaleView, Error>)
    requires db.Valid()
    requires ValidSaleCreate(sale)
    modifies db`sales, db`nextSaleId, db`inventory, db`saleItems, db`nextSaleItemId
    ensures db.Valid()
    ensures var header := NewSale(old(db.nextSaleId), currentUser.id, sale, now);
            var out := Run(db.products, header.id, SaleProgress(old(db.inventory), [], old(db.nextSaleItemId), None), sale.items);
            && (out.failure.None? ==>
                  && r == Ok(SaleView(header, out.rows))
                  && db.sales == old(db.sales)[header.id := header]
                  && db.inventory == out.inventory
                  && db.saleItems == old(db.saleItems) + out.rows)
            && (out.failure.Some? ==>
                  && r == Err(out.failure.value)
                  && db.sales == old(db.sales)
                  && db.inventory == old(db.inventory)
                  && db.saleItems == old(db.saleItems))
            && db.nextSaleItemId == out.nextItemId
    ensures db.nextSaleId == old(db.nextSaleId) + 1
  {
    var inventory0, saleItems0 := db.inventory, db.saleItems;
    RunCountsRows(db.products, db.nextSaleId, SaleProgress(db.inventory, [], db.nextSaleItemId, None), sale.items);
    r := CreateSale(db, sale, currentUser, now);
    if r.Err? {
      RollBack(db, inventory0, saleItems0);
    }
  }

  /** `db.rollback()` of the item loop's writes: the inventory and the
      sale-item table get back their contents from before the sale. */
  method RollBack(db: Session, inventory: map<int, InventoryItem>, saleItems: seq<SaleItem>)
    requires db.Valid()
    requires forall k :: k in inventory ==> inventory[k].productId == k && k in db.products
    requires forall i :: 0 <= i < |saleItems| ==> saleItems[i].id < db.nextSaleItemId && saleItems[i].saleId < db.nextSaleId
    modifies db`inventory, db`saleItems
    ensures db.Valid()
    ensures db.inventory == inventory && db.saleItems == saleItems
  {
    db.inventory, db.saleItems := inventory, saleItems;
  }

  // ----- reading sales -----

  /** The first second of day number `day`: dates are midnight timestamps
      of 86400-second days. */
  function DayStart(day: int): int {
    day * 86400
  }

  /** The day a timestamp falls on. */
  function DayOf(t: int): int {
    t / 86400
  }

  /** The date filters of the listing: on or after the start day's first
      second, and before the first second of the day after the end day. So
      the window keeps exactly the sales made on the start day, the end day
      or a day between them: both ends are inclusive. */
  predicate InWindow(createdAt: int, startDate: Option<int>, endDate: Option<int>): (b: bool)
    ensures b <==>
            && (startDate.None? || DayOf(createdAt) >= startDate.value)
            && (endDate.None? || DayOf(createdAt) <= endDate.value)
  {
    var d := DayOf(createdAt);
    assert DayStart(d) <= createdAt < DayStart(d + 1);
    && (startDate.None? || createdAt >= DayStart(startDate.value))
    && (endDate.None? || createdAt < DayStart(endDate.value + 1))
  }

  /** The sales of `rows` inside the window, in their order. */
  function FilterWindow(rows: seq<Sale>, startDate: Option<int>, endDate: Option<int>): (r: seq<Sale>)
    ensures |r| <= |rows|
    ensures forall i :: 0 <= i < |r| ==> r[i] in rows && InWindow(r[i].createdAt, startDate, endDate)
    ensures forall s :: s in rows && InWindow(s.createdAt, startDate, endDate) ==> s in r
    decreases |rows|
  {
    if rows == [] then []
    else
      var rest := FilterWindow(rows[1..], startDate, endDate);
      if InWindow(rows[0].createdAt, startDate, endDate) then [rows[0]] + rest else rest
  }

  /** Newest first: `ORDER BY created_at DESC`. */
  predicate NewestFirst(s: seq<Sale>) {
    forall i, j :: 0 <= i < j < |s| ==> s[i].createdAt >= s[j].createdAt
  }

  /** `x` placed before the first sale that is not newer than it. */
  function InsertNewest(x: Sale, s: seq<Sale>): (r: seq<Sale>)
    ensures multiset(r) == multiset(s) + multiset{x}
    ensures |r| == |s| + 1
    ensures s == [] ==> r == [x]
    ensures s != [] ==> r[0] == x || r[0] == s[0]
    decreases |s|
  {
    if s == [] then [x]
    else if x.createdAt >= s[0].createdAt then [x] + s
    else
      assert s == [s[0]] + s[1..];
      [s[0]] + InsertNewest(x, s[1..])
  }

  /** Inserting into a newest-first list keeps it newest first. */
  lemma {:induction false} InsertNewestOrdered(x: Sale, s: seq<Sale>)
    requires NewestFirst(s)
    ensures NewestFirst(InsertNewest(x, s))
    decreases |s|
  {
    if s != [] && x.createdAt < s[0].createdAt {
      var rest := InsertNewest(x, s[1..]);
      InsertNewestOrdered(x, s[1..]);
      assert rest[0].createdAt <= s[0].createdAt;
      assert InsertNewest(x, s) == [s[0]] + rest;
    }
  }

  /** The sales ordered newest first; ties keep their order. */
  function SortNewest(s: seq<Sale>): (r: seq<Sale>)
    ensures multiset(r) == multiset(s)
    ensures |r| == |s|
    decreases |s|
  {
    if s == [] then []
    else
      assert s == [s[0]] + s[1..];
      InsertNewest(s[0], SortNewest(s[1..]))
  }

  /** Sorting yields a newest-first list. */
  lemma {:induction false} SortNewestOrdered(s: seq<Sale>)
    ensures NewestFirst(SortNewest(s))
    decreases |s|
  {
    if s != [] {
      SortNewestOrdered(s[1..]);
      InsertNewestOrdered(s[0], SortNewest(s[1..]));
    }
  }

  /** Each sale with its items. */
  function WithItems(sales: seq<Sale>, table: seq<SaleItem>): (r: seq<SaleView>)
    ensures |r| == |sales|
    ensures forall i :: 0 <= i < |r| ==> r[i] == SaleView(sales[i], ItemsOf(table, sales[i].id))
  {
    seq(|sales|, i requires 0 <= i < |sales| => SaleView(sales[i], ItemsOf(table, sales[i].id)))
  }

  /** The sales inside the window, newest first, after OFFSET/LIMIT, each
      with its items. */
  function GetSales(db: Session, skip: nat, limit: nat, startDate: Option<int>, endDate: Option<int>): (r: seq<SaleView>)
    requires db.Valid()
    reads db
    ensures |r| <= limit
    ensures forall i :: 0 <= i < |r| ==>
              && r[i].sale in db.sales.Values
              && InWindow(r[i].sale.createdAt, startDate, endDate)
              && r[i].items == ItemsOf(db.saleItems, r[i].sale.id)
    ensures forall i, j :: 0 <= i < j < |r| ==> r[i].sale.createdAt >= r[j].sale.createdAt
    ensures skip == 0 && limit >= |db.sales| ==>
              forall k :: k in db.sales && InWindow(db.sales[k].createdAt, startDate, endDate) ==>
                exists i :: 0 <= i < |r| && r[i].sale == db.sales[k]
  {
    var page := SalesPage(db.sales, db.nextSaleId, skip, limit, startDate, endDate);
    SalesPageSound(db.sales, db.nextSaleId, skip, limit, startDate, endDate);
    if skip == 0 && limit >= |db.sales| then
      SalesPageComplete(db.sales, db.nextSaleId, limit, startDate, endDate);
      WithItems(page, db.saleItems)
    else
      WithItems(page, db.saleItems)
  }

  /** The headers a listing returns. */
  function SalesPage(sales: map<int, Sale>, next: int, skip: nat, limit: nat, startDate: Option<int>, endDate: Option<int>): seq<Sale> {
    Paginate(SortNewest(FilterWindow(Rows(sales, next), startDate, endDate)), skip, limit)
  }

  /** A page holds stored sales inside the window, newest first, at most
      `limit` of them. */
  lemma SalesPageSound(sales: map<int, Sale>, next: int, skip: nat, limit: nat, startDate: Option<int>, endDate: Option<int>)
    requires forall k :: k in sales ==> 1 <= k < next
    ensures |SalesPage(sales, next, skip, limit, startDate, endDate)| <= limit
    ensures NewestFirst(SalesPage(sales, next, skip, limit, startDate, endDate))
    ensures forall i :: 0 <= i < |SalesPage(sales, next, skip, limit, startDate, endDate)| ==>
              SalesPage(sales, next, skip, limit, startDate, endDate)[i] in sales.Values &&
              InWindow(SalesPage(sales, next, skip, limit, startDate, endDate)[i].createdAt, startDate, endDate)
  {
    var rows := Rows(sales, next);
    RowsAreStored(sales, next);
    var inWindow := FilterWindow(rows, startDate, endDate);
    var sorted := SortNewest(inWindow);
    var page := Paginate(sorted, skip, limit);
    SortNewestOrdered(inWindow);
    NewestFirstPage(sorted, skip, limit);
    forall i | 0 <= i < |page|
      ensures page[i] in sales.Values && InWindow(page[i].createdAt, startDate, endDate)
    {
      SortNewestMembers(inWindow, page[i]);
    }
  }

  /** Sorting neither adds nor drops a sale. */
  lemma SortNewestMembers(s: seq<Sale>, x: Sale)
    ensures x in SortNewest(s) <==> x in s
  {
    assert x in multiset(SortNewest(s)) <==> x in multiset(s);
  }

  /** A slice of a newest-first list is newest first and holds only its elements. */
  lemma NewestFirstPage(s: seq<Sale>, skip: nat, limit: nat)
    requires NewestFirst(s)
    ensures NewestFirst(Paginate(s, skip, limit))
    ensures forall x :: x in Paginate(s, skip, limit) ==> x in s
  {
    var page := Paginate(s, skip, limit);
    forall i, j | 0 <= i < j < |page| ensures page[i].createdAt >= page[j].createdAt {
      assert page[i] == s[skip + i] && page[j] == s[skip + j];
    }
    forall x | x in page ensures x in s {
      var i :| 0 <= i < |page| && page[i] == x;
      assert s[skip + i] == x;
    }
  }

  /** A first page large enough for the whole table holds every sale inside
      the window. */
  lemma SalesPageComplete(sales: map<int, Sale>, next: int, limit: nat, startDate: Option<int>, endDate: Option<int>)
    requires forall k :: k in sales ==> 1 <= k < next
    requires limit >= |sales|
    ensures forall k :: k in sales && InWindow(sales[k].createdAt, startDate, endDate) ==>
              sales[k] in SalesPage(sales, next, 0, limit, startDate, endDate)
  {
    var inWindow := FilterWindow(Rows(sales, next), startDate, endDate);
    WindowComplete(sales, next, startDate, endDate);
    var sorted := SortNewest(inWindow);
    PaginateAll(sorted, limit);
    forall k | k in sales && InWindow(sales[k].createdAt, startDate, endDate)
      ensures sales[k] in sorted
    {
      SortNewestMembers(inWindow, sales[k]);
    }
  }

  /** The date filter keeps every stored sale inside the window. */
  lemma WindowComplete(sales: map<int, Sale>, next: int, startDate: Option<int>, endDate: Option<int>)
    requires forall k :: k in sales ==> 1 <= k < next
    ensures |FilterWindow(Rows(sales, next), startDate, endDate)| <= |sales|
    ensures forall k :: k in sales && InWindow(sales[k].createdAt, startDate, endDate) ==>
              sales[k] in FilterWindow(Rows(sales, next), startDate, endDate)
  {
    RowsCover(sales, next);
  }

  /** A single sale with its items, or not found. */
  function GetSale(db: Session, saleId: int): (r: Result<SaleView, Error>)
    reads db
    ensures r.Ok? <==> saleId in db.sales
    ensures r.Ok? ==> r.value == SaleView(db.sales[saleId], ItemsOf(db.saleItems, saleId))
    ensures r.Err? ==> r.error == SaleNotFound
  {
    if saleId in db.sales then Ok(SaleView(db.sales[saleId], ItemsOf(db.saleItems, saleId))) else Err(SaleNotFound)
  }
}
