/** The catalogue handlers: categories, products and the inventory row of
    each product. Handlers that write are methods whose `modifies` names the
    tables they touch; handlers that only read are functions of the store. */
module InventoryApi {
  import opened Common
  import opened Schemas
  import opened Models
  import opened Store

  /** A product as reported to clients, with its stock. */
  datatype ProductWithStock = ProductWithStock(product: Product, currentStock: int, status: StockStatus)

  /** The stock projection shared by the single and the list read: the
      inventory row's quantity and status when the product has one, and
      quantity 0, out of stock, when it has none. */
  function WithStock(p: Product, inventory: map<int, InventoryItem>): (v: ProductWithStock)
    ensures v.product == p
    ensures p.id in inventory ==> v.currentStock == inventory[p.id].quantity && v.status == inventory[p.id].status
    ensures p.id !in inventory ==> v.currentStock == 0 && v.status == OutOfStock
  {
    if p.id in inventory then ProductWithStock(p, inventory[p.id].quantity, inventory[p.id].status)
    else ProductWithStock(p, 0, OutOfStock)
  }

  // ----- categories -----

  method CreateCategory(db: Session, c: CategoryCreate) returns (r: Category)
    requires db.Valid()
    modifies db`categories, db`nextCategoryId
    ensures db.Valid()
    ensures r == Category(old(db.nextCategoryId), c.name, c.description)
    ensures r.id !in old(db.categories) && db.categories == old(db.categories)[r.id := r]
    ensures db.nextCategoryId == old(db.nextCategoryId) + 1
    ensures ReadCategory(db, r.id) == Ok(r)
  {
    r := Category(db.nextCategoryId, c.name, c.description);
    db.categories := db.categories[r.id := r];
    db.nextCategoryId := db.nextCategoryId + 1;
  }

  /** Categories in id order, after OFFSET/LIMIT. */
  function ReadCategories(db: Session, skip: nat, limit: nat): (r: seq<Category>)
    requires db.Valid()
    reads db
    ensures |r| <= limit
    ensures forall i :: 0 <= i < |r| ==> r[i] in db.categories.Values
    ensures skip == 0 && limit >= |db.categories| ==>
              forall k :: k in db.categories ==> db.categories[k] in r
  {
    RowsCover(db.categories, db.nextCategoryId);
    Paginate(Rows(db.categories, db.nextCategoryId), skip, limit)
  }

  function ReadCategory(db: Session, id: int): (r: Result<Category, Error>)
    reads db
    ensures r.Ok? <==> id in db.categories
    ensures r.Ok? ==> r.value == db.categories[id]
    ensures r.Err? ==> r.error == CategoryNotFound
  {
    if id in db.categories then Ok(db.categories[id]) else Err(CategoryNotFound)
  }

  /** `setattr(category, key, value)` for one supplied field. */
  function SetCategoryAttr(c: Category, f: CategoryField): Category {
    match f
    case CategoryName(n) => c.(name := n)
    case CategoryDescription(d) => c.(description := d)
  }

  /** The reference meaning of a partial category update: each field takes
      the supplied value when the request set it and keeps its value when it
      did not; the id never changes. */
  function MergeCategory(c: Category, u: CategoryUpdate): (r: Category)
    ensures r.id == c.id
    ensures r.name == (if u.name.Set? then u.name.value else c.name)
    ensures r.description == (if u.description.Set? then u.description.value else c.description)
  {
    Category(c.id,
             if u.name.Set? then u.name.value else c.name,
             if u.description.Set? then u.description.value else c.description)
  }

  /** The setattr loop over the supplied fields is the partial update. */
  lemma {:induction false} CategoryUpdateIsMerge(c: Category, u: CategoryUpdate)
    ensures ApplyAll(SetCategoryAttr, c, CategoryUpdateData(u)) == MergeCategory(c, u)
  {
    var d1 := PatchEntry(u.name, n => CategoryName(n));
    ApplyAllPatch(SetCategoryAttr, c, [], u.name, n => CategoryName(n));
    assert [] + d1 == d1;
    ApplyAllPatch(SetCategoryAttr, c, d1, u.description, v => CategoryDescription(v));
  }

  method UpdateCategory(db: Session, id: int, u: CategoryUpdate) returns (r: Result<Category, Error>)
    requires db.Valid()
    modifies db`categories
    ensures db.Valid()
    ensures id !in old(db.categories) ==> r == Err(CategoryNotFound) && db.categories == old(db.categories)
    ensures id in old(db.categories) ==>
              && r == Ok(MergeCategory(old(db.categories[id]), u))
              && db.categories == old(db.categories)[id := r.value]
    ensures r.Ok? ==> ReadCategory(db, id) == r
  {
    if id !in db.categories {
      return Err(CategoryNotFound);
    }
    var data := CategoryUpdateData(u);
    var i := 0;
    while i < |data|
      invariant 0 <= i <= |data|
      invariant db.categories == old(db.categories)[id := ApplyAll(SetCategoryAttr, old(db.categories[id]), data[..i])]
    {
      assert data[..i + 1][..i] == data[..i];
      db.categories := db.categories[id := SetCategoryAttr(db.categories[id], data[i])];
      i := i + 1;
    }
    assert data[..i] == data;
    CategoryUpdateIsMerge(old(db.categories[id]), u);
    r := Ok(db.categories[id]);
  }

  /** Deleting a category removes that row only; products that still name it
      are left as they are. */
  method DeleteCategory(db: Session, id: int) returns (r: Result<(), Error>)
    requires db.Valid()
    modifies db`categories
    ensures db.Valid()
    ensures id !in old(db.categories) ==> r == Err(CategoryNotFound) && db.categories == old(db.categories)
    ensures id in old(db.categories) ==> r == Ok(()) && db.categories == old(db.categories) - {id}
    ensures ReadCategory(db, id) == Err(CategoryNotFound)
  {
    if id !in db.categories {
      return Err(CategoryNotFound);
    }
    db.categories := db.categories - {id};
    r := Ok(());
  }

  // ----- products -----

  /** `Product(**product.dict())` with the id the table hands out: every
      field of the request is copied, so a valid request gives a product
      with two positive prices. */
  function NewProduct(id: int, p: ProductCreate): (r: Product)
    ensures r.id == id && r.categoryId == p.categoryId && r.name == p.name
    ensures r.description == p.description && r.modelNumber == p.modelNumber
    ensures r.specifications == p.specifications && r.barcode == p.barcode && r.imageUrl == p.imageUrl
    ensures r.costPrice == p.costPrice && r.sellingPrice == p.sellingPrice
    ensures ValidProductCreate(p) ==> r.costPrice > 0.0 && r.sellingPrice > 0.0
  {
    Product(id, p.categoryId, p.name, p.description, p.modelNumber, p.specifications,
            p.costPrice, p.sellingPrice, p.barcode, p.imageUrl)
  }

  /** Creating a product checks its category, stores the product and seeds
      its inventory row with quantity 0, out of stock. */
  method CreateProduct(db: Session, p: ProductCreate) returns (r: Result<Product, Error>)
    requires db.Valid()
    requires ValidProductCreate(p)
    modifies db`products, db`inventory, db`nextProductId
    ensures db.Valid()
    ensures p.categoryId !in db.categories ==>
              && r == Err(CategoryNotFound)
              && db.products == old(db.products) && db.inventory == old(db.inventory)
              && db.nextProductId == old(db.nextProductId)
    ensures p.categoryId in db.categories ==>
              && r == Ok(NewProduct(old(db.nextProductId), p))
              && r.value.id !in old(db.products) && r.value.id !in old(db.inventory)
              && db.products == old(db.products)[r.value.id := r.value]
              && db.inventory == old(db.inventory)[r.value.id := InventoryItem(r.value.id, 0, None, OutOfStock)]
              && db.nextProductId == old(db.nextProductId) + 1
    ensures r.Ok? ==> ReadProduct(db, r.value.id) == Ok(ProductWithStock(r.value, 0, OutOfStock))
  {
    if p.categoryId !in db.categories {
      return Err(CategoryNotFound);
    }
    var product := NewProduct(db.nextProductId, p);
    db.products := db.products[product.id := product];
    db.nextProductId := db.nextProductId + 1;
    db.inventory := db.inventory[product.id := InventoryItem(product.id, 0, None, OutOfStock)];
    r := Ok(product);
  }

  /** `if category_id:` filters only on a truthy category id: no id, or id
      0, keeps every product; any other id keeps exactly its own products. */
  predicate CategoryFilter(p: Product, categoryId: Option<int>): (b: bool)
    ensures categoryId.None? || categoryId == Some(0) ==> b
    ensures categoryId.Some? && categoryId.value != 0 ==> (b <==> p.categoryId == categoryId.value)
  {
    categoryId.None? || categoryId.value == 0 || p.categoryId == categoryId.value
  }

  /** `if search:` filters only on a non-empty term; a product matches when
      its name, model number or description matches the term, where
      `ilike(column, term)` stands for the case-insensitive pattern match of
      the database and a NULL column matches nothing. */
  predicate SearchFilter(p: Product, search: Option<string>, ilike: (string, string) -> bool): (b: bool)
    ensures search.None? || search == Some("") ==> b
    ensures search.Some? && search.value != "" && ilike(p.name, search.value) ==> b
    ensures search.Some? && search.value != "" && p.modelNumber.None? && p.description.None? ==>
              (b <==> ilike(p.name, search.value))
  {
    || search.None? || search.value == ""
    || ilike(p.name, search.value)
    || (p.modelNumber.Some? && ilike(p.modelNumber.value, search.value))
    || (p.description.Some? && ilike(p.description.value, search.value))
  }

  predicate ProductMatches(p: Product, categoryId: Option<int>, search: Option<string>, ilike: (string, string) -> bool) {
    CategoryFilter(p, categoryId) && SearchFilter(p, search, ilike)
  }

  /** The rows of `rows` that pass both filters, in their order. */
  function FilterProducts(rows: seq<Product>, categoryId: Option<int>, search: Option<string>,
                          ilike: (string, string) -> bool): (r: seq<Product>)
    ensures |r| <= |rows|
    ensures forall i :: 0 <= i < |r| ==> r[i] in rows && ProductMatches(r[i], categoryId, search, ilike)
    ensures forall p :: p in rows && ProductMatches(p, categoryId, search, ilike) ==> p in r
    decreases |rows|
  {
    if rows == [] then []
    else
      var rest := FilterProducts(rows[1..], categoryId, search, ilike);
      if ProductMatches(rows[0], categoryId, search, ilike) then [rows[0]] + rest else rest
  }

  /** The products a listing returns before the stock is attached. */
  function ProductPage(products: map<int, Product>, next: int, skip: nat, limit: nat, categoryId: Option<int>,
                       search: Option<string>, ilike: (string, string) -> bool): seq<Product>
  {
    Paginate(FilterProducts(Rows(products, next), categoryId, search, ilike), skip, limit)
  }

  /** Each product with its stock, in order. */
  function WithStockAll(products: seq<Product>, inventory: map<int, InventoryItem>): (r: seq<ProductWithStock>)
    ensures |r| == |products|
    ensures forall i :: 0 <= i < |r| ==> r[i] == WithStock(products[i], inventory)
    decreases |products|
  {
    if products == [] then []
    else WithStockAll(products[..|products| - 1], inventory) + [WithStock(products[|products| - 1], inventory)]
  }

  /** What the product listing returns: the filtered page, each product with its stock. */
  function ProductListing(products: map<int, Product>, next: int, inventory: map<int, InventoryItem>, skip: nat,
                          limit: nat, categoryId: Option<int>, search: Option<string>,
                          ilike: (string, string) -> bool): seq<ProductWithStock>
  {
    WithStockAll(ProductPage(products, next, skip, limit, categoryId, search, ilike), inventory)
  }

  /** The product listing: filter, OFFSET/LIMIT, then a loop that attaches
      each product's stock. */
  method ReadProducts(db: Session, skip: nat, limit: nat, categoryId: Option<int>, search: Option<string>,
                      ilike: (string, string) -> bool) returns (r: seq<ProductWithStock>)
    requires db.Valid()
    ensures r == ProductListing(db.products, db.nextProductId, db.inventory, skip, limit, categoryId, search, ilike)
  {
    var results := ProductPage(db.products, db.nextProductId, skip, limit, categoryId, search, ilike);
    r := AttachStock(results, db.inventory);
  }

  /** The loop that pairs every product of the page with its stock. */
  method AttachStock(products: seq<Product>, inventory: map<int, InventoryItem>) returns (r: seq<ProductWithStock>)
    ensures r == WithStockAll(products, inventory)
  {
    r := [];
    var i := 0;
    while i < |products|
      invariant 0 <= i <= |products|
      invariant r == WithStockAll(products[..i], inventory)
    {
      assert products[..i + 1][..i] == products[..i];
      r := r + [WithStock(products[i], inventory)];
      i := i + 1;
    }
    assert products[..i] == products;
  }

  /** Every listed product is a stored product under its own id that passes
      the filters, shown with its stock; there are at most `limit` of them. */
  lemma ProductListingSound(products: map<int, Product>, next: int, inventory: map<int, InventoryItem>, skip: nat,
                            limit: nat, categoryId: Option<int>, search: Option<string>, ilike: (string, string) -> bool)
    requires forall k :: k in products ==> products[k].id == k
    ensures |ProductListing(products, next, inventory, skip, limit, categoryId, search, ilike)| <= limit
    ensures forall v :: v in ProductListing(products, next, inventory, skip, limit, categoryId, search, ilike) ==>
              && v.product.id in products && products[v.product.id] == v.product
              && ProductMatches(v.product, categoryId, search, ilike)
              && v == WithStock(v.product, inventory)
  {
    var listing := ProductListing(products, next, inventory, skip, limit, categoryId, search, ilike);
    var page := ProductPage(products, next, skip, limit, categoryId, search, ilike);
    ProductPageRows(products, next, skip, limit, categoryId, search, ilike);
    forall v | v in listing
      ensures v.product.id in products && products[v.product.id] == v.product
      ensures ProductMatches(v.product, categoryId, search, ilike) && v == WithStock(v.product, inventory)
    {
      var i :| 0 <= i < |listing| && listing[i] == v;
      assert v == WithStock(page[i], inventory);
    }
  }

  /** A first page large enough for the whole table lists every stored
      product that passes the filters, with its stock. */
  lemma ProductListingComplete(products: map<int, Product>, next: int, inventory: map<int, InventoryItem>,
                               limit: nat, categoryId: Option<int>, search: Option<string>, ilike: (string, string) -> bool)
    requires forall k :: k in products ==> 1 <= k < next
    requires limit >= |products|
    ensures forall k :: k in products && ProductMatches(products[k], categoryId, search, ilike) ==>
              WithStock(products[k], inventory) in ProductListing(products, next, inventory, 0, limit, categoryId, search, ilike)
  {
    var listing := ProductListing(products, next, inventory, 0, limit, categoryId, search, ilike);
    var page := ProductPage(products, next, 0, limit, categoryId, search, ilike);
    ProductPageComplete(products, next, limit, categoryId, search, ilike);
    forall k | k in products && ProductMatches(products[k], categoryId, search, ilike)
      ensures WithStock(products[k], inventory) in listing
    {
      var i :| 0 <= i < |page| && page[i] == products[k];
      assert listing[i] == WithStock(page[i], inventory);
    }
  }

  /** A first page large enough for the whole table lists every matching product. */
  lemma ProductPageComplete(products: map<int, Product>, next: int, limit: nat, categoryId: Option<int>,
                            search: Option<string>, ilike: (string, string) -> bool)
    requires forall k :: k in products ==> 1 <= k < next
    requires limit >= |products|
    ensures forall k :: k in products && ProductMatches(products[k], categoryId, search, ilike) ==>
              products[k] in ProductPage(products, next, 0, limit, categoryId, search, ilike)
  {
    var all := FilterProducts(Rows(products, next), categoryId, search, ilike);
    FilterComplete(products, next, categoryId, search, ilike);
    PaginateAll(all, limit);
  }

  /** The filters keep every stored product that matches them. */
  lemma FilterComplete(products: map<int, Product>, next: int, categoryId: Option<int>,
                       search: Option<string>, ilike: (string, string) -> bool)
    requires forall k :: k in products ==> 1 <= k < next
    ensures |FilterProducts(Rows(products, next), categoryId, search, ilike)| <= |products|
    ensures forall k :: k in products && ProductMatches(products[k], categoryId, search, ilike) ==>
              products[k] in FilterProducts(Rows(products, next), categoryId, search, ilike)
  {
    RowsCover(products, next);
  }

  /** Every product of a page is stored under its id and passes the filters. */
  lemma ProductPageRows(products: map<int, Product>, next: int, skip: nat, limit: nat, categoryId: Option<int>,
                        search: Option<string>, ilike: (string, string) -> bool)
    requires forall k :: k in products ==> products[k].id == k
    ensures |ProductPage(products, next, skip, limit, categoryId, search, ilike)| <= limit
    ensures forall i :: 0 <= i < |ProductPage(products, next, skip, limit, categoryId, search, ilike)| ==>
              var p := ProductPage(products, next, skip, limit, categoryId, search, ilike)[i];
              p.id in products && products[p.id] == p && ProductMatches(p, categoryId, search, ilike)
  {
    var rows := Rows(products, next);
    var all := FilterProducts(rows, categoryId, search, ilike);
    var page := ProductPage(products, next, skip, limit, categoryId, search, ilike);
    RowsAreStored(products, next);
    forall i | 0 <= i < |page|
      ensures page[i].id in products && products[page[i].id] == page[i]
      ensures ProductMatches(page[i], categoryId, search, ilike)
    {
      assert page[i] == all[skip + i];
      assert page[i] in rows;
      var k :| k in products && products[k] == page[i];
    }
  }

  function ReadProduct(db: Session, id: int): (r: Result<ProductWithStock, Error>)
    reads db
    ensures r.Ok? <==> id in db.products
    ensures r.Ok? ==> r.value == WithStock(db.products[id], db.inventory)
    ensures r.Err? ==> r.error == ProductNotFound
  {
    if id !in db.products then Err(ProductNotFound) else Ok(WithStock(db.products[id], db.inventory))
  }

  /** `setattr(product, key, value)` for one supplied field. */
  function SetProductAttr(p: Product, f: ProductField): Product {
    match f
    case ProductCategoryId(v) => p.(categoryId := v)
    case ProductName(v) => p.(name := v)
    case ProductDescription(v) => p.(description := v)
    case ProductModelNumber(v) => p.(modelNumber := v)
    case ProductSpecifications(v) => p.(specifications := v)
    case ProductCostPrice(v) => p.(costPrice := v)
    case ProductSellingPrice(v) => p.(sellingPrice := v)
    case ProductBarcode(v) => p.(barcode := v)
    case ProductImageUrl(v) => p.(imageUrl := v)
  }

  /** The reference meaning of a partial product update: each field takes
      the supplied value when the request set it and keeps its value when it
      did not; the id never changes. */
  function MergeProduct(p: Product, u: ProductUpdate): (r: Product)
    ensures r.id == p.id
    ensures r.categoryId == (if u.categoryId.Set? then u.categoryId.value else p.categoryId)
    ensures r.name == (if u.name.Set? then u.name.value else p.name)
    ensures r.description == (if u.description.Set? then u.description.value else p.description)
    ensures r.modelNumber == (if u.modelNumber.Set? then u.modelNumber.value else p.modelNumber)
    ensures r.specifications == (if u.specifications.Set? then u.specifications.value else p.specifications)
    ensures r.costPrice == (if u.costPrice.Set? then u.costPrice.value else p.costPrice)
    ensures r.sellingPrice == (if u.sellingPrice.Set? then u.sellingPrice.value else p.sellingPrice)
    ensures r.barcode == (if u.barcode.Set? then u.barcode.value else p.barcode)
    ensures r.imageUrl == (if u.imageUrl.Set? then u.imageUrl.value else p.imageUrl)
  {
    Product(p.id, Pick(u.categoryId, p.categoryId), Pick(u.name, p.name), Pick(u.description, p.description),
            Pick(u.modelNumber, p.modelNumber), Pick(u.specifications, p.specifications),
            Pick(u.costPrice, p.costPrice), Pick(u.sellingPrice, p.sellingPrice),
            Pick(u.barcode, p.barcode), Pick(u.imageUrl, p.imageUrl))
  }

  /** The setattr loop over the supplied fields is the partial update. */
  lemma {:induction false} ProductUpdateIsMerge(p: Product, u: ProductUpdate)
    ensures ApplyAll(SetProductAttr, p, ProductUpdateData(u)) == MergeProduct(p, u)
  {
    ApplyAllConcat(SetProductAttr, p, ProductDescriptiveData(u), ProductCommercialData(u));
    DescriptiveUpdate(p, u);
    CommercialUpdate(ApplyAll(SetProductAttr, p, ProductDescriptiveData(u)), u);
  }

  lemma {:induction false} DescriptiveUpdate(p: Product, u: ProductUpdate)
    ensures ApplyAll(SetProductAttr, p, ProductDescriptiveData(u)) ==
            p.(categoryId := Pick(u.categoryId, p.categoryId), name := Pick(u.name, p.name),
               description := Pick(u.description, p.description), modelNumber := Pick(u.modelNumber, p.modelNumber),
               specifications := Pick(u.specifications, p.specifications))
  {
    var f := SetProductAttr;
    var d1 := if u.categoryId.Set? then [ProductCategoryId(u.categoryId.value)] else [];
    var p1 := p.(categoryId := Pick(u.categoryId, p.categoryId));
    assert ApplyAll(f, p, d1) == p1;
    var d2 := d1 + (if u.name.Set? then [ProductName(u.name.value)] else []);
    var p2 := p1.(name := Pick(u.name, p.name));
    assert ApplyAll(f, p, d2) == p2 by {
      if u.name.Set? { ApplyAllSnoc(f, p, d1, ProductName(u.name.value)); } else { assert d2 == d1; }
    }
    var d3 := d2 + (if u.description.Set? then [ProductDescription(u.description.value)] else []);
    var p3 := p2.(description := Pick(u.description, p.description));
    assert ApplyAll(f, p, d3) == p3 by {
      if u.description.Set? { ApplyAllSnoc(f, p, d2, ProductDescription(u.description.value)); } else { assert d3 == d2; }
    }
    var d4 := d3 + (if u.modelNumber.Set? then [ProductModelNumber(u.modelNumber.value)] else []);
    var p4 := p3.(modelNumber := Pick(u.modelNumber, p.modelNumber));
    assert ApplyAll(f, p, d4) == p4 by {
      if u.modelNumber.Set? { ApplyAllSnoc(f, p, d3, ProductModelNumber(u.modelNumber.value)); } else { assert d4 == d3; }
    }
    var d5 := d4 + (if u.specifications.Set? then [ProductSpecifications(u.specifications.value)] else []);
    var p5 := p4.(specifications := Pick(u.specifications, p.specifications));
    assert ApplyAll(f, p, d5) == p5 by {
      if u.specifications.Set? { ApplyAllSnoc(f, p, d4, ProductSpecifications(u.specifications.value)); } else { assert d5 == d4; }
    }
    assert d5 == ProductDescriptiveData(u);
  }

  lemma {:induction false} CommercialUpdate(p: Product, u: ProductUpdate)
    ensures ApplyAll(SetProductAttr, p, ProductCommercialData(u)) ==
            p.(costPrice := Pick(u.costPrice, p.costPrice), sellingPrice := Pick(u.sellingPrice, p.sellingPrice),
               barcode := Pick(u.barcode, p.barcode), imageUrl := Pick(u.imageUrl, p.imageUrl))
  {
    var f := SetProductAttr;
    var d1 := if u.costPrice.Set? then [ProductCostPrice(u.costPrice.value)] else [];
    var p1 := p.(costPrice := Pick(u.costPrice, p.costPrice));
    assert ApplyAll(f, p, d1) == p1;
    var d2 := d1 + (if u.sellingPrice.Set? then [ProductSellingPrice(u.sellingPrice.value)] else []);
    var p2 := p1.(sellingPrice := Pick(u.sellingPrice, p.sellingPrice));
    assert ApplyAll(f, p, d2) == p2 by {
      if u.sellingPrice.Set? { ApplyAllSnoc(f, p, d1, ProductSellingPrice(u.sellingPrice.value)); } else { assert d2 == d1; }
    }
    var d3 := d2 + (if u.barcode.Set? then [ProductBarcode(u.barcode.value)] else []);
    var p3 := p2.(barcode := Pick(u.barcode, p.barcode));
    assert ApplyAll(f, p, d3) == p3 by {
      if u.barcode.Set? { ApplyAllSnoc(f, p, d2, ProductBarcode(u.barcode.value)); } else { assert d3 == d2; }
    }
    var d4 := d3 + (if u.imageUrl.Set? then [ProductImageUrl(u.imageUrl.value)] else []);
    var p4 := p3.(imageUrl := Pick(u.imageUrl, p.imageUrl));
    assert ApplyAll(f, p, d4) == p4 by {
      if u.imageUrl.Set? { ApplyAllSnoc(f, p, d3, ProductImageUrl(u.imageUrl.value)); } else { assert d4 == d3; }
    }
    assert d4 == ProductCommercialData(u);
  }

  /** A valid update keeps both prices of a product positive. */
  lemma MergeKeepsPricesPositive(p: Product, u: ProductUpdate)
    requires p.costPrice > 0.0 && p.sellingPrice > 0.0
    requires ValidProductUpdate(u)
    ensures MergeProduct(p, u).costPrice > 0.0 && MergeProduct(p, u).sellingPrice > 0.0
  {
  }

  /** Updating a product: a missing product is not found; a supplied
      category id that names no category is rejected before any field is
      assigned; otherwise the supplied fields are assigned one by one. */
  method UpdateProduct(db: Session, id: int, u: ProductUpdate) returns (r: Result<Product, Error>)
    requires db.Valid()
    requires ValidProductUpdate(u)
    modifies db`products
    ensures db.Valid()
    ensures id !in old(db.products) ==> r == Err(ProductNotFound) && db.products == old(db.products)
    ensures id in old(db.products) && u.categoryId.Set? && u.categoryId.value !in db.categories ==>
              r == Err(CategoryNotFound) && db.products == old(db.products)
    ensures id in old(db.products) && (u.categoryId.Set? ==> u.categoryId.value in db.categories) ==>
              && r == Ok(MergeProduct(old(db.products[id]), u))
              && db.products == old(db.products)[id := r.value]
  {
    if id !in db.products {
      return Err(ProductNotFound);
    }
    var data := ProductUpdateData(u);
    if u.categoryId.Set? && u.categoryId.value !in db.categories {
      return Err(CategoryNotFound);
    }
    AssignProductFields(db, id, data);
    ProductUpdateIsMerge(old(db.products[id]), u);
    r := Ok(db.products[id]);
  }

  /** The `for key, value in update_data.items(): setattr(product, key, value)` loop. */
  method AssignProductFields(db: Session, id: int, data: seq<ProductField>)
    requires id in db.products
    modifies db`products
    ensures db.products == old(db.products)[id := ApplyAll(SetProductAttr, old(db.products[id]), data)]
    ensures db.products[id].id == old(db.products[id]).id
  {
    var i := 0;
    while i < |data|
      invariant 0 <= i <= |data|
      invariant db.products == old(db.products)[id := ApplyAll(SetProductAttr, old(db.products[id]), data[..i])]
      invariant db.products[id].id == old(db.products[id]).id
    {
      assert data[..i + 1][..i] == data[..i];
      db.products := db.products[id := SetProductAttr(db.products[id], data[i])];
      i := i + 1;
    }
    assert data[..i] == data;
  }

  /** Deleting a product removes its inventory row first, then the product. */
  method DeleteProduct(db: Session, id: int) returns (r: Result<(), Error>)
    requires db.Valid()
    modifies db`products, db`inventory
    ensures db.Valid()
    ensures id !in old(db.products) ==>
              r == Err(ProductNotFound) && db.products == old(db.products) && db.inventory == old(db.inventory)
    ensures id in old(db.products) ==>
              r == Ok(()) && db.products == old(db.products) - {id} && db.inventory == old(db.inventory) - {id}
    ensures ReadProduct(db, id) == Err(ProductNotFound) && id !in db.inventory
  {
    if id !in db.products {
      return Err(ProductNotFound);
    }
    db.inventory := db.inventory - {id};
    db.products := db.products - {id};
    r := Ok(());
  }

  /** The visible part of the inventory update: a missing product is not
      found; otherwise the product's inventory row, or, when it has none, a
      new row for it holding the column defaults (quantity 0, in stock). */
  function InventoryRowToUpdate(db: Session, productId: int): (r: Result<InventoryItem, Error>)
    reads db
    ensures productId !in db.products ==> r == Err(ProductNotFound)
    ensures productId in db.products && productId in db.inventory ==> r == Ok(db.inventory[productId])
    ensures productId in db.products && productId !in db.inventory ==>
              r == Ok(InventoryItem(productId, DefaultQuantity, None, DefaultStockStatus))
  {
    if productId !in db.products then Err(ProductNotFound)
    else if productId in db.inventory then Ok(db.inventory[productId])
    else Ok(InventoryItem(productId := productId))
  }
}
