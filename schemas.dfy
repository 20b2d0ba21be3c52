/** The request schemas: the enumerations, the shape of every create and
    update request with its defaults, and the field constraints the request
    validator enforces before a handler runs. The constraints are written as
    predicates; the handlers take them as preconditions. */
module Schemas {
  import opened Common

  datatype UserRole = SuperAdmin | Staff | Intern

  datatype StockStatus = InStock | LowStock | OutOfStock

  datatype PaymentMethod = Cash | CreditCard | DebitCard | BankTransfer | MobilePayment

  /** Prices and amounts are stored and copied, never computed with. */
  type Price = real

  /** Users. `UserBase` defaults the role to staff and the active flag to true. */
  datatype UserCreate = UserCreate(
    email: string,
    password: string,
    fullName: Option<string> := None,
    role: UserRole := Staff,
    isActive: bool := true)

  /** Every field of a user update is optional. */
  datatype UserUpdate = UserUpdate(
    email: Patch<string>,
    fullName: Patch<Option<string>>,
    password: Patch<string>,
    role: Patch<UserRole>,
    isActive: Patch<bool>)

  /** A password of a new user has at least eight characters. */
  predicate ValidUserCreate(u: UserCreate) {
    |u.password| >= 8
  }

  /** Categories. */
  datatype CategoryCreate = CategoryCreate(name: string, description: Option<string> := None)

  datatype CategoryUpdate = CategoryUpdate(name: Patch<string>, description: Patch<Option<string>>)

  /** Products. Both prices are required and positive. */
  datatype ProductCreate = ProductCreate(
    categoryId: int,
    name: string,
    costPrice: Price,
    sellingPrice: Price,
    description: Option<string> := None,
    modelNumber: Option<string> := None,
    specifications: Option<string> := None,
    barcode: Option<string> := None,
    imageUrl: Option<string> := None)

  predicate ValidProductCreate(p: ProductCreate) {
    p.costPrice > 0.0 && p.sellingPrice > 0.0
  }

  datatype ProductUpdate = ProductUpdate(
    categoryId: Patch<int>,
    name: Patch<string>,
    description: Patch<Option<string>>,
    modelNumber: Patch<Option<string>>,
    specifications: Patch<Option<string>>,
    costPrice: Patch<Price>,
    sellingPrice: Patch<Price>,
    barcode: Patch<Option<string>>,
    imageUrl: Patch<Option<string>>)

  /** A price that is supplied in an update must still be positive. */
  predicate ValidProductUpdate(u: ProductUpdate) {
    (u.costPrice.Set? ==> u.costPrice.value > 0.0) &&
    (u.sellingPrice.Set? ==> u.sellingPrice.value > 0.0)
  }

  /** Inventory requests. `InventoryItemBase` defaults to quantity 0 and
      status in stock; neither field is constrained. */
  datatype InventoryItemCreate = InventoryItemCreate(
    productId: int,
    quantity: int := 0,
    location: Option<string> := None,
    status: StockStatus := InStock)

  datatype InventoryItemUpdate = InventoryItemUpdate(
    quantity: Patch<int>,
    location: Patch<Option<string>>,
    status: Patch<StockStatus>)

  /** Sales. */
  datatype SaleItemCreate = SaleItemCreate(productId: int, quantity: int, unitPrice: Price, totalPrice: Price)

  predicate ValidSaleItem(i: SaleItemCreate) {
    i.quantity > 0 && i.unitPrice > 0.0 && i.totalPrice > 0.0
  }

  datatype SaleCreate = SaleCreate(
    totalAmount: Price,
    items: seq<SaleItemCreate>,
    customerName: Option<string> := None,
    customerEmail: Option<string> := None,
    customerPhone: Option<string> := None,
    paymentMethod: PaymentMethod := Cash)

  /** A sale's total is positive and every item is valid; nothing relates the
      total to the items' totals. */
  predicate ValidSaleCreate(s: SaleCreate) {
    s.totalAmount > 0.0 && forall i :: 0 <= i < |s.items| ==> ValidSaleItem(s.items[i])
  }

  /** One entry of `dict(exclude_unset=True)` of a category update. */
  datatype CategoryField = CategoryName(name: string) | CategoryDescription(description: Option<string>)

  /** The request supplied field `f` with `f`'s value. */
  predicate CategorySupplies(u: CategoryUpdate, f: CategoryField) {
    match f
    case CategoryName(n) => u.name == Set(n)
    case CategoryDescription(v) => u.description == Set(v)
  }

  /** The supplied fields of a category update, in declaration order. */
  function CategoryUpdateData(u: CategoryUpdate): (d: seq<CategoryField>)
    ensures |d| == (if u.name.Set? then 1 else 0) + (if u.description.Set? then 1 else 0)
    ensures forall f :: f in d ==> CategorySupplies(u, f)
    ensures u.name.Set? ==> CategoryName(u.name.value) in d
    ensures u.description.Set? ==> CategoryDescription(u.description.value) in d
  {
    PatchEntry(u.name, n => CategoryName(n)) +
    PatchEntry(u.description, v => CategoryDescription(v))
  }

  /** One entry of `dict(exclude_unset=True)` of a product update. */
  datatype ProductField =
    | ProductCategoryId(categoryId: int)
    | ProductName(name: string)
    | ProductDescription(description: Option<string>)
    | ProductModelNumber(modelNumber: Option<string>)
    | ProductSpecifications(specifications: Option<string>)
    | ProductCostPrice(costPrice: Price)
    | ProductSellingPrice(sellingPrice: Price)
    | ProductBarcode(barcode: Option<string>)
    | ProductImageUrl(imageUrl: Option<string>)

  /** The request supplied field `f` with `f`'s value. */
  predicate ProductSupplies(u: ProductUpdate, f: ProductField) {
    match f
    case ProductCategoryId(v) => u.categoryId == Set(v)
    case ProductName(v) => u.name == Set(v)
    case ProductDescription(v) => u.description == Set(v)
    case ProductModelNumber(v) => u.modelNumber == Set(v)
    case ProductSpecifications(v) => u.specifications == Set(v)
    case ProductCostPrice(v) => u.costPrice == Set(v)
    case ProductSellingPrice(v) => u.sellingPrice == Set(v)
    case ProductBarcode(v) => u.barcode == Set(v)
    case ProductImageUrl(v) => u.imageUrl == Set(v)
  }

  /** The supplied fields of a product update, in declaration order; see
      `ProductUpdateDataSupplied` for what it holds. */
  function ProductUpdateData(u: ProductUpdate): seq<ProductField> {
    ProductDescriptiveData(u) + ProductCommercialData(u)
  }

  /** The supplied entries among category_id, name, description, model_number, specifications. */
  function ProductDescriptiveData(u: ProductUpdate): seq<ProductField> {
    (if u.categoryId.Set? then [ProductCategoryId(u.categoryId.value)] else []) +
    (if u.name.Set? then [ProductName(u.name.value)] else []) +
    (if u.description.Set? then [ProductDescription(u.description.value)] else []) +
    (if u.modelNumber.Set? then [ProductModelNumber(u.modelNumber.value)] else []) +
    (if u.specifications.Set? then [ProductSpecifications(u.specifications.value)] else [])
  }

  /** The supplied entries among cost_price, selling_price, barcode, image_url. */
  function ProductCommercialData(u: ProductUpdate): seq<ProductField> {
    (if u.costPrice.Set? then [ProductCostPrice(u.costPrice.value)] else []) +
    (if u.sellingPrice.Set? then [ProductSellingPrice(u.sellingPrice.value)] else []) +
    (if u.barcode.Set? then [ProductBarcode(u.barcode.value)] else []) +
    (if u.imageUrl.Set? then [ProductImageUrl(u.imageUrl.value)] else [])
  }

  /** One entry of the dictionary a user update is applied from: the fields
      of `dict(exclude_unset=True)`, plus `hashed_password`, the key the update
      handler puts in place of `password`. */
  datatype UserField =
    | UserEmail(email: string)
    | UserFullName(fullName: Option<string>)
    | UserPassword(password: string)
    | UserRoleField(role: UserRole)
    | UserIsActive(isActive: bool)
    | UserHashedPassword(hashedPassword: string)

  /** The request supplied field `f` with `f`'s value. */
  predicate UserSupplies(u: UserUpdate, f: UserField) {
    match f
    case UserEmail(v) => u.email == Set(v)
    case UserFullName(v) => u.fullName == Set(v)
    case UserPassword(v) => u.password == Set(v)
    case UserRoleField(v) => u.role == Set(v)
    case UserIsActive(v) => u.isActive == Set(v)
    case UserHashedPassword(_) => false
  }

  /** The supplied fields of a user update, in declaration order. */
  function UserUpdateData(u: UserUpdate): (d: seq<UserField>)
    ensures forall f :: f in d ==> UserSupplies(u, f)
    ensures u.password.Set? ==> UserPassword(u.password.value) in d
  {
    UserContactData(u) + UserPasswordData(u) + UserAccessData(u)
  }

  /** The supplied entries among email, full_name. */
  function UserContactData(u: UserUpdate): seq<UserField> {
    (if u.email.Set? then [UserEmail(u.email.value)] else []) +
    (if u.fullName.Set? then [UserFullName(u.fullName.value)] else [])
  }

  /** The password entry, when supplied. */
  function UserPasswordData(u: UserUpdate): seq<UserField> {
    if u.password.Set? then [UserPassword(u.password.value)] else []
  }

  /** The supplied entries among role, is_active. */
  function UserAccessData(u: UserUpdate): seq<UserField> {
    (if u.role.Set? then [UserRoleField(u.role.value)] else []) +
    (if u.isActive.Set? then [UserIsActive(u.isActive.value)] else [])
  }

  /** The defaults a request takes for the fields it leaves out. */
  lemma RequestDefaults()
    ensures forall email, password :: UserCreate(email, password).role == Staff && UserCreate(email, password).isActive
    ensures forall pid :: InventoryItemCreate(pid).quantity == 0 && InventoryItemCreate(pid).status == InStock
    ensures forall total, items :: SaleCreate(total, items).paymentMethod == Cash
  {
  }

  /** The entries of a product update are exactly its supplied fields. */
  lemma ProductUpdateDataSupplied(u: ProductUpdate)
    ensures forall f :: f in ProductUpdateData(u) ==> ProductSupplies(u, f)
    ensures u.categoryId.Set? ==> ProductCategoryId(u.categoryId.value) in ProductUpdateData(u)
    ensures u.name.Set? ==> ProductName(u.name.value) in ProductUpdateData(u)
    ensures u.costPrice.Set? ==> ProductCostPrice(u.costPrice.value) in ProductUpdateData(u)
    ensures u.sellingPrice.Set? ==> ProductSellingPrice(u.sellingPrice.value) in ProductUpdateData(u)
  {
  }
}
