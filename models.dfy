/** The stored records, one datatype per table, with the column defaults.
    Ids are the tables' integer primary keys. */
module Models {
  import opened Common
  import opened Schemas

  /** Column defaults. */
  const DefaultIsActive: bool := true
  const DefaultQuantity: int := 0
  const DefaultStockStatus: StockStatus := InStock

  datatype User = User(
    id: int,
    email: string,
    hashedPassword: string,
    fullName: Option<string>,
    role: UserRole,
    isActive: bool)

  datatype Category = Category(id: int, name: string, description: Option<string>)

  datatype Product = Product(
    id: int,
    categoryId: int,
    name: string,
    description: Option<string>,
    modelNumber: Option<string>,
    specifications: Option<string>,
    costPrice: Price,
    sellingPrice: Price,
    barcode: Option<string>,
    imageUrl: Option<string>)

  /** An inventory row; the store keys these rows by `productId`. */
  datatype InventoryItem = InventoryItem(
    productId: int,
    quantity: int := DefaultQuantity,
    location: Option<string> := None,
    status: StockStatus := DefaultStockStatus)

  /** A sale header; `createdAt` is a timestamp in seconds. */
  datatype Sale = Sale(
    id: int,
    userId: int,
    customerName: Option<string>,
    customerEmail: Option<string>,
    customerPhone: Option<string>,
    totalAmount: Price,
    paymentMethod: PaymentMethod,
    createdAt: int)

  datatype SaleItem = SaleItem(
    id: int,
    saleId: int,
    productId: int,
    quantity: int,
    unitPrice: Price,
    totalPrice: Price)

  /** The errors the handlers raise. */
  datatype Error =
    | CategoryNotFound
    | ProductNotFound
    | ProductIdNotFound(productId: int)
    | InsufficientInventory(productName: string)
    | SaleNotFound
    | UserNotFound
    | EmailAlreadyRegistered
    | IncorrectCredentials

  /** The HTTP status each error is raised with. */
  function StatusCode(e: Error): int {
    match e
    case CategoryNotFound => 404
    case ProductNotFound => 404
    case ProductIdNotFound(_) => 404
    case InsufficientInventory(_) => 400
    case SaleNotFound => 404
    case UserNotFound => 404
    case EmailAlreadyRegistered => 400
    case IncorrectCredentials => 401
  }
}
