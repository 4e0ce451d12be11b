/** The records the storefront keeps in memory, with the field names of src/context/AppContext.tsx. */
module Types {

  /** A value that may be missing (`undefined` in the source). */
  datatype Option<T> = None | Some(value: T)

  /** What an administrator supplies when adding a product: a Product without `id` and `createdAt`. */
  datatype ProductData = ProductData(
    title: string,
    description: string,
    price: real,
    thumbnailUrl: string,
    fileUrl: string)

  /** A purchasable file; `createdAt` is a timestamp in milliseconds. */
  datatype Product = Product(
    id: string,
    title: string,
    description: string,
    price: real,
    thumbnailUrl: string,
    fileUrl: string,
    createdAt: int)

  /** What checkout supplies when recording a purchase: a Transaction without
      `id`, `createdAt`, `verified` and `downloadToken`. */
  datatype TransactionData = TransactionData(
    email: string,
    productId: string,
    reference: string)

  /** One purchase attempt in the ledger. */
  datatype Transaction = Transaction(
    id: string,
    email: string,
    productId: string,
    reference: string,
    verified: bool,
    downloadToken: string,
    createdAt: int)
}
