/** Row shapes of the two tables the order logic works on (tblProducts and tblOrders). */
module Models {

  /** Primary keys are identity columns of the database. */
  type ProductId = int
  type OrderId = int

  /** The instant an order is stamped with. The clock is not modelled: every operation
      that reads it takes the instant as a parameter. */
  type Timestamp = int

  datatype Option<T> = None | Some(value: T)

  /** A catalog row. Its key is the key of the product table, not a field. */
  datatype Product = Product(name: string, unitPrice: int, stock: int)

  /** An order row; `productId` is a foreign key into the product table. */
  datatype Order = Order(id: OrderId, productId: ProductId, customerName: string, quantity: int, orderDate: Timestamp)

  /** One line of a bulk-create request: the fields a caller supplies for an order. */
  datatype OrderRequest = OrderRequest(productId: ProductId, customerName: string, quantity: int)
}
