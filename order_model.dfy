/** The Order schema (models/Order.js) and the cart document the checkout
    reads. models/Cart.js is not part of this model: the cart datatype holds
    exactly the fields orderController.js reads and writes. */
module OrderModel {
  import opened Common

  /** `status`: one of five values, "pending" by default. */
  datatype OrderStatus = Pending | Paid | Shipped | Delivered | Cancelled

  /** `paymentStatus`: "unpaid" (the default) or "paid". */
  datatype PaymentStatus = Unpaid | PaymentPaid

  /** The strings the status enum (and `validStatuses` in the controller) admits. */
  const StatusNames: seq<string> := ["pending", "paid", "shipped", "delivered", "cancelled"]

  function StatusName(s: OrderStatus): string {
    match s
    case Pending => "pending"
    case Paid => "paid"
    case Shipped => "shipped"
    case Delivered => "delivered"
    case Cancelled => "cancelled"
  }

  /** Reads a status sent by a client: exactly the five enum strings are
      recognised, each as the status it names. */
  function ParseStatus(s: string): (r: Option<OrderStatus>)
    ensures r.Some? <==> s in StatusNames
    ensures r.Some? ==> StatusName(r.value) == s
  {
    if s == "pending" then Some(Pending)
    else if s == "paid" then Some(Paid)
    else if s == "shipped" then Some(Shipped)
    else if s == "delivered" then Some(Delivered)
    else if s == "cancelled" then Some(Cancelled)
    else None
  }

  /** Every status is named by one enum string that parses back to it. */
  lemma ParseStatusName(s: OrderStatus)
    ensures StatusName(s) in StatusNames
    ensures ParseStatus(StatusName(s)) == Some(s)
  {
  }

  /** An order line: a snapshot of the product id, quantity, captured price and
      seller. The schema sets no minimum on quantity or price. */
  datatype OrderItem = OrderItem(product: Id, quantity: int, price: real, seller: Id)

  datatype Order = Order(
    user: Id,
    items: seq<OrderItem>,
    total: real,
    discountApplied: real,
    coupon: Option<Id>,
    status: OrderStatus,
    paymentStatus: PaymentStatus)

  /** `new Orders({...})`: the fields the caller gives, with `status` and
      `paymentStatus` at their schema defaults. */
  function NewOrder(user: Id, items: seq<OrderItem>, total: real, discountApplied: real, coupon: Option<Id>): Order {
    Order(user, items, total, discountApplied, coupon, Pending, Unpaid)
  }

  /** The guard of the stock update: the order counts as paid when either its
      `status` or its `paymentStatus` is "paid". */
  predicate PaidForStock(o: Order) {
    o.status == Paid || o.paymentStatus == PaymentPaid
  }

  /** A cart line: product reference, quantity and the price captured when the
      line was added. */
  datatype CartItem = CartItem(product: Id, quantity: int, price: real)

  /** A user's cart with its denormalised `total`. */
  datatype Cart = Cart(user: Id, items: seq<CartItem>, total: real)
}
