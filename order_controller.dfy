/** The checkout pipeline of controllers/orderController.js: `createOrder`
    (cart to order snapshot, coupon checks and discount, coupon use, cart
    cleared), `updateStockAfterOrder` (the stock-decrement loop),
    `updateOrderStatus` and `simulatePaymentController` (the status machine).
    Payment always succeeds; emitting an event is a synchronous call of its
    listener, made only when `notify` holds (the source skips emission when
    NODE_ENV is "test"). */
module OrderController {
  import opened Common
  import opened Collections
  import opened OrderModel
  import opened ProductModel
  import opened CouponModel
  import opened NotificationModel
  import OrderListeners
  import CouponValidation
  import CouponController

  const MsgUserRequired: string := "L'ID utilisateur est requis"
  const MsgEmptyCart: string := "Le panier est vide"
  const MsgStaleItems: string := "Certains produits du panier n'existent plus."
  const MsgCouponNotFound: string := "Coupon introuvable"
  /** The answer of `updateStockAfterOrder`'s `catch`. */
  const MsgServerError: string := "Erreur interne du serveur."
  const MsgCouponExpired: string := "Ce coupon est expiré"
  const MsgCouponExhausted: string := "Ce coupon a atteint sa limite d'utilisation"
  const MsgCouponNotApplicable: string := "Ce coupon ne s'applique pas aux produits de votre panier"
  const MsgOrderIdRequired: string := "L'ID de la commande est requis."
  const MsgOrderNotFound: string := "Commande introuvable."
  const MsgNotPaid: string := "Le paiement n'est pas encore confirmé."
  const MsgStatusRequired: string := "ID de commande et nouveau statut requis."
  const MsgInvalidStatus: string := "Statut invalide."

  // ================================================================ createOrder

  /** `Cart.findOne({ user })`. */
  function CartOf(carts: map<Id, Cart>, bound: nat, user: Id): Option<Id> {
    FindFirst(carts, bound, (c: Cart) => c.user == user)
  }

  /** `Coupon.findOne({ code: couponCode.toUpperCase(), isDeleted: false })`.
      The filter value is compared as the handler sends it, without the
      schema's `trim` setter. */
  function CouponByCode(coupons: map<Id, Coupon>, bound: nat, code: string): Option<Id> {
    var key := ToUpper(code);
    FindFirst(coupons, bound, (c: Coupon) => c.code == key && !c.isDeleted)
  }

  /** The order line a cart line becomes: product, quantity and captured price,
      plus the seller of the (populated) product. */
  function Snapshot(line: CartItem, products: map<Id, Product>): OrderItem
    requires line.product in products
  {
    OrderItem(line.product, line.quantity, line.price, products[line.product].seller)
  }

  /** The filter/map over the populated cart: lines whose product no longer
      exists are dropped, every other line is copied, in order. */
  function SurvivingLines(items: seq<CartItem>, products: map<Id, Product>): (r: seq<OrderItem>)
    ensures |r| <= |items|
    ensures forall k :: 0 <= k < |r| ==>
      exists i :: 0 <= i < |items| && items[i].product in products && r[k] == Snapshot(items[i], products)
    ensures forall i :: 0 <= i < |items| && items[i].product in products ==> Snapshot(items[i], products) in r
    ensures r == [] <==> forall i :: 0 <= i < |items| ==> items[i].product !in products
  {
    if items == [] then []
    else
      var rest := SurvivingLines(items[1..], products);
      assert forall i :: 1 <= i < |items| ==> items[i] == items[1..][i - 1];
      if items[0].product in products then [Snapshot(items[0], products)] + rest else rest
  }

  /** `orderItems.some(item => item.product == coupon.product_id)`. */
  predicate HasProduct(lines: seq<OrderItem>, product: Id) {
    exists k :: 0 <= k < |lines| && lines[k].product == product
  }

  /** The discount a coupon grants on a total: a percentage of it, or the
      fixed amount as it stands. */
  function DiscountAmount(c: Coupon, total: real): real {
    match c.kind
    case Percentage => total * c.discount / 100.0
    case Fixed => c.discount
  }

  function ClampAtZero(x: real): (r: real)
    ensures r >= 0.0 && r >= x && (r == x || r == 0.0)
  {
    if x > 0.0 then x else 0.0
  }

  /** `appliedCoupon.usesLeft -= 1`: the unguarded decrement the checkout uses
      (not `decrementUse`). */
  function Consumed(c: Coupon): Coupon {
    c.(usesLeft := c.usesLeft - 1)
  }

  /** `cart.items = []; cart.total = 0`. */
  function Emptied(c: Cart): Cart {
    c.(items := [], total := 0.0)
  }

  /** What `createOrder` decides before writing anything. */
  datatype CheckoutPlan =
    | Rejected(status: nat, message: string)
    | Accepted(cartId: Id, order: Order, couponId: Option<Id>)

  /** The decisions of `createOrder`, in the source's order: user, cart,
      surviving lines, then (for a non-empty code) existence, expiry, uses left
      and product scope of the coupon, then the discount on `cart.total`. */
  function PlanCheckout(userId: Option<Id>, couponCode: Option<string>, now: Time,
                        carts: map<Id, Cart>, cartBound: nat,
                        products: map<Id, Product>,
                        coupons: map<Id, Coupon>, couponBound: nat): (p: CheckoutPlan)
    ensures p.Accepted? ==> p.cartId in carts
    ensures p.Accepted? && p.couponId.Some? ==> p.couponId.value in coupons
  {
    if userId.None? then Rejected(400, MsgUserRequired)
    else
      var cartId := CartOf(carts, cartBound, userId.value);
      if cartId.None? || |carts[cartId.value].items| == 0 then Rejected(400, MsgEmptyCart)
      else
        var cart := carts[cartId.value];
        var lines := SurvivingLines(cart.items, products);
        if lines == [] then Rejected(400, MsgStaleItems)
        else if couponCode.None? || couponCode.value == "" then
          Accepted(cartId.value, NewOrder(userId.value, lines, cart.total, 0.0, None), None)
        else
          var couponId := CouponByCode(coupons, couponBound, couponCode.value);
          if couponId.None? then Rejected(404, MsgCouponNotFound)
          else
            var coupon := coupons[couponId.value];
            if coupon.expirationDate < now then Rejected(400, MsgCouponExpired)
            else if coupon.usesLeft <= 0 then Rejected(400, MsgCouponExhausted)
            else if coupon.productId.Some? && !HasProduct(lines, coupon.productId.value) then
              Rejected(400, MsgCouponNotApplicable)
            else
              var discount := DiscountAmount(coupon, cart.total);
              Accepted(cartId.value,
                       NewOrder(userId.value, lines, ClampAtZero(cart.total - discount), discount, couponId),
                       couponId)
  }

  /** `createOrder`: the checks of PlanCheckout come first and a rejection
      writes nothing; on acceptance the order snapshot is inserted, then the
      applied coupon loses one use, then the ORDER_PASS record is emitted, then
      the cart is emptied. */
  method CreateOrder(carts: Collection<Cart>, products: Collection<Product>, coupons: Collection<Coupon>,
                     orders: Collection<Order>, notifications: Collection<Notification>,
                     userId: Option<Id>, couponCode: Option<string>, now: Time, notify: bool)
    returns (r: Outcome<Order>)
    requires carts.Valid() && coupons.Valid() && orders.Valid() && notifications.Valid()
    modifies carts, coupons, orders, notifications
    ensures carts.Valid() && coupons.Valid() && orders.Valid() && notifications.Valid()
    ensures var plan := PlanCheckout(userId, couponCode, now, old(carts.docs), old(carts.nextId),
                                     products.docs, old(coupons.docs), old(coupons.nextId));
      match plan
      case Rejected(status, message) =>
        && r == Refuse(status, message)
        && carts.docs == old(carts.docs) && coupons.docs == old(coupons.docs)
        && orders.docs == old(orders.docs) && notifications.docs == old(notifications.docs)
      case Accepted(cartId, order, couponId) =>
        && r == Reply(201, order)
        && old(orders.nextId) !in old(orders.docs)
        && orders.docs == old(orders.docs)[old(orders.nextId) := order]
        && coupons.docs == (if couponId.Some?
                            then old(coupons.docs)[couponId.value := Consumed(old(coupons.docs)[couponId.value])]
                            else old(coupons.docs))
        && carts.docs == old(carts.docs)[cartId := Emptied(old(carts.docs)[cartId])]
        && var record := OrderListeners.OrderPassRecord(userId.value, old(orders.nextId), now);
           notifications.docs == (if notify && NotificationModel.SchemaValid(record)
                                  then old(notifications.docs)[old(notifications.nextId) := record]
                                  else old(notifications.docs))
  {
    var plan := PlanCheckout(userId, couponCode, now, carts.docs, carts.nextId,
                             products.docs, coupons.docs, coupons.nextId);
    if plan.Rejected? {
      return Refuse(plan.status, plan.message);
    }
    r := CommitCheckout(carts, coupons, orders, notifications, plan, userId.value, now, notify);
  }

  /** The writes of an accepted checkout, in the source's order. */
  method CommitCheckout(carts: Collection<Cart>, coupons: Collection<Coupon>,
                        orders: Collection<Order>, notifications: Collection<Notification>,
                        plan: CheckoutPlan, user: Id, now: Time, notify: bool)
    returns (r: Outcome<Order>)
    requires carts.Valid() && coupons.Valid() && orders.Valid() && notifications.Valid()
    requires plan.Accepted? && plan.cartId in carts.docs
    requires plan.couponId.Some? ==> plan.couponId.value in coupons.docs
    modifies carts, coupons, orders, notifications
    ensures carts.Valid() && coupons.Valid() && orders.Valid() && notifications.Valid()
    ensures r == Reply(201, plan.order)
    ensures old(orders.nextId) !in old(orders.docs)
    ensures orders.docs == old(orders.docs)[old(orders.nextId) := plan.order]
    ensures coupons.docs == (if plan.couponId.Some?
                             then old(coupons.docs)[plan.couponId.value := Consumed(old(coupons.docs)[plan.couponId.value])]
                             else old(coupons.docs))
    ensures carts.docs == old(carts.docs)[plan.cartId := Emptied(old(carts.docs)[plan.cartId])]
    ensures var record := OrderListeners.OrderPassRecord(user, old(orders.nextId), now);
      notifications.docs == (if notify && NotificationModel.SchemaValid(record)
                             then old(notifications.docs)[old(notifications.nextId) := record]
                             else old(notifications.docs))
  {
    var orderId := orders.Insert(plan.order);
    if plan.couponId.Some? {
      coupons.Replace(plan.couponId.value, Consumed(coupons.docs[plan.couponId.value]));
    }
    if notify {
      var _ := OrderListeners.OnOrderPass(notifications, user, orderId, now);
    }
    carts.Replace(plan.cartId, Emptied(carts.docs[plan.cartId]));
    r := Reply(201, plan.order);
  }

  /** A missing cart, or a cart without lines, is refused with 400 "Le panier
      est vide" (and, by CreateOrder, nothing is written). */
  lemma EmptyCartRefused(userId: Id, couponCode: Option<string>, now: Time, carts: map<Id, Cart>, cartBound: nat,
                         products: map<Id, Product>, coupons: map<Id, Coupon>, couponBound: nat)
    requires CartOf(carts, cartBound, userId).None? || |carts[CartOf(carts, cartBound, userId).value].items| == 0
    ensures PlanCheckout(Some(userId), couponCode, now, carts, cartBound, products, coupons, couponBound)
            == Rejected(400, MsgEmptyCart)
  {
  }

  /** A cart none of whose products still exists is refused with 400, before
      any coupon is looked at. */
  lemma AllLinesStaleRefused(userId: Id, couponCode: Option<string>, now: Time, carts: map<Id, Cart>, cartBound: nat,
                             products: map<Id, Product>, coupons: map<Id, Coupon>, couponBound: nat)
    requires CartOf(carts, cartBound, userId).Some?
    requires var items := carts[CartOf(carts, cartBound, userId).value].items;
      |items| > 0 && forall i :: 0 <= i < |items| ==> items[i].product !in products
    ensures PlanCheckout(Some(userId), couponCode, now, carts, cartBound, products, coupons, couponBound)
            == Rejected(400, MsgStaleItems)
  {
  }

  /** Conversely, a user whose cart still holds a line of a live product and
      who sends no code is accepted: the order snapshots those lines at the
      cart's stored total, with no coupon. */
  lemma CheckoutWithoutCouponAccepted(userId: Id, couponCode: Option<string>, now: Time,
                                      carts: map<Id, Cart>, cartBound: nat, products: map<Id, Product>,
                                      coupons: map<Id, Coupon>, couponBound: nat)
    requires couponCode.None? || couponCode == Some("")
    requires CartOf(carts, cartBound, userId).Some?
    requires SurvivingLines(carts[CartOf(carts, cartBound, userId).value].items, products) != []
    ensures var cartId := CartOf(carts, cartBound, userId).value;
      var cart := carts[cartId];
      PlanCheckout(Some(userId), couponCode, now, carts, cartBound, products, coupons, couponBound)
      == Accepted(cartId, NewOrder(userId, SurvivingLines(cart.items, products), cart.total, 0.0, None), None)
  {
    var items := carts[CartOf(carts, cartBound, userId).value].items;
    assert |items| > 0;
  }

  /** And a user with such a cart who names a usable coupon is accepted with
      it: a live coupon stored under the upper-cased code (codes are unique),
      not expired, with a use left, and whose product, if any, is among the
      surviving lines. */
  lemma CheckoutWithUsableCouponAccepted(userId: Id, code: string, now: Time,
                                         carts: map<Id, Cart>, cartBound: nat, products: map<Id, Product>,
                                         coupons: map<Id, Coupon>, couponBound: nat, couponId: Id)
    requires code != ""
    requires CartOf(carts, cartBound, userId).Some?
    requires SurvivingLines(carts[CartOf(carts, cartBound, userId).value].items, products) != []
    requires CouponController.StoreInvariant(coupons) && forall k :: k in coupons ==> k < couponBound
    requires couponId in coupons && coupons[couponId].code == ToUpper(code) && !coupons[couponId].isDeleted
    requires coupons[couponId].expirationDate >= now && coupons[couponId].usesLeft > 0
    requires coupons[couponId].productId.Some? ==>
      HasProduct(SurvivingLines(carts[CartOf(carts, cartBound, userId).value].items, products),
                 coupons[couponId].productId.value)
    ensures var cartId := CartOf(carts, cartBound, userId).value;
      var cart := carts[cartId];
      var c := coupons[couponId];
      var discount := DiscountAmount(c, cart.total);
      PlanCheckout(Some(userId), Some(code), now, carts, cartBound, products, coupons, couponBound)
      == Accepted(cartId, NewOrder(userId, SurvivingLines(cart.items, products),
                                   ClampAtZero(cart.total - discount), discount, Some(couponId)), Some(couponId))
  {
    var items := carts[CartOf(carts, cartBound, userId).value].items;
    assert |items| > 0;
    var key := ToUpper(code);
    FindFirstComplete(coupons, couponBound, (c: Coupon) => c.code == key && !c.isDeleted, couponId);
    var found := CouponByCode(coupons, couponBound, code);
    assert found.Some? && coupons[found.value].code == coupons[couponId].code;
    assert found == Some(couponId);
  }

  /** An accepted checkout snapshots the surviving lines of the user's cart
      into a new order that is pending and unpaid; with no coupon code its total
      is the cart's stored total (dropped lines included) and no discount is
      recorded. */
  lemma AcceptedOrderIsSnapshot(userId: Option<Id>, couponCode: Option<string>, now: Time,
                                carts: map<Id, Cart>, cartBound: nat, products: map<Id, Product>,
                                coupons: map<Id, Coupon>, couponBound: nat)
    requires PlanCheckout(userId, couponCode, now, carts, cartBound, products, coupons, couponBound).Accepted?
    ensures var p := PlanCheckout(userId, couponCode, now, carts, cartBound, products, coupons, couponBound);
      && userId.Some? && carts[p.cartId].user == userId.value
      && p.order.user == userId.value
      && p.order.items == SurvivingLines(carts[p.cartId].items, products) && p.order.items != []
      && p.order.status == Pending && p.order.paymentStatus == Unpaid
      && p.order.coupon == p.couponId
      && ((couponCode.None? || couponCode == Some("")) ==>
            p.couponId.None? && p.order.total == carts[p.cartId].total && p.order.discountApplied == 0.0)
  {
  }

  /** Whenever a coupon is applied it was found by the upper-cased code among
      non-deleted coupons, had not expired (`expirationDate >= now`), had at
      least one use left, and, when product-scoped, its product is among the
      surviving lines. The discount is taken from the whole cart total even for
      a scoped coupon; the order total is that total minus the discount,
      clamped at zero, while `discountApplied` keeps the unclamped discount. */
  lemma AppliedCouponPassedAllChecks(userId: Option<Id>, couponCode: Option<string>, now: Time,
                                     carts: map<Id, Cart>, cartBound: nat, products: map<Id, Product>,
                                     coupons: map<Id, Coupon>, couponBound: nat)
    requires PlanCheckout(userId, couponCode, now, carts, cartBound, products, coupons, couponBound).Accepted?
    requires couponCode.Some? && couponCode.value != ""
    ensures var p := PlanCheckout(userId, couponCode, now, carts, cartBound, products, coupons, couponBound);
      && p.couponId.Some?
      && var c := coupons[p.couponId.value];
      && c.code == ToUpper(couponCode.value) && !c.isDeleted
      && c.expirationDate >= now
      && c.usesLeft >= 1 && Consumed(c).usesLeft >= 0 && Consumed(c).usesLeft == c.usesLeft - 1
      && (c.productId.Some? ==> HasProduct(p.order.items, c.productId.value))
      && p.order.discountApplied == DiscountAmount(c, carts[p.cartId].total)
      && p.order.total == ClampAtZero(carts[p.cartId].total - p.order.discountApplied)
      && p.order.total >= 0.0
  {
  }

  /** An expired coupon is refused with 400 whatever its remaining uses. */
  lemma ExpiredCouponRefused(userId: Id, code: string, now: Time, carts: map<Id, Cart>, cartBound: nat,
                             products: map<Id, Product>, coupons: map<Id, Coupon>, couponBound: nat)
    requires code != ""
    requires CartOf(carts, cartBound, userId).Some?
    requires SurvivingLines(carts[CartOf(carts, cartBound, userId).value].items, products) != []
    requires CouponByCode(coupons, couponBound, code).Some?
    requires coupons[CouponByCode(coupons, couponBound, code).value].expirationDate < now
    ensures PlanCheckout(Some(userId), Some(code), now, carts, cartBound, products, coupons, couponBound)
            == Rejected(400, MsgCouponExpired)
  {
    var items := carts[CartOf(carts, cartBound, userId).value].items;
    assert |items| > 0;
  }

  /** A code that matches no live coupon is refused with 404. */
  lemma UnknownCouponRefused(userId: Id, code: string, now: Time, carts: map<Id, Cart>, cartBound: nat,
                             products: map<Id, Product>, coupons: map<Id, Coupon>, couponBound: nat)
    requires code != ""
    requires CartOf(carts, cartBound, userId).Some?
    requires SurvivingLines(carts[CartOf(carts, cartBound, userId).value].items, products) != []
    requires forall id :: id in coupons ==> coupons[id].code != ToUpper(code) || coupons[id].isDeleted
    ensures PlanCheckout(Some(userId), Some(code), now, carts, cartBound, products, coupons, couponBound)
            == Rejected(404, MsgCouponNotFound)
  {
    var items := carts[CartOf(carts, cartBound, userId).value].items;
    assert |items| > 0;
  }

  /** An update whose body carries `isDeleted: true` is accepted (no schema
      declares the key) and soft-deletes the coupon: a checkout that names its
      code is then refused with 404, since codes are unique. */
  lemma UpdateSoftDeletesCoupon(userId: Id, code: string, now: Time, carts: map<Id, Cart>, cartBound: nat,
                                products: map<Id, Product>, coupons: map<Id, Coupon>, couponBound: nat,
                                id: Id, loadTime: Time)
    requires CouponController.StoreInvariant(coupons)
    requires id in coupons && coupons[id].code == ToUpper(code) && code != ""
    requires CartOf(carts, cartBound, userId).Some?
    requires SurvivingLines(carts[CartOf(carts, cartBound, userId).value].items, products) != []
    ensures var b := CouponValidation.CouponBody(None, None, None, None, None, None, None, None, Some(true), None);
      var r := CouponController.PlanUpdateCoupon(coupons, id, b, loadTime);
      && r == Reply(200, coupons[id].(isDeleted := true))
      && PlanCheckout(Some(userId), Some(code), now, carts, cartBound, products, coupons[id := r.value], couponBound)
         == Rejected(404, MsgCouponNotFound)
  {
    var b := CouponValidation.CouponBody(None, None, None, None, None, None, None, None, Some(true), None);
    CouponValidation.EmptyUpdateIsValid(loadTime);
    assert CouponValidation.UpdateErrors(b, loadTime) == [];
    var after := coupons[id := coupons[id].(isDeleted := true)];
    forall k | k in after
      ensures after[k].code != ToUpper(code) || after[k].isDeleted
    {
      if k != id {
        assert coupons[k].code != coupons[id].code;
      }
    }
    UnknownCouponRefused(userId, code, now, carts, cartBound, products, after, couponBound);
  }

  /** The order total is the cart's stored `total`, not a sum over the lines
      that survive: a cart of 2 x 50 for a live product and 1 x 30 for a deleted
      one, stored total 130, yields an order of one line and total 130. */
  lemma DroppedLinesStillCount()
    ensures var carts := map[0 := Cart(7, [CartItem(1, 2, 50.0), CartItem(2, 1, 30.0)], 130.0)];
      var products := map[1 := Product("P", "p", 50.0, 10, [], [], 9, true, None)];
      PlanCheckout(Some(7), None, 0, carts, 1, products, map[], 0)
      == Accepted(0, NewOrder(7, [OrderItem(1, 2, 50.0, 9)], 130.0, 0.0, None), None)
  {
    var carts := map[0 := Cart(7, [CartItem(1, 2, 50.0), CartItem(2, 1, 30.0)], 130.0)];
    var products := map[1 := Product("P", "p", 50.0, 10, [], [], 9, true, None)];
    var items := carts[0].items;
    assert CartOf(carts, 1, 7) == Some(0);
    assert items[1..][1..] == [];
    assert SurvivingLines(items[1..], products) == [];
    assert SurvivingLines(items, products) == [OrderItem(1, 2, 50.0, 9)];
  }

  /** The end-to-end scenario of a fixed coupon: a cart of 2 x 50 (total 100)
      with "save10" (fixed, 10, one use left) gives an order of total 90 with
      `discountApplied` 10, and the coupon ends with no uses left, so the same
      code on a refilled cart is then refused as exhausted. A fixed discount
      larger than the total gives a total of 0 but records the full discount. */
  lemma FixedCouponScenario(now: Time)
    ensures var cart := Cart(7, [CartItem(1, 2, 50.0)], 100.0);
      var products := map[1 := Product("P", "p", 50.0, 10, [], [], 9, true, None)];
      var save10 := Coupon("SAVE10", Fixed, 10.0, now, None, [], 9, 1, false, None);
      var p := PlanCheckout(Some(7), Some("save10"), now, map[0 := cart], 1, products, map[0 := save10], 1);
      && p == Accepted(0, NewOrder(7, [OrderItem(1, 2, 50.0, 9)], 90.0, 10.0, Some(0)), Some(0))
      && Consumed(save10).usesLeft == 0
      && PlanCheckout(Some(7), Some("SAVE10"), now, map[0 := cart], 1, products, map[0 := Consumed(save10)], 1)
         == Rejected(400, MsgCouponExhausted)
      && var big := save10.(discount := 150.0);
         PlanCheckout(Some(7), Some("SAVE10"), now, map[0 := cart], 1, products, map[0 := big], 1)
         == Accepted(0, NewOrder(7, [OrderItem(1, 2, 50.0, 9)], 0.0, 150.0, Some(0)), Some(0))
  {
    var cart := Cart(7, [CartItem(1, 2, 50.0)], 100.0);
    var products := map[1 := Product("P", "p", 50.0, 10, [], [], 9, true, None)];
    var save10 := Coupon("SAVE10", Fixed, 10.0, now, None, [], 9, 1, false, None);
    assert CartOf(map[0 := cart], 1, 7) == Some(0);
    assert cart.items[1..] == [];
    assert SurvivingLines(cart.items, products) == [OrderItem(1, 2, 50.0, 9)];
    assert ToUpper("save10") == "SAVE10";
    assert ToUpper("SAVE10") == "SAVE10";
    assert CouponByCode(map[0 := save10], 1, "save10") == Some(0);
    assert CouponByCode(map[0 := Consumed(save10)], 1, "SAVE10") == Some(0);
    assert CouponByCode(map[0 := save10.(discount := 150.0)], 1, "SAVE10") == Some(0);
  }

  /** A 100 % coupon on a total of 100 brings the order to 0, not below. */
  lemma FullPercentageScenario(now: Time)
    ensures var cart := Cart(7, [CartItem(1, 2, 50.0)], 100.0);
      var products := map[1 := Product("P", "p", 50.0, 10, [], [], 9, true, None)];
      var all := Coupon("ALL", Percentage, 100.0, now, Some(1), [], 9, 3, false, None);
      PlanCheckout(Some(7), Some("ALL"), now, map[0 := cart], 1, products, map[0 := all], 1)
      == Accepted(0, NewOrder(7, [OrderItem(1, 2, 50.0, 9)], 0.0, 100.0, Some(0)), Some(0))
  {
    var cart := Cart(7, [CartItem(1, 2, 50.0)], 100.0);
    var products := map[1 := Product("P", "p", 50.0, 10, [], [], 9, true, None)];
    var all := Coupon("ALL", Percentage, 100.0, now, Some(1), [], 9, 3, false, None);
    assert CartOf(map[0 := cart], 1, 7) == Some(0);
    assert cart.items[1..] == [];
    var lines := SurvivingLines(cart.items, products);
    assert lines == [OrderItem(1, 2, 50.0, 9)];
    assert HasProduct(lines, 1) by { assert lines[0].product == 1; }
    assert ToUpper("ALL") == "ALL";
    assert CouponByCode(map[0 := all], 1, "ALL") == Some(0);
  }

  // ====================================================== updateStockAfterOrder

  /** Why the stock loop stopped early: a line asked for more than the
      product's stock, or `product.save()` threw because the product no
      longer meets the schema's `required` rules. */
  datatype StockStop = Short(product: Id) | SaveFailed(product: Id)

  /** Where the stock loop stopped: the products as left behind, and why it
      stopped early, if it did. */
  datatype StockRun = StockRun(products: map<Id, Product>, stop: Option<StockStop>)

  /** The loop of `updateStockAfterOrder` over the order's lines, front to
      back: a line whose product no longer exists is skipped; a line asking for
      more than the stock stops the loop; a product that fails the `required`
      rules makes its `save()` throw, which stops the loop without writing that
      product; otherwise the stock drops by the line's quantity. Earlier
      decrements stay in every case. Only stocks change, and every stock the
      loop touches is left non-negative. */
  function DecrementStock(products: map<Id, Product>, items: seq<OrderItem>): (r: StockRun)
    ensures r.products.Keys == products.Keys
    ensures forall id :: id in products ==> r.products[id] == products[id].(stock := r.products[id].stock)
    ensures forall id :: id in products ==> r.products[id].stock == products[id].stock || r.products[id].stock >= 0
    ensures r.stop.Some? ==> r.stop.value.product in products
    ensures r.stop.Some? && r.stop.value.SaveFailed? ==> !PassesRequired(products[r.stop.value.product])
    decreases |items|
  {
    if items == [] then StockRun(products, None)
    else
      var line := items[0];
      if line.product !in products then DecrementStock(products, items[1..])
      else
        var p := products[line.product];
        if p.stock < line.quantity then StockRun(products, Some(Short(line.product)))
        else if !PassesRequired(p) then StockRun(products, Some(SaveFailed(line.product)))
        else DecrementStock(products[line.product := p.(stock := p.stock - line.quantity)], items[1..])
  }

  /** The sum of the quantities the lines ask of one product. */
  function QuantityOf(items: seq<OrderItem>, product: Id): int {
    if items == [] then 0
    else (if items[0].product == product then items[0].quantity else 0) + QuantityOf(items[1..], product)
  }

  /** When the loop runs to the end, each existing product's stock has dropped
      by exactly the total quantity the order's lines ask of it. */
  lemma {:induction false} CompletedRunSubtractsQuantities(products: map<Id, Product>, items: seq<OrderItem>)
    requires DecrementStock(products, items).stop.None?
    ensures forall id :: id in products ==>
      DecrementStock(products, items).products[id].stock == products[id].stock - QuantityOf(items, id)
    decreases |items|
  {
    if items != [] {
      var line := items[0];
      var next := if line.product in products
                  then products[line.product := products[line.product].(stock := products[line.product].stock - line.quantity)]
                  else products;
      StepUnfolds(products, items, next);
      CompletedRunSubtractsQuantities(next, items[1..]);
      forall id | id in products
        ensures DecrementStock(products, items).products[id].stock == products[id].stock - QuantityOf(items, id)
      {
        assert QuantityOf(items, id) == (if line.product == id then line.quantity else 0) + QuantityOf(items[1..], id);
        assert next[id].stock == products[id].stock - (if line.product == id then line.quantity else 0);
      }
    }
  }

  /** When the loop stops at a line, for lack of stock or because the save
      fails, the products are exactly as the lines before it left them:
      decrements already made are not rolled back. */
  lemma {:induction false} StoppedRunKeepsEarlierDecrements(products: map<Id, Product>, items: seq<OrderItem>)
    returns (k: nat)
    requires DecrementStock(products, items).stop.Some?
    ensures k < |items| && items[k].product == DecrementStock(products, items).stop.value.product
    ensures DecrementStock(products, items[..k]) == StockRun(DecrementStock(products, items).products, None)
    decreases |items|
  {
    var line := items[0];
    if line.product in products
       && (products[line.product].stock < line.quantity || !PassesRequired(products[line.product])) {
      k := 0;
      assert items[..0] == [];
    } else {
      var next := if line.product in products
                  then products[line.product := products[line.product].(stock := products[line.product].stock - line.quantity)]
                  else products;
      StepUnfolds(products, items, next);
      var j := StoppedRunKeepsEarlierDecrements(next, items[1..]);
      k := j + 1;
      StepUnfolds(products, items[..k], next);
      assert items[..k][1..] == items[1..][..j];
    }
  }

  /** One step of the loop over a line that neither is short nor ends it. */
  lemma StepUnfolds(products: map<Id, Product>, items: seq<OrderItem>, next: map<Id, Product>)
    requires items != []
    requires items[0].product in products ==> products[items[0].product].stock >= items[0].quantity
    requires items[0].product in products ==> PassesRequired(products[items[0].product])
    requires next == if items[0].product in products
                     then products[items[0].product := products[items[0].product].(stock := products[items[0].product].stock - items[0].quantity)]
                     else products
    ensures DecrementStock(products, items) == DecrementStock(next, items[1..])
  {
  }

  /** `updateStockAfterOrder`'s decisions and the products it leaves. */
  datatype StockPlan = StockPlan(out: Outcome<()>, products: map<Id, Product>)

  function StockShortMessage(title: string): string {
    "Le produit \"" + title + "\" n'a pas assez de stock."
  }

  /** `updateStockAfterOrder`. The early errors write nothing; once the loop
      runs, the products are those it leaves, whatever the answer: 200 when it
      completes, 400 for a short line, 500 when a save throws. */
  function PlanStockUpdate(orders: map<Id, Order>, products: map<Id, Product>, orderId: Option<Id>): (p: StockPlan)
    ensures orderId.None? || orderId.value !in orders || !PaidForStock(orders[orderId.value]) ==>
      p.out.Refuse? && p.products == products
    ensures orderId.Some? && orderId.value in orders && PaidForStock(orders[orderId.value]) ==>
      var run := DecrementStock(products, orders[orderId.value].items);
      && p.products == run.products
      && (p.out.Reply? <==> run.stop.None?)
      && (p.out.Refuse? && p.out.status == 500 <==> run.stop.Some? && run.stop.value.SaveFailed?)
  {
    if orderId.None? then StockPlan(Refuse(400, MsgOrderIdRequired), products)
    else if orderId.value !in orders then StockPlan(Refuse(404, MsgOrderNotFound), products)
    else if !PaidForStock(orders[orderId.value]) then StockPlan(Refuse(400, MsgNotPaid), products)
    else
      var run := DecrementStock(products, orders[orderId.value].items);
      match run.stop
      case None => StockPlan(Reply(200, ()), run.products)
      case Some(Short(id)) => StockPlan(Refuse(400, StockShortMessage(products[id].title)), run.products)
      case Some(SaveFailed(_)) => StockPlan(Refuse(500, MsgServerError), run.products)
  }

  /** No stock changes in the early error cases: a missing order id (400), an
      unknown order (404), or an order neither `status` nor `paymentStatus` of
      which is "paid" (400). */
  lemma EarlyErrorsChangeNoStock(orders: map<Id, Order>, products: map<Id, Product>, orderId: Option<Id>)
    requires orderId.None? || orderId.value !in orders || !PaidForStock(orders[orderId.value])
    ensures PlanStockUpdate(orders, products, orderId).products == products
    ensures PlanStockUpdate(orders, products, orderId).out.Refuse?
    ensures orderId.Some? && orderId.value !in orders ==> PlanStockUpdate(orders, products, orderId).out.status == 404
  {
  }

  /** Nothing marks the order as stocked: the same order decremented twice
      loses its quantity twice (stock 5, quantity 2: 5, then 3, then 1). */
  lemma StockUpdateIsNotIdempotent()
    ensures var orders := map[0 := Order(7, [OrderItem(1, 2, 50.0, 9)], 100.0, 0.0, None, Paid, PaymentPaid)];
      var products := map[1 := Product("P", "p", 50.0, 5, [], [], 9, true, None)];
      var first := PlanStockUpdate(orders, products, Some(0));
      var second := PlanStockUpdate(orders, first.products, Some(0));
      && first.out == Reply(200, ()) && first.products[1].stock == 3
      && second.out == Reply(200, ()) && second.products[1].stock == 1
  {
    var items := [OrderItem(1, 2, 50.0, 9)];
    assert items[1..] == [];
  }

  /** A product whose title an unvalidated edit emptied makes its `save()`
      throw: with lines 2 x product 1 (stock 5) and 1 x product 2 (title "",
      stock 5), the answer is 500, product 1 keeps its decrement to 3 and
      product 2 keeps its stock of 5. */
  lemma EmptiedTitleFailsSave()
    ensures var orders := map[0 := Order(7, [OrderItem(1, 2, 50.0, 9), OrderItem(2, 1, 10.0, 9)], 110.0, 0.0, None, Paid, PaymentPaid)];
      var products := map[1 := Product("P", "p", 50.0, 5, [], [], 9, true, None),
                           2 := Product("", "q", 10.0, 5, [], [], 9, true, None)];
      var plan := PlanStockUpdate(orders, products, Some(0));
      && plan.out == Refuse(500, MsgServerError)
      && plan.products[1].stock == 3 && plan.products[2].stock == 5
  {
    var items := [OrderItem(1, 2, 50.0, 9), OrderItem(2, 1, 10.0, 9)];
    var products := map[1 := Product("P", "p", 50.0, 5, [], [], 9, true, None),
                         2 := Product("", "q", 10.0, 5, [], [], 9, true, None)];
    var next := products[1 := products[1].(stock := 3)];
    StepUnfolds(products, items, next);
    assert items[1..][0] == OrderItem(2, 1, 10.0, 9);
    assert !PassesRequired(next[2]);
    assert DecrementStock(next, items[1..]) == StockRun(next, Some(SaveFailed(2)));
  }

  /** `updateStockAfterOrder`: the loop decrements and saves each product in
      turn; on a short line it returns 400 naming that product, and on a save
      that throws it returns 500; either way the decrements already saved
      stay. */
  method UpdateStockAfterOrder(orders: Collection<Order>, products: Collection<Product>, orderId: Option<Id>)
    returns (r: Outcome<()>)
    requires products.Valid()
    modifies products
    ensures products.Valid()
    ensures r == PlanStockUpdate(orders.docs, old(products.docs), orderId).out
    ensures products.docs == PlanStockUpdate(orders.docs, old(products.docs), orderId).products
  {
    if orderId.None? {
      return Refuse(400, MsgOrderIdRequired);
    }
    if orderId.value !in orders.docs {
      return Refuse(404, MsgOrderNotFound);
    }
    var order := orders.docs[orderId.value];
    if order.status != Paid && order.paymentStatus != PaymentPaid {
      return Refuse(400, MsgNotPaid);
    }
    var stop := RunStockLoop(products, order.items);
    match stop
    case None => r := Reply(200, ());
    case Some(Short(id)) => r := Refuse(400, StockShortMessage(products.docs[id].title));
    case Some(SaveFailed(_)) => r := Refuse(500, MsgServerError);
  }

  /** The `for` loop of `updateStockAfterOrder`: it decrements and saves each
      product in turn and stops at a short line or at a save that throws,
      keeping the decrements already saved. */
  method RunStockLoop(products: Collection<Product>, items: seq<OrderItem>) returns (stop: Option<StockStop>)
    requires products.Valid()
    modifies products
    ensures products.Valid()
    ensures products.docs == DecrementStock(old(products.docs), items).products
    ensures stop == DecrementStock(old(products.docs), items).stop
  {
    var i := 0;
    while i < |items|
      invariant 0 <= i <= |items|
      invariant products.Valid()
      invariant DecrementStock(products.docs, items[i..]) == DecrementStock(old(products.docs), items)
    {
      var rest := items[i..];
      assert rest[1..] == items[i + 1..];
      var line := items[i];
      if line.product in products.docs {
        var p := products.docs[line.product];
        if p.stock < line.quantity {
          assert DecrementStock(products.docs, rest) == StockRun(products.docs, Some(Short(line.product)));
          return Some(Short(line.product));
        }
        if !PassesRequired(p) {
          assert DecrementStock(products.docs, rest) == StockRun(products.docs, Some(SaveFailed(line.product)));
          return Some(SaveFailed(line.product));
        }
        StepUnfolds(products.docs, rest, products.docs[line.product := p.(stock := p.stock - line.quantity)]);
        products.Replace(line.product, p.(stock := p.stock - line.quantity));
      } else {
        StepUnfolds(products.docs, rest, products.docs);
      }
      i := i + 1;
    }
    assert DecrementStock(products.docs, items[i..]) == StockRun(products.docs, None);
    stop := None;
  }

  // ============================================ updateOrderStatus / payment

  /** `updateOrderStatus`: the only check on the new status is membership in
      the five known values; the current status is never consulted. */
  function PlanStatusUpdate(orders: map<Id, Order>, orderId: Option<Id>, newStatus: Option<string>): (r: Outcome<Order>)
    ensures r.Reply? ==> orderId.Some? && orderId.value in orders && r.status == 200
    ensures r.Reply? ==> r.value == orders[orderId.value].(status := r.value.status)
    ensures r.Reply? ==> newStatus.Some? && StatusName(r.value.status) == newStatus.value
  {
    if orderId.None? || newStatus.None? || newStatus.value == "" then Refuse(400, MsgStatusRequired)
    else
      var st := ParseStatus(newStatus.value);
      if st.None? then Refuse(400, MsgInvalidStatus)
      else if orderId.value !in orders then Refuse(404, MsgOrderNotFound)
      else Reply(200, orders[orderId.value].(status := st.value))
  }

  /** Any of the five statuses can be written over any current one, and the
      payment status is left as it was. */
  lemma AnyStatusToAnyStatus(orders: map<Id, Order>, orderId: Id, st: OrderStatus)
    requires orderId in orders
    ensures PlanStatusUpdate(orders, Some(orderId), Some(StatusName(st))) == Reply(200, orders[orderId].(status := st))
    ensures PlanStatusUpdate(orders, Some(orderId), Some(StatusName(st))).value.paymentStatus == orders[orderId].paymentStatus
  {
    ParseStatusName(st);
  }

  /** An unknown status string is refused with 400 before the order is looked
      up, so it is 400 even for an unknown order; a known status on an unknown
      order is 404. */
  lemma StatusErrors(orders: map<Id, Order>, orderId: Id, s: string)
    ensures s != "" && s !in StatusNames ==> PlanStatusUpdate(orders, Some(orderId), Some(s)) == Refuse(400, MsgInvalidStatus)
    ensures s in StatusNames && orderId !in orders ==> PlanStatusUpdate(orders, Some(orderId), Some(s)) == Refuse(404, MsgOrderNotFound)
  {
  }

  /** `updateOrderStatus`: writes the status and, when emitting, inserts the
      ORDER_UPDATED record for the order's user. */
  method UpdateOrderStatus(orders: Collection<Order>, notifications: Collection<Notification>,
                           orderId: Option<Id>, newStatus: Option<string>, now: Time, notify: bool)
    returns (r: Outcome<Order>)
    requires orders.Valid() && notifications.Valid()
    modifies orders, notifications
    ensures orders.Valid() && notifications.Valid()
    ensures r == PlanStatusUpdate(old(orders.docs), orderId, newStatus)
    ensures r.Reply? ==> orders.docs == old(orders.docs)[orderId.value := r.value]
    ensures !r.Reply? ==> orders.docs == old(orders.docs) && notifications.docs == old(notifications.docs)
    ensures r.Reply? ==>
      var record := OrderListeners.OrderUpdatedRecord(r.value.user, orderId.value, newStatus.value, now);
      notifications.docs == (if notify && NotificationModel.SchemaValid(record)
                             then old(notifications.docs)[old(notifications.nextId) := record]
                             else old(notifications.docs))
  {
    if orderId.None? || newStatus.None? || newStatus.value == "" {
      return Refuse(400, MsgStatusRequired);
    }
    var st := ParseStatus(newStatus.value);
    if st.None? {
      return Refuse(400, MsgInvalidStatus);
    }
    if orderId.value !in orders.docs {
      return Refuse(404, MsgOrderNotFound);
    }
    var order := orders.docs[orderId.value].(status := st.value);
    orders.Replace(orderId.value, order);
    if notify {
      var _ := OrderListeners.OnOrderUpdated(notifications, order.user, orderId.value, newStatus.value, now);
    }
    r := Reply(200, order);
  }

  /** `simulatePaymentController` with a payment that always succeeds: both
      `status` and `paymentStatus` become "paid". */
  function PlanPayment(orders: map<Id, Order>, orderId: Option<Id>): (r: Outcome<Order>)
    ensures r.Reply? <==> orderId.Some? && orderId.value in orders
    ensures r.Reply? ==> r.value == orders[orderId.value].(status := Paid, paymentStatus := PaymentPaid)
    ensures !r.Reply? ==> r == Refuse(404, "Commande introuvable")
  {
    if orderId.None? || orderId.value !in orders then Refuse(404, "Commande introuvable")
    else Reply(200, orders[orderId.value].(status := Paid, paymentStatus := PaymentPaid))
  }

  /** After a simulated payment the order passes the stock guard, and it keeps
      passing after any later status change, "cancelled" included, because the
      guard also accepts `paymentStatus == "paid"`. */
  lemma PaidOrderStaysStockable(orders: map<Id, Order>, orderId: Id, later: OrderStatus)
    requires orderId in orders
    ensures PaidForStock(PlanPayment(orders, Some(orderId)).value)
    ensures var paid := orders[orderId := PlanPayment(orders, Some(orderId)).value];
      PaidForStock(PlanStatusUpdate(paid, Some(orderId), Some(StatusName(later))).value)
  {
    var paid := orders[orderId := PlanPayment(orders, Some(orderId)).value];
    AnyStatusToAnyStatus(paid, orderId, later);
  }

  method SimulatePaymentController(orders: Collection<Order>, orderId: Option<Id>) returns (r: Outcome<Order>)
    requires orders.Valid()
    modifies orders
    ensures orders.Valid()
    ensures r == PlanPayment(old(orders.docs), orderId)
    ensures r.Reply? ==> orders.docs == old(orders.docs)[orderId.value := r.value]
    ensures !r.Reply? ==> orders.docs == old(orders.docs)
  {
    if orderId.None? || orderId.value !in orders.docs {
      return Refuse(404, "Commande introuvable");
    }
    var order := orders.docs[orderId.value].(status := Paid, paymentStatus := PaymentPaid);
    orders.Replace(orderId.value, order);
    r := Reply(200, order);
  }
}
