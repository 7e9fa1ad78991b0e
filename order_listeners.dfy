/** The ORDER_PASS and ORDER_UPDATED listeners (events/orderListeners.js):
    each turns an event payload into one notification record and inserts it,
    catching and logging a failed insert. */
module OrderListeners {
  import opened Common
  import opened Collections
  import opened NotificationModel

  const OrderPassTitle: string := "Nouvelle commande passée !"
  const OrderUpdatedTitle: string := "Statut de commande mis à jour !"

  /** The record ORDER_PASS `{recipient, orderId}` produces: addressed to the
      payload's recipient, linked to the order, naming the order in its text. */
  function OrderPassRecord(recipient: Id, orderId: Id, now: Time): (n: Notification)
    ensures n.recipient == recipient && n.title == OrderPassTitle
    ensures n.relatedEntity == Some(RelatedEntity(OrderRef, orderId))
    ensures Contains(n.message, IdText(orderId))
    ensures !n.isRead && n.deletedAt.None? && n.createdAt == now
  {
    var prefix, suffix := "La commande \"", "\" a été passée.";
    ContainsMiddle(prefix, IdText(orderId), suffix);
    NewNotification(recipient, OrderPassTitle, prefix + IdText(orderId) + suffix, RelatedEntity(OrderRef, orderId), now)
  }

  /** The record ORDER_UPDATED `{recipient, orderId, newStatus}` produces: its
      text names both the order and the new status. */
  function OrderUpdatedRecord(recipient: Id, orderId: Id, newStatus: string, now: Time): (n: Notification)
    ensures n.recipient == recipient && n.title == OrderUpdatedTitle
    ensures n.relatedEntity == Some(RelatedEntity(OrderRef, orderId))
    ensures Contains(n.message, IdText(orderId)) && Contains(n.message, newStatus)
    ensures !n.isRead && n.deletedAt.None? && n.createdAt == now
  {
    var a, b, c := "La commande \"", "\" a été mise à jour. Nouveau statut : \"", "\".";
    var msg := a + IdText(orderId) + b + newStatus + c;
    ContainsMiddle(a, IdText(orderId), b + newStatus + c);
    assert a + IdText(orderId) + (b + newStatus + c) == msg;
    ContainsMiddle(a + IdText(orderId) + b, newStatus, c);
    NewNotification(recipient, OrderUpdatedTitle, msg, RelatedEntity(OrderRef, orderId), now)
  }

  /** For any order id of up to 900 digits the ORDER_PASS record passes the
      schema, so the insert succeeds. */
  lemma OrderPassRecordValid(recipient: Id, orderId: Id, now: Time)
    requires |IdText(orderId)| <= 900
    ensures SchemaValid(OrderPassRecord(recipient, orderId, now))
  {
  }

  /** The ORDER_PASS handler: exactly one record inserted, or, when the insert
      fails, the error is logged and nothing is written or rethrown. */
  method OnOrderPass(store: Collection<Notification>, recipient: Id, orderId: Id, now: Time) returns (created: Option<Id>)
    requires store.Valid()
    modifies store
    ensures store.Valid()
    ensures created.Some? <==> SchemaValid(OrderPassRecord(recipient, orderId, now))
    ensures created.Some? ==> created.value == old(store.nextId) && created.value !in old(store.docs)
    ensures created.Some? ==> store.docs == old(store.docs)[created.value := OrderPassRecord(recipient, orderId, now)]
    ensures created.None? ==> store.docs == old(store.docs)
  {
    var ok, id := Create(store, OrderPassRecord(recipient, orderId, now));
    created := if ok then Some(id) else None;
  }

  /** The ORDER_UPDATED handler, same shape. */
  method OnOrderUpdated(store: Collection<Notification>, recipient: Id, orderId: Id, newStatus: string, now: Time)
    returns (created: Option<Id>)
    requires store.Valid()
    modifies store
    ensures store.Valid()
    ensures created.Some? <==> SchemaValid(OrderUpdatedRecord(recipient, orderId, newStatus, now))
    ensures created.Some? ==> created.value == old(store.nextId) && created.value !in old(store.docs)
    ensures created.Some? ==> store.docs == old(store.docs)[created.value := OrderUpdatedRecord(recipient, orderId, newStatus, now)]
    ensures created.None? ==> store.docs == old(store.docs)
  {
    var ok, id := Create(store, OrderUpdatedRecord(recipient, orderId, newStatus, now));
    created := if ok then Some(id) else None;
  }
}
