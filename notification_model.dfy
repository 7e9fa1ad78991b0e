/** The Notification schema (models/Notification.js) and `Notification.create`. */
module NotificationModel {
  import opened Common
  import opened Collections

  /** `relatedEntity.entityType`: Product, Order, User or Review. */
  datatype EntityType = ProductRef | OrderRef | UserRef | ReviewRef

  datatype RelatedEntity = RelatedEntity(entityType: EntityType, entityId: Id)

  /** `isRead` defaults to false, `deletedAt` to null, `readAt` is optional;
      `createdAt` comes from the schema's timestamps. */
  datatype Notification = Notification(
    recipient: Id,
    title: string,
    message: string,
    relatedEntity: Option<RelatedEntity>,
    isRead: bool,
    readAt: Option<Time>,
    deletedAt: Option<Time>,
    createdAt: Time)

  const TitleMax: nat := 200
  const MessageMax: nat := 1000

  /** The schema's validators: `title` and `message` required (non-empty) and
      at most 200 and 1000 characters. */
  predicate SchemaValid(n: Notification) {
    0 < |n.title| <= TitleMax && 0 < |n.message| <= MessageMax
  }

  /** The document `Notification.create({recipient, title, message,
      relatedEntity})` builds at time `now`, defaults filled in. Fields the
      schema does not declare (such as a `type`) are dropped by strict mode and
      have no place here. */
  function NewNotification(recipient: Id, title: string, message: string, related: RelatedEntity, now: Time): (n: Notification)
    ensures n.recipient == recipient && n.title == title && n.message == message
    ensures n.relatedEntity == Some(related)
    ensures !n.isRead && n.readAt.None? && n.deletedAt.None? && n.createdAt == now
  {
    Notification(recipient, title, message, Some(related), false, None, None, now)
  }

  /** `Notification.create(doc)`: the document is inserted when the schema
      accepts it; otherwise the call fails and nothing is written. */
  method Create(store: Collection<Notification>, n: Notification) returns (ok: bool, id: Id)
    requires store.Valid()
    modifies store
    ensures store.Valid()
    ensures ok == SchemaValid(n)
    ensures ok ==> id == old(store.nextId) && id !in old(store.docs)
    ensures ok ==> store.docs == old(store.docs)[id := n]
    ensures !ok ==> store.docs == old(store.docs)
  {
    ok, id := SchemaValid(n), store.nextId;
    if ok {
      id := store.Insert(n);
    }
  }
}
