/** The NEW_PRODUCT and PRODUCT_APPROVED listeners (events/productListeners.js). */
module ProductListeners {
  import opened Common
  import opened Collections
  import opened NotificationModel

  const NewProductTitle: string := "Nouveau produit disponible !"
  const ProductApprovedTitle: string := "Produit approuvé !"

  /** The record NEW_PRODUCT `{recipient, productId, productName}` produces. */
  function NewProductRecord(recipient: Id, productId: Id, productName: string, now: Time): (n: Notification)
    ensures n.recipient == recipient && n.title == NewProductTitle
    ensures n.relatedEntity == Some(RelatedEntity(ProductRef, productId))
    ensures Contains(n.message, productName)
    ensures |n.message| > |productName|
    ensures !n.isRead && n.deletedAt.None? && n.createdAt == now
  {
    var prefix, suffix := "Le produit \"", "\" vient d'être ajouté à la boutique.";
    ContainsMiddle(prefix, productName, suffix);
    NewNotification(recipient, NewProductTitle, prefix + productName + suffix, RelatedEntity(ProductRef, productId), now)
  }

  /** The record PRODUCT_APPROVED produces. The handler also passes
      `type: "GENERAL"`, a field the schema does not declare; strict mode drops
      it, so the stored record has no such field. */
  function ProductApprovedRecord(recipient: Id, productId: Id, productName: string, now: Time): (n: Notification)
    ensures n.recipient == recipient && n.title == ProductApprovedTitle
    ensures n.relatedEntity == Some(RelatedEntity(ProductRef, productId))
    ensures Contains(n.message, productName)
    ensures |n.message| > |productName|
    ensures !n.isRead && n.deletedAt.None? && n.createdAt == now
  {
    var prefix, suffix := "Votre produit \"", "\" a été approuvé et est maintenant visible sur la boutique.";
    ContainsMiddle(prefix, productName, suffix);
    NewNotification(recipient, ProductApprovedTitle, prefix + productName + suffix, RelatedEntity(ProductRef, productId), now)
  }

  /** A product name of 1000 characters or more makes the message exceed the
      schema's limit: the insert fails (and the handler only logs it). */
  lemma LongNameIsRejected(recipient: Id, productId: Id, productName: string, now: Time)
    requires |productName| >= MessageMax
    ensures !SchemaValid(NewProductRecord(recipient, productId, productName, now))
    ensures !SchemaValid(ProductApprovedRecord(recipient, productId, productName, now))
  {
  }

  /** The NEW_PRODUCT handler: one record inserted, or the failure caught. */
  method OnNewProduct(store: Collection<Notification>, recipient: Id, productId: Id, productName: string, now: Time)
    returns (created: Option<Id>)
    requires store.Valid()
    modifies store
    ensures store.Valid()
    ensures created.Some? <==> SchemaValid(NewProductRecord(recipient, productId, productName, now))
    ensures created.Some? ==> created.value == old(store.nextId) && created.value !in old(store.docs)
    ensures created.Some? ==> store.docs == old(store.docs)[created.value := NewProductRecord(recipient, productId, productName, now)]
    ensures created.None? ==> store.docs == old(store.docs)
  {
    var ok, id := Create(store, NewProductRecord(recipient, productId, productName, now));
    created := if ok then Some(id) else None;
  }

  /** The PRODUCT_APPROVED handler: one record inserted, or the failure caught. */
  method OnProductApproved(store: Collection<Notification>, recipient: Id, productId: Id, productName: string, now: Time)
    returns (created: Option<Id>)
    requires store.Valid()
    modifies store
    ensures store.Valid()
    ensures created.Some? <==> SchemaValid(ProductApprovedRecord(recipient, productId, productName, now))
    ensures created.Some? ==> created.value == old(store.nextId) && created.value !in old(store.docs)
    ensures created.Some? ==> store.docs == old(store.docs)[created.value := ProductApprovedRecord(recipient, productId, productName, now)]
    ensures created.None? ==> store.docs == old(store.docs)
  {
    var ok, id := Create(store, ProductApprovedRecord(recipient, productId, productName, now));
    created := if ok then Some(id) else None;
  }
}
