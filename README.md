# E-commerce backend core, modelled in Dafny

This project models the core of a REST backend for a multi-seller shop: products, carts, orders,
coupons, reviews and notifications kept in MongoDB collections, behind Express handlers and
middlewares. It covers:

- the handlers of the order, coupon, review, notification and product controllers;
- the Mongoose schemas they store (Order, Coupon with `decrementUse`, Review, Notification,
  Product);
- the yup request validators (coupon, review, user);
- the ORDER_PASS, ORDER_UPDATED, NEW_PRODUCT and PRODUCT_APPROVED notification listeners;
- the access-control middlewares (`isAdmin`, `role`, `checkProductOwnership`) and the CORS
  origin check.

How the model is built:

- **Documents are values** (datatypes). A collection is a `Collections.Collection<T>` object
  holding `docs: map<Id, T>` and the next fresh id. Ids grow with insertion order.
  - `FindFirst` models `findOne`: it returns the oldest match.
  - `IdsWhere` models `find`.
  - `CountWhere` models `countDocuments`.
- **Each handler is two members.** A pure `Plan…` function decides the HTTP outcome
  (`Reply(status, value)`, `Refuse(status, message)`, or `Forward(error)` for `next(error)`).
  A method performs the writes, and its `ensures` ties the answer and the new collections to
  that function. The lemmas state what the handler promises in terms of the function.
- **Event emission is a direct call to the listener.** It is guarded by a `notify` flag that
  stands for `NODE_ENV !== "test"`.
- **Mongoose behaviour is spelt out:**
  - the `trim`, `uppercase` and `lowercase` setters apply on create and on update;
  - update keys left undefined keep the old value;
  - updates run no validators;
  - `save()` re-validates the whole document;
  - the unique index on coupon codes answers a duplicate with 400.
- **yup behaviour is spelt out:**
  - an absent field is reported only by `required`;
  - a present value is checked by each of its rules in declaration order;
  - for strings, `required` also refuses "";
  - errors are collected field by field in schema order.
- **Time, the clock and the environment are parameters:** `now`, the module load time of the
  coupon schemas, and `ALLOWED_ORIGINS`. Money is `real`.

## Model

| member | source | states |
|---|---|---|
| OrderModel.ParseStatus | models/Order.js:28-32 | a status string is accepted exactly when it is one of the five enum names, and it parses to the status of that name |
| OrderModel.ParseStatusName | models/Order.js:28-32 | every status name is in the enum and parses back to its status (round trip) |
| OrderController.SurvivingLines | controllers/orderController.js:29-36 | the order lines are the cart lines whose product still exists, with the cart line's quantity and price and the product's seller; the result is empty iff every product is gone |
| OrderController.ClampAtZero | controllers/orderController.js:91 | the order total is never negative, and it is the unclamped value whenever that is not negative |
| OrderController.PlanCheckout | controllers/orderController.js:10-135 | an accepted checkout names an existing cart and, when a coupon applies, an existing coupon |
| OrderController.CreateOrder | controllers/orderController.js:10-135 | a refused checkout writes nothing; an accepted one inserts the order under a fresh id, takes one use from the applied coupon, creates the ORDER_PASS notification when emission is on and the record is schema-valid, and empties the cart |
| OrderController.CommitCheckout | controllers/orderController.js:96-121 | an accepted checkout inserts the order under a fresh id, then takes one use from the applied coupon, then creates the ORDER_PASS record when emission is on and the record is valid, then empties the cart, and answers 201 with the order |
| OrderController.EmptyCartRefused | controllers/orderController.js:24-26 | a user without a cart, or with an empty cart, is refused with 400 |
| OrderController.AllLinesStaleRefused | controllers/orderController.js:38-42 | a cart whose products have all been deleted is refused with 400 |
| OrderController.CheckoutWithoutCouponAccepted | controllers/orderController.js:10-102 | a user whose cart holds a line of a live product and who sends no code is accepted, with the surviving lines at the cart's stored total and no coupon |
| OrderController.CheckoutWithUsableCouponAccepted | controllers/orderController.js:10-102 | with such a cart, a live coupon under the upper-cased code that has not expired, has a use left and, when scoped, covers a surviving line, is applied: the order costs the clamped cart total minus its discount |
| OrderController.AcceptedOrderIsSnapshot | controllers/orderController.js:29-102 | an accepted order belongs to the cart's user, holds the surviving lines, starts pending and unpaid, and without a coupon costs the cart total with no discount |
| OrderController.AppliedCouponPassedAllChecks | controllers/orderController.js:49-93 | an applied coupon matched the upper-cased code, is not deleted, has not expired, has a use left, and covers a line when it is product-scoped; the total is the cart total minus the discount, clamped at zero |
| OrderController.ExpiredCouponRefused | controllers/orderController.js:59-62 | an expired coupon is refused with 400 |
| OrderController.UnknownCouponRefused | controllers/orderController.js:49-57 | a code that no live coupon carries is refused with 404 |
| OrderController.UpdateSoftDeletesCoupon | controllers/CouponController.js:105-136 | an update whose body is `{ isDeleted: true }` is accepted with 200 and flags the coupon, after which a checkout naming its code is refused with 404 |
| OrderController.DroppedLinesStillCount | controllers/orderController.js:29-44 | the order total is the stored cart total, so it still counts the lines dropped as stale |
| OrderController.FixedCouponScenario | controllers/orderController.js:84-93 | a fixed coupon of 10 with one use on a 100 cart gives a total of 90 and a discount of 10, and the same code is then refused as exhausted; a fixed discount of 150 gives a total of 0 but records 150 |
| OrderController.FullPercentageScenario | controllers/orderController.js:84-91 | a 100 % coupon makes the total 0 |
| OrderController.DecrementStock | controllers/orderController.js:221-235 | decrementing keeps the product ids and every field but the stock, and never makes a stock negative; the loop stops only at a stored product, and a `save()` failure only at a product missing its required title or description |
| OrderController.CompletedRunSubtractsQuantities | controllers/orderController.js:221-235 | when the loop runs to the end, with no short line and no failed `save()`, each product's stock falls by exactly the summed quantity of its lines |
| OrderController.StoppedRunKeepsEarlierDecrements | controllers/orderController.js:221-235 | when the loop stops, at a short line or at a failed `save()`, the decrements already made by the earlier lines stay written |
| OrderController.PlanStockUpdate | controllers/orderController.js:196-245 | a missing order id, an unknown order or an unpaid order is refused and leaves all stock unchanged; for a paid order the stock is what `DecrementStock` leaves, the answer is 200 exactly when the loop ran to the end, and 500 exactly when a `save()` failed |
| OrderController.EmptiedTitleFailsSave | controllers/orderController.js:221-240 | with a product whose title is empty after an edit, the update answers 500 while the earlier line's decrement stays written |
| OrderController.EarlyErrorsChangeNoStock | controllers/orderController.js:201-218 | a missing id, an unknown order or an unpaid order is refused and changes no stock; an unknown order gets 404 |
| OrderController.StockUpdateIsNotIdempotent | controllers/orderController.js:196-245 | running the stock update twice for the same paid order subtracts the quantities twice |
| OrderController.UpdateStockAfterOrder | controllers/orderController.js:196-245 | the handler leaves exactly the stock computed by `DecrementStock` and answers as `PlanStockUpdate` |
| OrderController.RunStockLoop | controllers/orderController.js:221-235 | the loop writes each decrement in turn and leaves exactly the products and the stop reason computed by `DecrementStock` |
| OrderController.PlanStatusUpdate | controllers/orderController.js:246-293 | a successful update changes only the order's status, and to the status named in the body |
| OrderController.AnyStatusToAnyStatus | controllers/orderController.js:258-282 | any known status can replace any other (no transition rule), and the payment status is kept |
| OrderController.StatusErrors | controllers/orderController.js:250-271 | an unknown status name gets 400 and an unknown order gets 404 |
| OrderController.UpdateOrderStatus | controllers/orderController.js:246-293 | the order is rewritten with the plan's result; on success with emission on, the ORDER_UPDATED record is created |
| OrderController.PlanPayment | controllers/orderController.js:159-193 | paying a stored order sets status and payment status to paid and nothing else; an unknown order gets 404 |
| OrderController.PaidOrderStaysStockable | controllers/orderController.js:201-218 | after payment the order passes the stock guard, and still passes after any later status change, cancelled included |
| OrderController.SimulatePaymentController | controllers/orderController.js:159-193 | the stored order becomes the plan's paid order, and nothing is written on 404 |
| CouponModel.KindOf | models/Coupon.js:14-19 | a coupon is fixed exactly when the body says "fixed"; an absent type defaults to percentage |
| CouponModel.StoredCode | models/Coupon.js:6-12 | a stored code has no surrounding blanks and no lower-case ASCII letter |
| CouponModel.NewCoupon | models/Coupon.js:4-74 | a new coupon stores the normalised code and is neither deleted nor dated as deleted |
| CouponModel.DecrementedUse | models/Coupon.js:78-84 | a positive use count falls by one; a count of zero or less leaves the coupon unchanged |
| CouponModel.DecrementNeverNegative | models/Coupon.js:78-84 | n calls leave max(uses − n, 0) uses and change nothing else |
| CouponModel.DecrementUse | models/Coupon.js:78-84 | the stored coupon becomes `DecrementedUse` of the old one |
| CouponValidation.CodeRules | validators/couponValidation.js:4-12 | a present code passes exactly when it has 3 to 20 characters, all from A–Z, 0–9, `_` and `-` |
| CouponValidation.DiscountRules | validators/couponValidation.js:22-30 | a discount passes exactly when it is at least 1, and at most 100 for a percentage body |
| CouponValidation.CreateErrors | validators/couponValidation.js:3-52 | the create schema reports no error exactly when every field is present and within its rule |
| CouponValidation.UpdateErrors | validators/couponValidation.js:54-87 | the update schema reports no error exactly when each present field is within its rule |
| CouponValidation.CreateValidIsUpdateValid | validators/couponValidation.js:3-87 | a body the create schema accepts is accepted by the update schema |
| CouponValidation.EmptyUpdateIsValid | validators/couponValidation.js:54-87 | the update schema accepts an empty body |
| CouponValidation.EmptyCreateBodyErrors | validators/couponValidation.js:3-52 | an empty create body gets the eight required messages in schema order |
| CouponValidation.EmptyCodeErrors | validators/couponValidation.js:4-12 | an empty code is reported as required, too short and not matching the pattern |
| CouponValidation.PatternCodeIsStoredForm | validators/couponValidation.js:4-12 | a code matching the pattern is unchanged by the trim and upper-case setters |
| CouponController.CreatedFrom | controllers/CouponController.js:31-47 | the created coupon carries the normalised code and is live |
| CouponController.PlanCreateCoupon | controllers/CouponController.js:7-55 | every refusal is a 400, and a success is a 201 |
| CouponController.ValidNewCouponCreated | controllers/CouponController.js:7-55 | a body the create schema accepts, with a code no stored coupon holds, is created as the normalised live coupon and answered with 201 |
| CouponController.CreateCoupon | controllers/CouponController.js:7-55 | the coupon is inserted under a fresh id exactly when the plan succeeds |
| CouponController.CreatedCouponIsValid | controllers/CouponController.js:7-55 | a created coupon passed the create schema, satisfies the Coupon schema, and has a code no stored coupon has |
| CouponController.PercentageGuardUnreachable | controllers/CouponController.js:23-29 | a percentage above 100 is already refused by the schema, with its message among the joined errors, so the handler's own guard is never reached |
| CouponController.CreateKeepsStoreInvariant | controllers/CouponController.js:7-55 | creating keeps codes unique and every stored coupon schema-valid |
| CouponController.GetCouponById | controllers/CouponController.js:76-103 | a stored coupon is returned with 200, otherwise 404 |
| CouponController.GetAllCoupons | controllers/CouponController.js:57-74 | the list holds every stored coupon exactly once, soft-deleted ones included, in insertion (id) order, and nothing else |
| CouponController.Patched | controllers/CouponController.js:109-113 | the raw body is written field by field: each field the body leaves out is kept, and each field it carries is taken from it; the code is stored trimmed and upper-cased, `usesLeft` is floored, and `isDeleted` and `deletedAt` are taken too, though the yup update schema does not check them |
| CouponController.PlanUpdateCoupon | controllers/CouponController.js:105-136 | a failed update schema gets 400 with the joined errors, a valid body for an unknown id gets 404, and a success answers 200 with the stored coupon patched by the body |
| CouponController.ValidUpdateApplied | controllers/CouponController.js:105-136 | a body the update schema accepts, for a stored coupon, with a code no other coupon holds, is applied and answered with the patched coupon |
| CouponController.UpdateCoupon | controllers/CouponController.js:105-136 | the coupon is replaced by the plan's result; nothing is written otherwise |
| CouponController.UpdateKeepsStoreInvariant | controllers/CouponController.js:105-136 | an update with an operator-free body keeps codes unique and every stored coupon schema-valid |
| CouponController.UpdateEscapesPercentageBound | controllers/CouponController.js:105-136 | a body that sends only `discount: 150` sets a percentage coupon to 150, because the bound depends on the body's type |
| CouponController.DeleteCoupon | controllers/CouponController.js:138-165 | the coupon is removed from the collection; the answer is the removed coupon with 200, or 404 for an unknown id, as `GetCouponById` gives |
| CouponController.DeleteIsHard | controllers/CouponController.js:138-165 | after a delete the coupon is not found (a second delete gets 404), every other coupon is found as before, and the store invariant holds |
| CouponController.SoftDeletedStillListed | controllers/CouponController.js:57-103 | a coupon flagged `isDeleted` is still listed and still returned by id |
| ReviewModel.BuildReview | models/review.js:55-83 | a review is built exactly when the rating is within 1..5 and the trimmed comment is not empty; it is active, valid and trimmed, and belongs to the given product and user |
| ReviewValidation.BodyErrors | validators/reviewValidation.js:3-15 | no error exactly when the comment has at least 3 characters and the rating is a whole number in 1..5; a missing field gets its required message |
| ReviewValidation.ValidBodyBuildsUnlessBlank | validators/reviewValidation.js:3-15 | an accepted body has an integer rating the model accepts, and it is stored exactly when its comment is not all blanks |
| ReviewValidation.BlankCommentPassesSchemaOnly | validators/reviewValidation.js:4-7 | a comment of three blanks passes the validator, but the model refuses it once trimmed |
| ReviewController.PlanCreateReview | controllers/reviewController.js:7-55 | a success answers 201 |
| ReviewController.CreateReview | controllers/reviewController.js:7-55 | the review is inserted under a fresh id exactly when the plan succeeds |
| ReviewController.BuyerFirstReviewCreated | controllers/reviewController.js:7-55 | a user with a qualifying order, no review of the product yet and a body the model accepts gets 201 with the built review |
| ReviewController.CreatedOnlyForBuyers | controllers/reviewController.js:14-26 | a review is created only when some order of the user for that product qualifies, and it carries the user, the product and a valid rating |
| ReviewController.CreateKeepsOnePerPair | controllers/reviewController.js:28-51 | creating keeps at most one review per user and product |
| ReviewController.DeletedReviewStillBlocks | controllers/reviewController.js:28-38 | a soft-deleted review still blocks a new one with 409 |
| ReviewController.GetAllReviews | controllers/reviewController.js:57-81 | the list is exactly the product's stored active reviews, each once, in insertion (id) order, and the count is its length; with none the answer is 404 |
| ReviewController.Patched | controllers/reviewController.js:87-106 | an update keeps product, user and deletion date; it sets the given rating and the trimmed comment, and keeps the others |
| ReviewController.PlanUpdateOwnReview | controllers/reviewController.js:83-116 | only the author's review of that product is updated (200), otherwise 403 |
| ReviewController.UpdateOwnReview | controllers/reviewController.js:83-116 | the review is replaced by the plan's result; nothing is written otherwise |
| ReviewController.PlanUpdateAnyReview | controllers/reviewController.js:118-144 | an admin updates any stored review (200), otherwise 404 |
| ReviewController.UpdateAnyReview | controllers/reviewController.js:118-144 | the review is replaced by the plan's result; nothing is written otherwise |
| ReviewController.UpdatesKeepOnePerPair | controllers/reviewController.js:83-144 | updates keep at most one review per user and product |
| ReviewController.SoftDelete | controllers/reviewController.js:155-178 | a delete succeeds exactly on an active, schema-valid review and only sets its deletion date; a deleted one gets 400 |
| ReviewController.PlanDeleteOwnReview | controllers/reviewController.js:146-185 | a user who is not the author gets 403; otherwise the soft delete decides |
| ReviewController.DeleteOwnReview | controllers/reviewController.js:146-185 | the review is replaced by the plan's result; nothing is written otherwise |
| ReviewController.PlanDeleteAnyReview | controllers/reviewController.js:187-219 | an unknown review gets 404; otherwise the soft delete decides |
| ReviewController.DeleteAnyReview | controllers/reviewController.js:187-219 | the review is replaced by the plan's result; nothing is written otherwise |
| ReviewController.DeleteIsOnce | controllers/reviewController.js:155-178 | a second delete of the same review is refused with 400, and the review leaves the listing |
| ReviewController.OutOfRangeRatingBlocksDelete | controllers/reviewController.js:155-178 | a stored review whose rating is outside 1..5 cannot be deleted: `save()` fails its validation |
| NotificationModel.NewNotification | models/Notification.js:70-107 | a new notification is unread, not deleted, has no read date, and carries the given fields |
| NotificationModel.Create | models/Notification.js:70-107 | the notification is inserted exactly when it is schema-valid (title ≤ 200, message ≤ 1000 characters) |
| OrderListeners.OrderPassRecord | events/orderListeners.js:4-21 | the ORDER_PASS record goes to the recipient, refers to the order, and its message contains the order id |
| OrderListeners.OrderUpdatedRecord | events/orderListeners.js:22-37 | the ORDER_UPDATED record refers to the order, and its message contains the order id and the new status |
| OrderListeners.OrderPassRecordValid | events/orderListeners.js:4-21 | the ORDER_PASS record always satisfies the Notification schema |
| OrderListeners.OnOrderPass | events/orderListeners.js:4-21 | a valid record is stored under a fresh id, and a failure stores nothing |
| OrderListeners.OnOrderUpdated | events/orderListeners.js:22-37 | a valid record is stored under a fresh id, and a failure stores nothing |
| ProductListeners.NewProductRecord | events/productListeners.js:8-30 | the NEW_PRODUCT record refers to the product, and its message contains the product name |
| ProductListeners.ProductApprovedRecord | events/productListeners.js:32-52 | the PRODUCT_APPROVED record refers to the product, and its message contains the product name |
| ProductListeners.LongNameIsRejected | events/productListeners.js:8-52 | a product name of 1000 characters or more makes both records fail the message length rule |
| ProductListeners.OnNewProduct | events/productListeners.js:8-30 | a valid record is stored under a fresh id, and a failure stores nothing |
| ProductListeners.OnProductApproved | events/productListeners.js:32-52 | a valid record is stored under a fresh id, and a failure stores nothing |
| NotificationController.InsertNewest | controllers/notificationController.js:17-21 | inserting adds exactly the new element: the result is one longer and holds the old elements plus the new one |
| NotificationController.InsertNewestKeepsOrder | controllers/notificationController.js:17-21 | inserting into a newest-first list keeps it newest-first, and its head is the new element or the old head |
| NotificationController.SortNewestFirst | controllers/notificationController.js:17-21 | the sort result is newest-first and a permutation of its input |
| NotificationController.Matching | controllers/notificationController.js:11-21 | the matches are exactly the user's notifications that pass the read filter, as many as `countDocuments` counts |
| NotificationController.PageCount | controllers/notificationController.js:23-37 | the page count is the ceiling of total / limit, and undefined for limit 0 |
| NotificationController.Window | controllers/notificationController.js:17-21 | skip/limit returns the slice of the sorted list, at most `limit` long, still sorted |
| NotificationController.GetNotifications | controllers/notificationController.js:6-43 | a negative skip is forwarded as an error; otherwise the page is the `(page-1)*limit` window of the recipient's matching notifications sorted newest first (so only listed ones, at most `limit`), `total` is the number of matches, `pages` is `PageCount` of it, and `unreadCount` counts the recipient's unread notifications |
| NotificationController.EveryMatchOnSomePage | controllers/notificationController.js:6-43 | with any positive limit, each matching notification is shown on some page between 1 and `pages` |
| NotificationController.FirstUnlimitedPageListsAll | controllers/notificationController.js:6-43 | page 1 with no limit returns every listed notification |
| NotificationController.UnreadCountIgnoresFilter | controllers/notificationController.js:23-37 | the unread count does not depend on the `isRead` filter |
| NotificationController.OnlyExactTrueFilters | controllers/notificationController.js:11-14 | only the exact string "true" restricts the list to unread notifications; "TRUE", "1" or no parameter list read ones too |
| NotificationController.PlanMarkAsRead | controllers/notificationController.js:47-71 | the recipient's notification becomes read and keeps its read date, otherwise 404 |
| NotificationController.MarkAsRead | controllers/notificationController.js:47-71 | the notification is replaced by the plan's result; nothing is written otherwise |
| NotificationController.MarkedAllRead | controllers/notificationController.js:76-88 | exactly the user's unread notifications become read |
| NotificationController.MarkAllAsRead | controllers/notificationController.js:72-99 | the store becomes `MarkedAllRead`, and the count is the number of the user's unread notifications before the call |
| NotificationController.MarkAllLeavesNoneUnread | controllers/notificationController.js:72-99 | afterwards the user has no unread notification, other users' notifications are untouched, and a second call changes nothing |
| NotificationController.PlanDeleteNotification | controllers/notificationController.js:100-138 | the recipient's live notification gets its deletion date, otherwise 404 |
| NotificationController.DeleteNotification | controllers/notificationController.js:100-138 | the notification is replaced by the plan's result; nothing is written otherwise |
| NotificationController.DeleteTwice | controllers/notificationController.js:100-138 | a second delete of the same notification gets 404 |
| ProductModel.TrimAll | models/products.js:29-34 | each image path is stored trimmed, one for one |
| ProductModel.BuildProduct | models/products.js:1-47 | a product is built exactly when title, description, price and stock are present; the description is lower-cased and the images are trimmed |
| ProductController.ImagePaths | controllers/productController.js:141 | each uploaded file becomes "/uploads/products/" + its name, in order; no upload gives no images |
| ProductController.KnownIn | controllers/productController.js:143 | the categories found are only known ids |
| ProductController.PlanCreateProduct | controllers/productController.js:127-173 | a stored product belongs to the requesting user and is inactive; a 201 returns the stored product |
| ProductController.CreateProduct | controllers/productController.js:127-173 | the product is inserted under a fresh id exactly when the plan stores one, even when the answer is the emitter's error |
| ProductController.DuplicateTitleRefusedFirst | controllers/productController.js:135-139 | a title already stored is refused with 400 before any other check |
| ProductController.CreatedProductShape | controllers/productController.js:127-157 | a stored product has a new title, known and distinct categories, the upload paths as images, and a lower-cased description |
| ProductController.NewProductCreated | controllers/productController.js:127-173 | a new title with known, distinct categories and every required field is stored as the seller's inactive product and, without the emit, answered with 201 |
| ProductController.AllFoundWhenDistinct | controllers/productController.js:143-146 | known and distinct categories are all found, so the count check passes |
| ProductController.DistinctWhenAllFound | controllers/productController.js:143-146 | when as many categories are found as were sent, every one is known and none is repeated |
| ProductController.RepeatedCategoryRefused | controllers/productController.js:143-146 | sending the same existing category twice is refused with 404 |
| ProductController.EmitErrorAfterStore | controllers/productController.js:158-172 | with emission on, a create that would succeed ends in `next(error)`, but the product is stored |
| ProductController.Edited | controllers/productController.js:219-228 | each field the body leaves out is kept and each field it carries is taken from it, the description lower-cased; uploaded images replace the images, otherwise body images are stored trimmed, and without either the images are kept; the seller is kept unless the body names one |
| ProductController.EditCanEmptyTitle | controllers/productController.js:219-228 | an edit with an empty title is stored, and leaves a product that fails the schema's required rules |
| ProductController.PlanEditProduct | controllers/productController.js:216-241 | a stored product is edited with 200, otherwise 404 |
| ProductController.EditProduct | controllers/productController.js:216-241 | the product is replaced by the edited one; nothing is written on 404 |
| ProductController.EditKeepsImagesWithoutUploads | controllers/productController.js:219-228 | an edit with no upload keeps the images, and `isActive: true` in the body activates the product |
| ProductController.EditCanDateDeletion | controllers/productController.js:219-228 | an edit whose body carries `deletedAt` stores that date, and the product is still found by id |
| ProductController.GetOneProduct | controllers/productController.js:91-105 | a stored product is answered once with 200; a missing one gets 400, then a second response whose failure goes to `next` |
| ProductController.GetOneProductReturning | controllers/productController.js:91-105 | with the intended `return`, every request gets exactly one response |
| ProductController.MissingProductAnsweredTwice | controllers/productController.js:95-101 | the two readings agree on stored products; on a missing one, only the code as written sends twice and forwards an error |
| ProductController.DeleteProduct | controllers/productController.js:264-271 | the product is removed and the answer is 200, whether or not it existed; deleting a missing product changes nothing |
| ProductController.DeletedProductIsGone | controllers/productController.js:264-271 | after a delete the product is not found, and every other product is found as before |
| UserValidation.RequiredMin | validators/userValidation.js:19-21 | a required string with a minimum length passes exactly when present, non-empty and long enough |
| UserValidation.RequiredEmail | validators/userValidation.js:20 | a required e-mail passes exactly when present, non-empty and well formed |
| UserValidation.RegisterErrors | validators/userValidation.js:18-22 | the register schema (also `userSchema`, lines 3-16) reports no error exactly when the name has ≥ 3 characters, the e-mail is well formed and the password has ≥ 8 characters |
| UserValidation.LoginErrors | validators/userValidation.js:24-27 | login reports no error exactly when the e-mail is well formed and the password is non-empty |
| UserValidation.UpdateProfileErrors | validators/userValidation.js:29-33 | a profile update reports no error exactly when each present field is within its rule, and never reports a field as required |
| UserValidation.RegisteredBodyPassesOtherSchemas | validators/userValidation.js:18-33 | a body accepted at registration is accepted at login and as a profile update |
| UserValidation.LoginAcceptsShortPassword | validators/userValidation.js:24-27 | login accepts a one-character password that registration refuses |
| UserValidation.EmptyEmailOnlyFailsWhenRequired | validators/userValidation.js:29-33 | an empty profile update and an empty e-mail pass the update schema; registration reports the e-mail as required |
| UserValidation.EmptyNameTwice | validators/userValidation.js:19 | an empty name is reported as required and as too short |
| AccessControl.IsAdmin | middlewares/isAdmin.js:1-21 | only a user whose role is "admin" passes; everyone else, including a request with no user, gets 403 |
| AccessControl.Role | middlewares/role.js:1-24 | without a user the answer is 401; a user passes exactly when their role is among the allowed roles, otherwise 403 |
| AccessControl.RoleAdminMatchesIsAdmin | middlewares/role.js:1-24 | `role("admin")` and `isAdmin` let the same users through, and differ (401 against 403) when there is no user |
| AccessControl.NoRolesRefusesEveryone | middlewares/role.js:13-21 | `role()` with no roles refuses every authenticated user |
| AccessControl.CheckProductOwnership | middlewares/checkProductOwnership.js:3-28 | only the product's seller passes; with no user or a failed lookup the error goes to `next`; a missing product gets 404 |
| AccessControl.AdminIsNotOwner | middlewares/checkProductOwnership.js:17-21 | an admin who is not the seller is refused with 403 |
| Cors.AllowedOrigins | middlewares/security.js:11 | the allowed list is the variable split at commas, which joins back to the variable; an unset variable gives the local front end |
| Cors.CheckOrigin | middlewares/security.js:5-19 | an origin is allowed exactly when it is absent or empty, or equals an entry; otherwise the error names the origin |
| Cors.DefaultAllowsOnlyLocalhost | middlewares/security.js:11-13 | with the variable unset, only http://localhost:3000 is allowed |
| Cors.EntriesAreNotTrimmed | middlewares/security.js:11-13 | a blank after a comma becomes part of the entry, so with "a, b" the origin "b" is refused and " b" allowed |

## Left out

- I/O is left out: the HTTP layer, logging, and the JSON envelopes beyond status, message and
  payload.
- Concurrency is left out. Every handler runs alone against the collections, so the
  interleavings of the awaited calls are not modelled.
- Floating point is left out. Prices, totals, discounts and yup's numbers are `real`.
- ReviewController.Patched, ReviewController.PlanUpdateOwnReview, ReviewController.PlanUpdateAnyReview:
  a rating is an `int`. The update handlers run no validation, so the source stores a
  fractional rating such as 4.5; the model cannot represent it.
- ProductController.Edited: stock is an `int`. An edit runs no validation, so the source
  stores a fractional stock such as 2.5; the model cannot represent it.
- Sorting `getNotifications` by `createdAt` leaves ties unordered in the database. The model
  breaks ties by ascending id. Only the facts that the page is sorted newest first and is a
  permutation of the matches would hold for any tie order.
- `DELETE` of an order, cart handling (`models/Cart.js`), categories, authentication, the
  profile controller and the error handler are not part of this model. Carts are read and
  emptied as values, and the known category ids are a parameter.
- `getProducts` (search, filters and pagination of the product list) is not modelled.
- Ids are typed. A malformed id, and the cast errors Mongoose raises for it, cannot be
  represented. Those errors reach `next(error)` and are modelled only as the `Failed` lookup
  of `checkProductOwnership`.
- The texts of driver errors (duplicate key, negative skip, validation) are constants that
  stand for the error. Their wording is not the driver's.
- OrderController.CouponByCode: the checkout's coupon filter is modelled without the schema's
  `trim` setter, which Mongoose applies to query values. A code " abc " is refused with 404
  where the source finds the coupon ABC.
- A create body without `title` matches no product in the duplicate check. Mongoose's
  treatment of an undefined filter value is not modelled.
- CouponController.Patched, CouponController.UpdateKeepsStoreInvariant, ProductController.Edited:
  the update bodies are passed on raw, and yup keeps unknown keys. Mongoose applies update
  operators such as `$set`, `$inc` and `$unset` in them, without validators, so
  `{"$inc": {"usesLeft": -5}}` or `{"$set": {"discount": 0}}` stores a schema-invalid coupon.
  Operator bodies are not modelled. The store invariant is proved for operator-free bodies
  only. Other keys that are not schema fields are dropped by strict mode.
- `save()` re-validation is modelled for the review deletes and for the stock loop of
  `updateStockAfterOrder`. The other `save()` calls are modelled as succeeding: the new
  order, the applied coupon and the cart in `createOrder`, and the order in the payment and
  status handlers. A coupon that an update-operator body left with a discount below 1 would
  make its `save()` fail with 500 after the order is written; that path is not modelled.
- The `setTimeout` delay of the simulated payment, and reading `NODE_ENV`, are left out. The
  `notify` parameter stands for the environment check.
- The 500 branch of `isAdmin` is left out: nothing in its `try` block can throw.
- String handling covers ASCII only. `trim`, `uppercase` and `lowercase` work on ASCII
  letters and blanks, with no Unicode case mapping or white space.
- yup's e-mail regular expression is a parameter. yup's ordering of errors is modelled as
  schema order and declaration order.
- The coupon schemas capture `new Date()` once, when the module loads. The model takes that
  instant as `loadTime`.
- A negative `limit` in `getNotifications` is not modelled, because `limit` is a `nat`.

## Findings

| source | as written | input that shows it | evidently intended | confidence | as-written member | corrected member |
|---|---|---|---|---|---|---|
| controllers/productController.js:95-101 | a missing product gets its 400 response, then the handler goes on to send a 200, which fails and is passed to `next` | a `GET /products/:id` whose id names no product | `return` after the 400, so each request gets one response | high (not executed) | ProductController.GetOneProduct | ProductController.GetOneProductReturning |
