/** The product handlers of controllers/productController.js: create (unique
    title, all categories known, inactive until approved), edit, get one and
    delete. The Category collection is not part of this model: the ids it holds
    are a parameter. Uploaded files are given by their file names. */
module ProductController {
  import opened Common
  import opened Collections
  import opened ProductModel

  const MsgProductExists: string := "Product already exists"
  const MsgCategoriesNotFound: string := "One or more categories not found"
  const MsgProductNotFound: string := "Product not found"
  /** `next(error)` for a request without `categories`: the TypeError raised
      by `categories.length` once the category query has run. */
  const MsgNoCategories: string := "Cannot read properties of undefined (reading 'length')"
  /** `next(error)` when `Products.create` refuses the document. */
  const MsgProductInvalid: string := "Product validation failed"
  /** `next(error)` raised by the emit: the emitter is never imported. */
  const MsgEmitterUndefined: string := "NotificationEmitter is not defined"
  /** `next(error)` raised by the second response of `getOneProduct`. */
  const MsgHeadersSent: string := "Cannot set headers after they are sent to the client"

  const UploadPrefix: string := "/uploads/products/"

  /** `req.files?.map(file => "/uploads/products/" + file.filename) || []`. */
  function ImagePaths(files: Option<seq<string>>): (r: seq<string>)
    ensures files.None? ==> r == []
    ensures files.Some? ==> |r| == |files.value| && forall i :: 0 <= i < |r| ==> r[i] == UploadPrefix + files.value[i]
  {
    match files
    case None => []
    case Some(fs) => seq(|fs|, i requires 0 <= i < |fs| => UploadPrefix + fs[i])
  }

  /** The documents `Category.find({ _id: { $in: categories } })` returns,
      by id: the requested ids that name a category, each once. */
  function KnownIn(categories: seq<Id>, known: set<Id>): (r: set<Id>)
    ensures r <= known
  {
    if categories == [] then {}
    else (if categories[0] in known then {categories[0]} else {}) + KnownIn(categories[1..], known)
  }

  /** The length of that result. */
  function FoundCategories(categories: seq<Id>, known: set<Id>): nat {
    |KnownIn(categories, known)|
  }

  /** The body of a create request. */
  datatype ProductBody = ProductBody(fields: ProductFields, categories: Option<seq<Id>>)

  /** What `createProduct` answers and what it leaves stored. */
  datatype ProductCreation = ProductCreation(out: Outcome<Product>, stored: Option<Product>)

  /** `createProduct`, in the source's order: the title check, the image
      paths, the category count, the insert with `isActive: false` and the
      requesting user as seller, then (outside the test environment) the emit,
      which throws after the product is stored. */
  function PlanCreateProduct(docs: map<Id, Product>, bound: nat, seller: Id, b: ProductBody,
                             files: Option<seq<string>>, known: set<Id>, notify: bool): (r: ProductCreation)
    ensures r.stored.Some? ==> r.stored.value.seller == seller && !r.stored.value.isActive
    ensures r.out.Reply? ==> r.stored.Some? && r.out == Reply(201, r.stored.value)
  {
    if FindFirst(docs, bound, (p: Product) => Some(p.title) == b.fields.title).Some? then
      ProductCreation(Refuse(400, MsgProductExists), None)
    else
      var images := ImagePaths(files);
      if b.categories.None? then ProductCreation(Forward(MsgNoCategories), None)
      else if FoundCategories(b.categories.value, known) != |b.categories.value| then
        ProductCreation(Refuse(404, MsgCategoriesNotFound), None)
      else
        var built := BuildProduct(b.fields, b.categories.value, images, seller, false);
        if built.None? then ProductCreation(Forward(MsgProductInvalid), None)
        else if notify then ProductCreation(Forward(MsgEmitterUndefined), built)
        else ProductCreation(Reply(201, built.value), built)
  }

  method CreateProduct(products: Collection<Product>, seller: Id, b: ProductBody,
                       files: Option<seq<string>>, known: set<Id>, notify: bool) returns (r: Outcome<Product>)
    requires products.Valid()
    modifies products
    ensures products.Valid()
    ensures var plan := PlanCreateProduct(old(products.docs), old(products.nextId), seller, b, files, known, notify);
      && r == plan.out
      && products.docs == (if plan.stored.Some? then old(products.docs)[old(products.nextId) := plan.stored.value]
                           else old(products.docs))
  {
    var existing := FindFirst(products.docs, products.nextId, (p: Product) => Some(p.title) == b.fields.title);
    if existing.Some? {
      return Refuse(400, MsgProductExists);
    }
    var images := ImagePaths(files);
    if b.categories.None? {
      return Forward(MsgNoCategories);
    }
    if FoundCategories(b.categories.value, known) != |b.categories.value| {
      return Refuse(404, MsgCategoriesNotFound);
    }
    var built := BuildProduct(b.fields, b.categories.value, images, seller, false);
    if built.None? {
      return Forward(MsgProductInvalid);
    }
    var _ := products.Insert(built.value);
    if notify {
      return Forward(MsgEmitterUndefined);
    }
    r := Reply(201, built.value);
  }

  /** A title already in the store is refused with 400 before anything else
      is looked at, whatever the categories and fields. */
  lemma DuplicateTitleRefusedFirst(docs: map<Id, Product>, bound: nat, seller: Id, b: ProductBody,
                                   files: Option<seq<string>>, known: set<Id>, notify: bool, id: Id)
    requires forall k :: k in docs ==> k < bound
    requires id in docs && b.fields.title == Some(docs[id].title)
    ensures PlanCreateProduct(docs, bound, seller, b, files, known, notify) == ProductCreation(Refuse(400, MsgProductExists), None)
  {
    FindFirstComplete(docs, bound, (p: Product) => Some(p.title) == b.fields.title, id);
  }

  /** A stored product carries a title no earlier product had, every
      requested category is known and none is repeated, the images are the
      upload paths (trimmed), and the description is lower-cased. */
  lemma CreatedProductShape(docs: map<Id, Product>, bound: nat, seller: Id, b: ProductBody,
                            files: Option<seq<string>>, known: set<Id>, notify: bool)
    requires PlanCreateProduct(docs, bound, seller, b, files, known, notify).stored.Some?
    ensures var p := PlanCreateProduct(docs, bound, seller, b, files, known, notify).stored.value;
      && (forall id :: id in docs && id < bound ==> docs[id].title != p.title)
      && b.categories == Some(p.categories)
      && (forall c :: c in p.categories ==> c in known)
      && (forall i, j :: 0 <= i < j < |p.categories| ==> p.categories[i] != p.categories[j])
      && p.images == TrimAll(ImagePaths(files))
      && p.description == ToLower(b.fields.description.value)
      && p.deletedAt.None?
  {
    DistinctWhenAllFound(b.categories.value, known);
  }

  /** The found categories are exactly the requested ids that are known. */
  lemma {:induction false} KnownInMembers(cs: seq<Id>, known: set<Id>, c: Id)
    ensures c in KnownIn(cs, known) <==> c in cs && c in known
  {
    if cs != [] {
      KnownInMembers(cs[1..], known, c);
      if c in cs && c != cs[0] {
        assert c in cs[1..];
      }
    }
  }

  /** When every requested category is found, the first one is known and is
      not requested again, and the same holds of the rest. */
  lemma HeadFound(cs: seq<Id>, known: set<Id>)
    requires cs != [] && FoundCategories(cs, known) == |cs|
    ensures cs[0] in known && cs[0] !in cs[1..]
    ensures FoundCategories(cs[1..], known) == |cs| - 1
  {
    var rest := cs[1..];
    var head: set<Id> := if cs[0] in known then {cs[0]} else {};
    assert KnownIn(cs, known) == head + KnownIn(rest, known);
    FoundAtMostRequested(rest, known);
    KnownInMembers(rest, known, cs[0]);
  }

  /** When as many categories are found as were requested, every requested
      id is known and none is repeated. */
  lemma {:induction false} DistinctWhenAllFound(cs: seq<Id>, known: set<Id>)
    requires FoundCategories(cs, known) == |cs|
    ensures forall c :: c in cs ==> c in known
    ensures forall i, j :: 0 <= i < j < |cs| ==> cs[i] != cs[j]
  {
    if cs != [] {
      var rest := cs[1..];
      HeadFound(cs, known);
      DistinctWhenAllFound(rest, known);
      forall j | 0 < j < |cs| ensures cs[0] != cs[j] {
        assert cs[j] == rest[j - 1];
      }
      forall c | c in cs ensures c in known {
        if c != cs[0] {
          assert c in rest;
        }
      }
      forall i, j | 0 < i < j < |cs| ensures cs[i] != cs[j] {
        assert cs[i] == rest[i - 1] && cs[j] == rest[j - 1];
      }
    }
  }

  /** The converse: known, distinct ids are all found. */
  lemma {:induction false} AllFoundWhenDistinct(cs: seq<Id>, known: set<Id>)
    requires forall c :: c in cs ==> c in known
    requires forall i, j :: 0 <= i < j < |cs| ==> cs[i] != cs[j]
    ensures FoundCategories(cs, known) == |cs|
  {
    if cs != [] {
      var rest := cs[1..];
      assert forall i, j :: 0 <= i < j < |rest| ==> rest[i] == cs[i + 1] && rest[j] == cs[j + 1];
      AllFoundWhenDistinct(rest, known);
      KnownInMembers(rest, known, cs[0]);
      assert cs[0] !in rest by {
        forall k | 0 <= k < |rest| ensures rest[k] != cs[0] {
          assert rest[k] == cs[k + 1];
        }
      }
      assert KnownIn(cs, known) == {cs[0]} + KnownIn(rest, known);
    }
  }

  /** A request with a new title, known and distinct categories and every
      required field is stored as the seller's inactive product and, outside
      the emitting environment, answered with 201. */
  lemma NewProductCreated(docs: map<Id, Product>, bound: nat, seller: Id, b: ProductBody,
                          files: Option<seq<string>>, known: set<Id>)
    requires forall id :: id in docs ==> Some(docs[id].title) != b.fields.title
    requires b.categories.Some?
    requires forall c :: c in b.categories.value ==> c in known
    requires forall i, j :: 0 <= i < j < |b.categories.value| ==> b.categories.value[i] != b.categories.value[j]
    requires RequiredPresent(b.fields)
    ensures var stored := BuildProduct(b.fields, b.categories.value, ImagePaths(files), seller, false);
      && stored.Some?
      && PlanCreateProduct(docs, bound, seller, b, files, known, false) == ProductCreation(Reply(201, stored.value), stored)
  {
    AllFoundWhenDistinct(b.categories.value, known);
  }

  lemma {:induction false} FoundAtMostRequested(cs: seq<Id>, known: set<Id>)
    ensures FoundCategories(cs, known) <= |cs|
  {
    if cs != [] {
      FoundAtMostRequested(cs[1..], known);
    }
  }

  /** A list that names the same known category twice is refused with 404,
      though the category exists. */
  lemma RepeatedCategoryRefused(docs: map<Id, Product>, seller: Id, fields: ProductFields, c: Id)
    requires docs == map[]
    ensures PlanCreateProduct(docs, 0, seller, ProductBody(fields, Some([c, c])), None, {c}, false).out
         == Refuse(404, MsgCategoriesNotFound)
  {
    assert KnownIn([c, c], {c}) == {c};
  }

  /** Outside the test environment the create ends in `next(error)` from the
      undefined emitter, yet the product has been stored. */
  lemma EmitErrorAfterStore(docs: map<Id, Product>, bound: nat, seller: Id, b: ProductBody,
                            files: Option<seq<string>>, known: set<Id>)
    requires PlanCreateProduct(docs, bound, seller, b, files, known, false).out.Reply?
    ensures var r := PlanCreateProduct(docs, bound, seller, b, files, known, true);
      r.out == Forward(MsgEmitterUndefined)
      && r.stored == PlanCreateProduct(docs, bound, seller, b, files, known, false).stored
  {
  }

  // -------------------------------------------------------------------- edit

  /** The schema fields an edit body may set; absent ones are None, and
      `deletedAt: Some(None)` is an explicit null. */
  datatype EditBody = EditBody(
    title: Option<string>,
    description: Option<string>,
    price: Option<real>,
    stock: Option<int>,
    categories: Option<seq<Id>>,
    images: Option<seq<string>>,
    seller: Option<Id>,
    isActive: Option<bool>,
    deletedAt: Option<Option<Time>>)

  /** `{ ...req.body, ...(newImages.length > 0 && { images: newImages }) }`
      applied with the schema's setters (`lowercase` on the description,
      `trim` on each image); no validator runs. Uploaded files win over an
      `images` field of the body. */
  function Edited(p: Product, b: EditBody, newImages: seq<string>): (r: Product)
    ensures b.title.None? ==> r.title == p.title
    ensures b.title.Some? ==> r.title == b.title.value
    ensures b.description.None? ==> r.description == p.description
    ensures b.description.Some? ==> r.description == ToLower(b.description.value)
    ensures b.price.None? ==> r.price == p.price
    ensures b.price.Some? ==> r.price == b.price.value
    ensures b.stock.None? ==> r.stock == p.stock
    ensures b.stock.Some? ==> r.stock == b.stock.value
    ensures b.categories.None? ==> r.categories == p.categories
    ensures b.categories.Some? ==> r.categories == b.categories.value
    ensures |newImages| > 0 ==> r.images == TrimAll(newImages)
    ensures |newImages| == 0 && b.images.None? ==> r.images == p.images
    ensures |newImages| == 0 && b.images.Some? ==> r.images == TrimAll(b.images.value)
    ensures b.seller.None? ==> r.seller == p.seller
    ensures b.seller.Some? ==> r.seller == b.seller.value
    ensures b.isActive.None? ==> r.isActive == p.isActive
    ensures b.isActive.Some? ==> r.isActive == b.isActive.value
    ensures b.deletedAt.None? ==> r.deletedAt == p.deletedAt
    ensures b.deletedAt.Some? ==> r.deletedAt == b.deletedAt.value
  {
    p.(title := b.title.GetOr(p.title),
       description := if b.description.Some? then ToLower(b.description.value) else p.description,
       price := b.price.GetOr(p.price),
       stock := b.stock.GetOr(p.stock),
       categories := b.categories.GetOr(p.categories),
       images := if |newImages| > 0 then TrimAll(newImages)
                 else if b.images.Some? then TrimAll(b.images.value) else p.images,
       seller := b.seller.GetOr(p.seller),
       isActive := b.isActive.GetOr(p.isActive),
       deletedAt := b.deletedAt.GetOr(p.deletedAt))
  }

  function PlanEditProduct(docs: map<Id, Product>, id: Id, b: EditBody, files: Option<seq<string>>): (r: Outcome<Product>)
    ensures r.Reply? <==> id in docs
    ensures r.Reply? ==> r == Reply(200, Edited(docs[id], b, ImagePaths(files)))
    ensures !r.Reply? ==> r == Refuse(404, MsgProductNotFound)
  {
    if id in docs then Reply(200, Edited(docs[id], b, ImagePaths(files))) else Refuse(404, MsgProductNotFound)
  }

  method EditProduct(products: Collection<Product>, id: Id, b: EditBody, files: Option<seq<string>>) returns (r: Outcome<Product>)
    requires products.Valid()
    modifies products
    ensures products.Valid()
    ensures r == PlanEditProduct(old(products.docs), id, b, files)
    ensures r.Reply? ==> products.docs == old(products.docs)[id := r.value]
    ensures !r.Reply? ==> products.docs == old(products.docs)
  {
    var newImages := ImagePaths(files);
    if id !in products.docs {
      return Refuse(404, MsgProductNotFound);
    }
    var p := Edited(products.docs[id], b, newImages);
    products.Replace(id, p);
    r := Reply(200, p);
  }

  /** An edit without uploads keeps the stored images, and an edit whose body
      sets `isActive` can activate a product (no approval step is enforced
      here). */
  lemma EditKeepsImagesWithoutUploads(docs: map<Id, Product>, id: Id, b: EditBody)
    requires id in docs && b.images.None?
    ensures PlanEditProduct(docs, id, b, None).value.images == docs[id].images
    ensures PlanEditProduct(docs, id, b, Some([])).value.images == docs[id].images
    ensures b.isActive == Some(true) ==> PlanEditProduct(docs, id, b, None).value.isActive
  {
  }

  /** An edit whose body carries `deletedAt` dates the product as deleted,
      and the product is still found by id: no handler filters on the field. */
  lemma EditCanDateDeletion(docs: map<Id, Product>, id: Id, t: Time)
    requires id in docs
    ensures var b := EditBody(None, None, None, None, None, None, None, None, Some(Some(t)));
      var r := PlanEditProduct(docs, id, b, None);
      && r == Reply(200, docs[id].(deletedAt := Some(t)))
      && GetOneProductReturning(docs[id := r.value], id).product == Some(r.value)
  {
  }

  /** No validator runs on an edit, so a body with an empty title is stored
      and leaves a product that fails the schema's `required` rules; its next
      `save()` throws. */
  lemma EditCanEmptyTitle(docs: map<Id, Product>, id: Id)
    requires id in docs
    ensures var b := EditBody(Some(""), None, None, None, None, None, None, None, None);
      var r := PlanEditProduct(docs, id, b, None);
      r.Reply? && r.value.title == "" && !PassesRequired(r.value)
  {
  }

  // ----------------------------------------------------------------- get one

  /** The responses `getOneProduct` attempts, the one the client receives, and
      the error passed to `next`, if any. */
  datatype OneProductReply = OneProductReply(attempted: seq<nat>, delivered: nat,
                                             product: Option<Product>, forwarded: Option<string>)

  /** `getOneProduct`: on a missing product the 400 is sent but the handler
      does not return; the 200 that follows cannot be sent once headers are
      out, and its error goes to `next`. */
  function GetOneProduct(docs: map<Id, Product>, id: Id): (r: OneProductReply)
    ensures |r.attempted| > 0 && r.delivered == r.attempted[0] && 200 in r.attempted
    ensures id in docs <==> r.forwarded.None?
    ensures id in docs ==> r == OneProductReply([200], 200, Some(docs[id]), None)
    ensures id !in docs ==> r.attempted == [400, 200] && r.product.None? && r.forwarded == Some(MsgHeadersSent)
  {
    if id !in docs then OneProductReply([400, 200], 400, None, Some(MsgHeadersSent))
    else OneProductReply([200], 200, Some(docs[id]), None)
  }

  /** `getOneProduct` with the `return` its missing-product branch evidently
      intends: exactly one response per request and nothing passed to `next`. */
  function GetOneProductReturning(docs: map<Id, Product>, id: Id): (r: OneProductReply)
    ensures |r.attempted| == 1 && r.delivered == r.attempted[0] && r.forwarded.None?
    ensures r.product.Some? <==> id in docs
    ensures id in docs ==> r == OneProductReply([200], 200, Some(docs[id]), None)
    ensures id !in docs ==> r.delivered == 400
  {
    if id !in docs then OneProductReply([400], 400, None, None)
    else OneProductReply([200], 200, Some(docs[id]), None)
  }

  /** The two readings agree on a stored product; on a missing one the code
      as written attempts a second response and forwards its failure. */
  lemma MissingProductAnsweredTwice(docs: map<Id, Product>, id: Id)
    ensures id in docs ==> GetOneProduct(docs, id) == GetOneProductReturning(docs, id)
    ensures id !in docs ==> |GetOneProduct(docs, id).attempted| == 2
                            && GetOneProduct(docs, id).forwarded == Some(MsgHeadersSent)
                            && GetOneProductReturning(docs, id).forwarded.None?
                            && GetOneProduct(docs, id).delivered == GetOneProductReturning(docs, id).delivered
  {
  }

  // ------------------------------------------------------------------ delete

  /** `deleteProduct`: a hard delete that answers 200 whether or not the
      product existed. */
  method DeleteProduct(products: Collection<Product>, id: Id) returns (status: nat)
    requires products.Valid()
    modifies products
    ensures products.Valid()
    ensures status == 200
    ensures products.docs == old(products.docs) - {id}
    ensures id !in old(products.docs) ==> products.docs == old(products.docs)
  {
    products.Remove(id);
    status := 200;
  }

  /** After a delete the product is gone: a lookup falls into the missing
      path, while every other product is still found as before. */
  lemma DeletedProductIsGone(docs: map<Id, Product>, id: Id)
    ensures GetOneProductReturning(docs - {id}, id) == OneProductReply([400], 400, None, None)
    ensures forall k :: k != id ==> GetOneProductReturning(docs - {id}, k) == GetOneProductReturning(docs, k)
  {
  }
}
