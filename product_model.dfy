/** The Product schema (models/products.js). */
module ProductModel {
  import opened Common

  /** `price` and `stock` carry no schema minimum; `description` is stored
      lower-cased; `isActive` defaults to false and `deletedAt` to null. */
  datatype Product = Product(
    title: string,
    description: string,
    price: real,
    stock: int,
    categories: seq<Id>,
    images: seq<string>,
    seller: Id,
    isActive: bool,
    deletedAt: Option<Time>)

  /** The fields a create or edit request body may carry, absent ones as None. */
  datatype ProductFields = ProductFields(
    title: Option<string>,
    description: Option<string>,
    price: Option<real>,
    stock: Option<int>)

  /** Mongoose's `required` on the four required scalar fields: a string must
      be present and non-empty, a number present. */
  predicate RequiredPresent(f: ProductFields) {
    && f.title.Some? && f.title.value != ""
    && f.description.Some? && f.description.value != ""
    && f.price.Some?
    && f.stock.Some?
  }

  /** The `required` rules a stored product must still meet when `save()`
      re-validates it: a non-empty title and description (price and stock are
      always present here). */
  predicate PassesRequired(p: Product) {
    p.title != "" && p.description != ""
  }

  /** The `trim` setter on each entry of `images`. */
  function TrimAll(images: seq<string>): (r: seq<string>)
    ensures |r| == |images| && forall i :: 0 <= i < |r| ==> r[i] == Trim(images[i])
  {
    seq(|images|, i requires 0 <= i < |images| => Trim(images[i]))
  }

  /** `Products.create(...)`: the stored document, or None when the schema
      rejects the input. */
  function BuildProduct(f: ProductFields, categories: seq<Id>, images: seq<string>, seller: Id, isActive: bool): (r: Option<Product>)
    ensures r.Some? <==> RequiredPresent(f)
    ensures r.Some? ==>
      && r.value.title == f.title.value
      && r.value.description == ToLower(f.description.value)
      && r.value.price == f.price.value && r.value.stock == f.stock.value
      && r.value.categories == categories && r.value.images == TrimAll(images)
      && r.value.seller == seller && r.value.isActive == isActive
      && r.value.deletedAt.None?
    ensures r.Some? ==> PassesRequired(r.value)
  {
    if RequiredPresent(f) then
      Some(Product(f.title.value, ToLower(f.description.value), f.price.value, f.stock.value,
                   categories, TrimAll(images), seller, isActive, None))
    else None
  }
}
