/** The product HTTP handlers. src/controllers/product.controller.js goes
    through the product service and src/controllers/productController.js
    queries the table directly; both run the same validation chains in the
    same order, which this module models once. */
module ProductController {
  import opened Common
  import opened Database
  import opened ProductService

  const InvalidId := "ID de produit invalide"
  const ProductNotFound := "Produit non trouvé"
  const RequiredFields := "Les champs name, price, sellerId et categoryId sont requis"
  const PriceNotPositive := "Le prix doit être supérieur à 0"
  const SellerNotFound := "Vendeur non trouvé"
  const CategoryNotFound := "Catégorie non trouvée"

  /** The body fields a handler reads; numbers are already parsed, `None`
      is a field that is undefined (or, for an id, not a number). */
  datatype ProductBody = ProductBody(
    name: Option<string>, description: Option<string>, price: Option<int>, stock: Option<int>,
    imageUrl: Option<string>, sellerId: Option<int>, categoryId: Option<int>)

  /** The status and error text of a refused request. */
  datatype Rejection = Rejection(status: int, error: string)

  predicate HasRequiredFields(b: ProductBody) {
    Truthy(b.name) && TruthyInt(b.price) && TruthyInt(b.sellerId) && TruthyInt(b.categoryId)
  }

  /** The guard chain of createProduct: required fields, positive price,
      existing seller, existing category, in that order. */
  function CreateRejection(db: Store, b: ProductBody): (r: Option<Rejection>)
    reads db
    requires db.Valid()
    ensures r.None? <==>
      HasRequiredFields(b) && b.price.value > 0 && b.sellerId.value in db.sellers && b.categoryId.value in db.categories
    ensures r.Some? ==> r.value.status == 400
    ensures r == Some(Rejection(400, RequiredFields)) <==> !HasRequiredFields(b)
    ensures r == Some(Rejection(400, PriceNotPositive)) <==> HasRequiredFields(b) && b.price.value <= 0
    ensures r == Some(Rejection(400, SellerNotFound)) <==>
      HasRequiredFields(b) && b.price.value > 0 && b.sellerId.value !in db.sellers
    ensures r == Some(Rejection(400, CategoryNotFound)) <==>
      HasRequiredFields(b) && b.price.value > 0 && b.sellerId.value in db.sellers && b.categoryId.value !in db.categories
  {
    if !HasRequiredFields(b) then Some(Rejection(400, RequiredFields))
    else if b.price.value <= 0 then Some(Rejection(400, PriceNotPositive))
    else if FindSeller(db, b.sellerId.value).None? then Some(Rejection(400, SellerNotFound))
    else if FindCategory(db, b.categoryId.value).None? then Some(Rejection(400, CategoryNotFound))
    else None
  }

  /** `parseInt(stock) || 0`: a missing, unparsable or zero stock is 0. */
  function StockOrZero(stock: Option<int>): (s: int)
    ensures stock.None? ==> s == 0
    ensures stock.Some? ==> s == stock.value
  {
    if TruthyInt(stock) then stock.value else 0
  }

  /** The columns createProduct inserts for an accepted body. */
  function CreateData(b: ProductBody): (d: ProductData)
    requires HasRequiredFields(b)
    ensures d.name == b.name.value && d.price == b.price.value && d.stock == StockOrZero(b.stock)
    ensures d.sellerId == b.sellerId.value && d.categoryId == b.categoryId.value
    ensures d.description == b.description && d.imageUrl == b.imageUrl
  {
    ProductData(b.name.value, b.description, b.price.value, StockOrZero(b.stock), b.imageUrl,
                b.sellerId.value, b.categoryId.value)
  }

  /** createProduct: a refused body is answered with its 400 and nothing is
      written; otherwise the product is created and answered with 201. */
  method CreateProduct(db: Store, b: ProductBody, now: int) returns (reply: Reply<Product>)
    requires db.Valid()
    modifies db`products, db`nextId
    ensures db.Valid()
    ensures old(CreateRejection(db, b)).Some? ==>
      && reply == Failure(400, old(CreateRejection(db, b)).value.error)
      && db.products == old(db.products) && db.nextId == old(db.nextId)
    ensures old(CreateRejection(db, b)).None? ==>
      && reply == Success(201, NewProduct(old(db.nextId), CreateData(b), now))
      && db.products == old(db.products)[old(db.nextId) := reply.data]
      && db.nextId == old(db.nextId) + 1
  {
    var rejection := CreateRejection(db, b);
    if rejection.Some? {
      return Failure(rejection.value.status, rejection.value.error);
    }
    var p := ProductService.CreateProduct(db, CreateData(b), now);
    reply := Success(201, p);
  }

  /** The guard chain of updateProduct: numeric id, existing product, the
      category only when one is given, the price only when it is defined. */
  function UpdateRejection(db: Store, id: Option<int>, b: ProductBody): (r: Option<Rejection>)
    reads db
    requires db.Valid()
    ensures r.None? <==>
      && id.Some? && id.value in db.products
      && (TruthyInt(b.categoryId) ==> b.categoryId.value in db.categories)
      && (b.price.Some? ==> b.price.value > 0)
    ensures r == Some(Rejection(400, InvalidId)) <==> id.None?
    ensures r == Some(Rejection(404, ProductNotFound)) <==> id.Some? && id.value !in db.products
    ensures r == Some(Rejection(400, CategoryNotFound)) <==>
      id.Some? && id.value in db.products && TruthyInt(b.categoryId) && b.categoryId.value !in db.categories
    ensures r == Some(Rejection(400, PriceNotPositive)) <==>
      && id.Some? && id.value in db.products
      && (TruthyInt(b.categoryId) ==> b.categoryId.value in db.categories)
      && b.price.Some? && b.price.value <= 0
  {
    if id.None? then Some(Rejection(400, InvalidId))
    else if FindProduct(db, id.value).None? then Some(Rejection(404, ProductNotFound))
    else if TruthyInt(b.categoryId) && FindCategory(db, b.categoryId.value).None? then Some(Rejection(400, CategoryNotFound))
    else if b.price.Some? && b.price.value <= 0 then Some(Rejection(400, PriceNotPositive))
    else None
  }

  /** The `updateData` object of updateProduct, filled field by field: it
      holds exactly the body fields that are defined, with their values,
      and never the seller. */
  method UpdateData(b: ProductBody) returns (u: ProductPatch)
    ensures u.name == b.name && u.description == b.description && u.price == b.price
    ensures u.stock == b.stock && u.imageUrl == b.imageUrl && u.categoryId == b.categoryId
  {
    u := ProductPatch(None, None, None, None, None, None);
    if b.name.Some? { u := u.(name := b.name); }
    if b.description.Some? { u := u.(description := b.description); }
    if b.price.Some? { u := u.(price := b.price); }
    if b.stock.Some? { u := u.(stock := b.stock); }
    if b.imageUrl.Some? { u := u.(imageUrl := b.imageUrl); }
    if b.categoryId.Some? { u := u.(categoryId := b.categoryId); }
  }

  /** The product as updateProduct leaves it: the defined body fields
      replace the stored ones, everything else is kept. */
  function UpdatedProduct(p: Product, b: ProductBody): Product {
    ApplyProductPatch(p, ProductPatch(b.name, b.description, b.price, b.stock, b.imageUrl, b.categoryId))
  }

  /** updateProduct: a refused request writes nothing; otherwise only that
      product changes, and is answered with 200. */
  method UpdateProduct(db: Store, id: Option<int>, b: ProductBody) returns (reply: Reply<Product>)
    requires db.Valid()
    modifies db`products
    ensures db.Valid()
    ensures old(UpdateRejection(db, id, b)).Some? ==>
      && reply == Failure(old(UpdateRejection(db, id, b)).value.status, old(UpdateRejection(db, id, b)).value.error)
      && db.products == old(db.products)
    ensures old(UpdateRejection(db, id, b)).None? ==>
      && reply == Success(200, UpdatedProduct(old(db.products)[id.value], b))
      && db.products == old(db.products)[id.value := reply.data]
  {
    var rejection := UpdateRejection(db, id, b);
    if rejection.Some? {
      return Failure(rejection.value.status, rejection.value.error);
    }
    var u := UpdateData(b);
    var r := ProductService.UpdateProduct(db, id.value, u);
    reply := Success(200, r.value);
  }

  /** After an accepted update the stored product has every defined body
      field's value and keeps the stored value of every other field. */
  lemma UpdateKeepsUndefinedFields(p: Product, b: ProductBody)
    ensures var q := UpdatedProduct(p, b);
      && q.id == p.id && q.sellerId == p.sellerId && q.createdAt == p.createdAt
      && (b.name.Some? ==> q.name == b.name.value) && (b.name.None? ==> q.name == p.name)
      && (b.price.Some? ==> q.price == b.price.value) && (b.price.None? ==> q.price == p.price)
      && (b.stock.Some? ==> q.stock == b.stock.value) && (b.stock.None? ==> q.stock == p.stock)
      && (b.categoryId.Some? ==> q.categoryId == b.categoryId.value) && (b.categoryId.None? ==> q.categoryId == p.categoryId)
      && (b.description.Some? ==> q.description == b.description) && (b.description.None? ==> q.description == p.description)
      && (b.imageUrl.Some? ==> q.imageUrl == b.imageUrl) && (b.imageUrl.None? ==> q.imageUrl == p.imageUrl)
  {
  }

  /** deleteProduct: numeric id, existing product; then it is removed and 204 is answered. */
  method DeleteProduct(db: Store, id: Option<int>) returns (reply: Reply<Product>)
    requires db.Valid()
    modifies db`products
    ensures db.Valid()
    ensures id.None? ==> reply == Failure(400, InvalidId) && db.products == old(db.products)
    ensures id.Some? && id.value !in old(db.products) ==> reply == Failure(404, ProductNotFound) && db.products == old(db.products)
    ensures id.Some? && id.value in old(db.products) ==> reply == Empty(204) && db.products == old(db.products) - {id.value}
  {
    if id.None? {
      return Failure(400, InvalidId);
    }
    if FindProduct(db, id.value).None? {
      return Failure(404, ProductNotFound);
    }
    var _ := ProductService.DeleteProduct(db, id.value);
    reply := Empty(204);
  }

  /** getProductById: 400 for a non-numeric id, 404 for an unknown one, else the product. */
  function GetProductById(db: Store, id: Option<int>): (r: Reply<Product>)
    reads db
    requires db.Valid()
    ensures id.None? ==> r == Failure(400, InvalidId)
    ensures id.Some? && id.value !in db.products ==> r == Failure(404, ProductNotFound)
    ensures id.Some? && id.value in db.products ==> r == Success(200, db.products[id.value])
  {
    if id.None? then Failure(400, InvalidId)
    else match FindProduct(db, id.value)
      case None => Failure(404, ProductNotFound)
      case Some(p) => Success(200, p)
  }

  /** getProductsByCategory: the products of that category. A non-numeric id
      makes the query throw, and the handler then sends no answer (`None`). */
  function GetProductsByCategory(db: Store, id: Option<int>): (r: Option<Reply<seq<Product>>>)
    reads db
    requires db.Valid()
    ensures r.None? <==> id.None?
    ensures r.Some? ==> r.value.Success? && r.value.status == 200
    ensures r.Some? ==> forall p :: p in r.value.data <==> InTable(db.products, p) && p.categoryId == id.value
  {
    if id.None? then None
    else Some(Success(200, Where(db.products, db.nextId, (p: Product) => p.categoryId == id.value)))
  }
}
