/** The product table operations (src/services/product.service.js). */
module ProductService {
  import opened Common
  import opened Database

  /** The columns a product is created with; `price` is in cents. */
  datatype ProductData = ProductData(
    name: string, description: Option<string>, price: int, stock: int,
    imageUrl: Option<string>, sellerId: int, categoryId: int)

  /** The columns an update may set; `None` leaves the column as it is. */
  datatype ProductPatch = ProductPatch(
    name: Option<string>, description: Option<string>, price: Option<int>, stock: Option<int>,
    imageUrl: Option<string>, categoryId: Option<int>)

  function ProductCreatedAt(p: Product): int {
    p.createdAt
  }

  /** getAllProductsService: every product, newest first. */
  function GetAllProducts(db: Store): (r: seq<Product>)
    reads db
    requires db.Valid()
    ensures multiset(r) == multiset(Rows(db.products, db.nextId))
    ensures forall p :: p in r <==> InTable(db.products, p)
    ensures SortedDesc(r, ProductCreatedAt)
  {
    var all := Rows(db.products, db.nextId);
    RowsAreTable(db.products, db.nextId);
    SortDescCorrect(all, ProductCreatedAt);
    assert forall p :: p in SortDesc(all, ProductCreatedAt) <==> p in multiset(SortDesc(all, ProductCreatedAt));
    assert forall p :: p in all <==> p in multiset(all);
    SortDesc(all, ProductCreatedAt)
  }

  /** getProductByIdService and productExistsService: the product with that id, or null. */
  function FindProduct(db: Store, id: int): (r: Option<Product>)
    reads db
    requires db.Valid()
    ensures r.Some? <==> id in db.products
    ensures r.Some? ==> r.value == db.products[id] && r.value.id == id
  {
    if id in db.products then Some(db.products[id]) else None
  }

  /** sellerExistsService: the seller with that id, or null. */
  function FindSeller(db: Store, id: int): (r: Option<Seller>)
    reads db
    requires db.Valid()
    ensures r.Some? <==> id in db.sellers
    ensures r.Some? ==> r.value == db.sellers[id] && r.value.id == id
  {
    if id in db.sellers then Some(db.sellers[id]) else None
  }

  /** categoryExistsService: the category with that id, or null. */
  function FindCategory(db: Store, id: int): (r: Option<Category>)
    reads db
    requires db.Valid()
    ensures r.Some? <==> id in db.categories
    ensures r.Some? ==> r.value == db.categories[id] && r.value.id == id
  {
    if id in db.categories then Some(db.categories[id]) else None
  }

  /** The row a creation inserts. */
  function NewProduct(id: int, data: ProductData, now: int): Product {
    Product(id, data.name, data.description, data.price, data.stock, data.imageUrl,
            data.sellerId, data.categoryId, now)
  }

  /** createProductService: one product, with the next id, in a transaction
      whose only step is the insertion. */
  method CreateProduct(db: Store, data: ProductData, now: int) returns (p: Product)
    requires db.Valid()
    modifies db`products, db`nextId
    ensures db.Valid()
    ensures p == NewProduct(old(db.nextId), data, now)
    ensures db.products == old(db.products)[p.id := p] && db.nextId == old(db.nextId) + 1
  {
    p := NewProduct(db.nextId, data, now);
    db.products := db.products[p.id := p];
    db.nextId := db.nextId + 1;
  }

  /** A product with the patch's defined columns overwritten. */
  function ApplyProductPatch(p: Product, u: ProductPatch): (r: Product)
    ensures r.id == p.id && r.sellerId == p.sellerId && r.createdAt == p.createdAt
    ensures r.name == u.name.GetOr(p.name) && r.price == u.price.GetOr(p.price)
    ensures r.stock == u.stock.GetOr(p.stock) && r.categoryId == u.categoryId.GetOr(p.categoryId)
    ensures r.description == (if u.description.Some? then u.description else p.description)
    ensures r.imageUrl == (if u.imageUrl.Some? then u.imageUrl else p.imageUrl)
  {
    p.(name := u.name.GetOr(p.name),
       description := if u.description.Some? then u.description else p.description,
       price := u.price.GetOr(p.price),
       stock := u.stock.GetOr(p.stock),
       imageUrl := if u.imageUrl.Some? then u.imageUrl else p.imageUrl,
       categoryId := u.categoryId.GetOr(p.categoryId))
  }

  /** updateProductService: only that product changes, and only in the patch's columns. */
  method UpdateProduct(db: Store, id: int, u: ProductPatch) returns (r: Result<Product>)
    requires db.Valid()
    modifies db`products
    ensures db.Valid()
    ensures id !in old(db.products) ==> r == Err(UpdateNotFound) && db.products == old(db.products)
    ensures id in old(db.products) ==>
      && r == Ok(ApplyProductPatch(old(db.products)[id], u))
      && db.products == old(db.products)[id := r.value]
  {
    if id !in db.products {
      return Err(UpdateNotFound);
    }
    var updated := ApplyProductPatch(db.products[id], u);
    db.products := db.products[id := updated];
    r := Ok(updated);
  }

  /** deleteProductService: only that product is removed. */
  method DeleteProduct(db: Store, id: int) returns (r: Result<Product>)
    requires db.Valid()
    modifies db`products
    ensures db.Valid()
    ensures id !in old(db.products) ==> r == Err(DeleteNotFound) && db.products == old(db.products)
    ensures id in old(db.products) ==> r == Ok(old(db.products)[id]) && db.products == old(db.products) - {id}
  {
    if id !in db.products {
      return Err(DeleteNotFound);
    }
    r := Ok(db.products[id]);
    db.products := db.products - {id};
  }
}
