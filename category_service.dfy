/** The category table operations (src/services/category.service.js). */
module CategoryService {
  import opened Common
  import opened Database
  import ProductService

  const CategoryNotFound := "Catégorie non trouvée"
  const SellerNotFound := "Vendeur non trouvé"
  /** The TypeError raised by reading `category._count` when no category has the id. */
  const NoCategoryCount := "Cannot read properties of null (reading '_count')"

  /** A category with the number of its products (`_count: { products }`). */
  datatype CategoryCount = CategoryCount(category: Category, productCount: nat)

  /** A category with its products and their number. */
  datatype CategoryDetail = CategoryDetail(category: Category, products: seq<Product>, productCount: nat)

  /** The columns an update may set; `None` leaves the column as it is. */
  datatype CategoryPatch = CategoryPatch(name: Option<string>, description: Option<string>)

  /** The products of a category. */
  function ProductsOf(db: Store, categoryId: int): (r: seq<Product>)
    reads db
    requires db.Valid()
    ensures forall p :: p in r <==> InTable(db.products, p) && p.categoryId == categoryId
  {
    Where(db.products, db.nextId, (p: Product) => p.categoryId == categoryId)
  }

  /** The category's product count is positive exactly when some stored product is in it. */
  lemma CountPositiveIffProduct(db: Store, categoryId: int)
    requires db.Valid()
    ensures |ProductsOf(db, categoryId)| > 0 <==> exists k :: k in db.products && db.products[k].categoryId == categoryId
  {
    var ps := ProductsOf(db, categoryId);
    if |ps| > 0 {
      assert ps[0] in ps;
    }
    if exists k :: k in db.products && db.products[k].categoryId == categoryId {
      var k :| k in db.products && db.products[k].categoryId == categoryId;
      assert db.products[k] in ps;
    }
  }

  function CountOf(db: Store, c: Category): (r: CategoryCount)
    reads db
    requires db.Valid()
    ensures r.category == c && r.productCount == |ProductsOf(db, c.id)|
  {
    CategoryCount(c, |ProductsOf(db, c.id)|)
  }

  function WithCounts(db: Store, cs: seq<Category>): (r: seq<CategoryCount>)
    reads db
    requires db.Valid()
    ensures |r| == |cs| && forall i :: 0 <= i < |cs| ==> r[i] == CountOf(db, cs[i])
    decreases |cs|
  {
    if |cs| == 0 then [] else [CountOf(db, cs[0])] + WithCounts(db, cs[1..])
  }

  function NameOf(c: CategoryCount): string {
    c.category.name
  }

  /** getAllCategoriesService: every category with its product count, by name ascending. */
  function GetAllCategories(db: Store): (r: seq<CategoryCount>)
    reads db
    requires db.Valid()
    ensures multiset(r) == multiset(WithCounts(db, Rows(db.categories, db.nextId)))
    ensures forall x :: x in r ==> InTable(db.categories, x.category) && x.productCount == |ProductsOf(db, x.category.id)|
    ensures SortedAscText(r, NameOf)
  {
    var all := WithCounts(db, Rows(db.categories, db.nextId));
    CountsAreTable(db);
    SortAscTextCorrect(all, NameOf);
    SameMembers(SortAscText(all, NameOf), all);
    SortAscText(all, NameOf)
  }

  /** Every counted entry is a stored category with its own product count. */
  lemma CountsAreTable(db: Store)
    requires db.Valid()
    ensures forall x :: x in WithCounts(db, Rows(db.categories, db.nextId)) ==>
      InTable(db.categories, x.category) && x.productCount == |ProductsOf(db, x.category.id)|
  {
    var rows := Rows(db.categories, db.nextId);
    RowsAreTable(db.categories, db.nextId);
    forall x | x in WithCounts(db, rows)
      ensures InTable(db.categories, x.category) && x.productCount == |ProductsOf(db, x.category.id)|
    {
      var i :| 0 <= i < |rows| && WithCounts(db, rows)[i] == x;
      assert rows[i] in rows;
    }
  }

  /** getCategoryByIdService: the category with its products, or null. */
  function GetCategoryById(db: Store, id: int): (r: Option<CategoryDetail>)
    reads db
    requires db.Valid()
    ensures r.Some? <==> id in db.categories
    ensures r.Some? ==> r.value.category == db.categories[id] && r.value.products == ProductsOf(db, id)
    ensures r.Some? ==> r.value.productCount == |r.value.products|
  {
    if id in db.categories then Some(CategoryDetail(db.categories[id], ProductsOf(db, id), |ProductsOf(db, id)|))
    else None
  }

  /** createCategoryService: one category with the next id. */
  method CreateCategory(db: Store, name: string, description: Option<string>, now: int) returns (c: Category)
    requires db.Valid()
    modifies db`categories, db`nextId
    ensures db.Valid()
    ensures c == Category(old(db.nextId), name, description, now)
    ensures db.categories == old(db.categories)[c.id := c] && db.nextId == old(db.nextId) + 1
  {
    c := Category(db.nextId, name, description, now);
    db.categories := db.categories[c.id := c];
    db.nextId := db.nextId + 1;
  }

  /** A category with the patch's defined columns overwritten. */
  function ApplyCategoryPatch(c: Category, u: CategoryPatch): (r: Category)
    ensures r.id == c.id && r.updatedAt == c.updatedAt
    ensures r.name == u.name.GetOr(c.name)
    ensures r.description == (if u.description.Some? then u.description else c.description)
  {
    c.(name := u.name.GetOr(c.name), description := if u.description.Some? then u.description else c.description)
  }

  /** updateCategoryService: only that category changes, in the patch's columns. */
  method UpdateCategory(db: Store, id: int, u: CategoryPatch) returns (r: Result<Category>)
    requires db.Valid()
    modifies db`categories
    ensures db.Valid()
    ensures id !in old(db.categories) ==> r == Err(UpdateNotFound) && db.categories == old(db.categories)
    ensures id in old(db.categories) ==>
      r == Ok(ApplyCategoryPatch(old(db.categories)[id], u)) && db.categories == old(db.categories)[id := r.value]
  {
    if id !in db.categories {
      return Err(UpdateNotFound);
    }
    var updated := ApplyCategoryPatch(db.categories[id], u);
    db.categories := db.categories[id := updated];
    r := Ok(updated);
  }

  /** deleteCategoryService: only that category is removed. */
  method DeleteCategory(db: Store, id: int) returns (r: Result<Category>)
    requires db.Valid()
    modifies db`categories
    ensures db.Valid()
    ensures id !in old(db.categories) ==> r == Err(DeleteNotFound) && db.categories == old(db.categories)
    ensures id in old(db.categories) ==> r == Ok(old(db.categories)[id]) && db.categories == old(db.categories) - {id}
  {
    if id !in db.categories {
      return Err(DeleteNotFound);
    }
    r := Ok(db.categories[id]);
    db.categories := db.categories - {id};
  }

  /** hasProductsService: whether the category has a product. An unknown id
      makes the count read fail. */
  function HasProducts(db: Store, id: int): (r: Result<bool>)
    reads db
    requires db.Valid()
    ensures r.Err? <==> id !in db.categories
    ensures r.Err? ==> r.message == NoCategoryCount
    ensures r.Ok? ==> (r.value <==> exists k :: k in db.products && db.products[k].categoryId == id)
  {
    match GetCategoryById(db, id)
    case None => Err(NoCategoryCount)
    case Some(detail) =>
      CountPositiveIffProduct(db, id);
      Ok(detail.productCount > 0)
  }

  /** addProductToCategoryService: in one transaction, check the category,
      then the seller, then create the product in that category (whatever
      category the data names) and stamp the category's updatedAt. A failing
      check leaves the database as it was. */
  method AddProductToCategory(db: Store, categoryId: int, data: ProductService.ProductData, now: int)
    returns (r: Result<Product>)
    requires db.Valid()
    modifies db`products, db`categories, db`nextId
    ensures db.Valid()
    ensures categoryId !in old(db.categories) ==> r == Err(CategoryNotFound)
    ensures categoryId in old(db.categories) && data.sellerId !in old(db.sellers) ==> r == Err(SellerNotFound)
    ensures r.Err? ==>
      db.products == old(db.products) && db.categories == old(db.categories) && db.nextId == old(db.nextId)
    ensures categoryId in old(db.categories) && data.sellerId in old(db.sellers) ==>
      && r == Ok(ProductService.NewProduct(old(db.nextId), data.(categoryId := categoryId), now))
      && db.products == old(db.products)[old(db.nextId) := r.value]
      && db.categories == old(db.categories)[categoryId := old(db.categories)[categoryId].(updatedAt := now)]
      && db.nextId == old(db.nextId) + 1
  {
    if categoryId !in db.categories {
      return Err(CategoryNotFound);
    }
    if data.sellerId !in db.sellers {
      return Err(SellerNotFound);
    }
    var p := ProductService.CreateProduct(db, data.(categoryId := categoryId), now);
    db.categories := db.categories[categoryId := db.categories[categoryId].(updatedAt := now)];
    r := Ok(p);
  }
}
