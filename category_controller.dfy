/** The category HTTP handlers (src/controllers/category.controller.js). */
module CategoryController {
  import opened Common
  import opened Database
  import opened CategoryService

  const InvalidId := "ID de catégorie invalide"
  const NameRequired := "Le champ name est requis"
  const CannotDelete := "Impossible de supprimer la catégorie"

  /** getAllCategories: every category with its product count, by name, answered with 200. */
  function GetAllCategoriesHandler(db: Store): (r: Reply<seq<CategoryCount>>)
    reads db
    requires db.Valid()
    ensures r.Success? && r.status == 200
    ensures forall x :: x in r.data ==> InTable(db.categories, x.category) && x.productCount == |ProductsOf(db, x.category.id)|
    ensures forall c :: InTable(db.categories, c) ==> exists x :: x in r.data && x.category == c
    ensures SortedAscText(r.data, NameOf)
  {
    AllCategoriesListed(db);
    Success(200, GetAllCategories(db))
  }

  /** Every stored category appears in the sorted listing. */
  lemma AllCategoriesListed(db: Store)
    requires db.Valid()
    ensures forall c :: InTable(db.categories, c) ==> exists x :: x in GetAllCategories(db) && x.category == c
  {
    var rows := Rows(db.categories, db.nextId);
    RowsAreTable(db.categories, db.nextId);
    forall c | InTable(db.categories, c)
      ensures exists x :: x in GetAllCategories(db) && x.category == c
    {
      var i :| 0 <= i < |rows| && rows[i] == c;
      var x := WithCounts(db, rows)[i];
      assert x in multiset(WithCounts(db, rows));
      assert x in GetAllCategories(db);
    }
  }

  /** getCategoryById: 400 for a non-numeric id, 404 for an unknown one, else the category. */
  function GetCategory(db: Store, id: Option<int>): (r: Reply<CategoryDetail>)
    reads db
    requires db.Valid()
    ensures id.None? ==> r == Failure(400, InvalidId)
    ensures id.Some? && id.value !in db.categories ==> r == Failure(404, CategoryService.CategoryNotFound)
    ensures id.Some? && id.value in db.categories ==>
      && r.Success? && r.status == 200 && r.data.category == db.categories[id.value]
      && r.data.productCount == |r.data.products|
      && (forall p :: p in r.data.products <==> InTable(db.products, p) && p.categoryId == id.value)
  {
    if id.None? then Failure(400, InvalidId)
    else match GetCategoryById(db, id.value)
      case None => Failure(404, CategoryService.CategoryNotFound)
      case Some(detail) => Success(200, detail)
  }

  /** createCategory: a falsy name is refused with 400 and nothing is written. */
  method CreateCategoryHandler(db: Store, name: Option<string>, description: Option<string>, now: int)
    returns (reply: Reply<Category>)
    requires db.Valid()
    modifies db`categories, db`nextId
    ensures db.Valid()
    ensures !Truthy(name) ==>
      reply == Failure(400, NameRequired) && db.categories == old(db.categories) && db.nextId == old(db.nextId)
    ensures Truthy(name) ==>
      && reply == Success(201, Category(old(db.nextId), name.value, description, now))
      && db.categories == old(db.categories)[old(db.nextId) := reply.data]
      && db.nextId == old(db.nextId) + 1
  {
    if !Truthy(name) {
      return Failure(400, NameRequired);
    }
    var c := CreateCategory(db, name.value, description, now);
    reply := Success(201, c);
  }

  /** The `updateData` object of updateCategory, filled field by field: exactly the defined fields. */
  method CategoryUpdateData(name: Option<string>, description: Option<string>) returns (u: CategoryPatch)
    ensures u.name == name && u.description == description
  {
    u := CategoryPatch(None, None);
    if name.Some? { u := u.(name := name); }
    if description.Some? { u := u.(description := description); }
  }

  /** updateCategory: 400 for a non-numeric id, 404 for an unknown one;
      otherwise only the defined name and description are written. */
  method UpdateCategoryHandler(db: Store, id: Option<int>, name: Option<string>, description: Option<string>)
    returns (reply: Reply<Category>)
    requires db.Valid()
    modifies db`categories
    ensures db.Valid()
    ensures id.None? ==> reply == Failure(400, InvalidId) && db.categories == old(db.categories)
    ensures id.Some? && id.value !in old(db.categories) ==>
      reply == Failure(404, CategoryService.CategoryNotFound) && db.categories == old(db.categories)
    ensures id.Some? && id.value in old(db.categories) ==>
      && reply == Success(200, ApplyCategoryPatch(old(db.categories)[id.value], CategoryPatch(name, description)))
      && db.categories == old(db.categories)[id.value := reply.data]
  {
    if id.None? {
      return Failure(400, InvalidId);
    }
    if id.value !in db.categories {
      return Failure(404, CategoryService.CategoryNotFound);
    }
    var u := CategoryUpdateData(name, description);
    var r := UpdateCategory(db, id.value, u);
    reply := Success(200, r.value);
  }

  /** deleteCategory: 400 for a non-numeric id, 404 for an unknown one, 400
      when the category still has a product; otherwise it is removed and 204
      is answered. So a category is deleted exactly when it exists and no
      product is in it. */
  method DeleteCategoryHandler(db: Store, id: Option<int>) returns (reply: Reply<Category>)
    requires db.Valid()
    modifies db`categories
    ensures db.Valid()
    ensures id.None? ==> reply == Failure(400, InvalidId)
    ensures id.Some? && id.value !in old(db.categories) ==> reply == Failure(404, CategoryService.CategoryNotFound)
    ensures id.Some? && id.value in old(db.categories) &&
            (exists k :: k in db.products && db.products[k].categoryId == id.value) ==>
      reply == Failure(400, CannotDelete)
    ensures reply.Failure? ==> db.categories == old(db.categories)
    ensures reply.Empty? <==>
      id.Some? && id.value in old(db.categories) &&
      !(exists k :: k in db.products && db.products[k].categoryId == id.value)
    ensures reply.Empty? ==> reply.status == 204 && db.categories == old(db.categories) - {id.value}
  {
    if id.None? {
      return Failure(400, InvalidId);
    }
    if id.value !in db.categories {
      return Failure(404, CategoryService.CategoryNotFound);
    }
    var has := HasProducts(db, id.value);
    if has.value {
      return Failure(400, CannotDelete);
    }
    var _ := CategoryService.DeleteCategory(db, id.value);
    reply := Empty(204);
  }
}
