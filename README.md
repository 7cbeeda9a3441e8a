# Marketplace backend rules, modelled in Dafny

This project models the business rules of a marketplace backend written for
Node.js with Express, Prisma and Stripe. The rules covered are:

- the Stripe checkout-session builder;
- the cart ("panier"), order, address, product and category stores and
  their HTTP handlers;
- the user rules: registration, login, edit, delete and the sanitizer;
- the image-upload filter.

**The database.** It is one object, `Database.Store`. Each table is a map
from an auto-increment id to a record. One counter, `nextId`, hands out
every id. `Store.Valid()` keeps these facts true:

- every key is an id already handed out, and each record carries its own key;
- the columns the code looks up with `findUnique` are unique:
  `client.userId`, `seller.userId` and `user.email`.

Every operation that writes states its whole new state. That means only the
named rows change, and a refused request writes nothing. It also keeps
`Valid()`.

**Stripe.** The gateway is `StripeGateway.Gateway`. It records every request
sent to it, and the outcome of each call (success, or failure with a message)
is scripted in advance. The contracts of the Stripe functions therefore say
exactly which requests are sent, in which order and with which payloads.

**Values.**

- Request fields are `Option` values, where `None` is `undefined`.
- JavaScript truthiness is `Common.Truthy` for strings and `Common.TruthyInt`
  for numbers.
- An id that `parseInt` cannot parse is `None` where the handler tests
  `isNaN`.
- Prices are integer cents.
- An error a service throws is `Err(message)`. An HTTP answer is a
  `Common.Reply`, which carries a status with a payload, a status with an
  error text, or a status only.

**Things passed in as parameters.** Password hashing, password comparison,
token signing and the clock ("now") are functions or values that the caller
supplies.

## Model

| member | source | states |
|---|---|---|
| StripeService.ProductCreateBody | src/services/stripe.service.js:26-35 | the created product's description is sent only when truthy, its images only for a truthy imageUrl (as a one-element list), and its metadata holds the database, category and seller ids |
| StripeService.CreateStripeProduct | src/services/stripe.service.js:23-57 | a product request is sent first; only if it succeeds, a price request in "eur" for the stored cents on the product just created; the answer is both gateway ids, or the failure prefixed "Erreur Stripe: " |
| StripeService.UpdateFieldsOf | src/services/stripe.service.js:67-74 | the update sets the name only when truthy, the description whenever defined (an empty one becomes null), the images only for a truthy imageUrl, and never the active flag |
| StripeService.UpdateFields | src/services/stripe.service.js:67-74 | filling the object field by field yields exactly that update |
| StripeService.UpdateStripeProduct | src/services/stripe.service.js:65-96 | one product update is sent, for that product and with exactly the UpdateFieldsOf payload; a new price is created only when the new price is truthy (0 or absent creates none); gateway failures come back prefixed |
| StripeService.DeleteStripeProduct | src/services/stripe.service.js:103-114 | exactly one request is sent, the archiving update active=false; the product is never deleted |
| StripeService.FetchCountMatches | src/services/stripe.service.js:208-220 | the fetched-row count equals the requested-id count exactly when the ids are distinct and all stored, so a repeated existing id also fails the check |
| StripeService.FetchFromMembers | src/services/stripe.service.js:208-217 | the `id in ids` query returns exactly the stored products whose id was requested |
| StripeService.MissingIdsAreAbsent | src/services/stripe.service.js:221-226 | an id is listed in the error exactly when it was requested and is not stored |
| StripeService.FindRequested | src/services/stripe.service.js:234 | the `find` returns the first request entry with that productId, and nothing only when no entry has it |
| StripeService.CheckoutAgrees | src/services/stripe.service.js:230-252 | line items and manifest have one entry per fetched product, in the same order; each line item's unit amount and each manifest unit price are the stored price of the same product, with the same quantity, so both lists sum to the same total in the model's single price unit |
| StripeService.BuildCheckout | src/services/stripe.service.js:233-252 | the loop builds exactly the line-item list and the manifest list of the fetched products |
| StripeService.FetchedAreRequested | src/services/stripe.service.js:233-236 | every fetched product has a request entry, so the loop's `find` always succeeds |
| StripeService.AcceptedManifestFollowsRequest | src/services/stripe.service.js:208-252 | for an accepted request, manifest entry i is request entry i with its quantity and the stored price, whatever price the request carried |
| StripeService.CreatePaymentSession | src/services/stripe.service.js:199-272 | an absent or empty list is refused before any lookup; a count mismatch is refused with the list of missing ids and no gateway call; otherwise exactly one session request with those line items and that manifest is sent; every failure message starts with the session-error prefix |
| StripeGateway.Gateway.Send | src/services/stripe.service.js:26 | each request is appended to the call log with its scripted outcome; the answer is the gateway error or the created or updated object's id |
| PanierService.GetPanierByUserId | src/services/panier.service.js:7-33 | a user without a client gets success=false, the message and an empty list; otherwise exactly that client's carts, each once, by ascending cart id, each with exactly its items |
| PanierService.QuantityOrOne | src/services/panier.service.js:64 | a falsy quantity becomes 1, any other is kept |
| PanierService.NewCartItems | src/services/panier.service.js:61-66 | one item row per input item, in order, in the new cart, with the same productId and the defaulted quantity |
| PanierService.CreatePanier | src/services/panier.service.js:44-73 | no client gives "Client not found" and nothing is written; an empty list fails reading `items[0].productId`; otherwise the new state holds one cart for that client and exactly the new item rows |
| PanierService.UpdatePanierItems | src/services/panier.service.js:75-88 | a falsy item id or quantity (0 included) is refused; a missing item fails as Prisma does; otherwise only that item's quantity changes |
| PanierService.DeletePanier | src/services/panier.service.js:89-103 | an id is required and the cart must exist; then only that cart is removed |
| PanierService.ClearCount | src/services/panier.service.js:110-112 | the rows left and the rows removed partition the item table |
| PanierService.ClearPanier | src/services/panier.service.js:104-119 | every item of the cart is removed and `deletedCount` is their number; the cart is not looked up, so an unknown cart clears 0 |
| OrderService.NewOrder | src/services/order.service.js:25-35 | the order stores the caller's totalAmount, status and isGuest; its email and phone come from the client's user, or are null |
| OrderService.CreateOrder | src/services/order.service.js:4-41 | falsy ids, or a missing client or address, are refused with the prefixed message and nothing is written; otherwise exactly one order is inserted |
| OrderService.GetOrderById | src/services/order.service.js:43-62 | a falsy id and an unknown order are refused with their prefixed messages; otherwise the stored order |
| OrderService.GetOrderBySellerId | src/services/order.service.js:64-84 | exactly the order items of the seller's products; an empty result is the "no sales" error |
| OrderService.GetOrderByClientId | src/services/order.service.js:86-104 | exactly the client's orders, newest first, as a permutation of the stored ones; an empty result is not an error |
| OrderService.ApplyOrderPatch | src/services/order.service.js:108-121 | every defined body field other than `id` (destructured away on line 108) overwrites the order; the rest is kept |
| OrderService.EditStatusOrder | src/services/order.service.js:106-127 | an id and a seller profile of the caller are required; then the order's fields are overwritten, with no check that the seller sells anything in it |
| AddressService.CreateAddress | src/services/address.service.js:4-31 | no client gives "Client not found" and nothing is written; the new address belongs to the caller's client |
| AddressService.ApplyAddressPatch | src/services/address.service.js:57-60 | every defined body field except `id` (destructured away on line 34) overwrites the address, clientId included |
| AddressService.UpdateAddress | src/services/address.service.js:33-63 | an id is required, then a client, then an address the client owns; only then does only that address change |
| AddressService.GetAddressesOfUser | src/services/address.service.js:65-79 | exactly the addresses of the caller's client, or "Client not found" |
| AddressService.DeleteAddress | src/services/address.service.js:81-109 | the same guards as an update; only that address is removed |
| AddressService.OwnershipMeansOwnerUser | src/services/address.service.js:53 | the ownership check lets through exactly the user whose client owns the address |
| ProductService.GetAllProducts | src/services/product.service.js:6-20 | exactly the stored products, as a permutation of the table, newest first (the same query as getAllProducts in src/controllers/productController.js:6-18) |
| ProductService.FindProduct | src/services/product.service.js:23-35 | the product with that id, or nothing when none is stored (also productExistsService, lines 89-93) |
| ProductService.FindSeller | src/services/product.service.js:96-100 | the seller with that id, or nothing |
| ProductService.FindCategory | src/services/product.service.js:103-107 | the category with that id, or nothing |
| ProductService.CreateProduct | src/services/product.service.js:38-63 | one product with the next id and the given columns is inserted, and nothing else changes |
| ProductService.ApplyProductPatch | src/services/product.service.js:66-79 | the defined patch columns overwrite the product; id, seller and creation time are kept |
| ProductService.UpdateProduct | src/services/product.service.js:66-79 | an unknown id fails as Prisma does; otherwise only that product changes |
| ProductService.DeleteProduct | src/services/product.service.js:82-86 | an unknown id fails as Prisma does; otherwise only that product is removed |
| ProductController.CreateRejection | src/controllers/product.controller.js:73-104 | the guards come in this order, each with its 400 message: required fields, positive price, existing seller, existing category; none fires exactly when all hold (the same chain as src/controllers/productController.js:98-135) |
| ProductController.StockOrZero | src/controllers/product.controller.js:110 | a missing stock becomes 0 |
| ProductController.CreateData | src/controllers/product.controller.js:106-118 | the inserted columns are the body's values, with the defaulted stock |
| ProductController.CreateProduct | src/controllers/product.controller.js:68-129 | a refused body gets its 400 and nothing is written; otherwise one product is created and answered with 201 |
| ProductController.UpdateRejection | src/controllers/product.controller.js:138-171 | 400 for a non-numeric id, then 404 for an unknown product, then the category only when one is given, then the price only when defined (the same chain as src/controllers/productController.js:178-217) |
| ProductController.UpdateData | src/controllers/product.controller.js:174-180 | the update map holds exactly the defined body fields, and never the seller |
| ProductController.UpdateProduct | src/controllers/product.controller.js:132-197 | a refused request writes nothing; otherwise only that product changes, and 200 is answered |
| ProductController.UpdateKeepsUndefinedFields | src/controllers/productController.js:219-225 | an updated product has each defined body field's value and keeps every other stored field |
| ProductController.DeleteProduct | src/controllers/product.controller.js:200-232 | 400 for a non-numeric id; 404 for a missing product with no write; otherwise it is removed and 204 is answered (as in src/controllers/productController.js:256-283) |
| ProductController.GetProductById | src/controllers/product.controller.js:32-65 | 400 for a non-numeric id, 404 for an unknown one, otherwise the product with 200 (as in src/controllers/productController.js:48-81) |
| ProductController.GetProductsByCategory | src/controllers/productController.js:37-45 | exactly the products with that categoryId; a non-numeric id gets no answer |
| CategoryService.ProductsOf | src/services/category.service.js:24-32 | exactly the stored products of the category |
| CategoryService.CountPositiveIffProduct | src/services/category.service.js:129 | the product count is positive exactly when some stored product is in the category |
| CategoryService.GetAllCategories | src/services/category.service.js:6-17 | every category with its own product count, as a permutation of the table, by name ascending |
| CategoryService.CountsAreTable | src/services/category.service.js:7-12 | each counted entry is a stored category with its own product count |
| CategoryService.GetCategoryById | src/services/category.service.js:20-38 | the category with exactly its products and their number, or nothing |
| CategoryService.CreateCategory | src/services/category.service.js:41-45 | one category with the next id is inserted |
| CategoryService.ApplyCategoryPatch | src/services/category.service.js:48-53 | the defined name and description overwrite the category |
| CategoryService.UpdateCategory | src/services/category.service.js:48-53 | an unknown id fails as Prisma does; otherwise only that category changes |
| CategoryService.DeleteCategory | src/services/category.service.js:56-60 | an unknown id fails as Prisma does; otherwise only that category is removed |
| CategoryService.HasProducts | src/services/category.service.js:119-130 | true exactly when a stored product is in the category; an unknown category fails reading `_count` of null |
| CategoryService.AddProductToCategory | src/services/category.service.js:70-116 | a missing category, then a missing seller, fail and leave every table as it was; otherwise one product is created in the argument's category, overriding the data's own, and the category's updatedAt is stamped |
| CategoryController.GetAllCategoriesHandler | src/controllers/category.controller.js:12-28 | 200 with every stored category, each with its own product count, by name |
| CategoryController.AllCategoriesListed | src/services/category.service.js:6-17 | every stored category appears in the listing |
| CategoryController.GetCategory | src/controllers/category.controller.js:31-64 | 400 for a non-numeric id, 404 for an unknown one, otherwise 200 with the category and exactly its products |
| CategoryController.CreateCategoryHandler | src/controllers/category.controller.js:67-97 | a falsy name gets 400 and nothing is written; otherwise one category is created and answered with 201 |
| CategoryController.CategoryUpdateData | src/controllers/category.controller.js:124-128 | the update map holds exactly the defined name and description |
| CategoryController.UpdateCategoryHandler | src/controllers/category.controller.js:100-143 | 400 and 404 leave the table alone; otherwise only the defined fields of that category change, and 200 is answered |
| CategoryController.DeleteCategoryHandler | src/controllers/category.controller.js:146-190 | 400, 404, or 400 when a product is still in the category, all with no deletion; the category is deleted, with 204, exactly when it exists and has no product |
| AuthUtils.Sanitize | src/utils/auth.utils.js:13-19 | the copy has every column except password, email, createdAt and updatedAt, each with its value, and no column added |
| AuthUtils.SanitizeStrips | src/utils/auth.utils.js:15 | none of the four sensitive columns survives |
| AuthUtils.SanitizeIdempotent | src/utils/auth.utils.js:15-18 | sanitizing twice is sanitizing once |
| AuthService.RegisterUser | src/services/auth.service.js:7-31 | a missing username, email, password or role is refused; a stored email is refused with nothing written; otherwise the stored password is hash(password), and the answer is the stored row sanitized |
| AuthService.LoginUser | src/services/auth.service.js:33-52 | missing fields, an unknown email and a failed compare are the three errors; otherwise the token signed over the user's id and role |
| AuthService.GetUserIdAsWritten | src/services/auth.service.js:64-73 | as the code is written, the stored row itself is answered, or "User not fond" |
| AuthService.GetUserIdAsWrittenLeaksPassword | src/services/auth.service.js:70-72 | the as-written answer carries the password column |
| AuthService.GetUserId | src/services/auth.service.js:64-73 | the sanitized user, with no password or email column, or "User not fond" |
| AuthService.MergeFields | src/services/auth.service.js:83-87 | the loop copies the defined body properties onto the user, in order |
| AuthService.MergedKeeps | src/services/auth.service.js:83-87 | the merged user has exactly the user's columns plus the defined properties, and keeps the value of every column no defined property names |
| AuthService.MergedSets | src/services/auth.service.js:84-85 | each defined property's value ends up on the user |
| AuthService.EditMergesDefinedFields | src/services/auth.service.js:79-92 | after an edit, each defined field has the body's value, every other column is kept, and no other column appears |
| AuthService.EditUser | src/services/auth.service.js:75-94 | a body without an id, or an unknown id, gives "User not fond" with nothing written; otherwise the merged row is stored and answered unsanitized, unless its email belongs to another user; a body password is stored as given, unhashed |
| AuthService.DeleteUserAsWritten | src/services/auth.service.js:96-105 | as the code is written, a stored user is answered true and is still stored afterwards |
| AuthService.DeleteUser | src/services/auth.service.js:96-105 | an unknown id gives "User not fond"; otherwise the user is removed and true is answered |
| UploadMiddleware.Extname | src/middleware/upload.middleware.js:63 | the extension is empty exactly when the basename is ".." or has no dot after its first character; otherwise it is a dot followed by no dot and no slash, taken from the end of the basename |
| UploadMiddleware.LowerAscii | src/middleware/upload.middleware.js:63 | each upper-case ASCII letter is lower-cased and the rest kept |
| UploadMiddleware.ContainsIff | src/middleware/upload.middleware.js:62 | the substring search succeeds exactly when the word occurs at some position |
| UploadMiddleware.MatchesAllowedIff | src/middleware/upload.middleware.js:62 | the pattern matches exactly when jpeg, jpg, png, gif or webp occurs anywhere, unanchored |
| UploadMiddleware.FileFilter | src/middleware/upload.middleware.js:60-71 | a file is accepted exactly when its lower-cased extension and its mimetype as sent both match; otherwise the images-only error is passed on, never acceptance |
| UploadMiddleware.UpperCaseExtensionAccepted | src/middleware/upload.middleware.js:63 | any name made of a stem without dot or slash and ".PNG", sent as "image/png", is accepted, since the extension is lower-cased first |
| UploadMiddleware.UpperCaseMimetypeRefused | src/middleware/upload.middleware.js:64 | "IMAGE/PNG" is refused, since the mimetype is matched as given |
| UploadMiddleware.DotfileRefused | src/middleware/upload.middleware.js:63 | ".png" has no extension and is refused |

## Left out

- The database engine: `include` joins, foreign-key constraints and cascades
  (an update may name a category that does not exist; a deleted cart leaves its
  items). Prisma errors other than "record not found", except the unique email
  index, are also left out.
- Row order of a `findMany` without `orderBy` is taken as ascending id. The
  `id in [...]` query is taken to return rows in first-request order. Both are
  database choices the code does not fix.
- EditUser: the unique-email failure is given an abstract message, not
  Prisma's full error text.
- Floating point and parsing: `Math.round(price * 100)`, `parseFloat`
  (which lets NaN through `<= 0`) and `parseInt` are not modelled. Prices are
  already integer cents, and ids are already parsed.
- CheckoutAgrees: the source's manifest carries the stored price as it is
  (`unitPrice: dbProduct.price`, in euros), while each line item carries
  `Math.round(price * 100)` cents. The model has one price unit, so both
  carry the same number. In the source the charged total is the manifest
  total times 100, up to rounding, not equal to it.
- JSON `null` is not told apart from `undefined` in fields typed as an
  `Option` of a string, number or boolean: there both are `None`. In the
  source a `null` passes every `!== undefined` test. It is then sent or
  stored as null, where an absent field leaves the value alone. This affects
  the Stripe product update (a null description is sent as null and clears
  it), the product and category update handlers and patches, the address
  patch, and the order patch apart from `email` and `phone`. Prisma sets
  such a column to NULL; the model keeps the old value. EditUser's body and
  the order patch's `email` and `phone` carry `VNull`, so there a null is
  copied as the source copies it.
- CreatePaymentSession: the redirect URL and the `toString()` rendering of
  ids in metadata are not modelled. The answer is the session's id in the
  call log.
- Stripe retrieval calls (`getStripeProduct`, `getStripeProductPrices`,
  `checkoutSuccess`) are foreign calls with no rule of their own. The
  commented-out older session builder is dead code.
- Hashing, password comparison and token signing (bcrypt, JWT, the secret,
  the 7-day expiry) are opaque parameters.
- `getAllUser` is left out. It sanitizes a promise, not a row.
- Console output and the environment checks are left out.
- Cloudinary storage settings, multer wiring and the multi-file upload are
  left out. Only the size cap constant is kept.
- Extname models Node's POSIX `path.extname` only.
- LowerAscii: `toLowerCase` is modelled for ASCII letters only.
- GetAllCategories: `orderBy: { name: 'asc' }` is modelled as ordering by
  character code. The database's collation is not modelled.
- Creation stamps that the schema supplies are taken to be the `now`
  argument: `createdAt` on products, orders and users, and `updatedAt` on
  users and categories. The code writes none of these on creation.
  GetAllProducts' newest-first order rests on that stamp. A column with
  Prisma's updatedAt attribute is not refreshed on update. The only stamp
  the code writes itself, the category's `updatedAt` in
  AddProductToCategory, is modelled as written.
- The HTTP controllers of carts, orders, addresses and auth, and the routers
  and the server entry point, only map exceptions to status codes. They are
  not modelled, and neither are their argument mismatches with the services.
- EditUser: the body's `id` is taken to be the numeric user id. A string id,
  which the source would pass to `update` unparsed, is not modelled. A body
  without an id is refused as "User not fond". In the source,
  `findUnique` is asked for an id of NaN, which finds nothing, though Prisma
  may reject the query with its own validation error first. A body key that
  is not a user column is merged in and stored as a new column. Prisma
  would refuse that update with an "Unknown argument" validation error.
- RegisterUser: columns the schema fills by default, apart from `createdAt`
  and `updatedAt`, are left absent in the stored row (for example an
  undefined `isGuest`).
- Sanitize makes a copy, so the caller's record is never changed. Dafny
  values are immutable, so no separate statement is needed.
- async/await is only sequencing here. `$transaction` is modelled as
  all-or-nothing, by returning before any write on every failure path.

## Findings

| source | as written | input that shows it | evidently intended | confidence | as-written member | corrected member |
|---|---|---|---|---|---|---|
| src/services/auth.service.js:102-104 | the `delete` query is built but never awaited, so (Prisma queries being lazy) it never runs, and the promise object makes the answer `true` | a stored user id | the user row is removed, then `true` is answered | medium, not executed | AuthService.DeleteUserAsWritten | AuthService.DeleteUser |
| src/services/auth.service.js:70-72 | the sanitized copy is computed, then the unsanitized row is returned, password hash and email included | any stored user with a password column | the sanitized user is returned | medium, not executed | AuthService.GetUserIdAsWritten | AuthService.GetUserId |
