/** Checkout-session construction and the gateway product/price payload
    rules (src/services/stripe.service.js). Prices are integer cents, so
    the source's `Math.round(price * 100)` is the identity here. */
module StripeService {
  import opened Common
  import opened Database
  import opened StripeGateway

  const StripeErrorPrefix := "Erreur Stripe: "
  const SessionErrorPrefix := "Erreur lors de la création de la session de paiement: "
  const NoProductsMessage := "Veuillez fournir au moins un produit"
  const MissingProductsPrefix := "Certains produits n'existent pas en base: "
  const Currency := "eur"

  // ---------------------------------------------------------------------------
  // Gateway product and price payloads

  /** `productData` of createStripeProduct (price in cents). */
  datatype StripeProductData = StripeProductData(
    name: Option<string>, description: Option<string>, price: int, imageUrl: Option<string>,
    dbProductId: int, categoryId: Option<int>, sellerId: Option<int>)

  /** `updateData` of updateStripeProduct (price in cents). */
  datatype StripeUpdateData = StripeUpdateData(
    name: Option<string>, description: Option<string>, price: Option<int>, imageUrl: Option<string>)

  /** The ids createStripeProduct returns: the gateway product and its price. */
  datatype StripeRefs = StripeRefs(productRef: int, priceRef: int)

  /** The outcome the gateway has scripted for the i-th next call. */
  ghost function OutcomeAt(outcomes: seq<Option<string>>, i: nat): Option<string> {
    if i < |outcomes| then outcomes[i] else None
  }

  /** The body of `stripe.products.create`: a falsy description is left
      undefined, and images are sent only for a truthy imageUrl. */
  function ProductCreateBody(d: StripeProductData): (r: ProductCreate)
    ensures r.name == d.name
    ensures r.description.Some? <==> Truthy(d.description)
    ensures r.description.Some? ==> r.description == d.description
    ensures r.images.Some? <==> Truthy(d.imageUrl)
    ensures r.images.Some? ==> r.images.value == [d.imageUrl.value]
    ensures r.metadata == ProductMetadata(d.dbProductId, d.categoryId, d.sellerId)
  {
    ProductCreate(
      d.name,
      if Truthy(d.description) then d.description else None,
      if Truthy(d.imageUrl) then Some([d.imageUrl.value]) else None,
      ProductMetadata(d.dbProductId, d.categoryId, d.sellerId))
  }

  /** createStripeProduct: create the gateway product, then a price in euros
      on the product just created; any gateway failure is rethrown with the
      "Erreur Stripe: " prefix (a product created before a failing price
      call stays at the gateway). */
  method CreateStripeProduct(gw: Gateway, d: StripeProductData) returns (r: Result<StripeRefs>)
    modifies gw
    ensures |gw.calls| > |old(gw.calls)| && gw.calls[..|old(gw.calls)|] == old(gw.calls)
    ensures gw.calls[|old(gw.calls)|] == Call(CreateProduct(ProductCreateBody(d)), OutcomeAt(old(gw.outcomes), 0))
    ensures OutcomeAt(old(gw.outcomes), 0).Some? ==>
      && |gw.calls| == |old(gw.calls)| + 1
      && r == Err(StripeErrorPrefix + OutcomeAt(old(gw.outcomes), 0).value)
    ensures OutcomeAt(old(gw.outcomes), 0).None? ==>
      && |gw.calls| == |old(gw.calls)| + 2
      && gw.calls[|old(gw.calls)| + 1] ==
         Call(CreatePrice(PriceCreate(|old(gw.calls)|, d.price, Currency)), OutcomeAt(old(gw.outcomes), 1))
      && r == (if OutcomeAt(old(gw.outcomes), 1).Some?
               then Err(StripeErrorPrefix + OutcomeAt(old(gw.outcomes), 1).value)
               else Ok(StripeRefs(|old(gw.calls)|, |old(gw.calls)| + 1)))
  {
    var product := gw.Send(CreateProduct(ProductCreateBody(d)));
    if product.Err? {
      return Err(StripeErrorPrefix + product.message);
    }
    var price := gw.Send(CreatePrice(PriceCreate(product.value, d.price, Currency)));
    if price.Err? {
      return Err(StripeErrorPrefix + price.message);
    }
    r := Ok(StripeRefs(product.value, price.value));
  }

  /** The `updateFields` object of updateStripeProduct: the name only when
      truthy, the description whenever it is defined (a falsy one becomes
      null), the images only for a truthy imageUrl, and never the active flag. */
  function UpdateFieldsOf(u: StripeUpdateData): (f: ProductUpdate)
    ensures f.name.Some? <==> Truthy(u.name)
    ensures f.name.Some? ==> f.name == u.name
    ensures f.description.Some? <==> u.description.Some?
    ensures u.description.Some? ==>
      f.description.value == (if u.description.value == "" then Null else Text(u.description.value))
    ensures f.images.Some? <==> Truthy(u.imageUrl)
    ensures f.images.Some? ==> f.images.value == [u.imageUrl.value]
    ensures f.active.None?
  {
    ProductUpdate(
      if Truthy(u.name) then u.name else None,
      if u.description.Some? then Some(if u.description.value == "" then Null else Text(u.description.value)) else None,
      if Truthy(u.imageUrl) then Some([u.imageUrl.value]) else None,
      None)
  }

  /** The same object as the source fills it, one field after the other. */
  method UpdateFields(u: StripeUpdateData) returns (fields: ProductUpdate)
    ensures fields == UpdateFieldsOf(u)
  {
    fields := ProductUpdate(None, None, None, None);
    if Truthy(u.name) {
      fields := fields.(name := u.name);
    }
    if u.description.Some? {
      fields := fields.(description := Some(if u.description.value == "" then Null else Text(u.description.value)));
    }
    if Truthy(u.imageUrl) {
      fields := fields.(images := Some([u.imageUrl.value]));
    }
  }

  /** updateStripeProduct: update the gateway product, then create a new
      price only when the new price is truthy (0 or absent creates none). */
  method UpdateStripeProduct(gw: Gateway, productRef: int, u: StripeUpdateData) returns (r: Result<int>)
    modifies gw
    ensures |gw.calls| > |old(gw.calls)| && gw.calls[..|old(gw.calls)|] == old(gw.calls)
    ensures gw.calls[|old(gw.calls)|].request == UpdateProduct(productRef, UpdateFieldsOf(u))
    ensures gw.calls[|old(gw.calls)|].failure == OutcomeAt(old(gw.outcomes), 0)
    ensures OutcomeAt(old(gw.outcomes), 0).Some? ==>
      |gw.calls| == |old(gw.calls)| + 1 && r == Err(StripeErrorPrefix + OutcomeAt(old(gw.outcomes), 0).value)
    ensures OutcomeAt(old(gw.outcomes), 0).None? && !TruthyInt(u.price) ==>
      |gw.calls| == |old(gw.calls)| + 1 && r == Ok(productRef)
    ensures OutcomeAt(old(gw.outcomes), 0).None? && TruthyInt(u.price) ==>
      && |gw.calls| == |old(gw.calls)| + 2
      && gw.calls[|old(gw.calls)| + 1] ==
         Call(CreatePrice(PriceCreate(productRef, u.price.value, Currency)), OutcomeAt(old(gw.outcomes), 1))
      && r == (if OutcomeAt(old(gw.outcomes), 1).Some?
               then Err(StripeErrorPrefix + OutcomeAt(old(gw.outcomes), 1).value)
               else Ok(productRef))
  {
    var fields := UpdateFields(u);
    var updated := gw.Send(UpdateProduct(productRef, fields));
    if updated.Err? {
      return Err(StripeErrorPrefix + updated.message);
    }
    if TruthyInt(u.price) {
      var price := gw.Send(CreatePrice(PriceCreate(productRef, u.price.value, Currency)));
      if price.Err? {
        return Err(StripeErrorPrefix + price.message);
      }
    }
    r := Ok(updated.value);
  }

  /** deleteStripeProduct: the gateway product is archived (active: false), never deleted. */
  method DeleteStripeProduct(gw: Gateway, productRef: int) returns (r: Result<int>)
    modifies gw
    ensures gw.calls ==
      old(gw.calls) + [Call(UpdateProduct(productRef, ProductUpdate(None, None, None, Some(false))), OutcomeAt(old(gw.outcomes), 0))]
    ensures r == if OutcomeAt(old(gw.outcomes), 0).Some?
                 then Err(StripeErrorPrefix + OutcomeAt(old(gw.outcomes), 0).value)
                 else Ok(productRef)
  {
    var archived := gw.Send(UpdateProduct(productRef, ProductUpdate(None, None, None, Some(false))));
    if archived.Err? {
      return Err(StripeErrorPrefix + archived.message);
    }
    r := Ok(archived.value);
  }

  // ---------------------------------------------------------------------------
  // Checkout session

  /** One entry of the `products` list the front end sends. Any price it
      carries is never read. */
  datatype RequestItem = RequestItem(productId: int, quantity: int, unitPrice: Option<int>)

  function RequestedIds(items: seq<RequestItem>): (ids: seq<int>)
    ensures |ids| == |items| && forall i :: 0 <= i < |items| ==> ids[i] == items[i].productId
  {
    seq(|items|, i requires 0 <= i < |items| => items[i].productId)
  }

  ghost predicate Distinct(ids: seq<int>) {
    forall i, j :: 0 <= i < j < |ids| ==> ids[i] != ids[j]
  }

  ghost predicate IdsMatch(table: map<int, Product>) {
    forall k :: k in table ==> table[k].id == k
  }

  /** The products `findMany({ where: { id: { in: ids } } })` returns, each
      once, in the order their ids first occur (ids in `seen` are skipped). */
  function FetchFrom(table: map<int, Product>, ids: seq<int>, seen: set<int>): seq<Product>
    decreases |ids|
  {
    if |ids| == 0 then []
    else if ids[0] in table && ids[0] !in seen then [table[ids[0]]] + FetchFrom(table, ids[1..], seen + {ids[0]})
    else FetchFrom(table, ids[1..], seen)
  }

  function FetchByIds(table: map<int, Product>, ids: seq<int>): seq<Product> {
    FetchFrom(table, ids, {})
  }

  /** The fetched rows are exactly the stored products whose id is requested (and not skipped). */
  lemma {:induction false} FetchFromMembers(table: map<int, Product>, ids: seq<int>, seen: set<int>)
    requires IdsMatch(table)
    ensures forall p :: p in FetchFrom(table, ids, seen) ==> p.id in table && table[p.id] == p && p.id in ids && p.id !in seen
    ensures forall id :: id in ids && id in table && id !in seen ==> table[id] in FetchFrom(table, ids, seen)
    decreases |ids|
  {
    if |ids| > 0 {
      if ids[0] in table && ids[0] !in seen {
        FetchFromMembers(table, ids[1..], seen + {ids[0]});
      } else {
        FetchFromMembers(table, ids[1..], seen);
      }
      forall p | p in FetchFrom(table, ids, seen)
        ensures p.id in table && table[p.id] == p && p.id in ids && p.id !in seen
      {
        if p.id != ids[0] {
          assert p.id in ids[1..];
        }
      }
      forall id | id in ids && id in table && id !in seen
        ensures table[id] in FetchFrom(table, ids, seen)
      {
        if id != ids[0] {
          assert id in ids[1..];
        }
      }
    }
  }

  /** As many rows come back as ids were sent exactly when the ids are
      distinct, all stored, and none skipped. */
  lemma {:induction false} FetchFromCount(table: map<int, Product>, ids: seq<int>, seen: set<int>)
    ensures |FetchFrom(table, ids, seen)| <= |ids|
    ensures |FetchFrom(table, ids, seen)| == |ids| <==>
      Distinct(ids) && forall i :: 0 <= i < |ids| ==> ids[i] in table && ids[i] !in seen
    decreases |ids|
  {
    if |ids| > 0 {
      var rest := ids[1..];
      if ids[0] in table && ids[0] !in seen {
        FetchFromCount(table, rest, seen + {ids[0]});
        if Distinct(rest) && (forall i :: 0 <= i < |rest| ==> rest[i] in table && rest[i] !in seen + {ids[0]}) {
          forall i, j | 0 <= i < j < |ids| ensures ids[i] != ids[j] {
            if i > 0 { assert ids[i] == rest[i - 1]; }
            assert ids[j] == rest[j - 1];
          }
        }
        if Distinct(ids) && (forall i :: 0 <= i < |ids| ==> ids[i] in table && ids[i] !in seen) {
          forall i | 0 <= i < |rest| ensures rest[i] in table && rest[i] !in seen + {ids[0]} {
            assert rest[i] == ids[i + 1];
          }
        }
      } else {
        FetchFromCount(table, rest, seen);
      }
    }
  }

  /** The length check of createPaymentSession passes exactly when every
      requested id is stored and no id is repeated. */
  lemma FetchCountMatches(table: map<int, Product>, ids: seq<int>)
    ensures |FetchByIds(table, ids)| == |ids| <==> Distinct(ids) && forall i :: 0 <= i < |ids| ==> ids[i] in table
  {
    FetchFromCount(table, ids, {});
  }

  /** `productIds.filter(id => !dbProducts.some(p => p.id === id))`. */
  function MissingIds(fetched: seq<Product>, ids: seq<int>): seq<int> {
    Filter(ids, id => forall p | p in fetched :: p.id != id)
  }

  /** The error message names exactly the requested ids that are not stored;
      so a request whose ids all exist but repeat one is refused with an empty list. */
  lemma MissingIdsAreAbsent(table: map<int, Product>, ids: seq<int>, id: int)
    requires IdsMatch(table)
    ensures id in MissingIds(FetchByIds(table, ids), ids) <==> id in ids && id !in table
  {
    FetchFromMembers(table, ids, {});
  }

  /** `products.find(p => p.productId === id)`: the first request entry for that id. */
  function FindRequested(items: seq<RequestItem>, id: int): (r: Option<RequestItem>)
    ensures r.None? <==> forall j :: 0 <= j < |items| ==> items[j].productId != id
    ensures r.Some? ==> exists j :: 0 <= j < |items| && items[j] == r.value && items[j].productId == id &&
                                   forall k :: 0 <= k < j ==> items[k].productId != id
    decreases |items|
  {
    if |items| == 0 then None
    else if items[0].productId == id then Some(items[0])
    else
      var r := FindRequested(items[1..], id);
      assert r.Some? ==> exists j :: 0 < j < |items| && items[j] == r.value && items[j].productId == id &&
                                    forall k :: 0 <= k < j ==> items[k].productId != id by {
        if r.Some? {
          var j :| 0 <= j < |items[1..]| && items[1..][j] == r.value && items[1..][j].productId == id &&
                   forall k :: 0 <= k < j ==> items[1..][k].productId != id;
          assert items[j + 1] == r.value;
          forall k | 0 <= k < j + 1 ensures items[k].productId != id {
            if k > 0 { assert items[k] == items[1..][k - 1]; }
          }
        }
      }
      assert r.None? ==> forall j :: 0 <= j < |items| ==> items[j].productId != id by {
        if r.None? {
          forall j | 0 <= j < |items| ensures items[j].productId != id {
            if j > 0 { assert items[j] == items[1..][j - 1]; }
          }
        }
      }
      r
  }

  /** Every fetched product has a request entry. */
  ghost predicate AllRequested(fetched: seq<Product>, items: seq<RequestItem>) {
    forall i :: 0 <= i < |fetched| ==> FindRequested(items, fetched[i].id).Some?
  }

  /** The line items: for each fetched product, its stored name and price
      and the quantity of its first request entry. */
  function LineItemsOf(fetched: seq<Product>, items: seq<RequestItem>): seq<LineItem>
    requires AllRequested(fetched, items)
    decreases |fetched|
  {
    if |fetched| == 0 then []
    else [LineItem(Currency, fetched[0].name, fetched[0].price, FindRequested(items, fetched[0].id).value.quantity)]
         + LineItemsOf(fetched[1..], items)
  }

  /** The checkout manifest: for each fetched product, its id, the requested
      quantity and the stored price. */
  function ManifestOf(fetched: seq<Product>, items: seq<RequestItem>): seq<ManifestEntry>
    requires AllRequested(fetched, items)
    decreases |fetched|
  {
    if |fetched| == 0 then []
    else [ManifestEntry(fetched[0].id, FindRequested(items, fetched[0].id).value.quantity, fetched[0].price)]
         + ManifestOf(fetched[1..], items)
  }

  /** The amount the gateway charges for the line items. */
  function ChargedTotal(lines: seq<LineItem>): int
    decreases |lines|
  {
    if |lines| == 0 then 0 else lines[0].unitAmount * lines[0].quantity + ChargedTotal(lines[1..])
  }

  /** The total the manifest records. */
  function ManifestTotal(manifest: seq<ManifestEntry>): int
    decreases |manifest|
  {
    if |manifest| == 0 then 0 else manifest[0].unitPrice * manifest[0].quantity + ManifestTotal(manifest[1..])
  }

  /** The total at the stored prices: price times requested quantity per fetched product. */
  function StoredTotal(fetched: seq<Product>, items: seq<RequestItem>): int
    requires AllRequested(fetched, items)
    decreases |fetched|
  {
    if |fetched| == 0 then 0
    else fetched[0].price * FindRequested(items, fetched[0].id).value.quantity + StoredTotal(fetched[1..], items)
  }

  /** Line items and manifest agree entry by entry, and the charged amount
      equals the manifest total, both computed from stored prices only. */
  lemma {:induction false} CheckoutAgrees(fetched: seq<Product>, items: seq<RequestItem>)
    requires AllRequested(fetched, items)
    ensures |LineItemsOf(fetched, items)| == |fetched| == |ManifestOf(fetched, items)|
    ensures forall i :: 0 <= i < |fetched| ==>
      && LineItemsOf(fetched, items)[i].unitAmount == fetched[i].price == ManifestOf(fetched, items)[i].unitPrice
      && LineItemsOf(fetched, items)[i].quantity == ManifestOf(fetched, items)[i].quantity
      && ManifestOf(fetched, items)[i].productId == fetched[i].id
    ensures ChargedTotal(LineItemsOf(fetched, items)) == StoredTotal(fetched, items) == ManifestTotal(ManifestOf(fetched, items))
    decreases |fetched|
  {
    if |fetched| > 0 {
      CheckoutAgrees(fetched[1..], items);
      forall i | 0 < i < |fetched|
        ensures LineItemsOf(fetched, items)[i] == LineItemsOf(fetched[1..], items)[i - 1]
        ensures ManifestOf(fetched, items)[i] == ManifestOf(fetched[1..], items)[i - 1]
      {
      }
    }
  }

  /** Every fetched product was requested, so the `find` of the loop never fails. */
  lemma FetchedAreRequested(table: map<int, Product>, items: seq<RequestItem>)
    requires IdsMatch(table)
    ensures AllRequested(FetchByIds(table, RequestedIds(items)), items)
  {
    var fetched := FetchByIds(table, RequestedIds(items));
    FetchFromMembers(table, RequestedIds(items), {});
    forall i | 0 <= i < |fetched| ensures FindRequested(items, fetched[i].id).Some? {
      assert fetched[i] in fetched;
      var j :| 0 <= j < |items| && RequestedIds(items)[j] == fetched[i].id;
      assert items[j].productId == fetched[i].id;
    }
  }

  /** The loop of createPaymentSession: one line item and one manifest entry per fetched product. */
  method BuildCheckout(fetched: seq<Product>, items: seq<RequestItem>)
    returns (lines: seq<LineItem>, manifest: seq<ManifestEntry>)
    requires AllRequested(fetched, items)
    ensures lines == LineItemsOf(fetched, items)
    ensures manifest == ManifestOf(fetched, items)
  {
    lines, manifest := [], [];
    var i := 0;
    while i < |fetched|
      invariant 0 <= i <= |fetched|
      invariant lines + LineItemsOf(fetched[i..], items) == LineItemsOf(fetched, items)
      invariant manifest + ManifestOf(fetched[i..], items) == ManifestOf(fetched, items)
    {
      var front := FindRequested(items, fetched[i].id).value;
      assert fetched[i..][1..] == fetched[i + 1..];
      lines := lines + [LineItem(Currency, fetched[i].name, fetched[i].price, front.quantity)];
      manifest := manifest + [ManifestEntry(fetched[i].id, front.quantity, fetched[i].price)];
      i := i + 1;
    }
  }

  /** The session body createPaymentSession sends for a validated request. */
  function SessionBody(lines: seq<LineItem>, manifest: seq<ManifestEntry>): SessionCreate {
    SessionCreate(["card"], "payment", lines, manifest)
  }

  /** createPaymentSession: reject an absent or empty list; fetch the
      products in one query and refuse the request unless one row comes back
      per requested id, naming the missing ids; otherwise create a session
      whose line items and manifest use the stored prices. Every failure is
      rethrown with the session-error prefix. The answer is the session (its
      redirect URL in the source). */
  method CreatePaymentSession(db: Store, gw: Gateway, products: Option<seq<RequestItem>>) returns (r: Result<int>)
    requires db.Valid()
    modifies gw
    ensures r.Err? ==> StartsWith(r.message, SessionErrorPrefix)
    ensures products.None? || |products.value| == 0 ==>
      && r == Err(SessionErrorPrefix + NoProductsMessage)
      && gw.calls == old(gw.calls) && gw.outcomes == old(gw.outcomes)
    ensures products.Some? && |products.value| > 0 ==>
      var ids := RequestedIds(products.value);
      var fetched := FetchByIds(db.products, ids);
      if |fetched| != |ids| then
        && r == Err(SessionErrorPrefix + MissingProductsPrefix + JoinInts(MissingIds(fetched, ids), ", "))
        && gw.calls == old(gw.calls) && gw.outcomes == old(gw.outcomes)
      else
        && AllRequested(fetched, products.value)
        && gw.calls == old(gw.calls) + [Call(CreateSession(SessionBody(LineItemsOf(fetched, products.value),
                                                                       ManifestOf(fetched, products.value))),
                                             OutcomeAt(old(gw.outcomes), 0))]
        && r == (if OutcomeAt(old(gw.outcomes), 0).Some?
                 then Err(SessionErrorPrefix + OutcomeAt(old(gw.outcomes), 0).value)
                 else Ok(|old(gw.calls)|))
  {
    if products.None? || |products.value| == 0 {
      r := Err(SessionErrorPrefix + NoProductsMessage);
      PrefixConcat(SessionErrorPrefix, NoProductsMessage);
      return;
    }
    var items := products.value;
    var ids := RequestedIds(items);
    var fetched := FetchByIds(db.products, ids);
    if |fetched| != |ids| {
      var missing := MissingIds(fetched, ids);
      r := Err(SessionErrorPrefix + MissingProductsPrefix + JoinInts(missing, ", "));
      PrefixConcat(SessionErrorPrefix, MissingProductsPrefix + JoinInts(missing, ", "));
      return;
    }
    FetchedAreRequested(db.products, items);
    var lines, manifest := BuildCheckout(fetched, items);
    var session := gw.Send(CreateSession(SessionBody(lines, manifest)));
    if session.Err? {
      r := Err(SessionErrorPrefix + session.message);
      PrefixConcat(SessionErrorPrefix, session.message);
      return;
    }
    r := Ok(session.value);
  }

  /** For an accepted request (distinct ids, all stored) the manifest is the
      request itself, entry by entry, with the stored price in place of any
      price the request carries. */
  lemma {:induction false} AcceptedManifestFollowsRequest(table: map<int, Product>, items: seq<RequestItem>)
    requires IdsMatch(table)
    requires |FetchByIds(table, RequestedIds(items))| == |items|
    ensures AllRequested(FetchByIds(table, RequestedIds(items)), items)
    ensures |ManifestOf(FetchByIds(table, RequestedIds(items)), items)| == |items|
    ensures forall i :: 0 <= i < |items| ==>
      items[i].productId in table &&
      ManifestOf(FetchByIds(table, RequestedIds(items)), items)[i] ==
        ManifestEntry(items[i].productId, items[i].quantity, table[items[i].productId].price)
  {
    var ids := RequestedIds(items);
    FetchCountMatches(table, ids);
    FetchedAreRequested(table, items);
    FetchInOrder(table, ids, {});
    var fetched := FetchByIds(table, ids);
    CheckoutAgrees(fetched, items);
    forall i | 0 <= i < |items|
      ensures items[i].productId in table
      ensures ManifestOf(fetched, items)[i] == ManifestEntry(items[i].productId, items[i].quantity, table[items[i].productId].price)
    {
      assert ids[i] == items[i].productId;
      assert fetched[i] == table[ids[i]];
      FindFirstOfDistinct(items, i);
      ManifestAt(fetched, items, i);
    }
  }

  /** With distinct, stored, unskipped ids the fetch returns one row per id, in request order. */
  lemma {:induction false} FetchInOrder(table: map<int, Product>, ids: seq<int>, seen: set<int>)
    requires Distinct(ids) && forall i :: 0 <= i < |ids| ==> ids[i] in table && ids[i] !in seen
    ensures |FetchFrom(table, ids, seen)| == |ids|
    ensures forall i :: 0 <= i < |ids| ==> FetchFrom(table, ids, seen)[i] == table[ids[i]]
    decreases |ids|
  {
    if |ids| > 0 {
      var rest := ids[1..];
      assert forall i :: 0 <= i < |rest| ==> rest[i] == ids[i + 1];
      FetchInOrder(table, rest, seen + {ids[0]});
    }
  }

  /** With distinct ids, the first request entry for `items[i].productId` is `items[i]`. */
  lemma FindFirstOfDistinct(items: seq<RequestItem>, i: int)
    requires 0 <= i < |items|
    requires Distinct(RequestedIds(items))
    ensures FindRequested(items, items[i].productId) == Some(items[i])
  {
    var r := FindRequested(items, items[i].productId);
    var j :| 0 <= j < |items| && items[j] == r.value && items[j].productId == items[i].productId &&
             forall k :: 0 <= k < j ==> items[k].productId != items[i].productId;
    assert RequestedIds(items)[j] == RequestedIds(items)[i];
  }

  lemma {:induction false} ManifestAt(fetched: seq<Product>, items: seq<RequestItem>, i: int)
    requires AllRequested(fetched, items)
    requires 0 <= i < |fetched|
    ensures |ManifestOf(fetched, items)| == |fetched|
    ensures ManifestOf(fetched, items)[i] ==
      ManifestEntry(fetched[i].id, FindRequested(items, fetched[i].id).value.quantity, fetched[i].price)
    decreases i
  {
    CheckoutAgrees(fetched, items);
    if i > 0 {
      ManifestAt(fetched[1..], items, i - 1);
    }
  }
}
