/** The cart store (src/services/panier.service.js): carts and their items
    are rows of the `carts` and `cartItems` tables. */
module PanierService {
  import opened Common
  import opened Database

  const ClientNotFoundForUser := "Client introuvable pour cet utilisateur."
  const ClientNotFound := "Client not found"
  /** The TypeError raised by reading `items[0].productId` on an empty list. */
  const NoFirstItem := "Cannot read properties of undefined (reading 'productId')"
  const ItemsRequired := "Panier ID and items are required"
  const PanierIdRequired := "Panier ID is required"
  const PanierNotFound := "Panier not found"

  /** A cart together with its items (the `include: { items: true }` join). */
  datatype CartView = CartView(cart: Cart, items: seq<CartItem>)

  /** The object getPanierByUserId answers with. */
  datatype PanierReply = PanierReply(success: bool, message: Option<string>, panier: seq<CartView>)

  /** One entry of the `items` list createPanier is given. */
  datatype NewItem = NewItem(productId: int, quantity: Option<int>)

  /** The answer of clearPanier. */
  datatype ClearReply = ClearReply(success: bool, message: string, deletedCount: int)

  /** The items of a cart. */
  function ItemsOfCart(db: Store, cartId: int): (r: seq<CartItem>)
    reads db
    requires db.Valid()
    ensures forall x :: x in r <==> InTable(db.cartItems, x) && x.cartId == cartId
  {
    Where(db.cartItems, db.nextId, (x: CartItem) => x.cartId == cartId)
  }

  /** Each cart of the list with its items. */
  function WithItems(db: Store, carts: seq<Cart>): (r: seq<CartView>)
    reads db
    requires db.Valid()
    ensures |r| == |carts| && forall i :: 0 <= i < |r| ==> r[i].cart == carts[i]
    ensures forall v :: v in r <==> v.cart in carts && v.items == ItemsOfCart(db, v.cart.id)
    decreases |carts|
  {
    if |carts| == 0 then []
    else
      var rest := WithItems(db, carts[1..]);
      assert forall c :: c in carts <==> c == carts[0] || c in carts[1..];
      [CartView(carts[0], ItemsOfCart(db, carts[0].id))] + rest
  }

  /** The carts of a client, each with its items, by ascending cart id. */
  function CartsOfClient(db: Store, clientId: int): (r: seq<CartView>)
    reads db
    requires db.Valid()
    ensures forall v :: v in r <==>
      InTable(db.carts, v.cart) && v.cart.clientId == clientId && v.items == ItemsOfCart(db, v.cart.id)
    ensures forall i, j :: 0 <= i < j < |r| ==> r[i].cart.id < r[j].cart.id
  {
    var carts := Where(db.carts, db.nextId, (c: Cart) => c.clientId == clientId);
    WhereAscend(db.carts, db.nextId, (c: Cart) => c.clientId == clientId, (c: Cart) => c.id);
    WithItems(db, carts)
  }

  /** getPanierByUserId: a user without a client gets success = false and an
      empty list; otherwise every cart of that client, with its items. */
  function GetPanierByUserId(db: Store, userId: int): (r: PanierReply)
    reads db
    requires db.Valid()
    ensures r.success <==> db.ClientOfUser(userId).Some?
    ensures !r.success ==> r.panier == [] && r.message == Some(ClientNotFoundForUser)
    ensures r.success ==> r.message.None? && forall v :: v in r.panier <==>
      InTable(db.carts, v.cart) && v.cart.clientId == db.ClientOfUser(userId).value.id &&
      v.items == ItemsOfCart(db, v.cart.id)
    ensures forall i, j :: 0 <= i < j < |r.panier| ==> r.panier[i].cart.id < r.panier[j].cart.id
  {
    match db.ClientOfUser(userId)
    case None => PanierReply(false, Some(ClientNotFoundForUser), [])
    case Some(client) => PanierReply(true, None, CartsOfClient(db, client.id))
  }

  /** `item.quantity || 1`. */
  function QuantityOrOne(quantity: Option<int>): (q: int)
    ensures TruthyInt(quantity) ==> q == quantity.value
    ensures !TruthyInt(quantity) ==> q == 1
    ensures q != 0
  {
    if TruthyInt(quantity) then quantity.value else 1
  }

  /** The rows the nested `items.create` inserts: one per input item, in
      order, with consecutive ids from `firstId`. */
  function NewCartItems(cartId: int, firstId: int, items: seq<NewItem>): (r: seq<CartItem>)
    ensures |r| == |items|
    ensures forall i :: 0 <= i < |items| ==>
      && r[i].id == firstId + i && r[i].cartId == cartId
      && r[i].productId == items[i].productId
      && r[i].quantity == QuantityOrOne(items[i].quantity)
  {
    seq(|items|, i requires 0 <= i < |items| =>
      CartItem(firstId + i, cartId, items[i].productId, QuantityOrOne(items[i].quantity)))
  }

  /** Rows as a table keyed by their ids. */
  function Indexed(rows: seq<CartItem>): map<int, CartItem>
    decreases |rows|
  {
    if |rows| == 0 then map[] else Indexed(rows[..|rows| - 1])[rows[|rows| - 1].id := rows[|rows| - 1]]
  }

  /** Each key of the table is the id of one of the rows, and keys the row with that id. */
  lemma {:induction false} IndexedKeys(rows: seq<CartItem>)
    ensures forall k :: k in Indexed(rows) ==> Indexed(rows)[k].id == k && exists i :: 0 <= i < |rows| && rows[i].id == k
    decreases |rows|
  {
    if |rows| > 0 {
      IndexedKeys(rows[..|rows| - 1]);
    }
  }

  /** createPanier: the caller must have a client; the list must have a first
      item (its product lookup is never used to reject anything); then one
      cart for that client with one item per input item. */
  method CreatePanier(db: Store, userId: int, items: seq<NewItem>) returns (r: Result<CartView>)
    requires db.Valid()
    modifies db`carts, db`cartItems, db`nextId
    ensures db.Valid()
    ensures old(db.ClientOfUser(userId)).None? ==> r == Err(ClientNotFound) && unchanged(db)
    ensures old(db.ClientOfUser(userId)).Some? && |items| == 0 ==> r == Err(NoFirstItem) && unchanged(db)
    ensures old(db.ClientOfUser(userId)).Some? && |items| > 0 ==>
      var cart := Cart(old(db.nextId), old(db.ClientOfUser(userId)).value.id);
      var rows := NewCartItems(cart.id, cart.id + 1, items);
      && db.carts == old(db.carts)[cart.id := cart]
      && db.cartItems == old(db.cartItems) + Indexed(rows)
      && db.nextId == old(db.nextId) + 1 + |items|
      && r == Ok(CartView(cart, rows))
  {
    var client := db.ClientOfUser(userId);
    if client.None? {
      return Err(ClientNotFound);
    }
    if |items| == 0 {
      return Err(NoFirstItem);
    }
    var cart := Cart(db.nextId, client.value.id);
    var rows := NewCartItems(cart.id, cart.id + 1, items);
    InsertCart(db, cart, rows);
    r := Ok(CartView(cart, rows));
  }

  /** `prisma.cart.create` with nested item rows: the cart and its items take the next ids. */
  method InsertCart(db: Store, cart: Cart, rows: seq<CartItem>)
    requires db.Valid()
    requires cart.id == db.nextId
    requires forall i :: 0 <= i < |rows| ==> rows[i].id == db.nextId + 1 + i
    modifies db`carts, db`cartItems, db`nextId
    ensures db.Valid()
    ensures db.carts == old(db.carts)[cart.id := cart]
    ensures db.cartItems == old(db.cartItems) + Indexed(rows)
    ensures db.nextId == old(db.nextId) + 1 + |rows|
  {
    IndexedKeys(rows);
    db.carts := db.carts[cart.id := cart];
    db.cartItems := db.cartItems + Indexed(rows);
    db.nextId := db.nextId + 1 + |rows|;
  }

  /** updatePanierItems: a falsy item id or quantity (so 0 too) is refused;
      otherwise only that item's quantity changes. */
  method UpdatePanierItems(db: Store, cartItemId: Option<int>, newQuantity: Option<int>) returns (r: Result<CartItem>)
    requires db.Valid()
    modifies db`cartItems
    ensures db.Valid()
    ensures !TruthyInt(cartItemId) || !TruthyInt(newQuantity) ==>
      r == Err(ItemsRequired) && db.cartItems == old(db.cartItems)
    ensures TruthyInt(cartItemId) && TruthyInt(newQuantity) && cartItemId.value !in old(db.cartItems) ==>
      r == Err(UpdateNotFound) && db.cartItems == old(db.cartItems)
    ensures TruthyInt(cartItemId) && TruthyInt(newQuantity) && cartItemId.value in old(db.cartItems) ==>
      var item := old(db.cartItems)[cartItemId.value].(quantity := newQuantity.value);
      db.cartItems == old(db.cartItems)[cartItemId.value := item] && r == Ok(item)
  {
    if !TruthyInt(cartItemId) || !TruthyInt(newQuantity) {
      return Err(ItemsRequired);
    }
    var id := cartItemId.value;
    if id !in db.cartItems {
      return Err(UpdateNotFound);
    }
    var item := db.cartItems[id].(quantity := newQuantity.value);
    db.cartItems := db.cartItems[id := item];
    r := Ok(item);
  }

  /** deletePanier: an id is required and the cart must exist; only that cart is removed. */
  method DeletePanier(db: Store, panierId: Option<int>) returns (r: Result<Cart>)
    requires db.Valid()
    modifies db`carts
    ensures db.Valid()
    ensures !TruthyInt(panierId) ==> r == Err(PanierIdRequired) && db.carts == old(db.carts)
    ensures TruthyInt(panierId) && panierId.value !in old(db.carts) ==> r == Err(PanierNotFound) && db.carts == old(db.carts)
    ensures TruthyInt(panierId) && panierId.value in old(db.carts) ==>
      db.carts == old(db.carts) - {panierId.value} && r == Ok(old(db.carts)[panierId.value])
  {
    if !TruthyInt(panierId) {
      return Err(PanierIdRequired);
    }
    var id := panierId.value;
    if id !in db.carts {
      return Err(PanierNotFound);
    }
    r := Ok(db.carts[id]);
    db.carts := db.carts - {id};
  }

  /** The items of the cart, by id. */
  function ItemIdsOfCart(items: map<int, CartItem>, cartId: int): set<int> {
    set k | k in items && items[k].cartId == cartId
  }

  /** The table without the items of the cart. */
  function WithoutCart(items: map<int, CartItem>, cartId: int): map<int, CartItem> {
    map k | k in items && items[k].cartId != cartId :: items[k]
  }

  /** The rows `deleteMany` removes are counted exactly once: what is left plus what was removed is the table. */
  lemma ClearCount(items: map<int, CartItem>, cartId: int)
    ensures |WithoutCart(items, cartId)| + |ItemIdsOfCart(items, cartId)| == |items|
  {
    var kept := WithoutCart(items, cartId).Keys;
    var gone := ItemIdsOfCart(items, cartId);
    assert kept + gone == items.Keys;
    assert kept * gone == {};
  }

  /** clearPanier: an id is required; every item of that cart is removed and
      counted. The cart itself is not looked up, so an unknown cart clears 0 items. */
  method ClearPanier(db: Store, panierId: Option<int>) returns (r: Result<ClearReply>)
    requires db.Valid()
    modifies db`cartItems
    ensures db.Valid()
    ensures !TruthyInt(panierId) ==> r == Err(PanierIdRequired) && db.cartItems == old(db.cartItems)
    ensures TruthyInt(panierId) ==>
      && db.cartItems == WithoutCart(old(db.cartItems), panierId.value)
      && r.Ok? && r.value.success
      && r.value.message == "Panier " + IntToString(panierId.value) + " vidé avec succès"
      && r.value.deletedCount == |ItemIdsOfCart(old(db.cartItems), panierId.value)|
      && |db.cartItems| + r.value.deletedCount == |old(db.cartItems)|
  {
    if !TruthyInt(panierId) {
      return Err(PanierIdRequired);
    }
    var id := panierId.value;
    var count := |ItemIdsOfCart(db.cartItems, id)|;
    ClearCount(db.cartItems, id);
    db.cartItems := WithoutCart(db.cartItems, id);
    r := Ok(ClearReply(true, "Panier " + IntToString(id) + " vidé avec succès", count));
  }
}
