/** The order store (src/services/order.service.js). Every failure is
    rethrown with a per-operation prefix. */
module OrderService {
  import opened Common
  import opened Database

  const CreatePrefix := "Erreur lors de la création de la commande: "
  const IdsRequired := "ClientId et AddressId sont requis"
  const ClientOrAddressMissing := "Client ou adresse introuvable"
  const GetPrefix := "Erreur lors de la récupération de la commande: "
  const IdRequired := "Id requis"
  const OrderNotFound := "Commande introuvable"
  const SalesPrefix := "Erreur lors de la récupération des ventes: "
  const SellerIdRequired := "SellerId requis"
  const NoSales := "Ce vendeur n'a aucune vente pour le moment."
  const ClientOrdersPrefix := "Erreur lors de la récupération des commandes client: "
  const ClientIdRequired := "ClientId requis"
  const StatusPrefix := "Erreur lors de la mise à jour du statut: "
  const OrderIdRequired := "Id de commande requis"
  const SellerNotFound := "Vendeur introuvable"

  /** The body createOrderService reads. */
  datatype OrderInput = OrderInput(
    clientId: Option<int>, addressId: Option<int>, totalAmount: Option<int>,
    status: Option<string>, isGuest: Option<bool>)

  /** The order columns a body may set (`{ id, ...fieldsToUpdate }`: everything but the id). */
  datatype OrderPatch = OrderPatch(
    clientId: Option<int>, addressId: Option<int>, totalAmount: Option<int>, status: Option<string>,
    isGuest: Option<bool>, email: Option<Value>, phone: Option<Value>, createdAt: Option<int>)

  /** `client.user?.<column> ?? null`: the column of the client's user, or null. */
  function UserColumnOrNull(users: map<int, Row>, userId: int, column: string): (v: Value)
    ensures v != VNull ==> userId in users && column in users[userId] && v == users[userId][column]
    ensures userId in users && column in users[userId] ==> v == users[userId][column]
  {
    if userId in users && column in users[userId] then users[userId][column] else VNull
  }

  /** The order createOrderService inserts: the body's fields, and the
      client's user's email and phone. */
  function NewOrder(db: Store, id: int, body: OrderInput, now: int): (o: Order)
    reads db
    requires TruthyInt(body.clientId) && body.clientId.value in db.clients && TruthyInt(body.addressId)
    ensures o.id == id && o.clientId == body.clientId.value && o.addressId == body.addressId.value
    ensures o.totalAmount == body.totalAmount && o.status == body.status && o.isGuest == body.isGuest
    ensures o.email == UserColumnOrNull(db.users, db.clients[o.clientId].userId, "email")
    ensures o.phone == UserColumnOrNull(db.users, db.clients[o.clientId].userId, "phone")
    ensures o.createdAt == now
  {
    var user := db.clients[body.clientId.value].userId;
    Order(id, body.clientId.value, body.addressId.value, body.totalAmount, body.status, body.isGuest,
          UserColumnOrNull(db.users, user, "email"), UserColumnOrNull(db.users, user, "phone"), now)
  }

  /** createOrderService: both ids are required, both rows must exist, and
      only then one order is inserted; nothing changes on failure. */
  method CreateOrder(db: Store, body: OrderInput, now: int) returns (r: Result<Order>)
    requires db.Valid()
    modifies db`orders, db`nextId
    ensures db.Valid()
    ensures r.Err? ==> StartsWith(r.message, CreatePrefix) && db.orders == old(db.orders) && db.nextId == old(db.nextId)
    ensures !TruthyInt(body.clientId) || !TruthyInt(body.addressId) ==> r == Err(CreatePrefix + IdsRequired)
    ensures TruthyInt(body.clientId) && TruthyInt(body.addressId) &&
            (body.clientId.value !in old(db.clients) || body.addressId.value !in old(db.addresses)) ==>
      r == Err(CreatePrefix + ClientOrAddressMissing)
    ensures TruthyInt(body.clientId) && TruthyInt(body.addressId) &&
            body.clientId.value in old(db.clients) && body.addressId.value in old(db.addresses) ==>
      && r == Ok(old(NewOrder(db, db.nextId, body, now)))
      && db.orders == old(db.orders)[old(db.nextId) := r.value]
      && db.nextId == old(db.nextId) + 1
  {
    if !TruthyInt(body.clientId) || !TruthyInt(body.addressId) {
      PrefixConcat(CreatePrefix, IdsRequired);
      return Err(CreatePrefix + IdsRequired);
    }
    if body.clientId.value !in db.clients || body.addressId.value !in db.addresses {
      PrefixConcat(CreatePrefix, ClientOrAddressMissing);
      return Err(CreatePrefix + ClientOrAddressMissing);
    }
    var order := NewOrder(db, db.nextId, body, now);
    db.orders := db.orders[order.id := order];
    db.nextId := db.nextId + 1;
    r := Ok(order);
  }

  /** getOrderById: an id is required, and the order must exist. */
  function GetOrderById(db: Store, id: Option<int>): (r: Result<Order>)
    reads db
    ensures !TruthyInt(id) ==> r == Err(GetPrefix + IdRequired)
    ensures TruthyInt(id) ==> (r.Ok? <==> id.value in db.orders)
    ensures r.Ok? ==> r.value == db.orders[id.value]
    ensures TruthyInt(id) && r.Err? ==> r.message == GetPrefix + OrderNotFound
  {
    if !TruthyInt(id) then Err(GetPrefix + IdRequired)
    else if id.value !in db.orders then Err(GetPrefix + OrderNotFound)
    else Ok(db.orders[id.value])
  }

  /** The order item is for a stored product of that seller. */
  predicate SoldBy(products: map<int, Product>, item: OrderItem, sellerId: int) {
    item.productId in products && products[item.productId].sellerId == sellerId
  }

  /** getOrderBySellerId: every order item of a product of the seller; no such item is an error. */
  function GetOrderBySellerId(db: Store, sellerId: Option<int>): (r: Result<seq<OrderItem>>)
    reads db
    requires db.Valid()
    ensures !TruthyInt(sellerId) ==> r == Err(SalesPrefix + SellerIdRequired)
    ensures TruthyInt(sellerId) ==>
      (r.Ok? <==> exists x :: InTable(db.orderItems, x) && SoldBy(db.products, x, sellerId.value))
    ensures TruthyInt(sellerId) && r.Err? ==> r.message == SalesPrefix + NoSales
    ensures r.Ok? ==> forall x :: x in r.value <==> InTable(db.orderItems, x) && SoldBy(db.products, x, sellerId.value)
  {
    if !TruthyInt(sellerId) then Err(SalesPrefix + SellerIdRequired)
    else
      var products := db.products;
      var sales := Where(db.orderItems, db.nextId, (x: OrderItem) => SoldBy(products, x, sellerId.value));
      assert |sales| > 0 ==> sales[0] in sales;
      if |sales| == 0 then Err(SalesPrefix + NoSales) else Ok(sales)
  }

  function CreatedAt(o: Order): int {
    o.createdAt
  }

  /** getOrderByClientId: every order of the client, newest first; none is not an error. */
  function GetOrderByClientId(db: Store, clientId: Option<int>): (r: Result<seq<Order>>)
    reads db
    requires db.Valid()
    ensures !TruthyInt(clientId) ==> r == Err(ClientOrdersPrefix + ClientIdRequired)
    ensures TruthyInt(clientId) ==> r.Ok?
    ensures r.Ok? ==> forall o :: o in r.value <==> InTable(db.orders, o) && o.clientId == clientId.value
    ensures r.Ok? ==> SortedDesc(r.value, CreatedAt)
    ensures r.Ok? ==> multiset(r.value) == multiset(Where(db.orders, db.nextId, (o: Order) => o.clientId == clientId.value))
  {
    if !TruthyInt(clientId) then Err(ClientOrdersPrefix + ClientIdRequired)
    else
      var mine := Where(db.orders, db.nextId, (o: Order) => o.clientId == clientId.value);
      SortDescCorrect(mine, CreatedAt);
      assert forall o :: o in SortDesc(mine, CreatedAt) <==> o in multiset(SortDesc(mine, CreatedAt));
      assert forall o :: o in mine <==> o in multiset(mine);
      Ok(SortDesc(mine, CreatedAt))
  }

  /** An order with the patch's defined columns overwritten; the id never changes. */
  function ApplyOrderPatch(o: Order, p: OrderPatch): (r: Order)
    ensures r.id == o.id
    ensures r.clientId == p.clientId.GetOr(o.clientId) && r.addressId == p.addressId.GetOr(o.addressId)
    ensures r.totalAmount == (if p.totalAmount.Some? then p.totalAmount else o.totalAmount)
    ensures r.status == (if p.status.Some? then p.status else o.status)
    ensures r.isGuest == (if p.isGuest.Some? then p.isGuest else o.isGuest)
    ensures r.email == p.email.GetOr(o.email) && r.phone == p.phone.GetOr(o.phone)
    ensures r.createdAt == p.createdAt.GetOr(o.createdAt)
  {
    Order(o.id, p.clientId.GetOr(o.clientId), p.addressId.GetOr(o.addressId),
          if p.totalAmount.Some? then p.totalAmount else o.totalAmount,
          if p.status.Some? then p.status else o.status,
          if p.isGuest.Some? then p.isGuest else o.isGuest,
          p.email.GetOr(o.email), p.phone.GetOr(o.phone), p.createdAt.GetOr(o.createdAt))
  }

  /** editStatusOrder: an order id is required and the caller must have a
      seller profile; then the order's other body fields are written. No
      check ties the seller to the order. */
  method EditStatusOrder(db: Store, userId: int, id: Option<int>, fields: OrderPatch) returns (r: Result<Order>)
    requires db.Valid()
    modifies db`orders
    ensures db.Valid()
    ensures r.Err? ==> StartsWith(r.message, StatusPrefix) && db.orders == old(db.orders)
    ensures !TruthyInt(id) ==> r == Err(StatusPrefix + OrderIdRequired)
    ensures TruthyInt(id) && db.SellerOfUser(userId).None? ==> r == Err(StatusPrefix + SellerNotFound)
    ensures TruthyInt(id) && db.SellerOfUser(userId).Some? && id.value !in old(db.orders) ==>
      r == Err(StatusPrefix + UpdateNotFound)
    ensures TruthyInt(id) && db.SellerOfUser(userId).Some? && id.value in old(db.orders) ==>
      && r == Ok(ApplyOrderPatch(old(db.orders)[id.value], fields))
      && db.orders == old(db.orders)[id.value := r.value]
  {
    if !TruthyInt(id) {
      PrefixConcat(StatusPrefix, OrderIdRequired);
      return Err(StatusPrefix + OrderIdRequired);
    }
    if db.SellerOfUser(userId).None? {
      PrefixConcat(StatusPrefix, SellerNotFound);
      return Err(StatusPrefix + SellerNotFound);
    }
    if id.value !in db.orders {
      PrefixConcat(StatusPrefix, UpdateNotFound);
      return Err(StatusPrefix + UpdateNotFound);
    }
    var updated := ApplyOrderPatch(db.orders[id.value], fields);
    db.orders := db.orders[id.value := updated];
    r := Ok(updated);
  }
}
