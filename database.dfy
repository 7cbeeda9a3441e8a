/** The relational store behind the services: one map per table, keyed by
    the row's auto-increment id. */
module Database {
  import opened Common

  /** A column value of a user row (user rows are handled field by field). */
  datatype Value = VStr(s: string) | VInt(i: int) | VBool(b: bool) | VNull

  /** A user row: column name to value; a missing key is an absent column. */
  type Row = map<string, Value>

  datatype Client = Client(id: int, userId: int)

  datatype Seller = Seller(id: int, userId: int)

  datatype Category = Category(id: int, name: string, description: Option<string>, updatedAt: int)

  /** A product; `price` is in cents. */
  datatype Product = Product(
    id: int, name: string, description: Option<string>, price: int, stock: int,
    imageUrl: Option<string>, sellerId: int, categoryId: int, createdAt: int)

  datatype Cart = Cart(id: int, clientId: int)

  datatype CartItem = CartItem(id: int, cartId: int, productId: int, quantity: int)

  datatype Address = Address(
    id: int, clientId: int, street: Option<string>, city: Option<string>,
    postalCode: Option<string>, country: Option<string>)

  /** An order; `email` and `phone` are copied from the client's user, or null. */
  datatype Order = Order(
    id: int, clientId: int, addressId: int, totalAmount: Option<int>, status: Option<string>,
    isGuest: Option<bool>, email: Value, phone: Value, createdAt: int)

  datatype OrderItem = OrderItem(id: int, orderId: int, productId: int, quantity: int, unitPrice: int)

  /** The keys of a table are ids handed out so far: 1 <= id < next. */
  ghost predicate KeysBelow<T>(m: map<int, T>, next: int) {
    forall k :: k in m ==> 1 <= k < next
  }

  /** The rows of a table, in ascending id order (the order `findMany` is
      taken to return them in when no `orderBy` is given). */
  function Rows<T>(m: map<int, T>, next: int): seq<T> {
    RowsFrom(m, 1, next)
  }

  /** `x` is a row of table `m`. */
  ghost predicate InTable<T(!new)>(m: map<int, T>, x: T) {
    exists k :: k in m && m[k] == x
  }

  /** A table's row list holds exactly its rows. */
  lemma RowsAreTable<T(!new)>(m: map<int, T>, next: int)
    requires KeysBelow(m, next)
    ensures forall x :: x in Rows(m, next) <==> InTable(m, x)
  {
    forall x ensures x in Rows(m, next) <==> InTable(m, x) {
      RowsFromMembership(m, 1, next, x);
    }
  }

  /** The rows of a table that satisfy a `where` filter, in ascending id order. */
  function Where<T(!new)>(m: map<int, T>, next: int, p: T -> bool): (r: seq<T>)
    requires KeysBelow(m, next)
    ensures forall x :: x in r <==> InTable(m, x) && p(x)
  {
    RowsAreTable(m, next);
    Filter(Rows(m, next), p)
  }

  /** The key `id` gives each element strictly grows along the list. */
  ghost predicate IdsAscend<T>(s: seq<T>, id: T -> int) {
    forall i, j :: 0 <= i < j < |s| ==> id(s[i]) < id(s[j])
  }

  /** A table whose rows carry their own keys lists them by ascending id,
      each at least `lo`. */
  lemma {:induction false} RowsFromAscend<T>(m: map<int, T>, lo: int, hi: int, id: T -> int)
    requires forall k :: k in m ==> id(m[k]) == k
    ensures IdsAscend(RowsFrom(m, lo, hi), id)
    ensures forall x :: x in RowsFrom(m, lo, hi) ==> lo <= id(x)
    decreases hi - lo
  {
    if lo < hi {
      RowsFromAscend(m, lo + 1, hi, id);
      if lo in m {
        var rest := RowsFrom(m, lo + 1, hi);
        var r := RowsFrom(m, lo, hi);
        assert r == [m[lo]] + rest;
        forall i, j | 0 <= i < j < |r| ensures id(r[i]) < id(r[j]) {
          assert r[j] == rest[j - 1];
          if i > 0 {
            assert r[i] == rest[i - 1];
          }
        }
      }
    }
  }

  /** Filtering keeps ascending ids ascending. */
  lemma {:induction false} FilterAscend<T(!new)>(s: seq<T>, p: T -> bool, id: T -> int)
    requires IdsAscend(s, id)
    ensures IdsAscend(Filter(s, p), id)
    decreases |s|
  {
    if |s| > 0 {
      var tail := s[1..];
      assert IdsAscend(tail, id) by {
        forall i, j | 0 <= i < j < |tail| ensures id(tail[i]) < id(tail[j]) {
          assert tail[i] == s[i + 1] && tail[j] == s[j + 1];
        }
      }
      FilterAscend(tail, p, id);
      if p(s[0]) {
        var rest := Filter(tail, p);
        var r := Filter(s, p);
        assert r == [s[0]] + rest;
        forall i, j | 0 <= i < j < |r| ensures id(r[i]) < id(r[j]) {
          assert r[j] == rest[j - 1];
          assert rest[j - 1] in tail;
          var k :| 0 <= k < |tail| && tail[k] == rest[j - 1];
          assert tail[k] == s[k + 1];
          if i > 0 {
            assert r[i] == rest[i - 1];
          }
        }
      }
    }
  }

  /** A `where` filter over such a table lists its rows by ascending id. */
  lemma WhereAscend<T(!new)>(m: map<int, T>, next: int, p: T -> bool, id: T -> int)
    requires KeysBelow(m, next)
    requires forall k :: k in m ==> id(m[k]) == k
    ensures IdsAscend(Where(m, next, p), id)
  {
    RowsAreTable(m, next);
    RowsFromAscend(m, 1, next, id);
    FilterAscend(Rows(m, next), p, id);
  }

  /** The message of the error a Prisma `update` raises when the row does not exist. */
  const UpdateNotFound := "Record to update not found."

  /** The message of the error a Prisma `delete` raises when the row does not exist. */
  const DeleteNotFound := "Record to delete does not exist."

  /** The value of column `key` of a user row, or `None` when it is absent (undefined). */
  function Column(row: Row, key: string): Option<Value> {
    if key in row then Some(row[key]) else None
  }

  class Store {
    var users: map<int, Row>
    var clients: map<int, Client>
    var sellers: map<int, Seller>
    var categories: map<int, Category>
    var products: map<int, Product>
    var carts: map<int, Cart>
    var cartItems: map<int, CartItem>
    var addresses: map<int, Address>
    var orders: map<int, Order>
    var orderItems: map<int, OrderItem>
    /** The next auto-increment id (one counter shared by all tables). */
    var nextId: int

    /** Every key is an id already handed out and equals the row's own id;
        the columns the services look up with `findUnique` are unique. */
    ghost predicate Valid()
      reads this
    {
      && nextId >= 1
      && KeysBelow(users, nextId) && KeysBelow(clients, nextId) && KeysBelow(sellers, nextId)
      && KeysBelow(categories, nextId) && KeysBelow(products, nextId) && KeysBelow(carts, nextId)
      && KeysBelow(cartItems, nextId) && KeysBelow(addresses, nextId) && KeysBelow(orders, nextId)
      && KeysBelow(orderItems, nextId)
      && (forall k :: k in users ==> "id" in users[k] && users[k]["id"] == VInt(k))
      && (forall k :: k in clients ==> clients[k].id == k)
      && (forall k :: k in sellers ==> sellers[k].id == k)
      && (forall k :: k in categories ==> categories[k].id == k)
      && (forall k :: k in products ==> products[k].id == k)
      && (forall k :: k in carts ==> carts[k].id == k)
      && (forall k :: k in cartItems ==> cartItems[k].id == k)
      && (forall k :: k in addresses ==> addresses[k].id == k)
      && (forall k :: k in orders ==> orders[k].id == k)
      && (forall k :: k in orderItems ==> orderItems[k].id == k)
      && (forall a, b :: a in clients && b in clients && clients[a].userId == clients[b].userId ==> a == b)
      && (forall a, b :: a in sellers && b in sellers && sellers[a].userId == sellers[b].userId ==> a == b)
      && EmailsUnique(users)
    }

    /** The empty database. */
    constructor ()
      ensures Valid() && nextId == 1
      ensures users == map[] && clients == map[] && sellers == map[] && categories == map[]
      ensures products == map[] && carts == map[] && cartItems == map[] && addresses == map[]
      ensures orders == map[] && orderItems == map[]
    {
      users, clients, sellers, categories, products := map[], map[], map[], map[], map[];
      carts, cartItems, addresses, orders, orderItems := map[], map[], map[], map[], map[];
      nextId := 1;
    }

    /** `prisma.client.findUnique({ where: { userId } })`. */
    function ClientOfUser(userId: int): (r: Option<Client>)
      reads this
      requires Valid()
      ensures r.Some? <==> exists k :: k in clients && clients[k].userId == userId
      ensures r.Some? ==> r.value.id in clients && clients[r.value.id] == r.value && r.value.userId == userId
    {
      if exists k | k in clients :: clients[k].userId == userId then
        var k :| k in clients && clients[k].userId == userId; Some(clients[k])
      else None
    }

    /** `prisma.seller.findUnique({ where: { userId } })`. */
    function SellerOfUser(userId: int): (r: Option<Seller>)
      reads this
      requires Valid()
      ensures r.Some? <==> exists k :: k in sellers && sellers[k].userId == userId
      ensures r.Some? ==> r.value.id in sellers && sellers[r.value.id] == r.value && r.value.userId == userId
    {
      if exists k | k in sellers :: sellers[k].userId == userId then
        var k :| k in sellers && sellers[k].userId == userId; Some(sellers[k])
      else None
    }

    /** `prisma.user.findUnique({ where: { email } })`: the id of the user with that email. */
    function UserWithEmail(email: string): (r: Option<int>)
      reads this
      requires Valid()
      ensures r.Some? <==> exists k :: k in users && HasEmail(users[k], email)
      ensures r.Some? ==> r.value in users && HasEmail(users[r.value], email)
    {
      if exists k | k in users :: HasEmail(users[k], email) then
        var k :| k in users && HasEmail(users[k], email); Some(k)
      else None
    }
  }

  predicate HasEmail(row: Row, email: string) {
    "email" in row && row["email"] == VStr(email)
  }

  /** The unique constraint on the email column (NULLs and absent columns do not collide). */
  ghost predicate EmailsUnique(users: map<int, Row>) {
    forall a, b, e :: a in users && b in users && HasEmail(users[a], e) && HasEmail(users[b], e) ==> a == b
  }
}
