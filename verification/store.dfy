/**
  The route handlers of the API as pure operations on a three-table store.

  Each table maps a row id to its record. A handler takes the store and an
  already validated body and yields a `Step`: the response it sends and the
  store as it is afterwards. Ids the database assigns on insert are a `newId`
  parameter (any key not yet in the table), and the one-way password hash is
  the parameter `hash`. Path ids are plain integers, as a negative one can be
  requested; no row has one.
*/
module Store {
  import opened DataModel

  datatype Store = Store(users: map<nat, User>, products: map<nat, Product>, orders: map<nat, Order>)

  datatype Entity = UserEntity | ProductEntity | OrderEntity

  /** The two reasons for a 409 answer. */
  datatype ConflictReason =
    | Absent(entity: Entity, id: int)  // "<Entity> with id '<id>' not exist"
    | Referenced(entity: Entity)       // "... delete Orders first"

  /** The answer to a request: a body, a 404, a 409, or a refused body (422). */
  datatype Response<+T> =
    | Ok(value: T)
    | NotFound(entity: Entity, id: int)  // "<Entity> with id '<id>' not found"
    | Conflict(reason: ConflictReason)
    | Invalid(violations: seq<Violation>)

  /** The body of a successful delete: {"message": "<Entity> deleted"}. */
  datatype Deleted = Deleted(entity: Entity)

  datatype Step<+T> = Step(response: Response<T>, store: Store)

  /** True when some order refers to user `id`. */
  predicate HasOrdersOfUser(orders: map<nat, Order>, id: int) {
    exists k | k in orders :: orders[k].userId == id
  }

  /** True when some order refers to product `id`. */
  predicate HasOrdersOfProduct(orders: map<nat, Order>, id: int) {
    exists k | k in orders :: orders[k].productId == id
  }

  /** `fetch_all` on a table: every row once, in an order the database picks.
      The ghost `ids` says which row each element is. */
  method ListAll<T>(table: map<nat, T>) returns (rows: seq<T>, ghost ids: seq<nat>)
    ensures |rows| == |ids| == |table|
    ensures forall i :: 0 <= i < |ids| ==> ids[i] in table && rows[i] == table[ids[i]]
    ensures forall i, j :: 0 <= i < j < |ids| ==> ids[i] != ids[j]
    ensures forall k :: k in table ==> k in ids
    ensures forall k :: k in table ==> table[k] in rows
  {
    rows, ids := [], [];
    var left := table.Keys;
    while left != {}
      invariant left <= table.Keys
      invariant |rows| == |ids| && |ids| + |left| == |table.Keys|
      invariant forall i :: 0 <= i < |ids| ==> ids[i] in table && ids[i] !in left && rows[i] == table[ids[i]]
      invariant forall i, j :: 0 <= i < j < |ids| ==> ids[i] != ids[j]
      invariant forall k :: k in table && k !in left ==> k in ids
      decreases left
    {
      var k :| k in left;
      rows, ids := rows + [table[k]], ids + [k];
      left := left - {k};
    }
    assert |table.Keys| == |table|;
    forall k | k in table
      ensures table[k] in rows
    {
      var i :| 0 <= i < |ids| && ids[i] == k;
      assert rows[i] == table[k];
    }
  }

  /** `fetch_one` by primary key. */
  function Lookup<T>(table: map<nat, T>, entity: Entity, id: int): (r: Response<T>)
    ensures r.Ok? <==> id in table
    ensures r.Ok? ==> r.value == table[id]
    ensures !r.Ok? ==> r == NotFound(entity, id)
  {
    if id in table then Ok(table[id]) else NotFound(entity, id)
  }

  function GetUser(s: Store, id: int): (r: Step<User>)
    ensures r.store == s
    ensures r.response == Lookup(s.users, UserEntity, id)
  {
    Step(Lookup(s.users, UserEntity, id), s)
  }

  function GetProduct(s: Store, id: int): (r: Step<Product>)
    ensures r.store == s
    ensures r.response == Lookup(s.products, ProductEntity, id)
  {
    Step(Lookup(s.products, ProductEntity, id), s)
  }

  function GetOrder(s: Store, id: int): (r: Step<Order>)
    ensures r.store == s
    ensures r.response == Lookup(s.orders, OrderEntity, id)
  {
    Step(Lookup(s.orders, OrderEntity, id), s)
  }

  /** POST /user/: the body id is dropped, the password is replaced by its
      hash, the row is inserted under `newId`, and the stored row is returned. */
  function CreateUser(s: Store, user: User, hash: string -> string, newId: nat): (r: Step<User>)
    requires newId !in s.users
    ensures r.response.Ok?
    ensures var u := r.response.value;
      && u.id == newId
      && u.password == hash(user.password)
      && u.(id := user.id, password := user.password) == user
      && r.store.users == s.users[newId := u]
    ensures r.store.products == s.products && r.store.orders == s.orders
  {
    var row := user.(id := newId, password := hash(user.password));
    Step(Ok(row), s.(users := s.users[newId := row]))
  }

  /** POST /product/: the body id is dropped and the row inserted under `newId`. */
  function CreateProduct(s: Store, product: Product, newId: nat): (r: Step<Product>)
    requires newId !in s.products
    ensures r.response.Ok?
    ensures var p := r.response.value;
      && p.id == newId
      && p.(id := product.id) == product
      && r.store.products == s.products[newId := p]
    ensures r.store.users == s.users && r.store.orders == s.orders
  {
    var row := product.(id := newId);
    Step(Ok(row), s.(products := s.products[newId := row]))
  }

  /** POST /order/: both references are looked up, the user's first; a missing
      one is a conflict and nothing is inserted. */
  function CreateOrder(s: Store, order: Order, newId: nat): (r: Step<Order>)
    requires newId !in s.orders
    ensures order.userId !in s.users ==>
      r == Step(Conflict(Absent(UserEntity, order.userId)), s)
    ensures order.userId in s.users && order.productId !in s.products ==>
      r == Step(Conflict(Absent(ProductEntity, order.productId)), s)
    ensures r.response.Ok? <==> order.userId in s.users && order.productId in s.products
    ensures r.response.Ok? ==> var o := r.response.value;
      && o.id == newId
      && o.(id := order.id) == order
      && r.store == s.(orders := s.orders[newId := o])
  {
    if order.userId !in s.users then
      Step(Conflict(Absent(UserEntity, order.userId)), s)
    else if order.productId !in s.products then
      Step(Conflict(Absent(ProductEntity, order.productId)), s)
    else
      var row := order.(id := newId);
      Step(Ok(row), s.(orders := s.orders[newId := row]))
  }

  /** PUT /user/{id}: a full replacement under the path id, password hashed. */
  function UpdateUser(s: Store, id: int, user: User, hash: string -> string): (r: Step<User>)
    ensures id !in s.users ==> r == Step(NotFound(UserEntity, id), s)
    ensures id in s.users ==> r.response.Ok?
    ensures r.response.Ok? ==> var u := r.response.value;
      && u.id == id
      && u.password == hash(user.password)
      && u.(id := user.id, password := user.password) == user
      && r.store.users.Keys == s.users.Keys
      && r.store.users[id] == u
    ensures forall k :: k in s.users && k != id ==> r.store.users[k] == s.users[k]
    ensures r.store.products == s.products && r.store.orders == s.orders
  {
    if id !in s.users then
      Step(NotFound(UserEntity, id), s)
    else
      var row := user.(id := id, password := hash(user.password));
      Step(Ok(row), s.(users := s.users[id := row]))
  }

  /** PUT /product/{id}: a full replacement under the path id. */
  function UpdateProduct(s: Store, id: int, product: Product): (r: Step<Product>)
    ensures id !in s.products ==> r == Step(NotFound(ProductEntity, id), s)
    ensures id in s.products ==> r.response.Ok?
    ensures r.response.Ok? ==> var p := r.response.value;
      && p.id == id
      && p.(id := product.id) == product
      && r.store.products.Keys == s.products.Keys
      && r.store.products[id] == p
    ensures forall k :: k in s.products && k != id ==> r.store.products[k] == s.products[k]
    ensures r.store.users == s.users && r.store.orders == s.orders
  {
    if id !in s.products then
      Step(NotFound(ProductEntity, id), s)
    else
      var row := product.(id := id);
      Step(Ok(row), s.(products := s.products[id := row]))
  }

  /** The replacement of order `id` by `order`, shared by both update variants. */
  function ReplaceOrder(s: Store, id: nat, order: Order): (r: Step<Order>)
    requires id in s.orders
    ensures r.response.Ok? && r.response.value == order.(id := id)
    ensures r.store.orders.Keys == s.orders.Keys && r.store.orders[id] == order.(id := id)
    ensures forall k :: k in s.orders && k != id ==> r.store.orders[k] == s.orders[k]
    ensures r.store.users == s.users && r.store.products == s.products
  {
    var row := order.(id := id);
    Step(Ok(row), s.(orders := s.orders[id := row]))
  }

  /** PUT /order/{id} as written: the references checked are those of the
      order ALREADY STORED under `id`; the new body's references are not
      looked at. */
  function UpdateOrder(s: Store, id: int, order: Order): (r: Step<Order>)
    ensures id !in s.orders ==> r == Step(NotFound(OrderEntity, id), s)
    ensures id in s.orders ==> var cur := s.orders[id];
      && (cur.userId !in s.users ==> r == Step(Conflict(Absent(UserEntity, cur.userId)), s))
      && (cur.userId in s.users && cur.productId !in s.products ==>
            r == Step(Conflict(Absent(ProductEntity, cur.productId)), s))
      && (cur.userId in s.users && cur.productId in s.products ==> r == ReplaceOrder(s, id, order))
  {
    if id !in s.orders then
      Step(NotFound(OrderEntity, id), s)
    else
      var cur := s.orders[id];
      if cur.userId !in s.users then
        Step(Conflict(Absent(UserEntity, cur.userId)), s)
      else if cur.productId !in s.products then
        Step(Conflict(Absent(ProductEntity, cur.productId)), s)
      else
        ReplaceOrder(s, id, order)
  }

  /** PUT /order/{id} with the check the API promises: the NEW order's
      references must exist. */
  function UpdateOrderChecked(s: Store, id: int, order: Order): (r: Step<Order>)
    ensures id !in s.orders ==> r == Step(NotFound(OrderEntity, id), s)
    ensures id in s.orders ==>
      && (order.userId !in s.users ==> r == Step(Conflict(Absent(UserEntity, order.userId)), s))
      && (order.userId in s.users && order.productId !in s.products ==>
            r == Step(Conflict(Absent(ProductEntity, order.productId)), s))
      && (order.userId in s.users && order.productId in s.products ==> r == ReplaceOrder(s, id, order))
  {
    if id !in s.orders then
      Step(NotFound(OrderEntity, id), s)
    else if order.userId !in s.users then
      Step(Conflict(Absent(UserEntity, order.userId)), s)
    else if order.productId !in s.products then
      Step(Conflict(Absent(ProductEntity, order.productId)), s)
    else
      ReplaceOrder(s, id, order)
  }

  /** DELETE /user/{id}: refused while an order refers to the user; otherwise
      the row goes, and an absent id is no error. */
  function DeleteUser(s: Store, id: int): (r: Step<Deleted>)
    ensures (exists k :: k in s.orders && s.orders[k].userId == id) ==>
      r == Step(Conflict(Referenced(UserEntity)), s)
    ensures (forall k :: k in s.orders ==> s.orders[k].userId != id) ==>
      && r.response == Ok(Deleted(UserEntity))
      && r.store.users.Keys == s.users.Keys - {id}
      && (forall k :: k in r.store.users ==> r.store.users[k] == s.users[k])
      && r.store.products == s.products && r.store.orders == s.orders
  {
    if HasOrdersOfUser(s.orders, id) then
      Step(Conflict(Referenced(UserEntity)), s)
    else
      Step(Ok(Deleted(UserEntity)), s.(users := s.users - {id}))
  }

  /** DELETE /product/{id}: refused while an order refers to the product;
      otherwise the row goes, and an absent id is no error. */
  function DeleteProduct(s: Store, id: int): (r: Step<Deleted>)
    ensures (exists k :: k in s.orders && s.orders[k].productId == id) ==>
      r == Step(Conflict(Referenced(ProductEntity)), s)
    ensures (forall k :: k in s.orders ==> s.orders[k].productId != id) ==>
      && r.response == Ok(Deleted(ProductEntity))
      && r.store.products.Keys == s.products.Keys - {id}
      && (forall k :: k in r.store.products ==> r.store.products[k] == s.products[k])
      && r.store.users == s.users && r.store.orders == s.orders
  {
    if HasOrdersOfProduct(s.orders, id) then
      Step(Conflict(Referenced(ProductEntity)), s)
    else
      Step(Ok(Deleted(ProductEntity)), s.(products := s.products - {id}))
  }

  /** DELETE /order/{id}: unconditional; an absent id is no error. */
  function DeleteOrder(s: Store, id: int): (r: Step<Deleted>)
    ensures r.response == Ok(Deleted(OrderEntity))
    ensures r.store.orders.Keys == s.orders.Keys - {id}
    ensures forall k :: k in r.store.orders ==> r.store.orders[k] == s.orders[k]
    ensures r.store.users == s.users && r.store.products == s.products
  {
    Step(Ok(Deleted(OrderEntity)), s.(orders := s.orders - {id}))
  }
}
