/**
  Referential integrity of the store and what each handler does to it.

  `Consistent` is the invariant the API describes: every row's id is its key,
  and every order refers to a user and a product that exist. Every handler
  keeps it except `UpdateOrder`, which checks the references of the order it
  is about to overwrite instead of those of the new body; `UpdateOrderChecked`
  makes the check the API describes and keeps it.
*/
module Integrity {
  import opened DataModel
  import opened Store

  /** Each stored row carries the id it is stored under. */
  ghost predicate IdsMatchKeys(s: Store) {
    && (forall k :: k in s.users ==> s.users[k].id == k)
    && (forall k :: k in s.products ==> s.products[k].id == k)
    && (forall k :: k in s.orders ==> s.orders[k].id == k)
  }

  /** Every order refers to an existing user and an existing product. */
  ghost predicate Referential(s: Store) {
    forall k :: k in s.orders ==> s.orders[k].userId in s.users && s.orders[k].productId in s.products
  }

  ghost predicate Consistent(s: Store) {
    IdsMatchKeys(s) && Referential(s)
  }

  // Preservation, one lemma per mutating handler.

  lemma CreateUserPreserves(s: Store, user: User, hash: string -> string, newId: nat)
    requires Consistent(s) && newId !in s.users
    ensures Consistent(CreateUser(s, user, hash, newId).store)
  {
  }

  lemma CreateProductPreserves(s: Store, product: Product, newId: nat)
    requires Consistent(s) && newId !in s.products
    ensures Consistent(CreateProduct(s, product, newId).store)
  {
  }

  lemma CreateOrderPreserves(s: Store, order: Order, newId: nat)
    requires Consistent(s) && newId !in s.orders
    ensures Consistent(CreateOrder(s, order, newId).store)
  {
  }

  lemma UpdateUserPreserves(s: Store, id: int, user: User, hash: string -> string)
    requires Consistent(s)
    ensures Consistent(UpdateUser(s, id, user, hash).store)
  {
  }

  lemma UpdateProductPreserves(s: Store, id: int, product: Product)
    requires Consistent(s)
    ensures Consistent(UpdateProduct(s, id, product).store)
  {
  }

  lemma UpdateOrderCheckedPreserves(s: Store, id: int, order: Order)
    requires Consistent(s)
    ensures Consistent(UpdateOrderChecked(s, id, order).store)
  {
  }

  lemma DeleteUserPreserves(s: Store, id: int)
    requires Consistent(s)
    ensures Consistent(DeleteUser(s, id).store)
  {
    if !HasOrdersOfUser(s.orders, id) {
      var t := DeleteUser(s, id).store;
      forall k | k in t.orders
        ensures t.orders[k].userId in t.users
      {
        assert t.orders[k] == s.orders[k];
      }
    }
  }

  lemma DeleteProductPreserves(s: Store, id: int)
    requires Consistent(s)
    ensures Consistent(DeleteProduct(s, id).store)
  {
    if !HasOrdersOfProduct(s.orders, id) {
      var t := DeleteProduct(s, id).store;
      forall k | k in t.orders
        ensures t.orders[k].productId in t.products
      {
        assert t.orders[k] == s.orders[k];
      }
    }
  }

  lemma DeleteOrderPreserves(s: Store, id: int)
    requires Consistent(s)
    ensures Consistent(DeleteOrder(s, id).store)
  {
  }

  // The update of an order as written.

  /** It still keeps ids equal to keys. */
  lemma UpdateOrderKeepsIds(s: Store, id: int, order: Order)
    requires IdsMatchKeys(s)
    ensures IdsMatchKeys(UpdateOrder(s, id, order).store)
  {
  }

  /** On a consistent store its reference check can never fail: the order it
      inspects is one the invariant already vouches for. */
  lemma UpdateOrderCheckIsVacuous(s: Store, id: int, order: Order)
    requires Consistent(s)
    ensures UpdateOrder(s, id, order).response.Ok? <==> id in s.orders
  {
  }

  /** Any existing order can be pointed at a user or product that does not
      exist: the update succeeds and the store is no longer consistent. */
  lemma UpdateOrderBreaksReferential(s: Store, id: int, order: Order)
    requires Consistent(s) && id in s.orders
    requires order.userId !in s.users || order.productId !in s.products
    ensures UpdateOrder(s, id, order).response.Ok?
    ensures !Referential(UpdateOrder(s, id, order).store)
  {
    var t := UpdateOrder(s, id, order).store;
    assert t.orders[id] == order.(id := id);
  }

  /** A concrete instance: user 1, product 1 and order 1 between them; the
      order is then updated to refer to user 2, which does not exist. */
  lemma UpdateOrderCounterexample()
    ensures var s := Store(
        map[1 := User(1, "Ann", "Lee", "ann@x.io", "secret")],
        map[1 := Product(1, "Widget", "A widget", 9.99)],
        map[1 := Order(1, 1, 1, Timestamp(0), false)]);
      var r := UpdateOrder(s, 1, Order(0, 2, 1, Timestamp(0), false));
      && Consistent(s)
      && r.response == Ok(Order(1, 2, 1, Timestamp(0), false))
      && !Consistent(r.store)
  {
    var s := Store(
      map[1 := User(1, "Ann", "Lee", "ann@x.io", "secret")],
      map[1 := Product(1, "Widget", "A widget", 9.99)],
      map[1 := Order(1, 1, 1, Timestamp(0), false)]);
    UpdateOrderBreaksReferential(s, 1, Order(0, 2, 1, Timestamp(0), false));
  }

  /** The checked update refuses exactly those bodies the as-written one lets
      break the invariant. */
  lemma UpdateOrderCheckedRefusesDangling(s: Store, id: int, order: Order)
    requires Consistent(s) && id in s.orders
    ensures UpdateOrderChecked(s, id, order).response.Ok?
      <==> order.userId in s.users && order.productId in s.products
    ensures !UpdateOrderChecked(s, id, order).response.Ok? ==>
      UpdateOrderChecked(s, id, order).store == s
  {
  }

  // Round trips through the read handlers.

  /** A created user is read back under the returned id, hashed password and all. */
  lemma CreateThenGetUser(s: Store, user: User, hash: string -> string, newId: nat)
    requires newId !in s.users
    ensures var r := CreateUser(s, user, hash, newId);
      GetUser(r.store, r.response.value.id).response
        == Ok(User(newId, user.name, user.surname, user.email, hash(user.password)))
  {
  }

  lemma CreateThenGetProduct(s: Store, product: Product, newId: nat)
    requires newId !in s.products
    ensures var r := CreateProduct(s, product, newId);
      GetProduct(r.store, r.response.value.id).response
        == Ok(Product(newId, product.name, product.description, product.cost))
  {
  }

  lemma CreateThenGetOrder(s: Store, order: Order, newId: nat)
    requires newId !in s.orders
    requires order.userId in s.users && order.productId in s.products
    ensures var r := CreateOrder(s, order, newId);
      GetOrder(r.store, r.response.value.id).response
        == Ok(Order(newId, order.userId, order.productId, order.date, order.status))
  {
  }

  /** A refused order leaves nothing behind: the table is as before. */
  lemma CreateOrderConflictInsertsNothing(s: Store, order: Order, newId: nat)
    requires newId !in s.orders
    requires order.userId !in s.users || order.productId !in s.products
    ensures CreateOrder(s, order, newId).response.Conflict?
    ensures GetOrder(CreateOrder(s, order, newId).store, newId).response == NotFound(OrderEntity, newId)
  {
  }

  /** After a PUT the path id reads back the new body under that id, whatever
      id the body carried. */
  lemma UpdateThenGetUser(s: Store, id: int, user: User, hash: string -> string)
    requires id in s.users
    ensures GetUser(UpdateUser(s, id, user, hash).store, id).response
      == Ok(User(id, user.name, user.surname, user.email, hash(user.password)))
  {
  }

  lemma UpdateThenGetProduct(s: Store, id: int, product: Product)
    requires id in s.products
    ensures GetProduct(UpdateProduct(s, id, product).store, id).response
      == Ok(Product(id, product.name, product.description, product.cost))
  {
  }

  /** A user no order refers to is gone after its delete. */
  lemma DeleteThenGetUser(s: Store, id: int)
    requires forall k :: k in s.orders ==> s.orders[k].userId != id
    ensures DeleteUser(s, id).response.Ok?
    ensures GetUser(DeleteUser(s, id).store, id).response == NotFound(UserEntity, id)
  {
  }

  /** A product no order refers to is gone after its delete. */
  lemma DeleteThenGetProduct(s: Store, id: int)
    requires forall k :: k in s.orders ==> s.orders[k].productId != id
    ensures DeleteProduct(s, id).response.Ok?
    ensures GetProduct(DeleteProduct(s, id).store, id).response == NotFound(ProductEntity, id)
  {
  }

  /** A user some order refers to survives its delete and still reads back. */
  lemma DeleteReferencedUserKept(s: Store, id: int, k: nat)
    requires k in s.orders && s.orders[k].userId == id
    ensures DeleteUser(s, id).response == Conflict(Referenced(UserEntity))
    ensures GetUser(DeleteUser(s, id).store, id) == GetUser(s, id)
  {
  }

  /** A product some order refers to survives its delete and still reads back. */
  lemma DeleteReferencedProductKept(s: Store, id: int, k: nat)
    requires k in s.orders && s.orders[k].productId == id
    ensures DeleteProduct(s, id).response == Conflict(Referenced(ProductEntity))
    ensures GetProduct(DeleteProduct(s, id).store, id) == GetProduct(s, id)
  {
  }

  /** An order is gone after its delete, whether or not it existed. */
  lemma DeleteThenGetOrder(s: Store, id: int)
    ensures GetOrder(DeleteOrder(s, id).store, id).response == NotFound(OrderEntity, id)
  {
  }

  /** On an empty store: a product is created under id 1, then an order for
      user 1 and product 1 is refused, naming the missing user. */
  lemma OrderForMissingUser()
    ensures var s0 := Store(map[], map[], map[]);
      var p := CreateProduct(s0, Product(0, "Widget", "A widget", 9.99), 1);
      && p.response == Ok(Product(1, "Widget", "A widget", 9.99))
      && CreateOrder(p.store, Order(0, 1, 1, Timestamp(0), false), 1)
           == Step(Conflict(Absent(UserEntity, 1)), p.store)
  {
  }
}
