/**
  Whole requests: the body is validated against its schema first, and only a
  valid body reaches the handler. A refused body answers `Invalid` and never
  touches the store.

  Stored rows keep satisfying their schemas. For users this rests on the
  hash: a SHA-256 hex digest is 64 characters long, within the 6..64 bound
  on passwords, so a user read back still validates.
*/
module Routes {
  import opened Wrappers
  import opened DataModel
  import opened Store
  import opened Integrity

  /** The shape of `sha256(...).hexdigest()`: always 64 characters. */
  ghost predicate HexDigestLength(hash: string -> string) {
    forall p :: |hash(p)| == 64
  }

  /** Every stored row satisfies its schema. */
  ghost predicate RecordsValid(s: Store) {
    && (forall k :: k in s.users ==> s.users[k].Valid())
    && (forall k :: k in s.products ==> s.products[k].Valid())
    && (forall k :: k in s.orders ==> s.orders[k].Valid())
  }

  function PostUser(s: Store, body: UserPayload, hash: string -> string, newId: nat): (r: Step<User>)
    requires newId !in s.users
    ensures r.response.Invalid? <==> ParseUser(body).Failure?
    ensures r.response.Invalid? ==> r.store == s && r.response.violations != []
    ensures !r.response.Invalid? ==> r == CreateUser(s, ParseUser(body).value, hash, newId)
  {
    match ParseUser(body)
    case Failure(e) => Step(Invalid(e), s)
    case Success(u) => CreateUser(s, u, hash, newId)
  }

  function PutUser(s: Store, id: int, body: UserPayload, hash: string -> string): (r: Step<User>)
    ensures r.response.Invalid? <==> ParseUser(body).Failure?
    ensures r.response.Invalid? ==> r.store == s && r.response.violations != []
    ensures !r.response.Invalid? ==> r == UpdateUser(s, id, ParseUser(body).value, hash)
  {
    match ParseUser(body)
    case Failure(e) => Step(Invalid(e), s)
    case Success(u) => UpdateUser(s, id, u, hash)
  }

  function PostProduct(s: Store, body: ProductPayload, newId: nat): (r: Step<Product>)
    requires newId !in s.products
    ensures r.response.Invalid? <==> ParseProduct(body).Failure?
    ensures r.response.Invalid? ==> r.store == s && r.response.violations != []
    ensures !r.response.Invalid? ==> r == CreateProduct(s, ParseProduct(body).value, newId)
  {
    match ParseProduct(body)
    case Failure(e) => Step(Invalid(e), s)
    case Success(p) => CreateProduct(s, p, newId)
  }

  function PutProduct(s: Store, id: int, body: ProductPayload): (r: Step<Product>)
    ensures r.response.Invalid? <==> ParseProduct(body).Failure?
    ensures r.response.Invalid? ==> r.store == s && r.response.violations != []
    ensures !r.response.Invalid? ==> r == UpdateProduct(s, id, ParseProduct(body).value)
  {
    match ParseProduct(body)
    case Failure(e) => Step(Invalid(e), s)
    case Success(p) => UpdateProduct(s, id, p)
  }

  /** POST /order/; `now` is the clock reading used for a missing `date`. */
  function PostOrder(s: Store, body: OrderPayload, now: Timestamp, newId: nat): (r: Step<Order>)
    requires newId !in s.orders
    ensures r.response.Invalid? <==> ParseOrder(body, now).Failure?
    ensures r.response.Invalid? ==> r.store == s && r.response.violations != []
    ensures !r.response.Invalid? ==> r == CreateOrder(s, ParseOrder(body, now).value, newId)
  {
    match ParseOrder(body, now)
    case Failure(e) => Step(Invalid(e), s)
    case Success(o) => CreateOrder(s, o, newId)
  }

  /** PUT /order/{id}, with the handler as written. */
  function PutOrder(s: Store, id: int, body: OrderPayload, now: Timestamp): (r: Step<Order>)
    ensures r.response.Invalid? <==> ParseOrder(body, now).Failure?
    ensures r.response.Invalid? ==> r.store == s && r.response.violations != []
    ensures !r.response.Invalid? ==> r == UpdateOrder(s, id, ParseOrder(body, now).value)
  {
    match ParseOrder(body, now)
    case Failure(e) => Step(Invalid(e), s)
    case Success(o) => UpdateOrder(s, id, o)
  }

  /** PUT /order/{id}, with the reference check made on the new body. */
  function PutOrderChecked(s: Store, id: int, body: OrderPayload, now: Timestamp): (r: Step<Order>)
    ensures r.response.Invalid? <==> ParseOrder(body, now).Failure?
    ensures r.response.Invalid? ==> r.store == s && r.response.violations != []
    ensures !r.response.Invalid? ==> r == UpdateOrderChecked(s, id, ParseOrder(body, now).value)
  {
    match ParseOrder(body, now)
    case Failure(e) => Step(Invalid(e), s)
    case Success(o) => UpdateOrderChecked(s, id, o)
  }

  /** A stored user keeps its schema, the hashed password included. */
  lemma PostUserKeepsRecordsValid(s: Store, body: UserPayload, hash: string -> string, newId: nat)
    requires RecordsValid(s) && HexDigestLength(hash) && newId !in s.users
    ensures RecordsValid(PostUser(s, body, hash, newId).store)
  {
    if ParseUser(body).Success? {
      var u := ParseUser(body).value;
      assert |hash(u.password)| == 64;
    }
  }

  lemma PutUserKeepsRecordsValid(s: Store, id: int, body: UserPayload, hash: string -> string)
    requires RecordsValid(s) && HexDigestLength(hash)
    ensures RecordsValid(PutUser(s, id, body, hash).store)
  {
    if ParseUser(body).Success? {
      var u := ParseUser(body).value;
      assert |hash(u.password)| == 64;
    }
  }

  lemma PostProductKeepsRecordsValid(s: Store, body: ProductPayload, newId: nat)
    requires RecordsValid(s) && newId !in s.products
    ensures RecordsValid(PostProduct(s, body, newId).store)
  {
  }

  lemma PutProductKeepsRecordsValid(s: Store, id: int, body: ProductPayload)
    requires RecordsValid(s)
    ensures RecordsValid(PutProduct(s, id, body).store)
  {
  }

  lemma PostOrderKeepsRecordsValid(s: Store, body: OrderPayload, now: Timestamp, newId: nat)
    requires RecordsValid(s) && newId !in s.orders
    ensures RecordsValid(PostOrder(s, body, now, newId).store)
  {
  }

  lemma PutOrderKeepsRecordsValid(s: Store, id: int, body: OrderPayload, now: Timestamp)
    requires RecordsValid(s)
    ensures RecordsValid(PutOrder(s, id, body, now).store)
    ensures RecordsValid(PutOrderChecked(s, id, body, now).store)
  {
  }

  /** Deletes only remove rows, so what remains still validates. */
  lemma DeletesKeepRecordsValid(s: Store, id: int)
    requires RecordsValid(s)
    ensures RecordsValid(DeleteUser(s, id).store)
    ensures RecordsValid(DeleteProduct(s, id).store)
    ensures RecordsValid(DeleteOrder(s, id).store)
  {
  }

  /** The user routes keep the store consistent, body validation included. */
  lemma UserRoutesPreserveConsistency(s: Store, id: int, body: UserPayload, hash: string -> string, newId: nat)
    requires Consistent(s) && newId !in s.users
    ensures Consistent(PostUser(s, body, hash, newId).store)
    ensures Consistent(PutUser(s, id, body, hash).store)
    ensures Consistent(DeleteUser(s, id).store)
  {
    if ParseUser(body).Success? {
      CreateUserPreserves(s, ParseUser(body).value, hash, newId);
      UpdateUserPreserves(s, id, ParseUser(body).value, hash);
    }
    DeleteUserPreserves(s, id);
  }

  /** The product routes keep the store consistent, body validation included. */
  lemma ProductRoutesPreserveConsistency(s: Store, id: int, body: ProductPayload, newId: nat)
    requires Consistent(s) && newId !in s.products
    ensures Consistent(PostProduct(s, body, newId).store)
    ensures Consistent(PutProduct(s, id, body).store)
    ensures Consistent(DeleteProduct(s, id).store)
  {
    if ParseProduct(body).Success? {
      CreateProductPreserves(s, ParseProduct(body).value, newId);
      UpdateProductPreserves(s, id, ParseProduct(body).value);
    }
    DeleteProductPreserves(s, id);
  }

  /** The order routes keep the store consistent, body validation included,
      once PUT /order/{id} checks the new body's references. */
  lemma OrderRoutesPreserveConsistency(s: Store, id: int, body: OrderPayload, now: Timestamp, newId: nat)
    requires Consistent(s) && newId !in s.orders
    ensures Consistent(PostOrder(s, body, now, newId).store)
    ensures Consistent(PutOrderChecked(s, id, body, now).store)
    ensures Consistent(DeleteOrder(s, id).store)
  {
    if ParseOrder(body, now).Success? {
      CreateOrderPreserves(s, ParseOrder(body, now).value, newId);
      UpdateOrderCheckedPreserves(s, id, ParseOrder(body, now).value);
    }
    DeleteOrderPreserves(s, id);
  }

  /** The same route as written does not: a valid body naming a missing user
      is stored. */
  lemma PutOrderBreaksConsistency(s: Store, id: int, body: OrderPayload, now: Timestamp)
    requires Consistent(s) && id in s.orders
    requires ParseOrder(body, now).Success? && body.userId.value !in s.users
    ensures PutOrder(s, id, body, now).response.Ok?
    ensures !Consistent(PutOrder(s, id, body, now).store)
  {
    UpdateOrderBreaksReferential(s, id, ParseOrder(body, now).value);
  }
}
