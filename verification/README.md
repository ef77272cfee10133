# DzFlask6 CRUD API: a Dafny model

DzFlask6 is a small HTTP API with create/read/update/delete routes for three
related entities: users, products and orders. This project models two parts
of it.

1. **The entity schemas** (`data_model.py`). `User`, `Product` and `Order` are
   records with field constraints: length bounds, non-negative ids and a
   positive cost. `User` also has an e-mail validator driven by a regular
   expression. `DataModel` states each record's constraints as a `Valid`
   predicate. The request validators `ParseUser`, `ParseProduct` and
   `ParseOrder` fill in the declared defaults and list every violated
   constraint. They are proved to accept exactly the bodies whose filled-in
   record is valid.
2. **The route handlers** (`main.py`). The three database tables become
   `map<nat, User>`, `map<nat, Product>` and `map<nat, Order>` in one `Store`.
   Each handler is a pure function returning a `Step`: the response (`Ok`,
   `NotFound`, `Conflict`, or `Invalid` for a refused body) and the store
   afterwards. `Integrity` proves that every handler keeps the referential
   invariant (ids equal keys; every order's user and product exist), except
   the order update.

Modules:

- `wrappers.dfy` (`Wrappers`): `Option`, `Result`.
- `email.dfy` (`EmailPattern`): the e-mail pattern.
  - `MatchesPattern` is the pattern read declaratively, as a concatenation.
  - `IsEmail` is a left-to-right scanner (a deterministic automaton).
  - `ScannerMatchesPattern` proves the two agree on every string.
- `data_model.py` → `data_model.dfy` (`DataModel`): records, payloads, validators.
- `main.py` → `store.dfy` (`Store`): the handlers on validated bodies.
- `integrity.dfy` (`Integrity`): the invariant, its preservation, round trips,
  and the `update_order` counterexample.
- `routes.dfy` (`Routes`): whole requests, which validate the body before
  running the handler. Stored rows keep satisfying their schemas, and every
  write route keeps the store consistent once the order update is corrected.

Decisions:

- **Trailing newline.** Python's `$` also matches just before one final
  newline, so `re.match` accepts `"a@b.c\n"`. The model keeps this behaviour:
  the scanner has an `AfterNewline` accepting state. `TrailingNewline` proves
  that exactly one such newline is admitted.
- **Email check order.** The email validator runs only on a value that
  already passed `max_length=128`, so an over-long value reports the length
  violation only.
- **Ids.** Ids the database assigns on insert are the parameter `newId`, with
  `newId` not already a key of its table. The password hash is the parameter
  `hash`. Path ids are `int`, since a negative id can be requested; no row
  has one.
- **Order update.** An order cannot be updated to refer to a missing user or
  product, according to the API's description. The code does not enforce
  this (main.py:131-136). The model follows the code in `Store.UpdateOrder`
  and logs the gap under Findings.

## Model

| member | source | states |
|---|---|---|
| `EmailPattern.ScannerMatchesPattern` | data_model.py:15-17 | The scanner accepts a string iff it is local-part `@` label `.` tail over the pattern's three character classes, optionally followed by one newline |
| `EmailPattern.NoNewlineMeansConcatenation` | data_model.py:15-16 | For a string not ending in a newline, acceptance is exactly the plain concatenation of the pattern's parts |
| `EmailPattern.TrailingNewline` | data_model.py:15-16 | `s + "\n"` is accepted iff `s` itself is a full match, so at most one trailing newline is tolerated |
| `EmailPattern.MatchHasAt` | data_model.py:15-16 | Every accepted string contains an `@` |
| `EmailPattern.AcceptsShortTail` | data_model.py:15 | `"a@b.c.d"` matches: the tail may contain dots |
| `EmailPattern.AcceptsDottedDomain` | data_model.py:15 | `"j.d+x@m-s.e.com"` matches: `.` and `+` are allowed in the local part, `-` in the label |
| `EmailPattern.AcceptsOneTrailingNewline` | data_model.py:15-16 | `"a@b.c\n"` matches |
| `EmailPattern.RejectsMissingDot` | data_model.py:15-16 | `"a@b"` does not match: no `.` after the label |
| `EmailPattern.RejectsMissingAt` | data_model.py:15-16 | `"not-an-email"` does not match: no `@` |
| `EmailPattern.RejectsEmptyLocalPart` | data_model.py:15 | `"@b.c"` does not match |
| `EmailPattern.RejectsEmptyLabel` | data_model.py:15 | `"a@.c"` does not match |
| `EmailPattern.RejectsTwoTrailingNewlines` | data_model.py:15-16 | `"a@b.c\n\n"` does not match |
| `DataModel.CheckEmail` | data_model.py:13-18 | The validator returns the value unchanged iff it matches the pattern, and fails with `InvalidEmail` otherwise |
| `DataModel.ParseUser` | data_model.py:6-18 | A user body is accepted iff name, surname, email and password are present and the record (id defaulting to 0) satisfies every constraint; the result is that record; each missing required field is reported |
| `DataModel.ParseProduct` | data_model.py:21-25 | A product body is accepted iff name, description and cost are present and id ≥ 0, name ≤ 32, description ≤ 128 and cost > 0 hold of the record with id defaulting to 0; each missing required field is reported |
| `DataModel.ParseOrder` | data_model.py:28-33 | An order body is accepted iff id, user_id and product_id are present and non-negative; date defaults to the validation time and status to false; each missing required field, id included, is reported |
| `DataModel.UserIdDefault` | data_model.py:7 | An accepted user body without id gets id 0, and one with id keeps it |
| `DataModel.ProductIdDefault` | data_model.py:22 | An accepted product body without id gets id 0, and one with id keeps it |
| `DataModel.OrderDefaults` | data_model.py:32-33 | An accepted order body without date is stamped with the current time, and one without status gets false |
| `DataModel.PasswordBounds` | data_model.py:11 | A password shorter than 6 or longer than 64 characters is refused, naming the broken bound; one within 6..64 never draws a password violation |
| `DataModel.MalformedEmailsRefused` | data_model.py:10-18 | A user body whose email is `"not-an-email"` or `"a@b"` is refused |
| `Store.ListAll` | main.py:30-42 | Listing a table yields each row exactly once: there are as many elements as keys, each element is the row of a distinct key, and every key's row appears |
| `Store.Lookup` | main.py:45-50 | Fetching by id returns the stored row iff the id is a key, and NotFound naming the entity and id otherwise |
| `Store.GetUser` | main.py:45-50 | GET /user/{id} answers the lookup in the users table and leaves the store unchanged |
| `Store.GetProduct` | main.py:53-58 | GET /product/{id} answers the lookup in the products table and leaves the store unchanged |
| `Store.GetOrder` | main.py:61-66 | GET /order/{id} answers the lookup in the orders table and leaves the store unchanged |
| `Store.CreateUser` | main.py:69-76 | The body id is replaced by the new id and the password by its hash; all other fields are unchanged; exactly that row is added under the new id; the other tables are unchanged |
| `Store.CreateProduct` | main.py:79-85 | The body id is replaced by the new id; the row is added under it; the other tables are unchanged |
| `Store.CreateOrder` | main.py:88-100 | A missing user is a conflict naming the user, checked before the product; a missing product is then a conflict naming the product; a conflict leaves the store unchanged; otherwise the order is added under the new id and only the orders table changes |
| `Store.UpdateUser` | main.py:103-112 | An unknown path id gives NotFound and changes nothing; otherwise the row at the path id is replaced by the body with the path id and the hashed password, no other key changes, and the other tables are unchanged |
| `Store.UpdateProduct` | main.py:115-123 | An unknown path id gives NotFound and changes nothing; otherwise the row at the path id is replaced by the body with the path id; no other key or table changes |
| `Store.ReplaceOrder` | main.py:137-140 | The row at the path id is replaced by the body with the path id, which is returned; no other key or table changes |
| `Store.UpdateOrder` | main.py:126-140 | An unknown path id gives NotFound; otherwise the STORED order's user, then its product, must exist, or the answer is a conflict and nothing changes; the new body's references are never examined |
| `Store.UpdateOrderChecked` | main.py:126-140 | The corrected update: as `UpdateOrder`, but the new body's user and product are the ones required to exist |
| `Store.DeleteUser` | main.py:143-150 | If some order refers to the user, the answer is a conflict and nothing changes; otherwise the key is removed (an absent key is no error), the remaining rows are unchanged and so are the other tables |
| `Store.DeleteProduct` | main.py:153-160 | If some order refers to the product, the answer is a conflict and nothing changes; otherwise the key is removed (an absent key is no error), and nothing else changes |
| `Store.DeleteOrder` | main.py:163-167 | Always succeeds; the key is removed if present, and nothing else changes |
| `Integrity.CreateUserPreserves` | main.py:69-76 | Creating a user keeps the store consistent |
| `Integrity.CreateProductPreserves` | main.py:79-85 | Creating a product keeps the store consistent |
| `Integrity.CreateOrderPreserves` | main.py:88-100 | Creating an order keeps the store consistent, whether it succeeds or is refused |
| `Integrity.UpdateUserPreserves` | main.py:103-112 | Updating a user keeps the store consistent |
| `Integrity.UpdateProductPreserves` | main.py:115-123 | Updating a product keeps the store consistent |
| `Integrity.UpdateOrderCheckedPreserves` | main.py:126-140 | The corrected order update keeps the store consistent |
| `Integrity.DeleteUserPreserves` | main.py:143-150 | Deleting a user keeps the store consistent: an unreferenced user leaves no order dangling |
| `Integrity.DeleteProductPreserves` | main.py:153-160 | Deleting a product keeps the store consistent |
| `Integrity.DeleteOrderPreserves` | main.py:163-167 | Deleting an order keeps the store consistent |
| `Integrity.UpdateOrderKeepsIds` | main.py:137-140 | The as-written order update still keeps every row's id equal to its key |
| `Integrity.UpdateOrderCheckIsVacuous` | main.py:131-136 | On a consistent store, the as-written update answers Ok iff the order exists: its reference check can never fail |
| `Integrity.UpdateOrderBreaksReferential` | main.py:131-140 | On a consistent store, updating an existing order to a missing user or product succeeds and leaves the store inconsistent |
| `Integrity.UpdateOrderCounterexample` | main.py:131-140 | A concrete store (user 1, product 1, order 1) and update (order 1 now refers to user 2) that turn a consistent store into an inconsistent one |
| `Integrity.UpdateOrderCheckedRefusesDangling` | main.py:126-140 | The corrected update succeeds on an existing order iff the new body's user and product exist, and a refusal changes nothing |
| `Integrity.CreateThenGetUser` | main.py:69-76 | A created user is read back under the returned id, with the hashed password and all other fields as sent |
| `Integrity.CreateThenGetProduct` | main.py:79-85 | A created product is read back under the returned id with the fields as sent |
| `Integrity.CreateThenGetOrder` | main.py:88-100 | An order whose user and product exist is read back under the returned id with the fields as sent |
| `Integrity.CreateOrderConflictInsertsNothing` | main.py:91-96 | An order naming a missing user or product is refused, and nothing is stored under the new id |
| `Integrity.UpdateThenGetUser` | main.py:103-112 | After a user update, the path id reads back the new body with the path id and the hashed password, whatever id the body carried |
| `Integrity.UpdateThenGetProduct` | main.py:115-123 | After a product update, the path id reads back the new body with the path id |
| `Integrity.DeleteThenGetUser` | main.py:143-150 | Deleting a user no order refers to succeeds, and a later GET answers NotFound |
| `Integrity.DeleteThenGetProduct` | main.py:153-160 | Deleting a product no order refers to succeeds, and a later GET answers NotFound |
| `Integrity.DeleteReferencedUserKept` | main.py:146-148 | Deleting a user some order refers to is a conflict, and the user still reads back as before |
| `Integrity.DeleteReferencedProductKept` | main.py:156-158 | Deleting a product some order refers to is a conflict, and the product still reads back as before |
| `Integrity.DeleteThenGetOrder` | main.py:163-167 | After an order delete, a GET of that id answers NotFound, whether or not it existed |
| `Integrity.OrderForMissingUser` | main.py:88-96 | On an empty store, a product created with id 1 reads back with id 1; an order for user 1 is then refused with a conflict naming user 1 |
| `Routes.PostUser` | main.py:69-76 | POST /user/ answers Invalid, with a non-empty violation list and no store change, iff the body fails validation; otherwise it is `CreateUser` on the validated record |
| `Routes.PutUser` | main.py:103-112 | PUT /user/{id} answers Invalid with no store change iff the body fails validation; otherwise it is `UpdateUser` |
| `Routes.PostProduct` | main.py:79-85 | POST /product/ answers Invalid with no store change iff the body fails validation; otherwise it is `CreateProduct` |
| `Routes.PutProduct` | main.py:115-123 | PUT /product/{id} answers Invalid with no store change iff the body fails validation; otherwise it is `UpdateProduct` |
| `Routes.PostOrder` | main.py:88-100 | POST /order/ answers Invalid with no store change iff the body fails validation; otherwise it is `CreateOrder` |
| `Routes.PutOrder` | main.py:126-140 | PUT /order/{id} answers Invalid with no store change iff the body fails validation; otherwise it is the as-written `UpdateOrder` |
| `Routes.PutOrderChecked` | main.py:126-140 | The same route with the corrected `UpdateOrderChecked` |
| `Routes.PostUserKeepsRecordsValid` | main.py:69-76 | With a hash that yields 64 characters, a created user still satisfies the `User` schema, the stored hashed password included |
| `Routes.PutUserKeepsRecordsValid` | main.py:103-112 | With a hash that yields 64 characters, an updated user still satisfies the `User` schema |
| `Routes.PostProductKeepsRecordsValid` | main.py:79-85 | Every stored product still satisfies the `Product` schema after a POST |
| `Routes.PutProductKeepsRecordsValid` | main.py:115-123 | Every stored product still satisfies the `Product` schema after a PUT |
| `Routes.PostOrderKeepsRecordsValid` | main.py:88-100 | Every stored order still satisfies the `Order` schema after a POST |
| `Routes.PutOrderKeepsRecordsValid` | main.py:126-140 | Every stored order still satisfies the `Order` schema after a PUT, as written or corrected |
| `Routes.DeletesKeepRecordsValid` | main.py:143-167 | The three deletes keep every remaining row valid |
| `Routes.UserRoutesPreserveConsistency` | main.py:69-150 | With body validation included, POST /user/, PUT /user/{id} and DELETE /user/{id} keep the store consistent |
| `Routes.ProductRoutesPreserveConsistency` | main.py:79-160 | With body validation included, POST /product/, PUT /product/{id} and DELETE /product/{id} keep the store consistent |
| `Routes.OrderRoutesPreserveConsistency` | main.py:88-167 | With body validation included, POST /order/, the corrected PUT /order/{id} and DELETE /order/{id} keep the store consistent |
| `Routes.PutOrderBreaksConsistency` | main.py:126-140 | PUT /order/{id} as written accepts a valid body naming a missing user for an existing order, answers Ok, and leaves the store inconsistent |

## Left out

- FastAPI routing, the redirect of `/` to the documentation (main.py:25-27), HEAD handling, numeric HTTP status codes and the text of error details. Responses are the `Response` datatype.
- `response_model` serialisation. `Routes.RecordsValid` states the precondition for it: stored rows satisfy their schemas.
- The `db` module, `database.connect`/`disconnect` and async/await (main.py:15-22). The db module is not part of this model. The tables are maps, and an id assigned on insert is any key not yet in its table.
- Failures of the database itself (a lost connection, a failing statement). The model has no server-error outcome.
- Concurrent requests. Each request is modelled as one atomic step, so the check-then-act races between requests are not represented.
- SHA-256 (main.py:72, 109). The hash is a parameter `hash`. Only its output length (64 characters, `Routes.HexDigestLength`) is assumed, and only where row validity is concluded.
- Floating point: `Product.cost` is a `real`, so NaN and infinities are not modelled.
- `datetime.now` (data_model.py:32): the time of validation is a parameter `now`, and a timestamp is an opaque value.
- Pydantic's type coercion (for example the string `"5"` for an int field) and the exact shape of its error reports. Only accept/reject and which field failed, and why, are modelled.
- Store.ListAll: does not fix the order of listed rows, because the database does not promise one.
- Unicode: string lengths count characters as Dafny `char`s (Unicode scalar values), the same as Python's `len` on `str`.

## Findings

| source | as written | input that shows it | evidently intended | confidence | as-written member | corrected member |
|---|---|---|---|---|---|---|
| main.py:131-136 | `update_order` checks that the user and product of the order already stored under the path id exist; the new body's `user_id` and `product_id` are never looked up | users {1}, products {1}, order 1 referring to user 1 and product 1; `PUT /order/1` with `user_id` 2 answers 200 and order 1 now refers to the missing user 2 | look up `new_order.user_id` and `new_order.product_id`, as `create_order` does, and answer 409 when one is missing | not executed | `Integrity.UpdateOrderCounterexample` | `Integrity.UpdateOrderCheckedPreserves` |
