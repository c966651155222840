# ecomm storage and handler helpers, modelled in Dafny

This project models two pieces of the ecomm service.

The first is the MySQL storage layer (`ecomm-api/store/store_mysql.go`):
- the single-row product statements;
- the scoped-transaction helper `execTx`;
- the transactional order writer `CreateOrder`, with `createOrder` and `createOrderItem`.

The second is the pure helpers of the HTTP layer (`ecomm-api/handler/handler.go`):
- the converters between request, storage and response shapes;
- the two patch helpers, `patchProductReq` and `patchUserReq`.

Files:
- `storer_types.dfy` (module `StorerTypes`): the storage entities (`Product`, `OrderItem`, `Order`, `User`). It also has small reference classes standing for the Go pointers `*Product`, `*Order` and `*User`, through which callees update a struct in place.
- `store_mysql.dfy` (module `StoreMySQL`): the database as a class `MySQLStorer`, with:
  - three tables (`products`, `orders`, `order_items`) as sequences in insertion order;
  - one auto-increment counter per table;
  - a failure oracle `faults` that says which driver call fails, and how;
  - a clock giving the `created_at` default of each insert.

  Every driver call (begin, a statement, rollback, commit) has an index `calls`. A transaction is a snapshot of the tables that rollback restores. The outcome of `CreateOrder` is described by specification functions of the oracle (`TxError`, `TxCalls`, `TxRows`, `OrderIdAssigned`).
- `handler.dfy` (module `Handler`): the request and response shapes and the converters. The `append` loops of `toStorerOrderItems` and `toOrderItems` become methods with loop invariants. The patch helpers become methods on the pointed-to struct, proved against specification functions.

Main facts proved:
- **Atomicity of `CreateOrder`.** On success, the `orders` table gains exactly one row. The `order_items` table gains one row per element of `o.Items`, in order. Each item row carries the new `o.ID` as `order_id` and the next generated id. On any failure, neither table changes.
- **Outcomes by failure point.** `CreateOrder` succeeds exactly when the begin, all N+1 INSERTs and the commit succeed. After the first failing INSERT, no later item is attempted. A failed begin runs nothing.
- **Error wrapping.** A failed rollback replaces the body's error: the returned error wraps the rollback's driver error and not the body's. With a successful rollback, the error wraps the failing INSERT's error.
- **Go value semantics.** `o.ID` is set as soon as the order INSERT and its `LastInsertId` both succeed, and it stays set after a rollback. Nothing else in `*o` changes. `o.Items` is never touched, because the loop variable and the `createOrderItem` parameter are copies.
- **Primary keys.** Ids are positive, strictly increasing and below each table's counter. Every public operation keeps this, and so a get by a freshly created id returns that row.
- **Product statements.** A get after a create returns the created row. A get after an update returns the new payload with the stored id and timestamps. Update and delete succeed when no row matches, and then change nothing. Delete is idempotent.
- **Handler converters.**
  - Items round-trip, with length and order kept.
  - The create converters leave the id and the timestamps unset.
  - A product request's payload survives into the response.
  - `toProductRes` drops no field.
  - `toUserRes` never exposes the password, the id or the timestamps.
- **Patch helpers.**
  - A field is overwritten exactly when the request sets it.
  - `ID` and `CreatedAt` are kept, and `UpdatedAt` becomes `now`.
  - Patching a product twice with the same request equals patching it once at the later time.
  - A user patch repeated with the same request gives what the second patch alone would give. Apart from the password hash, which may differ between two HashPassword calls, and `updated_at`, it repeats the first.
  - `IsAdmin` can be raised but never cleared.
  - The password is replaced by its hash only when the request carries one.
  - A failing hash panics after the name and email have been written.

Two consequences of the code's value semantics:
- The caller's `o.Items` never receive their generated ids or `order_id`. `order_id` is set on a loop-local copy of each item, and `oi.ID = id` on `createOrderItem`'s by-value parameter (`o.v.Items == old(o.v.Items)` in `CreateOrder`). The generated ids and the parent id exist only in the `order_items` rows.
- After a failed order write, `o.ID` stays set once the order INSERT and its `LastInsertId` both succeeded (`OrderIdAssigned`).

## Model

| member | source | states |
|---|---|---|
| StoreMySQL.MySQLStorer.constructor | ecomm-api/store/store_mysql.go:14-16 | a new storer wraps any database whose primary keys are well formed: it holds exactly the given tables and counters, with no open transaction and no driver call made yet |
| StoreMySQL.MySQLStorer.CreateProduct | ecomm-api/store/store_mysql.go:18-32 | a failed INSERT changes neither the table nor `p`; otherwise the row with the next id and the current `created_at` is appended; `p.ID` is set and `p` returned only when `LastInsertId` also succeeds; the error is wrapped with the right context; keys stay well formed |
| StoreMySQL.ProductRow | ecomm-api/store/store_mysql.go:19 | the inserted row has the generated id, the default `created_at` and no `updated_at`, and otherwise the payload of `p` |
| StoreMySQL.MySQLStorer.GetProduct | ecomm-api/store/store_mysql.go:34-42 | returns the row with that id, a wrapped "no rows" error when none exists, or the wrapped driver error |
| StoreMySQL.FindProduct | ecomm-api/store/store_mysql.go:36 | the result is a row of the table with the requested id, and it is absent exactly when no row has that id |
| StoreMySQL.MySQLStorer.ListProducts | ecomm-api/store/store_mysql.go:44-52 | returns the whole table, or the wrapped driver error |
| StoreMySQL.MySQLStorer.UpdateProduct | ecomm-api/store/store_mysql.go:54-61 | the table becomes `UpdateRows` of it and `p` itself is returned, whether or not a row matched; on failure the table is unchanged |
| StoreMySQL.WithPayload | ecomm-api/store/store_mysql.go:55 | an updated row keeps its id and both timestamps and takes every other column from `p` |
| StoreMySQL.UpdateRows | ecomm-api/store/store_mysql.go:55 | the UPDATE keeps the number of rows and every row's id |
| StoreMySQL.MySQLStorer.DeleteProduct | ecomm-api/store/store_mysql.go:63-70 | the table becomes `DeleteRows` of it and no error is returned, whether or not a row matched; on failure the table is unchanged |
| StoreMySQL.DeleteRows | ecomm-api/store/store_mysql.go:64 | a row survives exactly when it was in the table and has another id; the table never grows |
| StoreMySQL.CreateThenGet | ecomm-api/store/store_mysql.go:18-42 | a get by the id a create generated returns the created row |
| StoreMySQL.UpdateThenGet | ecomm-api/store/store_mysql.go:34-61 | after an update of an existing id, a get returns the new payload with the stored id and timestamps |
| StoreMySQL.UpdateAbsentIsNoop | ecomm-api/store/store_mysql.go:54-61 | updating an id no row has leaves the table as it was |
| StoreMySQL.DeleteAbsentIsNoop | ecomm-api/store/store_mysql.go:63-70 | deleting an id no row has leaves the table as it was |
| StoreMySQL.DeleteIdempotent | ecomm-api/store/store_mysql.go:63-70 | deleting the same id twice equals deleting it once |
| StoreMySQL.UpdateKeepsKeys | ecomm-api/store/store_mysql.go:55 | the UPDATE keeps the primary keys well formed |
| StoreMySQL.DeleteKeepsKeys | ecomm-api/store/store_mysql.go:64 | the DELETE keeps the primary keys well formed |
| StoreMySQL.ProductKeysBelow | ecomm-api/store/store_mysql.go:24 | every stored id is positive and below the auto-increment counter, so a generated id is fresh |
| StoreMySQL.ProductKeysIncrease | ecomm-api/store/store_mysql.go:24 | ids increase along the table, so no two rows share an id |
| StoreMySQL.ItemKeysAppendRows | ecomm-api/store/store_mysql.go:81-88 | the item rows of a successful order take consecutive fresh ids and keep the keys well formed |
| StoreMySQL.MySQLStorer.Begin | ecomm-api/store/store_mysql.go:135-138 | a successful begin snapshots the tables; a failed one changes nothing and returns the driver error |
| StoreMySQL.MySQLStorer.Rollback | ecomm-api/store/store_mysql.go:143 | the tables return to the snapshot and the transaction ends; the driver error is returned when the rollback fails |
| StoreMySQL.MySQLStorer.Commit | ecomm-api/store/store_mysql.go:149 | a successful commit keeps the working tables; a failed one leaves the snapshot and returns the driver error |
| StoreMySQL.MySQLStorer.InsertOrder | ecomm-api/store/store_mysql.go:117-132 | a failed INSERT changes neither the table nor `o`; otherwise the order row with the next id is appended, and `o.ID` is set through the pointer only when `LastInsertId` succeeds |
| StoreMySQL.InsertErrorWrapsDriverError | ecomm-api/store/store_mysql.go:102-110 | a failed INSERT is wrapped with the statement's own context, a failed `LastInsertId` with "error getting last insert id", each around the driver error; `createOrder` (lines 119-127) returns the same pair |
| StoreMySQL.OrderRowOf | ecomm-api/store/store_mysql.go:118 | the `orders` row holds the four payload columns, the generated id and the default `created_at` |
| StoreMySQL.MySQLStorer.InsertOrderItem | ecomm-api/store/store_mysql.go:100-115 | appends the item row with the next id, or reports the wrapped INSERT or `LastInsertId` error; the caller's item is a copy and is not changed |
| StoreMySQL.MySQLStorer.InsertItems | ecomm-api/store/store_mysql.go:81-88 | the loop inserts the items in order, each with the parent id, and stops at the first failing INSERT; its error, call count and written rows are `ItemsError`, `ItemsCalls` and `ItemRows` of the rows written |
| StoreMySQL.ItemRowsAt | ecomm-api/store/store_mysql.go:81-88 | item row k is input item k with the k-th generated id and the parent's id as `order_id` |
| StoreMySQL.MySQLStorer.OrderTxBody | ecomm-api/store/store_mysql.go:73-91 | the closure inserts the order row and then the items; its error is `BodyError`; `o.ID` is set exactly when the order INSERT fully succeeded; nothing else in `o` changes |
| StoreMySQL.BodyFailsIff | ecomm-api/store/store_mysql.go:73-91 | the closure fails exactly when one of its N+1 INSERTs fails |
| StoreMySQL.MySQLStorer.ExecTx | ecomm-api/store/store_mysql.go:134-154 | the error is `TxError` of the oracle; on any error the tables are as before; on success they hold the order row and all item rows; the transaction is closed on every path |
| StoreMySQL.TxBeginFails | ecomm-api/store/store_mysql.go:135-138 | when begin fails, the error wraps the begin error, one call is made, no row is written and `o.ID` is not assigned |
| StoreMySQL.TxBodyFails | ecomm-api/store/store_mysql.go:140-146 | when the closure fails, the error wraps the rollback's error if the rollback fails, and the closure's error otherwise |
| StoreMySQL.TxBodySucceeds | ecomm-api/store/store_mysql.go:149-153 | when the closure succeeds, all N+1 rows are written and the commit decides the outcome |
| StoreMySQL.TxSucceedsIff | ecomm-api/store/store_mysql.go:134-154 | the transaction succeeds exactly when begin, every INSERT and the commit succeed |
| StoreMySQL.RollbackFailureMasksCause | ecomm-api/store/store_mysql.go:143-145 | when the rollback fails, the returned error wraps the rollback's driver error and does not wrap the closure's error |
| StoreMySQL.FailedInsertReported | ecomm-api/store/store_mysql.go:75-87 | when the rollback succeeds, the returned error wraps the error of the INSERT that failed: the order's, or that of the first failing item |
| StoreMySQL.MySQLStorer.CreateOrder | ecomm-api/store/store_mysql.go:72-98 | atomicity: on failure no table changes; on success one order row and one item row per item, in order, each with the order's id; `o` is returned; only `o.ID` changes, and it is set after a rollback too once the order INSERT and its `LastInsertId` both succeeded; keys stay well formed |
| Handler.ToStorerProduct | ecomm-api/handler/handler.go:154-165 | the new product has no id, no `created_at` and no `updated_at` |
| Handler.ToProductRes | ecomm-api/handler/handler.go:167-181 | the response carries the product's id and both timestamps |
| Handler.ProductRoundTrip | ecomm-api/handler/handler.go:154-181 | the response to a converted request has the request's eight payload fields and an unset id |
| Handler.ProductResInjective | ecomm-api/handler/handler.go:167-181 | two products with the same response are equal, so no field is dropped |
| Handler.PatchedProduct | ecomm-api/handler/handler.go:183-209 | a patched product keeps its id and `created_at`, and its `updated_at` is `now` |
| Handler.PatchProductReq | ecomm-api/handler/handler.go:183-209 | the in-place updates produce `PatchedProduct` of the old product |
| Handler.PatchProductFields | ecomm-api/handler/handler.go:184-207 | each field is overwritten when the request's string is non-empty or its number non-zero, and kept otherwise |
| Handler.PatchProductEmpty | ecomm-api/handler/handler.go:183-209 | an empty request changes only `updated_at` |
| Handler.PatchProductIdempotent | ecomm-api/handler/handler.go:183-209 | patching twice with the same request equals patching once at the later time |
| Handler.StorerItem | ecomm-api/handler/handler.go:297-303 | a converted item has no id and no `order_id` |
| Handler.ResItem | ecomm-api/handler/handler.go:324-330 | converting a stored item to API shape keeps everything `StorerItem` can rebuild: only `ID` and `OrderID` are lost |
| Handler.StorerItems | ecomm-api/handler/handler.go:294-306 | the converted slice has as many items as the input |
| Handler.ResItems | ecomm-api/handler/handler.go:321-333 | the converted slice has as many items as the input |
| Handler.ToStorerOrderItems | ecomm-api/handler/handler.go:294-306 | the loop builds `StorerItems` of the input: one converted item per element, in order |
| Handler.ToOrderItems | ecomm-api/handler/handler.go:321-333 | the loop builds `ResItems` of the input: one converted item per element, in order |
| Handler.ItemsRoundTrip | ecomm-api/handler/handler.go:294-333 | items converted to storage shape and back are the original items |
| Handler.StoredItemsRoundTrip | ecomm-api/handler/handler.go:294-333 | stored items converted to API shape and back keep their length and lose only `ID` and `OrderID` |
| Handler.ToStorerOrder | ecomm-api/handler/handler.go:284-292 | the new order has no id and no timestamps, the request's four payload fields and the converted items |
| Handler.ToOrderRes | ecomm-api/handler/handler.go:308-319 | the response carries every order field and the converted items |
| Handler.ToStorerUser | ecomm-api/handler/handler.go:365-372 | the new user has no id and no timestamps |
| Handler.ToUserRes | ecomm-api/handler/handler.go:374-380 | the response carries the name, email and admin flag |
| Handler.UserResHidesSecrets | ecomm-api/handler/handler.go:374-380 | users differing only in password, id or timestamps give the same response, so the password never reaches it |
| Handler.UserRoundTrip | ecomm-api/handler/handler.go:365-380 | the response to a created user repeats the request without its password |
| Handler.NamesPatched | ecomm-api/handler/handler.go:431-436 | the writes before the hash touch neither the password, the admin flag nor `updated_at` |
| Handler.PatchedUser | ecomm-api/handler/handler.go:430-449 | the patch fails exactly when a non-empty password fails to hash; otherwise it keeps the id and `created_at` and sets `updated_at` to `now` |
| Handler.PatchUserReq | ecomm-api/handler/handler.go:430-449 | the in-place updates produce `PatchedUser` of the old user; on a hashing failure (the panic) the name and email are already written and nothing else is |
| Handler.PatchUserNeverDemotes | ecomm-api/handler/handler.go:445-447 | the admin flag ends set exactly when it was set or the request sets it, so an admin is never demoted |
| Handler.PatchUserFields | ecomm-api/handler/handler.go:430-444 | the password becomes the hash of the request's only when that is non-empty; name and email are overwritten only when non-empty |
| Handler.PatchUserIdempotent | ecomm-api/handler/handler.go:430-449 | patching twice with the same request equals the second patch alone; with two different HashPassword results, the twice-patched user differs from the once-patched one at most in the password and `updated_at` |

## Left out

- HTTP handler bodies (JSON decoding and encoding, URL parameters, status codes), `routes.go`, process startup and the database connection: I/O and wiring with no logic of their own.
- The request and response types and `utils.HashPassword` are not part of this model. Only the fields that the statements and converters read or write are modelled. `HashPassword` is a parameter: a total function whose `None` stands for its error.
- `time.Now()` is the parameter `now` of the patch methods. The `created_at` column default is the storer's `clock` at the inserting call.
- `updated_at` is taken to default to NULL and to have no ON UPDATE clause; the Go code declares no table schema. So `ProductRow` and `OrderRowOf` write it as NULL, and `WithPayload` keeps the stored value through the UPDATE. The UPDATE statement never writes `updated_at`, so the `UpdatedAt` that `patchProductReq` sets never reaches the table.
- SQL text, sqlx named-parameter binding, the connection pool, isolation levels, context cancellation and concurrent transactions. The model is one sequential client.
- Floating-point ratings and prices are integers. The code only copies them and compares them with zero.
- Go's nil versus empty slices: the converters and `ListProducts` return an empty sequence where the code returns a nil slice, which encodes as JSON `null`.
- `ListProducts` returns rows in insertion order; the SQL has no `ORDER BY`, so the server's order is not fixed.
- GetProduct: a failure to scan a row into the struct is not modelled; only driver errors and "no rows" are.
- StoreMySQL.MySQLStorer.ExecTx: the closure `fn` is fixed to the one `CreateOrder` passes, the only caller.
- StoreMySQL.MySQLStorer.Rollback: a failed rollback is taken to discard the transaction's writes anyway, as the server does with work never committed. The model does not capture a database left in an unknown state.
- StoreMySQL.MySQLStorer.Commit: a failed commit is taken to leave the database as before the transaction.
- Auto-increment counters are not restored by a rollback, as with InnoDB. So a rolled-back `o.ID` is never reused.
- Which driver call fails is decided by the oracle `faults`, fixed at construction. The model covers every pattern of failures, but not their causes.
