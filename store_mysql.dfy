// The MySQL implementation of the storage contract: single-row product
// statements, the scoped-transaction helper and the transactional order writer.
//
// The database is a class holding three tables as sequences in insertion
// order, one auto-increment counter per table and a failure oracle. Every
// round trip to the driver (begin, a statement, rollback, commit) has an index
// `calls`; the oracle `faults` says which of them fail and how. A transaction
// is a snapshot of the tables that rollback restores.

module StoreMySQL {
  import opened StorerTypes

  /** What the failure oracle says about one driver call. `LastIdFails` only
      matters for an INSERT: the row is written, then `LastInsertId` fails. */
  datatype Fault =
    | ExecFails(code: int)
    | LastIdFails(code: int)

  type Oracle = map<nat, Fault>

  /** One row of the `orders` table. */
  datatype OrderRow = OrderRow(
    ID: int,
    PaymentMethod: string,
    TaxPrice: int,
    ShippingPrice: int,
    TotalPrice: int,
    CreatedAt: Time,
    UpdatedAt: Option<Time>)

  datatype Tables = Tables(products: seq<Product>, orders: seq<OrderRow>, orderItems: seq<OrderItem>)

  /** The call sites that wrap an error with `fmt.Errorf("<message>: %w", err)`,
      one per message: "error inserting product", "error getting last insert
      id", "error getting product", "error listing products", "error updating
      product", "error deleting product", "error creating order", "error
      creating order item", "error inserting order", "error inserting order
      item", "error beginning transaction", "error rolling back transaction",
      "error executing transaction", "error committing transaction". */
  datatype Context =
    | InsertingProduct | GettingLastInsertId | GettingProduct | ListingProducts
    | UpdatingProduct | DeletingProduct | CreatingOrder | CreatingOrderItem
    | InsertingOrder | InsertingOrderItem | BeginningTx | RollingBackTx
    | ExecutingTx | CommittingTx

  /** An error value as the code builds it: a driver error, the "no rows"
      error of a single-row query, or one wrapped by `fmt.Errorf` with `%w`. */
  datatype Error =
    | DriverError(code: int)
    | NoRows
    | Wrapped(context: Context, cause: Error)

  /** `errors.Is`-style reachability: `e` is `cause` or wraps it through `%w`. */
  predicate Wraps(e: Error, cause: Error)
  {
    e == cause || (e.Wrapped? && Wraps(e.cause, cause))
  }

  /** Call `k` (begin, commit, rollback or a statement) returns an error. */
  predicate CallFails(faults: Oracle, k: nat)
  {
    k in faults && faults[k].ExecFails?
  }

  /** The first driver call in `[lo, lo + n)` that the oracle makes fail in any way. */
  function FirstFault(faults: Oracle, lo: nat, n: nat): (r: Option<nat>)
    ensures r.Some? ==> lo <= r.value < lo + n && r.value in faults
    decreases n
  {
    if n == 0 then None
    else if lo in faults then Some(lo)
    else FirstFault(faults, lo + 1, n - 1)
  }

  /** The first fault is the least faulty call of the range. */
  lemma {:induction false} FirstFaultIsLeast(faults: Oracle, lo: nat, n: nat, j: nat)
    requires lo <= j < lo + n && j in faults
    requires forall i :: lo <= i < j ==> i !in faults
    ensures FirstFault(faults, lo, n) == Some(j)
    decreases n
  {
    if lo != j {
      FirstFaultIsLeast(faults, lo + 1, n - 1, j);
    }
  }

  /** No fault is found exactly when no call of the range fails. */
  lemma {:induction false} FirstFaultNone(faults: Oracle, lo: nat, n: nat)
    ensures FirstFault(faults, lo, n).None? <==> forall i :: lo <= i < lo + n ==> i !in faults
    decreases n
  {
    if n > 0 && lo !in faults {
      FirstFaultNone(faults, lo + 1, n - 1);
    }
  }

  /** The error an INSERT helper returns for a fault at its call. */
  function InsertError(c: Context, f: Fault): (e: Error)
  {
    match f
    case ExecFails(code) => Wrapped(c, DriverError(code))
    case LastIdFails(code) => Wrapped(GettingLastInsertId, DriverError(code))
  }

  /** An INSERT helper's error is one wrap around the driver error: with the
      statement's context when the INSERT fails, with the `LastInsertId`
      context when only the id cannot be read. */
  lemma InsertErrorWrapsDriverError(c: Context, f: Fault)
    ensures InsertError(c, f).Wrapped? && InsertError(c, f).cause == DriverError(f.code)
    ensures InsertError(c, f).context == if f.ExecFails? then c else GettingLastInsertId
  {
  }

  // ---------------------------------------------------------------------------
  // Rows written by the INSERT statements

  /** The `products` row inserted for `p`: the eight payload columns, a
      generated id, `created_at` from the column default, `updated_at` NULL. */
  function ProductRow(p: Product, id: int, now: Time): (row: Product)
    ensures row.ID == id && row.CreatedAt == now && row.UpdatedAt == None
    ensures row.(ID := p.ID, CreatedAt := p.CreatedAt, UpdatedAt := p.UpdatedAt) == p
  {
    p.(ID := id, CreatedAt := now, UpdatedAt := None)
  }

  /** The `orders` row inserted for `o`. */
  function OrderRowOf(o: Order, id: int, now: Time): (row: OrderRow)
    ensures row.ID == id && row.CreatedAt == now && row.UpdatedAt == None
    ensures row.PaymentMethod == o.PaymentMethod && row.TaxPrice == o.TaxPrice
    ensures row.ShippingPrice == o.ShippingPrice && row.TotalPrice == o.TotalPrice
  {
    OrderRow(id, o.PaymentMethod, o.TaxPrice, o.ShippingPrice, o.TotalPrice, now, None)
  }

  /** The `order_items` rows a successful loop inserts for `items`, with ids
      generated from `firstId` on and the parent's id in `order_id`. */
  function ItemRows(items: seq<OrderItem>, orderId: int, firstId: int): (rows: seq<OrderItem>)
    ensures |rows| == |items|
    decreases |items|
  {
    if items == [] then []
    else [items[0].(ID := firstId, OrderID := orderId)] + ItemRows(items[1..], orderId, firstId + 1)
  }

  /** Row k is item k with the k-th generated id and the parent's id. */
  lemma {:induction false} ItemRowsAt(items: seq<OrderItem>, orderId: int, firstId: int, k: nat)
    requires k < |items|
    ensures ItemRows(items, orderId, firstId)[k] == items[k].(ID := firstId + k, OrderID := orderId)
  {
    if k > 0 {
      ItemRowsAt(items[1..], orderId, firstId + 1, k - 1);
    }
  }

  lemma {:induction false} ItemRowsSnoc(items: seq<OrderItem>, x: OrderItem, orderId: int, firstId: int)
    ensures ItemRows(items + [x], orderId, firstId)
         == ItemRows(items, orderId, firstId) + [x.(ID := firstId + |items|, OrderID := orderId)]
  {
    if items != [] {
      assert (items + [x])[1..] == items[1..] + [x];
      ItemRowsSnoc(items[1..], x, orderId, firstId + 1);
    }
  }

  // ---------------------------------------------------------------------------
  // Primary keys, read from the last row back: each id is below the table's
  // counter and above every id before it, and the first is positive. So the
  // ids are unique and a freshly generated id is held by no row.

  ghost predicate ProductKeys(rows: seq<Product>, next: int)
    decreases |rows|
  {
    if rows == [] then 0 < next
    else rows[|rows| - 1].ID < next && ProductKeys(rows[..|rows| - 1], rows[|rows| - 1].ID)
  }

  ghost predicate OrderKeys(rows: seq<OrderRow>, next: int)
    decreases |rows|
  {
    if rows == [] then 0 < next
    else rows[|rows| - 1].ID < next && OrderKeys(rows[..|rows| - 1], rows[|rows| - 1].ID)
  }

  ghost predicate ItemKeys(rows: seq<OrderItem>, next: int)
    decreases |rows|
  {
    if rows == [] then 0 < next
    else rows[|rows| - 1].ID < next && ItemKeys(rows[..|rows| - 1], rows[|rows| - 1].ID)
  }

  ghost predicate TablesValid(t: Tables, nextProduct: int, nextOrder: int, nextItem: int)
  {
    ProductKeys(t.products, nextProduct) && OrderKeys(t.orders, nextOrder) && ItemKeys(t.orderItems, nextItem)
  }

  /** Appending a row with the counter's value and advancing the counter keeps the keys. */
  lemma ProductKeysAppend(rows: seq<Product>, row: Product, next: int)
    requires ProductKeys(rows, next) && row.ID == next
    ensures ProductKeys(rows + [row], next + 1)
  {
    assert (rows + [row])[..|rows|] == rows;
  }

  lemma OrderKeysAppend(rows: seq<OrderRow>, row: OrderRow, next: int)
    requires OrderKeys(rows, next) && row.ID == next
    ensures OrderKeys(rows + [row], next + 1)
  {
    assert (rows + [row])[..|rows|] == rows;
  }

  lemma ItemKeysAppend(rows: seq<OrderItem>, row: OrderItem, next: int)
    requires ItemKeys(rows, next) && row.ID == next
    ensures ItemKeys(rows + [row], next + 1)
  {
    assert (rows + [row])[..|rows|] == rows;
  }

  /** Advancing a counter past ids that were never used keeps the keys. */
  lemma OrderKeysGrow(rows: seq<OrderRow>, next: int, next': int)
    requires OrderKeys(rows, next) && next <= next'
    ensures OrderKeys(rows, next')
  {
  }

  lemma ItemKeysGrow(rows: seq<OrderItem>, next: int, next': int)
    requires ItemKeys(rows, next) && next <= next'
    ensures ItemKeys(rows, next')
  {
  }

  /** The item rows of a successful order take the next ids in turn, so the
      keys stay well formed. */
  lemma {:induction false} ItemKeysAppendRows(rows: seq<OrderItem>, items: seq<OrderItem>, orderId: int, next: int)
    requires ItemKeys(rows, next)
    ensures ItemKeys(rows + ItemRows(items, orderId, next), next + |items|)
    decreases |items|
  {
    if items == [] {
      assert rows + ItemRows(items, orderId, next) == rows;
    } else {
      var init := items[..|items| - 1];
      var x := items[|items| - 1];
      assert items == init + [x];
      ItemKeysAppendRows(rows, init, orderId, next);
      ItemRowsSnoc(init, x, orderId, next);
      ItemKeysAppend(rows + ItemRows(init, orderId, next), x.(ID := next + |init|, OrderID := orderId), next + |init|);
      assert rows + ItemRows(items, orderId, next)
          == (rows + ItemRows(init, orderId, next)) + [x.(ID := next + |init|, OrderID := orderId)];
    }
  }

  /** Every id is positive and below the counter. */
  lemma {:induction false} ProductKeysBelow(rows: seq<Product>, next: int)
    requires ProductKeys(rows, next)
    ensures 0 < next && forall q :: q in rows ==> 0 < q.ID < next
    decreases |rows|
  {
    if rows != [] {
      var init := rows[..|rows| - 1];
      ProductKeysBelow(init, rows[|rows| - 1].ID);
      assert rows == init + [rows[|rows| - 1]];
    }
  }

  /** Ids increase along the table, so no two rows share one. */
  lemma {:induction false} ProductKeysIncrease(rows: seq<Product>, next: int, i: nat, j: nat)
    requires ProductKeys(rows, next) && i < j < |rows|
    ensures rows[i].ID < rows[j].ID
    decreases |rows|
  {
    var init := rows[..|rows| - 1];
    if j == |rows| - 1 {
      ProductKeysBelow(init, rows[j].ID);
      assert rows[i] in init;
    } else {
      ProductKeysIncrease(init, rows[|rows| - 1].ID, i, j);
    }
  }

  // ---------------------------------------------------------------------------
  // What the single-row product statements do to the table

  /** `SELECT * FROM products WHERE id=?` read with `GetContext`: the first row with that id. */
  function FindProduct(rows: seq<Product>, id: int): (r: Option<Product>)
    ensures r.Some? ==> r.value in rows && r.value.ID == id
    ensures r.None? <==> forall q :: q in rows ==> q.ID != id
    decreases |rows|
  {
    if rows == [] then None
    else if rows[0].ID == id then Some(rows[0])
    else FindProduct(rows[1..], id)
  }

  /** The row after `UPDATE products SET name=:name, ..., count_in_stock=:count_in_stock`:
      the eight payload columns from `p`; id and timestamps as stored. */
  function WithPayload(row: Product, p: Product): (r: Product)
    ensures r.ID == row.ID && r.CreatedAt == row.CreatedAt && r.UpdatedAt == row.UpdatedAt
    ensures r.(ID := p.ID, CreatedAt := p.CreatedAt, UpdatedAt := p.UpdatedAt) == p
  {
    p.(ID := row.ID, CreatedAt := row.CreatedAt, UpdatedAt := row.UpdatedAt)
  }

  /** `UPDATE ... WHERE id=:id` applied to every row. */
  function UpdateRows(rows: seq<Product>, p: Product): (r: seq<Product>)
    ensures |r| == |rows|
    ensures forall i :: 0 <= i < |r| ==> r[i].ID == rows[i].ID
  {
    seq(|rows|, i requires 0 <= i < |rows| => if rows[i].ID == p.ID then WithPayload(rows[i], p) else rows[i])
  }

  /** `DELETE FROM products WHERE id=?`. */
  function DeleteRows(rows: seq<Product>, id: int): (r: seq<Product>)
    ensures forall q :: q in r <==> q in rows && q.ID != id
    ensures |r| <= |rows|
    decreases |rows|
  {
    if rows == [] then []
    else
      var last := rows[|rows| - 1];
      var init := DeleteRows(rows[..|rows| - 1], id);
      assert rows == rows[..|rows| - 1] + [last];
      if last.ID == id then init else init + [last]
  }

  lemma {:induction false} DeleteKeepsKeys(rows: seq<Product>, id: int, next: int)
    requires ProductKeys(rows, next)
    ensures ProductKeys(DeleteRows(rows, id), next)
    decreases |rows|
  {
    if rows != [] {
      var last := rows[|rows| - 1];
      var init := rows[..|rows| - 1];
      DeleteKeepsKeys(init, id, last.ID);
      var r := DeleteRows(init, id);
      if last.ID == id {
        ProductKeysBelow(r, last.ID);
        if r != [] {
          assert r[|r| - 1] in r;
        }
      } else {
        ProductKeysAppend(r, last, last.ID);
      }
    }
  }

  /** Deleting an id no row has changes nothing (and still reports success). */
  lemma {:induction false} DeleteAbsentIsNoop(rows: seq<Product>, id: int)
    requires forall q :: q in rows ==> q.ID != id
    ensures DeleteRows(rows, id) == rows
    decreases |rows|
  {
    if rows != [] {
      var init := rows[..|rows| - 1];
      assert rows == init + [rows[|rows| - 1]];
      DeleteAbsentIsNoop(init, id);
    }
  }

  /** Deleting the same id twice is the same as deleting it once. */
  lemma DeleteIdempotent(rows: seq<Product>, id: int)
    ensures DeleteRows(DeleteRows(rows, id), id) == DeleteRows(rows, id)
  {
    DeleteAbsentIsNoop(DeleteRows(rows, id), id);
  }

  /** Updating an id no row has changes nothing (and still reports success). */
  lemma UpdateAbsentIsNoop(rows: seq<Product>, p: Product)
    requires forall q :: q in rows ==> q.ID != p.ID
    ensures UpdateRows(rows, p) == rows
  {
  }

  lemma {:induction false} UpdateKeepsKeys(rows: seq<Product>, p: Product, next: int)
    requires ProductKeys(rows, next)
    ensures ProductKeys(UpdateRows(rows, p), next)
    decreases |rows|
  {
    if rows != [] {
      var init := rows[..|rows| - 1];
      assert UpdateRows(rows, p)[..|rows| - 1] == UpdateRows(init, p);
      UpdateKeepsKeys(init, p, rows[|rows| - 1].ID);
    }
  }

  lemma {:induction false} FindAppended(rows: seq<Product>, row: Product)
    requires forall q :: q in rows ==> q.ID != row.ID
    ensures FindProduct(rows + [row], row.ID) == Some(row)
    decreases |rows|
  {
    if rows != [] {
      assert (rows + [row])[1..] == rows[1..] + [row];
      FindAppended(rows[1..], row);
    }
  }

  /** Round trip: the row a create inserts is the one a later get by the new id returns. */
  lemma CreateThenGet(rows: seq<Product>, p: Product, next: int, now: Time)
    requires ProductKeys(rows, next)
    ensures FindProduct(rows + [ProductRow(p, next, now)], next) == Some(ProductRow(p, next, now))
  {
    ProductKeysBelow(rows, next);
    FindAppended(rows, ProductRow(p, next, now));
  }

  /** After an update of an existing row, a get returns the new payload with
      the row's id and timestamps. */
  lemma {:induction false} UpdateThenGet(rows: seq<Product>, p: Product)
    requires FindProduct(rows, p.ID).Some?
    ensures FindProduct(UpdateRows(rows, p), p.ID) == Some(WithPayload(FindProduct(rows, p.ID).value, p))
    decreases |rows|
  {
    var u := UpdateRows(rows, p);
    if rows[0].ID != p.ID {
      assert u[1..] == UpdateRows(rows[1..], p);
      UpdateThenGet(rows[1..], p);
    }
  }

  // ---------------------------------------------------------------------------
  // The outcome of CreateOrder, as a function of the oracle. `b` is the index
  // of the begin call and `n` the number of items; the order INSERT is call
  // b + 1, the INSERT of item k is call b + 2 + k, then comes the commit
  // (b + n + 2) or, after the first failed INSERT, the rollback.

  /** The error the item loop returns. */
  function ItemsError(faults: Oracle, lo: nat, n: nat): (e: Option<Error>)
  {
    match FirstFault(faults, lo, n)
    case None => None
    case Some(j) => Some(Wrapped(CreatingOrderItem, InsertError(InsertingOrderItem, faults[j])))
  }

  /** How many item rows the loop writes. */
  function ItemsWritten(faults: Oracle, lo: nat, n: nat): (m: nat)
    ensures m <= n
  {
    match FirstFault(faults, lo, n)
    case None => n
    case Some(j) => j - lo + (if CallFails(faults, j) then 0 else 1)
  }

  /** How many driver calls the loop makes. */
  function ItemsCalls(faults: Oracle, lo: nat, n: nat): (c: nat)
  {
    match FirstFault(faults, lo, n)
    case None => n
    case Some(j) => j - lo + 1
  }

  /** The error the transaction body (the closure passed to execTx) returns
      when its first call is `lo`: the order INSERT's, else the loop's. */
  function BodyError(faults: Oracle, lo: nat, n: nat): (e: Option<Error>)
  {
    if lo in faults then Some(Wrapped(CreatingOrder, InsertError(InsertingOrder, faults[lo])))
    else ItemsError(faults, lo + 1, n)
  }

  /** How many rows the body writes (the order row counts as one). */
  function BodyRows(faults: Oracle, lo: nat, n: nat): (m: nat)
    ensures m <= n + 1
  {
    if lo in faults then (if CallFails(faults, lo) then 0 else 1)
    else 1 + ItemsWritten(faults, lo + 1, n)
  }

  /** How many driver calls the body makes. */
  function BodyCalls(faults: Oracle, lo: nat, n: nat): (c: nat)
  {
    if lo in faults then 1 else 1 + ItemsCalls(faults, lo + 1, n)
  }

  /** The body fails exactly when one of its n + 1 INSERTs does. */
  lemma BodyFailsIff(faults: Oracle, lo: nat, n: nat)
    ensures BodyError(faults, lo, n).None? <==> forall k :: lo <= k < lo + n + 1 ==> k !in faults
  {
    FirstFaultNone(faults, lo + 1, n);
  }

  /** The call at which execTx commits or rolls back. */
  function EndCall(faults: Oracle, b: nat, n: nat): (e: nat)
  {
    b + 1 + BodyCalls(faults, b + 1, n)
  }

  /** The error execTx returns; `None` is success. */
  function TxError(faults: Oracle, b: nat, n: nat): (err: Option<Error>)
  {
    var e := EndCall(faults, b, n);
    if CallFails(faults, b) then Some(Wrapped(BeginningTx, DriverError(faults[b].code)))
    else if BodyError(faults, b + 1, n).Some? then
      if CallFails(faults, e) then Some(Wrapped(RollingBackTx, DriverError(faults[e].code)))
      else Some(Wrapped(ExecutingTx, BodyError(faults, b + 1, n).value))
    else if CallFails(faults, e) then Some(Wrapped(CommittingTx, DriverError(faults[e].code)))
    else None
  }

  /** How many driver calls execTx makes. */
  function TxCalls(faults: Oracle, b: nat, n: nat): (c: nat)
  {
    if CallFails(faults, b) then 1 else EndCall(faults, b, n) - b + 1
  }

  /** How many INSERTs execTx executes (their rows are undone unless it succeeds). */
  function TxRows(faults: Oracle, b: nat, n: nat): (m: nat)
  {
    if CallFails(faults, b) then 0 else BodyRows(faults, b + 1, n)
  }

  /** Whether createOrder reaches `o.ID = id`. */
  predicate OrderIdAssigned(faults: Oracle, b: nat)
  {
    !CallFails(faults, b) && b + 1 !in faults
  }

  /** execTx when BEGIN fails: fn never runs. */
  lemma TxBeginFails(faults: Oracle, b: nat, n: nat)
    requires CallFails(faults, b)
    ensures TxError(faults, b, n) == Some(Wrapped(BeginningTx, DriverError(faults[b].code)))
    ensures TxCalls(faults, b, n) == 1 && TxRows(faults, b, n) == 0 && !OrderIdAssigned(faults, b)
  {
  }

  /** execTx when fn fails: the rollback's error if it fails, else fn's. */
  lemma TxBodyFails(faults: Oracle, b: nat, n: nat)
    requires !CallFails(faults, b) && BodyError(faults, b + 1, n).Some?
    ensures var e := EndCall(faults, b, n);
      TxError(faults, b, n) == Some(
        if CallFails(faults, e) then Wrapped(RollingBackTx, DriverError(faults[e].code))
        else Wrapped(ExecutingTx, BodyError(faults, b + 1, n).value))
    ensures TxCalls(faults, b, n) == EndCall(faults, b, n) - b + 1
    ensures TxRows(faults, b, n) == BodyRows(faults, b + 1, n)
    ensures OrderIdAssigned(faults, b) <==> b + 1 !in faults
  {
  }

  /** execTx when fn succeeds: the commit decides. */
  lemma TxBodySucceeds(faults: Oracle, b: nat, n: nat)
    requires !CallFails(faults, b) && BodyError(faults, b + 1, n).None?
    ensures var e := EndCall(faults, b, n);
      TxError(faults, b, n) == if CallFails(faults, e) then Some(Wrapped(CommittingTx, DriverError(faults[e].code))) else None
    ensures TxCalls(faults, b, n) == EndCall(faults, b, n) - b + 1
    ensures TxRows(faults, b, n) == n + 1 && BodyRows(faults, b + 1, n) == n + 1
    ensures OrderIdAssigned(faults, b)
  {
  }

  /** execTx succeeds exactly when begin, every INSERT and the commit succeed. */
  lemma TxSucceedsIff(faults: Oracle, b: nat, n: nat)
    ensures TxError(faults, b, n).None? <==>
      (!CallFails(faults, b) && (forall k :: b + 1 <= k < b + n + 2 ==> k !in faults) && !CallFails(faults, b + n + 2))
  {
    BodyFailsIff(faults, b + 1, n);
  }

  /** A failed rollback replaces the body's error: the returned error wraps the
      rollback's driver error and not the body's. */
  lemma {:induction false} RollbackFailureMasksCause(faults: Oracle, b: nat, n: nat)
    requires !CallFails(faults, b) && BodyError(faults, b + 1, n).Some?
    requires CallFails(faults, EndCall(faults, b, n))
    ensures Wraps(TxError(faults, b, n).value, DriverError(faults[EndCall(faults, b, n)].code))
    ensures !Wraps(TxError(faults, b, n).value, BodyError(faults, b + 1, n).value)
  {
    var e := TxError(faults, b, n).value;
    var code := faults[EndCall(faults, b, n)].code;
    assert e == Wrapped(RollingBackTx, DriverError(code));
    assert Wraps(e.cause, DriverError(code));
    var be := BodyError(faults, b + 1, n).value;
    assert be.Wrapped? && be.context != RollingBackTx;
    assert !Wraps(DriverError(code), be);
  }

  /** When the rollback succeeds, the returned error wraps the error of the
      INSERT that failed: the order's, or that of item k. */
  lemma {:induction false} FailedInsertReported(faults: Oracle, b: nat, n: nat)
    requires !CallFails(faults, b) && BodyError(faults, b + 1, n).Some?
    requires !CallFails(faults, EndCall(faults, b, n))
    ensures b + 1 in faults ==> Wraps(TxError(faults, b, n).value, InsertError(InsertingOrder, faults[b + 1]))
    ensures b + 1 !in faults ==>
      var j := FirstFault(faults, b + 2, n).value;
      Wraps(TxError(faults, b, n).value, InsertError(InsertingOrderItem, faults[j]))
  {
    var e := TxError(faults, b, n).value;
    var be := BodyError(faults, b + 1, n).value;
    assert e == Wrapped(ExecutingTx, be);
    assert Wraps(be.cause, be.cause);
    assert Wraps(be, be.cause);
  }

  // ---------------------------------------------------------------------------

  class MySQLStorer {
    /** The failure oracle: which driver calls fail, and how. */
    const faults: Oracle
    /** The server's clock at each driver call: the value the schema's
        `created_at` default gives a row inserted by that call. */
    const clock: nat -> Time

    var calls: nat
    var products: seq<Product>
    var orders: seq<OrderRow>
    var orderItems: seq<OrderItem>
    var nextProductId: int
    var nextOrderId: int
    var nextItemId: int
    /** The snapshot `Begin` takes, while a transaction is open. */
    var saved: Option<Tables>

    function Snapshot(): Tables
      reads this
    {
      Tables(products, orders, orderItems)
    }

    /** Between operations: no open transaction, primary keys well formed. */
    ghost predicate Valid()
      reads this
    {
      saved.None? && TablesValid(Snapshot(), nextProductId, nextOrderId, nextItemId)
    }

    /** NewMySQLStorer wraps a handle to a database that may already hold
        rows and have used ids: `t` and the three counters. */
    constructor (faults: Oracle, clock: nat -> Time, t: Tables, nextProduct: int, nextOrder: int, nextItem: int)
      requires TablesValid(t, nextProduct, nextOrder, nextItem)
      ensures Valid()
      ensures this.faults == faults && this.clock == clock && calls == 0
      ensures Snapshot() == t
      ensures nextProductId == nextProduct && nextOrderId == nextOrder && nextItemId == nextItem
    {
      this.faults := faults;
      this.clock := clock;
      calls := 0;
      products, orders, orderItems := t.products, t.orders, t.orderItems;
      nextProductId, nextOrderId, nextItemId := nextProduct, nextOrder, nextItem;
      saved := None;
    }

    // -------------------------------------------------------------------------
    // Single-row product operations

    method CreateProduct(p: ProductRef) returns (r: Result<ProductRef, Error>)
      requires Valid()
      modifies this, p
      ensures Valid() && calls == old(calls) + 1
      ensures orders == old(orders) && orderItems == old(orderItems)
      ensures nextOrderId == old(nextOrderId) && nextItemId == old(nextItemId)
      ensures CallFails(faults, old(calls)) ==>
        && r == Failure(Wrapped(InsertingProduct, DriverError(faults[old(calls)].code)))
        && products == old(products) && nextProductId == old(nextProductId) && p.v == old(p.v)
      ensures !CallFails(faults, old(calls)) ==>
        && products == old(products) + [ProductRow(old(p.v), old(nextProductId), clock(old(calls)))]
        && nextProductId == old(nextProductId) + 1
      ensures !CallFails(faults, old(calls)) && old(calls) in faults ==>
        r == Failure(Wrapped(GettingLastInsertId, DriverError(faults[old(calls)].code))) && p.v == old(p.v)
      ensures old(calls) !in faults ==> r == Success(p) && p.v == old(p.v).(ID := old(nextProductId))
    {
      var k := calls;
      calls := calls + 1;
      if CallFails(faults, k) {
        return Failure(Wrapped(InsertingProduct, DriverError(faults[k].code)));
      }
      var id := nextProductId;
      ProductKeysAppend(products, ProductRow(p.v, id, clock(k)), id);
      products := products + [ProductRow(p.v, id, clock(k))];
      nextProductId := nextProductId + 1;
      if k in faults {
        return Failure(Wrapped(GettingLastInsertId, DriverError(faults[k].code)));
      }
      p.v := p.v.(ID := id);
      return Success(p);
    }

    method GetProduct(id: int) returns (r: Result<Product, Error>)
      requires Valid()
      modifies this`calls
      ensures calls == old(calls) + 1
      ensures CallFails(faults, old(calls)) ==> r == Failure(Wrapped(GettingProduct, DriverError(faults[old(calls)].code)))
      ensures !CallFails(faults, old(calls)) ==>
        r == match FindProduct(products, id)
             case Some(row) => Success(row)
             case None => Failure(Wrapped(GettingProduct, NoRows))
    {
      var k := calls;
      calls := calls + 1;
      if CallFails(faults, k) {
        return Failure(Wrapped(GettingProduct, DriverError(faults[k].code)));
      }
      var found := FindProduct(products, id);
      if found.None? {
        return Failure(Wrapped(GettingProduct, NoRows));
      }
      return Success(found.value);
    }

    method ListProducts() returns (r: Result<seq<Product>, Error>)
      requires Valid()
      modifies this`calls
      ensures calls == old(calls) + 1
      ensures r == if CallFails(faults, old(calls))
                   then Failure(Wrapped(ListingProducts, DriverError(faults[old(calls)].code)))
                   else Success(products)
    {
      var k := calls;
      calls := calls + 1;
      if CallFails(faults, k) {
        return Failure(Wrapped(ListingProducts, DriverError(faults[k].code)));
      }
      return Success(products);
    }

    /** Succeeds whether or not a row has `p.ID`; returns `p` itself, unchanged. */
    method UpdateProduct(p: ProductRef) returns (r: Result<ProductRef, Error>)
      requires Valid()
      modifies this`calls, this`products
      ensures Valid() && calls == old(calls) + 1
      ensures CallFails(faults, old(calls)) ==>
        r == Failure(Wrapped(UpdatingProduct, DriverError(faults[old(calls)].code))) && products == old(products)
      ensures !CallFails(faults, old(calls)) ==> r == Success(p) && products == UpdateRows(old(products), p.v)
    {
      var k := calls;
      calls := calls + 1;
      if CallFails(faults, k) {
        return Failure(Wrapped(UpdatingProduct, DriverError(faults[k].code)));
      }
      UpdateKeepsKeys(products, p.v, nextProductId);
      products := UpdateRows(products, p.v);
      return Success(p);
    }

    /** Succeeds whether or not a row has `id`. */
    method DeleteProduct(id: int) returns (err: Option<Error>)
      requires Valid()
      modifies this`calls, this`products
      ensures Valid() && calls == old(calls) + 1
      ensures CallFails(faults, old(calls)) ==>
        err == Some(Wrapped(DeletingProduct, DriverError(faults[old(calls)].code))) && products == old(products)
      ensures !CallFails(faults, old(calls)) ==> err == None && products == DeleteRows(old(products), id)
    {
      var k := calls;
      calls := calls + 1;
      if CallFails(faults, k) {
        return Some(Wrapped(DeletingProduct, DriverError(faults[k].code)));
      }
      DeleteKeepsKeys(products, id, nextProductId);
      products := DeleteRows(products, id);
      return None;
    }

    // -------------------------------------------------------------------------
    // Transaction primitives of the driver

    method Begin() returns (err: Option<Error>)
      requires saved.None?
      modifies this`calls, this`saved
      ensures calls == old(calls) + 1
      ensures CallFails(faults, old(calls)) ==> err == Some(DriverError(faults[old(calls)].code)) && saved.None?
      ensures !CallFails(faults, old(calls)) ==> err == None && saved == Some(Snapshot())
    {
      var k := calls;
      calls := calls + 1;
      if CallFails(faults, k) {
        return Some(DriverError(faults[k].code));
      }
      saved := Some(Snapshot());
      return None;
    }

    /** Restores the snapshot. A failed ROLLBACK ends the transaction all the
        same: the server discards work that was never committed. */
    method Rollback() returns (err: Option<Error>)
      requires saved.Some?
      modifies this`calls, this`saved, this`products, this`orders, this`orderItems
      ensures saved.None? && calls == old(calls) + 1
      ensures Snapshot() == old(saved.value)
      ensures err == if CallFails(faults, old(calls)) then Some(DriverError(faults[old(calls)].code)) else None
    {
      var k := calls;
      calls := calls + 1;
      var t := saved.value;
      products, orders, orderItems := t.products, t.orders, t.orderItems;
      saved := None;
      if CallFails(faults, k) {
        return Some(DriverError(faults[k].code));
      }
      return None;
    }

    /** Makes the working tables permanent; a failed COMMIT leaves the snapshot. */
    method Commit() returns (err: Option<Error>)
      requires saved.Some?
      modifies this`calls, this`saved, this`products, this`orders, this`orderItems
      ensures saved.None? && calls == old(calls) + 1
      ensures CallFails(faults, old(calls)) ==> err == Some(DriverError(faults[old(calls)].code)) && Snapshot() == old(saved.value)
      ensures !CallFails(faults, old(calls)) ==> err == None && Snapshot() == old(Snapshot())
    {
      var k := calls;
      calls := calls + 1;
      if CallFails(faults, k) {
        var t := saved.value;
        products, orders, orderItems := t.products, t.orders, t.orderItems;
        saved := None;
        return Some(DriverError(faults[k].code));
      }
      saved := None;
      return None;
    }

    // -------------------------------------------------------------------------
    // The order writer

    /** createOrder: inserts the `orders` row and writes the id through the pointer. */
    method InsertOrder(o: OrderRef) returns (r: Result<OrderRef, Error>)
      requires saved.Some?
      modifies this`calls, this`orders, this`nextOrderId, o
      ensures saved.Some? && calls == old(calls) + 1
      ensures CallFails(faults, old(calls)) ==>
        && r == Failure(InsertError(InsertingOrder, faults[old(calls)]))
        && orders == old(orders) && nextOrderId == old(nextOrderId) && o.v == old(o.v)
      ensures !CallFails(faults, old(calls)) ==>
        && orders == old(orders) + [OrderRowOf(old(o.v), old(nextOrderId), clock(old(calls)))]
        && nextOrderId == old(nextOrderId) + 1
      ensures !CallFails(faults, old(calls)) && old(calls) in faults ==>
        r == Failure(InsertError(InsertingOrder, faults[old(calls)])) && o.v == old(o.v)
      ensures old(calls) !in faults ==> r == Success(o) && o.v == old(o.v).(ID := old(nextOrderId))
    {
      var k := calls;
      calls := calls + 1;
      if CallFails(faults, k) {
        return Failure(Wrapped(InsertingOrder, DriverError(faults[k].code)));
      }
      var id := nextOrderId;
      orders := orders + [OrderRowOf(o.v, id, clock(k))];
      nextOrderId := nextOrderId + 1;
      if k in faults {
        return Failure(Wrapped(GettingLastInsertId, DriverError(faults[k].code)));
      }
      o.v := o.v.(ID := id);
      return Success(o);
    }

    /** createOrderItem: `oi` is a copy, so the id it learns is lost on return. */
    method InsertOrderItem(oi: OrderItem) returns (err: Option<Error>)
      requires saved.Some?
      modifies this`calls, this`orderItems, this`nextItemId
      ensures saved.Some? && calls == old(calls) + 1
      ensures CallFails(faults, old(calls)) ==>
        && err == Some(InsertError(InsertingOrderItem, faults[old(calls)]))
        && orderItems == old(orderItems) && nextItemId == old(nextItemId)
      ensures !CallFails(faults, old(calls)) ==>
        && orderItems == old(orderItems) + [oi.(ID := old(nextItemId))]
        && nextItemId == old(nextItemId) + 1
        && err == (if old(calls) in faults then Some(InsertError(InsertingOrderItem, faults[old(calls)])) else None)
    {
      var k := calls;
      calls := calls + 1;
      if CallFails(faults, k) {
        return Some(Wrapped(InsertingOrderItem, DriverError(faults[k].code)));
      }
      var id := nextItemId;
      orderItems := orderItems + [oi.(ID := id)];
      nextItemId := nextItemId + 1;
      if k in faults {
        return Some(Wrapped(GettingLastInsertId, DriverError(faults[k].code)));
      }
      // `oi.ID = id` writes the callee's copy of the item, which no caller sees.
      return None;
    }

    /** The loop of the closure: one INSERT per item, each a copy of the
        element with `OrderID` set, stopping at the first failure. */
    method InsertItems(items: seq<OrderItem>, orderId: int) returns (err: Option<Error>)
      requires saved.Some?
      modifies this`calls, this`orderItems, this`nextItemId
      ensures saved.Some?
      ensures var lo := old(calls); var n := |items|; var m := ItemsWritten(faults, lo, n);
        && err == ItemsError(faults, lo, n)
        && calls == lo + ItemsCalls(faults, lo, n)
        && orderItems == old(orderItems) + ItemRows(items[..m], orderId, old(nextItemId))
        && nextItemId == old(nextItemId) + m
    {
      ghost var lo := calls;
      ghost var before := orderItems;
      ghost var firstId := nextItemId;
      var k := 0;
      while k < |items|
        invariant 0 <= k <= |items|
        invariant saved.Some?
        invariant calls == lo + k
        invariant forall i :: lo <= i < lo + k ==> i !in faults
        invariant orderItems == before + ItemRows(items[..k], orderId, firstId)
        invariant nextItemId == firstId + k
      {
        var item := items[k];
        item := item.(OrderID := orderId);
        err := InsertOrderItem(item);
        ghost var row := items[k].(ID := firstId + k, OrderID := orderId);
        ItemRowsSnoc(items[..k], items[k], orderId, firstId);
        assert items[..k + 1] == items[..k] + [items[k]];
        if err.Some? {
          FirstFaultIsLeast(faults, lo, |items|, lo + k);
          if !CallFails(faults, lo + k) {
            assert orderItems == (before + ItemRows(items[..k], orderId, firstId)) + [row];
          }
          return Some(Wrapped(CreatingOrderItem, err.value));
        }
        assert orderItems == (before + ItemRows(items[..k], orderId, firstId)) + [row];
        k := k + 1;
      }
      assert items[..k] == items;
      FirstFaultNone(faults, lo, |items|);
      return None;
    }

    /** The closure CreateOrder hands to execTx: the order row, then the item rows. */
    method OrderTxBody(o: OrderRef) returns (err: Option<Error>)
      requires saved.Some?
      modifies this`calls, this`orders, this`orderItems, this`nextOrderId, this`nextItemId, o
      ensures saved.Some? && saved == old(saved) && products == old(products)
      ensures var lo := old(calls); var n := |old(o.v.Items)|; var m := BodyRows(faults, lo, n);
        && err == BodyError(faults, lo, n)
        && calls == lo + BodyCalls(faults, lo, n)
        && orders == old(orders) + (if m > 0 then [OrderRowOf(old(o.v), old(nextOrderId), clock(old(calls)))] else [])
        && nextOrderId == old(nextOrderId) + (if m > 0 then 1 else 0)
        && orderItems == old(orderItems) + ItemRows(old(o.v.Items)[..if m > 0 then m - 1 else 0], old(nextOrderId), old(nextItemId))
        && nextItemId == old(nextItemId) + (if m > 0 then m - 1 else 0)
      ensures o.v == old(o.v).(ID := if old(calls) !in faults then old(nextOrderId) else old(o.v.ID))
    {
      ghost var items := o.v.Items;
      var order := InsertOrder(o);
      if order.Failure? {
        assert items[..0] == [];
        return Some(Wrapped(CreatingOrder, order.error));
      }
      err := InsertItems(o.v.Items, order.value.v.ID);
      if err.Some? {
        return err;
      }
      return None;
    }

    /** execTx, with the order writer's closure as `fn`. */
    method ExecTx(o: OrderRef) returns (err: Option<Error>)
      requires saved.None?
      modifies this, o
      ensures saved.None?
      ensures var b := old(calls); var n := |old(o.v.Items)|; var m := TxRows(faults, b, n);
        && err == TxError(faults, b, n)
        && calls == b + TxCalls(faults, b, n)
        && nextProductId == old(nextProductId)
        && nextOrderId == old(nextOrderId) + (if m > 0 then 1 else 0)
        && nextItemId == old(nextItemId) + (if m > 0 then m - 1 else 0)
        && o.v == old(o.v).(ID := if OrderIdAssigned(faults, b) then old(nextOrderId) else old(o.v.ID))
      ensures err.Some? ==> Snapshot() == old(Snapshot())
      ensures err.None? ==>
        && products == old(products)
        && nextOrderId == old(nextOrderId) + 1 && nextItemId == old(nextItemId) + |old(o.v.Items)|
        && orders == old(orders) + [OrderRowOf(old(o.v), old(nextOrderId), clock(old(calls) + 1))]
        && orderItems == old(orderItems) + ItemRows(old(o.v.Items), old(nextOrderId), old(nextItemId))
    {
      ghost var b := calls;
      ghost var n := |o.v.Items|;
      ghost var items := o.v.Items;
      var beginErr := Begin();
      if beginErr.Some? {
        TxBeginFails(faults, b, n);
        return Some(Wrapped(BeginningTx, beginErr.value));
      }
      var fnErr := OrderTxBody(o);
      if fnErr.Some? {
        TxBodyFails(faults, b, n);
        var rbErr := Rollback();
        if rbErr.Some? {
          return Some(Wrapped(RollingBackTx, rbErr.value));
        }
        return Some(Wrapped(ExecutingTx, fnErr.value));
      }
      TxBodySucceeds(faults, b, n);
      assert items[..n] == items;
      var commitErr := Commit();
      if commitErr.Some? {
        return Some(Wrapped(CommittingTx, commitErr.value));
      }
      return None;
    }

    /** The order and all its items are written, or none of them. */
    method CreateOrder(o: OrderRef) returns (r: Result<OrderRef, Error>)
      requires Valid()
      modifies this, o
      ensures Valid()
      ensures var b := old(calls); var n := |old(o.v.Items)|; var m := TxRows(faults, b, n);
        && r == (match TxError(faults, b, n)
                 case None => Success(o)
                 case Some(e) => Failure(Wrapped(CreatingOrder, e)))
        && calls == b + TxCalls(faults, b, n)
        && nextProductId == old(nextProductId)
        && nextOrderId == old(nextOrderId) + (if m > 0 then 1 else 0)
        && nextItemId == old(nextItemId) + (if m > 0 then m - 1 else 0)
      // Atomicity: on failure no table changes.
      ensures r.Failure? ==> Snapshot() == old(Snapshot())
      // On success: one order row and one item row per item, in order, each
      // carrying the order's generated id.
      ensures r.Success? ==>
        && products == old(products)
        && orders == old(orders) + [OrderRowOf(old(o.v), o.v.ID, clock(old(calls) + 1))]
        && orderItems == old(orderItems) + ItemRows(old(o.v.Items), o.v.ID, old(nextItemId))
        && |orderItems| == |old(orderItems)| + |old(o.v.Items)|
        && orderItems[..|old(orderItems)|] == old(orderItems)
        && forall k :: 0 <= k < |old(o.v.Items)| ==>
             orderItems[|old(orderItems)| + k] == old(o.v.Items)[k].(ID := old(nextItemId) + k, OrderID := o.v.ID)
      // Go value semantics: only `o.ID` changes, and it stays set after a
      // rollback once the order row was inserted; `o.Items` is never touched.
      ensures o.v == old(o.v).(ID := o.v.ID) && o.v.Items == old(o.v.Items)
      ensures o.v.ID == if OrderIdAssigned(faults, old(calls)) then old(nextOrderId) else old(o.v.ID)
    {
      ghost var items := o.v.Items;
      ghost var before := orderItems;
      var err := ExecTx(o);
      if err.Some? {
        OrderKeysGrow(orders, old(nextOrderId), nextOrderId);
        ItemKeysGrow(orderItems, old(nextItemId), nextItemId);
        return Failure(Wrapped(CreatingOrder, err.value));
      }
      OrderKeysAppend(old(orders), OrderRowOf(old(o.v), old(nextOrderId), clock(old(calls) + 1)), old(nextOrderId));
      ItemKeysAppendRows(before, items, old(nextOrderId), old(nextItemId));
      TxSucceedsIff(faults, old(calls), |items|);
      assert orderItems == before + ItemRows(items, o.v.ID, old(nextItemId));
      assert orderItems[..|before|] == before;
      forall k | 0 <= k < |items|
        ensures orderItems[|before| + k] == items[k].(ID := old(nextItemId) + k, OrderID := o.v.ID)
      {
        ItemRowsAt(items, o.v.ID, old(nextItemId), k);
      }
      return Success(o);
    }
  }
}
