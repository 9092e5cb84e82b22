/**
 * Inventory reconciliation after a flash-sale order: record one audit row
 * for the stock decrement, keyed by the order, at most once per order.
 */
module InventorySyncService {
  import opened Domain
  import opened FlashSaleOrderRepository
  import opened InventorySyncLogRepository
  import opened FlashSaleStore

  const FlashSaleOrderSyncType: string := "FLASH_SALE_ORDER"

  // ---------------------------------------------------------------------
  // The reference key "ORDER_" + orderId

  /** The value of a string of decimal digits, read left to right. */
  function NumeralValue(s: string): int
  {
    if s == [] then 0 else 10 * NumeralValue(s[..|s| - 1]) + (s[|s| - 1] as int - '0' as int)
  }

  /** The decimal numeral of `n`, without sign or leading zeros. */
  function DecimalDigits(n: nat): (s: string)
    ensures 1 <= |s|
    ensures n >= 10 ==> 2 <= |s|
    ensures forall i :: 0 <= i < |s| ==> '0' <= s[i] <= '9'
    ensures NumeralValue(s) == n
    ensures s[0] == '0' <==> n == 0
  {
    if n < 10 then [DigitChar(n)]
    else
      var high := DecimalDigits(n / 10);
      assert (high + [DigitChar(n % 10)])[..|high|] == high;
      high + [DigitChar(n % 10)]
  }

  /** Different numbers have different numerals. */
  lemma {:induction false} DecimalDigitsInjective(a: nat, b: nat)
    requires DecimalDigits(a) == DecimalDigits(b)
    ensures a == b
  {
    var s := DecimalDigits(a);
    if a >= 10 && b >= 10 {
      assert s[|s| - 1] == DigitChar(a % 10) == DigitChar(b % 10);
      assert s[..|s| - 1] == DecimalDigits(a / 10) == DecimalDigits(b / 10);
      DecimalDigitsInjective(a / 10, b / 10);
    } else if a < 10 && b < 10 {
      assert s[0] == DigitChar(a) == DigitChar(b);
    }
  }

  /** The audit reference of an order. */
  function ReferenceId(orderId: nat): (r: string)
    ensures 7 <= |r| && r[..6] == "ORDER_"
    ensures forall i :: 6 <= i < |r| ==> '0' <= r[i] <= '9'
    ensures NumeralValue(r[6..]) == orderId
    ensures orderId != 0 ==> r[6] != '0'
  {
    var digits := DecimalDigits(orderId);
    assert ("ORDER_" + digits)[6..] == digits;
    "ORDER_" + digits
  }

  /** Distinct orders have distinct references, so the key identifies the order. */
  lemma {:induction false} ReferenceIdInjective(a: nat, b: nat)
    requires ReferenceId(a) == ReferenceId(b)
    ensures a == b
  {
    var p := "ORDER_";
    assert DecimalDigits(a) == ReferenceId(a)[|p|..];
    assert DecimalDigits(b) == ReferenceId(b)[|p|..];
    DecimalDigitsInjective(a, b);
  }

  // ---------------------------------------------------------------------
  // What one reconciliation does

  datatype SyncOutcome = AlreadySynced | SkippedNotCompleted | Synced

  datatype SyncError = ProductNotFound(productId: nat) | OrderNotFound(orderId: nat)

  datatype SyncResult = SyncResult(outcome: Result<SyncOutcome, SyncError>, logs: seq<InventorySyncLog>)

  /**
   * The effect of reconciling `orderId` on the audit trail `logs`: nothing
   * when a row for the order exists (checked first), an error when the
   * product or the order is missing (the product is looked up first),
   * nothing for an order that is not completed, and otherwise one
   * appended row describing a decrement by one from the product's current
   * stock.
   */
  function SyncStep(logs: seq<InventorySyncLog>, products: map<nat, Product>, orders: seq<FlashSaleOrder>,
                    orderId: nat, productId: nat): (r: SyncResult)
    ensures r.outcome == Success(Synced) || r.logs == logs
    ensures r.outcome == Success(Synced) ==>
      && !ExistsBySyncTypeAndReferenceId(logs, FlashSaleOrderSyncType, ReferenceId(orderId))
      && productId in products
      && FindById(orders, orderId).Some? && FindById(orders, orderId).value.status == Completed
      && |r.logs| == |logs| + 1 && r.logs[..|logs|] == logs
      && r.logs[|logs|].productId == productId
      && r.logs[|logs|].quantityChange == -1
      && r.logs[|logs|].stockAfter == products[productId].stockQuantity
      && r.logs[|logs|].stockBefore == r.logs[|logs|].stockAfter + 1
      && r.logs[|logs|].syncType == FlashSaleOrderSyncType
      && r.logs[|logs|].referenceId == ReferenceId(orderId)
    ensures r.outcome == Success(AlreadySynced) <==>
      ExistsBySyncTypeAndReferenceId(logs, FlashSaleOrderSyncType, ReferenceId(orderId))
    ensures r.outcome == Success(SkippedNotCompleted) <==>
      !ExistsBySyncTypeAndReferenceId(logs, FlashSaleOrderSyncType, ReferenceId(orderId)) && productId in products
      && FindById(orders, orderId).Some? && FindById(orders, orderId).value.status != Completed
    ensures r.outcome == Failure(ProductNotFound(productId)) <==>
      !ExistsBySyncTypeAndReferenceId(logs, FlashSaleOrderSyncType, ReferenceId(orderId)) && productId !in products
    ensures r.outcome == Failure(OrderNotFound(orderId)) <==>
      !ExistsBySyncTypeAndReferenceId(logs, FlashSaleOrderSyncType, ReferenceId(orderId)) && productId in products
      && FindById(orders, orderId).None?
  {
    var referenceId := ReferenceId(orderId);
    if ExistsBySyncTypeAndReferenceId(logs, FlashSaleOrderSyncType, referenceId) then
      SyncResult(Success(AlreadySynced), logs)
    else if productId !in products then
      SyncResult(Failure(ProductNotFound(productId)), logs)
    else
      match FindById(orders, orderId)
      case None => SyncResult(Failure(OrderNotFound(orderId)), logs)
      case Some(order) =>
        if order.status != Completed then
          SyncResult(Success(SkippedNotCompleted), logs)
        else
          var stock := products[productId].stockQuantity;
          SyncResult(Success(Synced),
                     logs + [InventorySyncLog(productId, -1, stock + 1, stock, FlashSaleOrderSyncType, referenceId)])
  }

  /**
   * Reconciling the same order again changes nothing: the second call
   * leaves the trail as the first left it, and after a first call that
   * recorded (or found) the row the second reports it as already synced.
   */
  lemma {:induction false} SyncStepIdempotent(logs: seq<InventorySyncLog>, products: map<nat, Product>,
                                               orders: seq<FlashSaleOrder>, orderId: nat, productId: nat)
    ensures var first := SyncStep(logs, products, orders, orderId, productId);
            var second := SyncStep(first.logs, products, orders, orderId, productId);
            && second.logs == first.logs
            && (first.outcome == Success(Synced) || first.outcome == Success(AlreadySynced) ==>
                  second.outcome == Success(AlreadySynced))
  {
    var first := SyncStep(logs, products, orders, orderId, productId);
    if first.outcome == Success(Synced) {
      var row := first.logs[|logs|];
      assert first.logs == logs + [row];
      CountAfterAppend(logs, row, FlashSaleOrderSyncType, ReferenceId(orderId));
    }
  }

  /**
   * With (type, reference) unique on the trail beforehand, it stays
   * unique, and after a successful call exactly one row carries the
   * order's reference.
   */
  lemma {:induction false} SyncStepKeepsOneRowPerReference(logs: seq<InventorySyncLog>, products: map<nat, Product>,
                                                            orders: seq<FlashSaleOrder>, orderId: nat, productId: nat)
    requires forall t, ref :: CountBySyncTypeAndReferenceId(logs, t, ref) <= 1
    ensures var r := SyncStep(logs, products, orders, orderId, productId);
            && (forall t, ref :: CountBySyncTypeAndReferenceId(r.logs, t, ref) <= 1)
            && (r.outcome == Success(Synced) || r.outcome == Success(AlreadySynced) ==>
                  CountBySyncTypeAndReferenceId(r.logs, FlashSaleOrderSyncType, ReferenceId(orderId)) == 1)
  {
    var r := SyncStep(logs, products, orders, orderId, productId);
    if r.outcome == Success(Synced) {
      var row := r.logs[|logs|];
      assert r.logs == logs + [row];
      forall t, ref ensures CountBySyncTypeAndReferenceId(r.logs, t, ref) <= 1 {
        CountAfterAppend(logs, row, t, ref);
      }
      CountAfterAppend(logs, row, FlashSaleOrderSyncType, ReferenceId(orderId));
    }
  }

  /** Calling twice for one order leaves exactly one row for it on a trail that had none. */
  lemma {:induction false} SyncTwiceLeavesOneRow(logs: seq<InventorySyncLog>, products: map<nat, Product>,
                                                  orders: seq<FlashSaleOrder>, orderId: nat, productId: nat)
    requires forall t, ref :: CountBySyncTypeAndReferenceId(logs, t, ref) <= 1
    requires SyncStep(logs, products, orders, orderId, productId).outcome == Success(Synced)
    ensures var first := SyncStep(logs, products, orders, orderId, productId);
            var second := SyncStep(first.logs, products, orders, orderId, productId);
            CountBySyncTypeAndReferenceId(second.logs, FlashSaleOrderSyncType, ReferenceId(orderId)) == 1
  {
    SyncStepIdempotent(logs, products, orders, orderId, productId);
    SyncStepKeepsOneRowPerReference(logs, products, orders, orderId, productId);
  }

  /**
   * Reconciling an order that exists cannot fail while its product
   * exists; for a completed order with no row yet it appends exactly the
   * decrement row for it.
   */
  lemma {:induction false} SyncOfRecordedOrder(logs: seq<InventorySyncLog>, products: map<nat, Product>,
                                                orders: seq<FlashSaleOrder>, orderId: nat, productId: nat)
    requires productId in products && FindById(orders, orderId).Some?
    ensures SyncStep(logs, products, orders, orderId, productId).outcome.Success?
    ensures var stock := products[productId].stockQuantity;
      FindById(orders, orderId).value.status == Completed
      && !ExistsBySyncTypeAndReferenceId(logs, FlashSaleOrderSyncType, ReferenceId(orderId)) ==>
      SyncStep(logs, products, orders, orderId, productId).logs
        == logs + [InventorySyncLog(productId, -1, stock + 1, stock, FlashSaleOrderSyncType, ReferenceId(orderId))]
  {
  }

  /**
   * The reconciliation a purchase runs on the order it has just appended
   * under the next id: it cannot fail, and it appends exactly the
   * decrement row for the order unless one is already there.
   */
  lemma {:induction false} SyncAfterPurchase(logs: seq<InventorySyncLog>, products: map<nat, Product>,
                                             orders: seq<FlashSaleOrder>, order: FlashSaleOrder, productId: nat)
    requires forall i :: 0 <= i < |orders| ==> orders[i].id == i + 1
    requires order.id == |orders| + 1 && order.status == Completed
    requires productId in products
    ensures var r := SyncStep(logs, products, orders + [order], order.id, productId);
            var stock := products[productId].stockQuantity;
            var key := ReferenceId(order.id);
      && r.outcome.Success?
      && (ExistsBySyncTypeAndReferenceId(logs, FlashSaleOrderSyncType, key) ==> r.logs == logs)
      && (!ExistsBySyncTypeAndReferenceId(logs, FlashSaleOrderSyncType, key) ==>
            r.logs == logs + [InventorySyncLog(productId, -1, stock + 1, stock, FlashSaleOrderSyncType, key)])
  {
    var orders' := orders + [order];
    assert forall i :: 0 <= i < |orders'| ==> orders'[i].id == i + 1;
    FindByGeneratedId(orders', |orders|);
    SyncOfRecordedOrder(logs, products, orders', order.id, productId);
  }

  // ---------------------------------------------------------------------
  // The service operation

  /**
   * Reconciles `orderId`: appends to the audit trail exactly what
   * `SyncStep` describes and changes no other table.
   */
  method SyncInventoryForOrder(store: Store, orderId: nat, productId: nat) returns (outcome: Result<SyncOutcome, SyncError>)
    requires store.Valid()
    modifies store`syncLogs
    ensures store.Valid()
    ensures SyncResult(outcome, store.syncLogs)
         == SyncStep(old(store.syncLogs), store.products, store.orders, orderId, productId)
  {
    var referenceId := ReferenceId(orderId);
    if ExistsBySyncTypeAndReferenceId(store.syncLogs, FlashSaleOrderSyncType, referenceId) {
      return Success(AlreadySynced);
    }
    if productId !in store.products {
      return Failure(ProductNotFound(productId));
    }
    var product := store.products[productId];
    var order := FindById(store.orders, orderId);
    if order.None? {
      return Failure(OrderNotFound(orderId));
    }
    if order.value.status != Completed {
      return Success(SkippedNotCompleted);
    }
    var stockBefore := product.stockQuantity + 1;
    var stockAfter := product.stockQuantity;
    var quantityChange := -1;
    SyncStepKeepsOneRowPerReference(store.syncLogs, store.products, store.orders, orderId, productId);
    store.syncLogs := store.syncLogs
      + [InventorySyncLog(productId, quantityChange, stockBefore, stockAfter, FlashSaleOrderSyncType, referenceId)];
    outcome := Success(Synced);
  }

  /** The stock figures of the test case: on-hand 99 is recorded as 100 before and 99 after. */
  lemma StockFiguresExample(logs: seq<InventorySyncLog>, orders: seq<FlashSaleOrder>, p: Product)
    requires p.stockQuantity == 99
    requires SyncStep(logs, map[p.id := p], orders, 1, p.id).outcome == Success(Synced)
    ensures var row := SyncStep(logs, map[p.id := p], orders, 1, p.id).logs[|logs|];
            row.stockBefore == 100 && row.stockAfter == 99 && row.quantityChange == -1 && row.referenceId == "ORDER_1"
  {
  }
}
