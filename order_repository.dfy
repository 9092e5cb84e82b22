/**
 * Queries over the flash-sale order table: the daily purchase guard and
 * the order lookup by id.
 */
module FlashSaleOrderRepository {
  import opened Domain

  /** The order is a completed order of the user on the given date. */
  predicate CompletedOn(o: FlashSaleOrder, userId: nat, date: int)
  {
    o.userId == userId && OrderDate(o) == date && o.status == Completed
  }

  /** The number of completed orders of the user on the given date. */
  function CountCompletedOn(orders: seq<FlashSaleOrder>, userId: nat, date: int): (n: nat)
    ensures n <= |orders|
    ensures n == 0 <==> forall i :: 0 <= i < |orders| ==> !CompletedOn(orders[i], userId, date)
  {
    if orders == [] then 0
    else
      var last := orders[|orders| - 1];
      CountCompletedOn(orders[..|orders| - 1], userId, date) + if CompletedOn(last, userId, date) then 1 else 0
  }

  /** The daily guard: the user already holds a completed order dated `orderDate`. */
  function ExistsByUserIdAndOrderDate(orders: seq<FlashSaleOrder>, userId: nat, orderDate: int): (b: bool)
    ensures b <==> exists i :: 0 <= i < |orders| && CompletedOn(orders[i], userId, orderDate)
  {
    CountCompletedOn(orders, userId, orderDate) > 0
  }

  /** Appending an order adds one to the count of exactly the pair it is a completed order for. */
  lemma {:induction false} CountCompletedOnAppend(orders: seq<FlashSaleOrder>, o: FlashSaleOrder, userId: nat, date: int)
    ensures CountCompletedOn(orders + [o], userId, date)
         == CountCompletedOn(orders, userId, date) + if CompletedOn(o, userId, date) then 1 else 0
  {
    assert (orders + [o])[..|orders|] == orders;
  }

  /**
   * After appending a completed order for (u, d) the guard holds for
   * (u, d); for every other pair it is what it was. Cancelled orders, and
   * orders of another user or date, never switch it on.
   */
  lemma {:induction false} GuardAfterAppend(orders: seq<FlashSaleOrder>, o: FlashSaleOrder, userId: nat, date: int)
    ensures ExistsByUserIdAndOrderDate(orders + [o], userId, date)
        <==> ExistsByUserIdAndOrderDate(orders, userId, date) || CompletedOn(o, userId, date)
    ensures o.status == Cancelled || o.userId != userId || OrderDate(o) != date ==>
              ExistsByUserIdAndOrderDate(orders + [o], userId, date) == ExistsByUserIdAndOrderDate(orders, userId, date)
  {
    CountCompletedOnAppend(orders, o, userId, date);
  }

  /**
   * The daily limit survives appending an order whose user holds no
   * completed order on its date yet.
   */
  lemma {:induction false} AppendKeepsOnePerUserPerDay(orders: seq<FlashSaleOrder>, o: FlashSaleOrder)
    requires forall u, d :: CountCompletedOn(orders, u, d) <= 1
    requires !ExistsByUserIdAndOrderDate(orders, o.userId, OrderDate(o))
    ensures forall u, d :: CountCompletedOn(orders + [o], u, d) <= 1
  {
    forall u, d ensures CountCompletedOn(orders + [o], u, d) <= 1 {
      CountCompletedOnAppend(orders, o, u, d);
    }
  }

  /** The number of completed orders placed against a flash-sale configuration. */
  function CountCompletedForConfig(orders: seq<FlashSaleOrder>, configId: nat): (n: nat)
    ensures n <= |orders|
  {
    if orders == [] then 0
    else
      var last := orders[|orders| - 1];
      CountCompletedForConfig(orders[..|orders| - 1], configId)
        + if last.flashSaleConfigId == configId && last.status == Completed then 1 else 0
  }

  lemma {:induction false} CountCompletedForConfigAppend(orders: seq<FlashSaleOrder>, o: FlashSaleOrder, configId: nat)
    ensures CountCompletedForConfig(orders + [o], configId)
         == CountCompletedForConfig(orders, configId) + if o.flashSaleConfigId == configId && o.status == Completed then 1 else 0
  {
    assert (orders + [o])[..|orders|] == orders;
  }

  /** The order with the given id, if any. */
  function FindById(orders: seq<FlashSaleOrder>, id: nat): (r: Option<FlashSaleOrder>)
    ensures r.Some? ==> r.value in orders && r.value.id == id
    ensures r.None? <==> forall i :: 0 <= i < |orders| ==> orders[i].id != id
  {
    if orders == [] then None
    else if orders[0].id == id then Some(orders[0])
    else FindById(orders[1..], id)
  }

  /** With generated ids (`orders[i].id == i + 1`), the lookup of id `i + 1` finds the order at `i`. */
  lemma {:induction false} FindByGeneratedId(orders: seq<FlashSaleOrder>, i: nat)
    requires i < |orders|
    requires forall j :: 0 <= j < |orders| ==> orders[j].id == j + 1
    ensures FindById(orders, i + 1) == Some(orders[i])
  {
    var r := FindById(orders, i + 1);
    assert orders[i].id == i + 1;
    var j :| 0 <= j < |orders| && orders[j] == r.value;
  }
}
