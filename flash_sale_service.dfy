/**
 * The flash-sale service: the listing of the sales running now, and the
 * purchase, whose admission checks run in a fixed order before any state
 * is written and whose four writes (balance, sold count, stock, order)
 * are followed by the inventory reconciliation of the new order.
 */
module FlashSaleService {
  import opened Domain
  import opened FlashSaleConfigEntity
  import opened FlashSaleConfigRepository
  import opened FlashSaleOrderRepository
  import UserDetailsService
  import opened FlashSaleStore
  import opened InventorySyncService

  // ---------------------------------------------------------------------
  // Decimal rounding

  function Abs(x: int): nat
  {
    if x < 0 then -x else x
  }

  /**
   * The quotient `n / d` rounded to an integer in the HALF_UP mode of
   * decimal arithmetic: to the nearest integer, and a tie away from zero.
   */
  function RoundHalfUp(n: int, d: int): (q: int)
    requires d != 0
    ensures 2 * Abs(d) * Abs(q) - Abs(d) <= 2 * Abs(n) < 2 * Abs(d) * Abs(q) + Abs(d)
    ensures (n >= 0) == (d > 0) ==> q >= 0
    ensures (n >= 0) != (d > 0) ==> q <= 0
  {
    var a, b := Abs(n), Abs(d);
    var m := (2 * a + b) / (2 * b);
    DivBounds(2 * a + b, 2 * b);
    if (n >= 0) == (d > 0) then m else -m
  }

  lemma DivBounds(x: nat, y: nat)
    requires y > 0
    ensures x / y >= 0
    ensures y * (x / y) <= x < y * (x / y) + y
  {
  }

  /** Multiplying a larger factor by a positive number gives a product larger by at least that number. */
  lemma {:induction false} MulStep(y: int, a: int, b: int)
    requires y > 0 && a < b
    ensures y * a + y <= y * b
    decreases b - a
  {
    if b > a + 1 {
      MulStep(y, a, b - 1);
    }
  }

  /** The quotient of Euclidean division by a positive divisor is fixed by the bounds of the remainder. */
  lemma {:induction false} DivisionUnique(n: nat, y: nat, q: int)
    requires y > 0 && y * q <= n < y * q + y
    ensures n / y == q
  {
    var r := n / y;
    DivBounds(n, y);
    if r < q {
      MulStep(y, r, q);
    } else if q < r {
      MulStep(y, q, r);
    }
  }

  /** The sign and the magnitude of a product with a positive factor. */
  lemma {:induction false} ProductByPositive(x: int, d: int)
    requires d > 0
    ensures (x * d >= 0) == (x >= 0)
    ensures Abs(x * d) == Abs(x) * d
  {
    if x < 0 {
      MulStep(d, x, 0);
      assert x * d == -(Abs(x) * d);
    }
  }

  /** Adding half the divisor to an exact multiple does not reach the next quotient. */
  lemma {:induction false} HalfUpOfMultiple(a: nat, m: nat, d: int)
    requires d > 0 && a == m * d
    ensures (2 * a + d) / (2 * d) == m
  {
    assert (2 * d) * m == 2 * a;
    DivisionUnique(2 * a + d, 2 * d, m);
  }

  /** Rounding an exact multiple of the divisor gives the multiple back. */
  lemma {:induction false} RoundHalfUpExact(x: int, d: int)
    requires d > 0
    ensures RoundHalfUp(x * d, d) == x
  {
    ProductByPositive(x, d);
    HalfUpOfMultiple(Abs(x * d), Abs(x), d);
  }

  /**
   * The discount in hundredths of a percent: (regular - flash) / regular
   * rounded HALF_UP to four places, multiplied by 100 (which keeps the
   * four places), then set to two places HALF_UP. The second rounding
   * never changes the value.
   */
  function DiscountPercentage(regularPrice: int, flashPrice: int): (hundredths: int)
    requires regularPrice != 0
    ensures hundredths == RoundHalfUp(10000 * (regularPrice - flashPrice), regularPrice)
  {
    var ratio := RoundHalfUp(10000 * (regularPrice - flashPrice), regularPrice);
    var percent := ratio * 100;
    RoundHalfUpExact(ratio, 100);
    RoundHalfUp(percent, 100)
  }

  /** A flash price between zero and the regular price gives a discount between 0% and 100%. */
  lemma {:induction false} DiscountWithinRange(regularPrice: int, flashPrice: int)
    requires 0 <= flashPrice <= regularPrice && regularPrice > 0
    ensures 0 <= DiscountPercentage(regularPrice, flashPrice) <= 10000
  {
    var q := DiscountPercentage(regularPrice, flashPrice);
    var n := 10000 * (regularPrice - flashPrice);
    assert 2 * regularPrice * q - regularPrice <= 2 * n <= 20000 * regularPrice;
    if q > 10000 {
      MulStep(2 * regularPrice, 10000, q);
    }
  }

  /** Regular price 30,000,000 and flash price 25,000,000 give a discount of 16.67%. */
  lemma DiscountExample()
    ensures DiscountPercentage(3000000000, 2500000000) == 1667
  {
  }

  // ---------------------------------------------------------------------
  // Listing

  datatype FlashSaleProductResponse = FlashSaleProductResponse(
    flashSaleId: nat,
    productId: nat,
    productName: string,
    description: string,
    regularPrice: int,
    flashPrice: int,
    /** In hundredths of a percent. */
    discountPercentage: int,
    availableQuantity: int,
    totalQuantity: int,
    startTime: int,
    endTime: int,
    remainingSeconds: int)

  /** Why the listing fails: the product row is missing, or its regular price is zero (division by zero). */
  datatype ListingError = ProductMissing(productId: nat) | ZeroRegularPrice(productId: nat)

  /** Seconds until the sale window closes, never negative. */
  function RemainingSeconds(c: FlashSaleConfig, now: int): (s: int)
    ensures s >= 0
    ensures s > 0 <==> now < At(c.saleDate, c.endTime)
    ensures s > 0 ==> now + s == At(c.saleDate, c.endTime)
  {
    var untilEnd := At(c.saleDate, c.endTime) - now;
    if untilEnd > 0 then untilEnd else 0
  }

  /** The outward view of one sale. */
  function MapToResponse(c: FlashSaleConfig, products: map<nat, Product>, now: int): (r: Result<FlashSaleProductResponse, ListingError>)
    reads c
    ensures r.Success? <==> c.productId in products && products[c.productId].regularPrice != 0
    ensures r.Success? ==>
      && r.value.flashSaleId == c.id && r.value.productId == c.productId
      && r.value.productName == products[c.productId].name
      && r.value.description == products[c.productId].description
      && r.value.regularPrice == products[c.productId].regularPrice && r.value.flashPrice == c.flashPrice
      && r.value.startTime == c.startTime && r.value.endTime == c.endTime
      && r.value.availableQuantity + c.soldQuantity == r.value.totalQuantity == c.flashQuantity
      && r.value.remainingSeconds == RemainingSeconds(c, now)
      && r.value.discountPercentage == DiscountPercentage(products[c.productId].regularPrice, c.flashPrice)
  {
    if c.productId !in products then Failure(ProductMissing(c.productId))
    else
      var p := products[c.productId];
      if p.regularPrice == 0 then Failure(ZeroRegularPrice(c.productId))
      else
        Success(FlashSaleProductResponse(
          c.id, c.productId, p.name, p.description, p.regularPrice, c.flashPrice,
          DiscountPercentage(p.regularPrice, c.flashPrice),
          c.flashQuantity - c.soldQuantity, c.flashQuantity,
          c.startTime, c.endTime, RemainingSeconds(c, now)))
  }

  /** The views of the given sales, in order; the first failing one fails the whole listing. */
  function MapAll(cs: seq<FlashSaleConfig>, products: map<nat, Product>, now: int)
    : (r: Result<seq<FlashSaleProductResponse>, ListingError>)
    reads cs
    ensures r.Success? <==> forall i :: 0 <= i < |cs| ==> MapToResponse(cs[i], products, now).Success?
    ensures r.Success? ==> |r.value| == |cs|
    ensures r.Success? ==> forall i :: 0 <= i < |cs| ==> r.value[i] == MapToResponse(cs[i], products, now).value
  {
    if cs == [] then Success([])
    else
      var n := |cs| - 1;
      match MapAll(cs[..n], products, now)
      case Failure(e) => Failure(e)
      case Success(views) =>
        match MapToResponse(cs[n], products, now)
        case Failure(e) => Failure(e)
        case Success(v) => Success(views + [v])
  }

  /**
   * The sales running at `now` that have stock, as views, one per sale and
   * in the order the query returns them (`MapAll` of the active sales).
   * Each view shows at least one unit available and a non-negative time
   * remaining.
   */
  function GetCurrentFlashSaleProducts(configs: seq<FlashSaleConfig>, products: map<nat, Product>, now: int)
    : (r: Result<seq<FlashSaleProductResponse>, ListingError>)
    reads configs
    ensures r == MapAll(FindActiveFlashSales(configs, Today(now), TimeOfDay(now)), products, now)
    ensures (forall i, j :: 0 <= i < j < |configs| ==> configs[i].id != configs[j].id) && r.Success? ==>
              forall i, j :: 0 <= i < j < |r.value| ==> r.value[i].flashSaleId != r.value[j].flashSaleId
    ensures r.Success? ==> forall i :: 0 <= i < |r.value| ==>
      && r.value[i].availableQuantity > 0
      && r.value[i].remainingSeconds >= 0
      && exists c :: c in configs && c.id == r.value[i].flashSaleId && InSaleWindow(c, Today(now), TimeOfDay(now))
  {
    var active := FindActiveFlashSales(configs, Today(now), TimeOfDay(now));
    assert forall i :: 0 <= i < |active| ==> active[i] in configs;
    var r := MapAll(active, products, now);
    if r.Success? then
      assert forall i :: 0 <= i < |active| ==> active[i] in active;
      r
    else r
  }

  /**
   * The listing fails exactly when one of the active sales has no product
   * row or a product whose regular price is zero.
   */
  lemma {:induction false} ListingFailsExactlyWhen(configs: seq<FlashSaleConfig>, products: map<nat, Product>, now: int)
    ensures var active := FindActiveFlashSales(configs, Today(now), TimeOfDay(now));
      GetCurrentFlashSaleProducts(configs, products, now).Success? <==>
        forall i :: 0 <= i < |active| ==>
          active[i].productId in products && products[active[i].productId].regularPrice != 0
  {
    var active := FindActiveFlashSales(configs, Today(now), TimeOfDay(now));
    if MapAll(active, products, now).Failure? {
      var i :| 0 <= i < |active| && MapToResponse(active[i], products, now).Failure?;
      assert !(active[i].productId in products && products[active[i].productId].regularPrice != 0);
    } else {
      forall i | 0 <= i < |active|
        ensures active[i].productId in products && products[active[i].productId].regularPrice != 0
      {
        assert MapToResponse(active[i], products, now).Success?;
      }
    }
  }

  /** A sale of 50 units with 10 sold shows 40 available. */
  lemma AvailableQuantityExample(c: FlashSaleConfig, products: map<nat, Product>, now: int)
    requires c.flashQuantity == 50 && c.soldQuantity == 10
    requires MapToResponse(c, products, now).Success?
    ensures MapToResponse(c, products, now).value.availableQuantity == 40
  {
  }

  // ---------------------------------------------------------------------
  // Purchase

  datatype PurchaseError =
    | UserNotFound
    | AlreadyPurchasedToday
    | NoActiveSale
    | NonUniqueSale
    | FlashSaleNotFound
    | SoldOut
    | ProductNotFound
    | OutOfStock
    | InsufficientBalance

  /** What admission hands to the writes: the buyer's position, the locked sale and the product. */
  datatype Admission = Admission(userIndex: nat, config: FlashSaleConfig, product: Product)

  /** The identity of the buyer a username resolves to, if any. */
  function BuyerOf(users: seq<User>, username: string): Option<User>
  {
    match UserDetailsService.GetUserByUsername(users, username)
    case Success(u) => Some(u)
    case Failure(_) => None
  }

  /**
   * The admission decision, its checks in the order the purchase runs
   * them: the buyer resolves; no completed order of the buyer today; one
   * running sale of the product; that sale found again by id; it has
   * stock; the product exists with stock; the balance covers the price.
   */
  function AdmitPurchase(users: seq<User>, configs: seq<FlashSaleConfig>, products: map<nat, Product>,
                         orders: seq<FlashSaleOrder>, username: string, productId: nat, now: int)
    : (r: Result<Admission, PurchaseError>)
    reads configs
    // soundness: an admitted purchase passed every check
    ensures r.Success? ==>
      && r.value.userIndex < |users|
      && UserDetailsService.ResolveUsername(users, username) == Some(r.value.userIndex)
      && !ExistsByUserIdAndOrderDate(orders, users[r.value.userIndex].id, Today(now))
      && FindActiveFlashSaleForProduct(configs, productId, Today(now), TimeOfDay(now)).OneRow?
      && r.value.config in configs
      && r.value.config.id == FindActiveFlashSaleForProduct(configs, productId, Today(now), TimeOfDay(now)).row.id
      && r.value.config.HasStock()
      && productId in products && r.value.product == products[productId]
      && r.value.product.stockQuantity > 0
      && users[r.value.userIndex].balance >= r.value.config.flashPrice
  {
    var today, currentTime := Today(now), TimeOfDay(now);
    var found := FindActiveFlashSaleForProduct(configs, productId, today, currentTime);
    match UserDetailsService.ResolveUsername(users, username)
    case None => Failure(UserNotFound)
    case Some(k) =>
      if ExistsByUserIdAndOrderDate(orders, users[k].id, today) then Failure(AlreadyPurchasedToday)
      else
        match found
        case NoRow => Failure(NoActiveSale)
        case ManyRows => Failure(NonUniqueSale)
        case OneRow(sale) =>
          match FindByIdWithLock(configs, sale.id)
          case None => Failure(FlashSaleNotFound)
          case Some(locked) =>
            if !locked.HasStock() then Failure(SoldOut)
            else if productId !in products then Failure(PurchaseError.ProductNotFound)
            else if products[productId].stockQuantity <= 0 then Failure(OutOfStock)
            else if users[k].balance < locked.flashPrice then Failure(InsufficientBalance)
            else Success(Admission(k, locked, products[productId]))
  }

  /**
   * The first two checks and the sale lookup: each refusal among them
   * happens exactly when its check is the first to fail, and the re-fetch
   * by id never fails.
   */
  lemma {:induction false} AdmissionUpToTheSale(users: seq<User>, configs: seq<FlashSaleConfig>,
                                                products: map<nat, Product>, orders: seq<FlashSaleOrder>,
                                                username: string, productId: nat, now: int)
    ensures var r := AdmitPurchase(users, configs, products, orders, username, productId, now);
            var buyer := BuyerOf(users, username);
            var sale := FindActiveFlashSaleForProduct(configs, productId, Today(now), TimeOfDay(now));
      && (r == Failure(UserNotFound) <==> buyer.None?)
      && (r == Failure(AlreadyPurchasedToday) <==>
            buyer.Some? && ExistsByUserIdAndOrderDate(orders, buyer.value.id, Today(now)))
      && (r == Failure(NoActiveSale) <==>
            buyer.Some? && !ExistsByUserIdAndOrderDate(orders, buyer.value.id, Today(now)) && sale.NoRow?)
      && (r == Failure(NonUniqueSale) <==>
            buyer.Some? && !ExistsByUserIdAndOrderDate(orders, buyer.value.id, Today(now)) && sale.ManyRows?)
      && r != Failure(FlashSaleNotFound)
  {
  }

  /**
   * Once the buyer passes the daily guard and one sale runs: the re-fetch
   * by id finds a row, and the sold-out, product, stock and balance checks
   * run in that order against it, the purchase being admitted exactly
   * when all four pass.
   */
  lemma {:induction false} AdmissionAfterTheSale(users: seq<User>, configs: seq<FlashSaleConfig>,
                                                 products: map<nat, Product>, orders: seq<FlashSaleOrder>,
                                                 username: string, productId: nat, now: int)
    requires BuyerOf(users, username).Some?
    requires !ExistsByUserIdAndOrderDate(orders, BuyerOf(users, username).value.id, Today(now))
    requires FindActiveFlashSaleForProduct(configs, productId, Today(now), TimeOfDay(now)).OneRow?
    ensures var r := AdmitPurchase(users, configs, products, orders, username, productId, now);
            var balance := BuyerOf(users, username).value.balance;
            var locked := FindByIdWithLock(configs, FindActiveFlashSaleForProduct(configs, productId, Today(now), TimeOfDay(now)).row.id);
      && locked.Some?
      && (r == Failure(SoldOut) <==> !locked.value.HasStock())
      && (r == Failure(PurchaseError.ProductNotFound) <==> locked.value.HasStock() && productId !in products)
      && (r == Failure(OutOfStock) <==>
            locked.value.HasStock() && productId in products && products[productId].stockQuantity <= 0)
      && (r == Failure(InsufficientBalance) <==>
            locked.value.HasStock() && productId in products && products[productId].stockQuantity > 0
            && balance < locked.value.flashPrice)
      && (r.Success? <==>
            locked.value.HasStock() && productId in products && products[productId].stockQuantity > 0
            && balance >= locked.value.flashPrice)
  {
  }

  /**
   * The daily limit across purchases: once the buyer a username resolves
   * to has a completed order dated some day, a purchase by that username
   * on that day, of any product and whatever the sales, the stock and the
   * buyer's balance then are, is refused with `AlreadyPurchasedToday`.
   */
  lemma {:induction false} SecondPurchaseOnOneDayRefused(
    users: seq<User>, orders: seq<FlashSaleOrder>, username: string, k: nat, order: FlashSaleOrder, balance: int,
    configs: seq<FlashSaleConfig>, products: map<nat, Product>, productId: nat, later: int)
    requires UserDetailsService.ResolveUsername(users, username) == Some(k)
    requires CompletedOn(order, users[k].id, Today(later))
    ensures var users' := users[k := users[k].(balance := balance)];
      AdmitPurchase(users', configs, products, orders + [order], username, productId, later) == Failure(AlreadyPurchasedToday)
  {
    var users' := users[k := users[k].(balance := balance)];
    assert forall i :: 0 <= i < |users| ==> users'[i].email == users[i].email && users'[i].phone == users[i].phone;
    UserDetailsService.ResolveUsernameKeepsContacts(users, users', username);
    GuardAfterAppend(orders, order, users[k].id, Today(later));
  }

  /** The order status as the response spells it. */
  function StatusName(s: OrderStatus): (name: string)
    ensures name == "COMPLETED" <==> s == Completed
    ensures name == "CANCELLED" <==> s == Cancelled
  {
    match s
    case Completed => "COMPLETED"
    case Cancelled => "CANCELLED"
  }

  const PurchaseSuccessMessage: string := "Purchase successful!"

  datatype PurchaseResponse = PurchaseResponse(
    orderId: nat,
    productId: nat,
    productName: string,
    amount: int,
    remainingBalance: int,
    status: string,
    orderedAt: int,
    message: string)

  /** Debits the buyer at position `k` by `amount`, which the balance covers. */
  method DebitBuyer(store: Store, k: nat, amount: int)
    requires store.UsersValid() && k < |store.users| && store.users[k].balance >= amount
    modifies store`users
    ensures store.UsersValid()
    ensures store.users == old(store.users[k := store.users[k].(balance := store.users[k].balance - amount)])
  {
    var buyer := store.users[k];
    UserUpdateKeepsUsersValid(store.users, k, buyer.(balance := buyer.balance - amount));
    store.users := store.users[k := buyer.(balance := buyer.balance - amount)];
  }

  /** Takes one unit off the stock of a product that has some. */
  method TakeOneFromStock(store: Store, productId: nat)
    requires store.ProductsValid() && productId in store.products && store.products[productId].stockQuantity > 0
    modifies store`products
    ensures store.ProductsValid()
    ensures store.products == old(store.products[productId := store.products[productId].(stockQuantity := store.products[productId].stockQuantity - 1)])
  {
    var product := store.products[productId];
    store.products := store.products[productId := product.(stockQuantity := product.stockQuantity - 1)];
  }

  /**
   * Counts one more unit sold on a sale with stock and appends its
   * completed order under the next id; the buyer holds no completed order
   * on the order's date yet.
   */
  method RecordSale(store: Store, sale: FlashSaleConfig, order: FlashSaleOrder)
    requires store.ConfigsValid() && store.OrdersValid()
    requires sale in store.configs && sale.HasStock()
    requires order.id == |store.orders| + 1 && order.flashSaleConfigId == sale.id
    requires !ExistsByUserIdAndOrderDate(store.orders, order.userId, OrderDate(order))
    modifies store`orders, sale`soldQuantity
    ensures store.ConfigsValid() && store.OrdersValid()
    ensures sale.soldQuantity == old(sale.soldQuantity) + 1
    ensures store.orders == old(store.orders) + [order]
  {
    ghost var oldOrders := store.orders;
    ghost var configIndex :| 0 <= configIndex < |store.configs| && store.configs[configIndex] == sale;
    sale.IncrementSoldQuantity();
    store.orders := store.orders + [order];
    AppendKeepsOnePerUserPerDay(oldOrders, order);
    forall i | 0 <= i < |store.configs|
      ensures CountCompletedForConfig(store.orders, store.configs[i].id) <= store.configs[i].soldQuantity
    {
      CountCompletedForConfigAppend(oldOrders, order, store.configs[i].id);
      if i != configIndex {
        assert store.configs[i].id != store.configs[configIndex].id;
      }
    }
  }

  /**
   * The four writes of an admitted purchase, in the order the service
   * makes them: debit the buyer, count one more unit sold, take one unit
   * off the stock, append the completed order under the next id.
   */
  method WritePurchase(store: Store, k: nat, sale: FlashSaleConfig, productId: nat, now: int)
    returns (order: FlashSaleOrder)
    requires store.Valid()
    requires k < |store.users| && store.users[k].balance >= sale.flashPrice
    requires !ExistsByUserIdAndOrderDate(store.orders, store.users[k].id, Today(now))
    requires sale in store.configs && sale.HasStock()
    requires productId in store.products && store.products[productId].stockQuantity > 0
    modifies store`users, store`products, store`orders, sale`soldQuantity
    ensures store.Valid()
    ensures var buyer := old(store.users[k]);
            var product := old(store.products[productId]);
      && order == FlashSaleOrder(|old(store.orders)| + 1, buyer.id, productId, sale.id, sale.flashPrice, Completed, now)
      && store.users == old(store.users)[k := buyer.(balance := buyer.balance - sale.flashPrice)]
      && sale.soldQuantity == old(sale.soldQuantity) + 1
      && store.products == old(store.products)[productId := product.(stockQuantity := product.stockQuantity - 1)]
      && store.orders == old(store.orders) + [order]
    ensures forall i :: 0 <= i < |store.configs| && store.configs[i] != sale ==>
              store.configs[i].soldQuantity == old(store.configs[i].soldQuantity)
  {
    var buyer := store.users[k];
    assert store.ProductsValid();
    var product := store.products[productId];

    DebitBuyer(store, k, sale.flashPrice);
    TakeOneFromStock(store, product.id);
    order := FlashSaleOrder(|store.orders| + 1, buyer.id, product.id, sale.id, sale.flashPrice, Completed, now);
    RecordSale(store, sale, order);
  }

  /**
   * The writes of an admitted purchase, then the reconciliation of the
   * inventory trail for the new order, which cannot fail here.
   */
  method CompletePurchase(store: Store, k: nat, sale: FlashSaleConfig, productId: nat, product: Product, now: int)
    returns (response: PurchaseResponse)
    requires store.Valid()
    requires k < |store.users| && store.users[k].balance >= sale.flashPrice
    requires !ExistsByUserIdAndOrderDate(store.orders, store.users[k].id, Today(now))
    requires sale in store.configs && sale.HasStock()
    requires productId in store.products && store.products[productId] == product && product.stockQuantity > 0
    modifies store`users, store`products, store`orders, store`syncLogs, sale`soldQuantity
    ensures store.Valid()
    ensures var buyer := old(store.users[k]);
            var orderId := |old(store.orders)| + 1;
            var newStock := product.stockQuantity - 1;
      && store.users == old(store.users)[k := buyer.(balance := buyer.balance - sale.flashPrice)]
      && sale.soldQuantity == old(sale.soldQuantity) + 1
      && store.products == old(store.products)[productId := product.(stockQuantity := newStock)]
      && store.orders == old(store.orders)
           + [FlashSaleOrder(orderId, buyer.id, productId, sale.id, sale.flashPrice, Completed, now)]
      && store.syncLogs == SyncStep(old(store.syncLogs), store.products, store.orders, orderId, productId).logs
      && response == PurchaseResponse(orderId, productId, product.name, sale.flashPrice,
                                      buyer.balance - sale.flashPrice, "COMPLETED", now, PurchaseSuccessMessage)
    ensures forall i :: 0 <= i < |store.configs| && store.configs[i] != sale ==>
              store.configs[i].soldQuantity == old(store.configs[i].soldQuantity)
  {
    var buyer := store.users[k];
    var order := WritePurchase(store, k, sale, productId, now);
    var synced := SyncInventoryForOrder(store, order.id, productId);

    response := PurchaseResponse(order.id, productId, product.name, order.amount, buyer.balance - sale.flashPrice,
                                 StatusName(order.status), order.orderedAt, PurchaseSuccessMessage);
  }

  /**
   * One purchase as one atomic step: a refused purchase changes nothing
   * and reports the first check that failed; an admitted one is completed
   * as `CompletePurchase` describes, the audit trail ending as the
   * reconciliation of the new order leaves it (`SyncAfterPurchase` says
   * what that is).
   */
  method PurchaseFlashSaleProduct(store: Store, username: string, productId: nat, now: int)
    returns (r: Result<PurchaseResponse, PurchaseError>)
    requires store.Valid()
    modifies store`users, store`products, store`orders, store`syncLogs, store.configs
    ensures store.Valid()
    ensures var admission := old(AdmitPurchase(store.users, store.configs, store.products, store.orders, username, productId, now));
      && (r.Failure? <==> admission.Failure?)
      && (r.Failure? ==> r.error == admission.error && unchanged(store) && unchanged(store.configs))
    ensures r.Success? ==>
      var a := old(AdmitPurchase(store.users, store.configs, store.products, store.orders, username, productId, now)).value;
      var buyer := old(store.users)[a.userIndex];
      var orderId := |old(store.orders)| + 1;
      var newStock := a.product.stockQuantity - 1;
      && store.users == old(store.users)[a.userIndex := buyer.(balance := buyer.balance - a.config.flashPrice)]
      && a.config.soldQuantity == old(a.config.soldQuantity) + 1
      && (forall i :: 0 <= i < |store.configs| && store.configs[i] != a.config ==>
            store.configs[i].soldQuantity == old(store.configs[i].soldQuantity))
      && store.products == old(store.products)[productId := a.product.(stockQuantity := newStock)]
      && store.orders == old(store.orders)
           + [FlashSaleOrder(orderId, buyer.id, productId, a.config.id, a.config.flashPrice, Completed, now)]
      && store.syncLogs == SyncStep(old(store.syncLogs), store.products, store.orders, orderId, productId).logs
      && r.value == PurchaseResponse(orderId, productId, a.product.name, a.config.flashPrice,
                                     buyer.balance - a.config.flashPrice, "COMPLETED", now, PurchaseSuccessMessage)
  {
    var admission := AdmitPurchase(store.users, store.configs, store.products, store.orders, username, productId, now);
    if admission.Failure? {
      return Failure(admission.error);
    }
    assert admission == old(AdmitPurchase(store.users, store.configs, store.products, store.orders, username, productId, now));
    var response := CompletePurchase(store, admission.value.userIndex, admission.value.config, productId,
                                     admission.value.product, now);
    r := Success(response);
  }

  /**
   * The daily limit across calls: once a purchase on some day succeeds,
   * a second purchase by the same user on the same day, of any product,
   * is refused with `AlreadyPurchasedToday`.
   */
  method PurchaseTwiceOnOneDay(store: Store, username: string, productId: nat, otherProductId: nat, now: int, later: int)
    returns (first: Result<PurchaseResponse, PurchaseError>, second: Result<PurchaseResponse, PurchaseError>)
    requires store.Valid()
    requires Today(now) == Today(later)
    modifies store`users, store`products, store`orders, store`syncLogs, store.configs
    ensures store.Valid()
    ensures first.Success? ==> second == Failure(AlreadyPurchasedToday)
  {
    ghost var users0, orders0 := store.users, store.orders;
    ghost var admission := AdmitPurchase(store.users, store.configs, store.products, store.orders, username, productId, now);
    first := PurchaseFlashSaleProduct(store, username, productId, now);
    if first.Success? {
      var k := admission.value.userIndex;
      SecondPurchaseOnOneDayRefused(users0, orders0, username, k, store.orders[|orders0|], store.users[k].balance,
                                    store.configs, store.products, otherProductId, later);
    }
    second := PurchaseFlashSaleProduct(store, username, otherProductId, later);
  }
}
