/**
 * The persistent state shared by the services: the user, product,
 * flash-sale configuration, order, inventory-sync log and OTP tables.
 * Each service call is modelled as one atomic step on a `Store`; the
 * database's locks and serializable isolation are what make that
 * reading sound, and are not modelled themselves.
 */
module FlashSaleStore {
  import opened Domain
  import opened FlashSaleConfigEntity
  import opened FlashSaleOrderRepository
  import opened InventorySyncLogRepository

  /** Generated ids, non-negative balances, and unique emails and phones. */
  ghost predicate ValidUsers(users: seq<User>)
  {
    && (forall i :: 0 <= i < |users| ==> users[i].id == i + 1 && users[i].balance >= 0)
    && (forall i, j :: 0 <= i < j < |users| && users[i].email.Some? ==> users[i].email != users[j].email)
    && (forall i, j :: 0 <= i < j < |users| && users[i].phone.Some? ==> users[i].phone != users[j].phone)
  }

  /** Replacing a user by one with the same id and contacts and a non-negative balance keeps the table valid. */
  lemma {:induction false} UserUpdateKeepsUsersValid(users: seq<User>, k: nat, u: User)
    requires ValidUsers(users) && k < |users|
    requires u.id == users[k].id && u.email == users[k].email && u.phone == users[k].phone && u.balance >= 0
    ensures ValidUsers(users[k := u])
  {
    var users' := users[k := u];
    assert forall i :: 0 <= i < |users| ==>
      users'[i].email == users[i].email && users'[i].phone == users[i].phone && users'[i].id == users[i].id;
  }

  /** Appending a user with the next id, a non-negative balance and contacts nobody has keeps the table valid. */
  lemma {:induction false} AppendUserKeepsUsersValid(users: seq<User>, u: User)
    requires ValidUsers(users)
    requires u.id == |users| + 1 && u.balance >= 0
    requires u.email.Some? ==> forall k :: 0 <= k < |users| ==> users[k].email != u.email
    requires u.phone.Some? ==> forall k :: 0 <= k < |users| ==> users[k].phone != u.phone
    ensures ValidUsers(users + [u])
  {
    var users' := users + [u];
    assert forall i :: 0 <= i < |users| ==> users'[i] == users[i];
  }

  class Store {
    /** Users; identities are generated in sequence, so `users[i].id == i + 1`. */
    var users: seq<User>
    /** Products by id. */
    var products: map<nat, Product>
    /** Flash-sale configurations, created outside the core. */
    var configs: seq<FlashSaleConfig>
    /** Orders; identities are generated in sequence, so `orders[i].id == i + 1`. */
    var orders: seq<FlashSaleOrder>
    /** The append-only inventory audit trail. */
    var syncLogs: seq<InventorySyncLog>
    /** Issued one-time passwords. */
    var otps: seq<OtpVerification>

    ghost predicate UsersValid()
      reads this`users
    {
      ValidUsers(users)
    }

    /** Products are keyed by their id and never have negative stock. */
    ghost predicate ProductsValid()
      reads this`products
    {
      forall id :: id in products ==> products[id].id == id && products[id].stockQuantity >= 0
    }

    /** Every sale has sold between none and all of its allocation; ids are distinct. */
    ghost predicate ConfigsValid()
      reads this`configs, configs
    {
      && (forall k :: 0 <= k < |configs| ==> 0 <= configs[k].soldQuantity <= configs[k].flashQuantity)
      && (forall i, j :: 0 <= i < j < |configs| ==> configs[i].id != configs[j].id)
    }

    /**
     * Generated order ids; at most one completed order per user and date;
     * no sale has more completed orders than units it counts as sold
     * (and so, with `ConfigsValid`, never more than its allocation).
     */
    ghost predicate OrdersValid()
      reads this`orders, this`configs, configs
    {
      && (forall i :: 0 <= i < |orders| ==> orders[i].id == i + 1)
      && (forall u, d :: CountCompletedOn(orders, u, d) <= 1)
      && (forall k :: 0 <= k < |configs| ==> CountCompletedForConfig(orders, configs[k].id) <= configs[k].soldQuantity)
    }

    /** The uniqueness of (sync type, reference) on the audit trail. */
    ghost predicate LogsValid()
      reads this`syncLogs
    {
      forall t, ref :: CountBySyncTypeAndReferenceId(syncLogs, t, ref) <= 1
    }

    /**
     * Every OTP record belongs to a stored user. Registration and
     * verification keep this; it is not part of `Valid` because the
     * purchase never touches OTP records.
     */
    ghost predicate OtpsValid()
      reads this`otps, this`users
    {
      forall i :: 0 <= i < |otps| ==> 1 <= otps[i].userId <= |users|
    }

    ghost predicate Valid()
      reads this, configs
    {
      UsersValid() && ProductsValid() && ConfigsValid() && OrdersValid() && LogsValid()
    }

    /** An empty store. */
    constructor ()
      ensures Valid()
      ensures users == [] && products == map[] && configs == [] && orders == [] && syncLogs == [] && otps == []
    {
      users, products, configs, orders, syncLogs, otps := [], map[], [], [], [], [];
    }
  }

  /** Never oversold: no sale has more completed orders than its allocation. */
  lemma {:induction false} NeverOversold(store: Store, k: nat)
    requires store.Valid() && k < |store.configs|
    ensures CountCompletedForConfig(store.orders, store.configs[k].id) <= store.configs[k].flashQuantity
  {
    assert store.ConfigsValid() && store.OrdersValid();
  }

  /** One completed flash-sale order per user per day. */
  lemma {:induction false} OneCompletedOrderPerUserPerDay(store: Store, i: nat, j: nat)
    requires store.Valid() && i < j < |store.orders|
    requires store.orders[i].status == Completed && store.orders[j].status == Completed
    ensures store.orders[i].userId != store.orders[j].userId || OrderDate(store.orders[i]) != OrderDate(store.orders[j])
  {
    var u, d := store.orders[i].userId, OrderDate(store.orders[i]);
    if store.orders[j].userId == u && OrderDate(store.orders[j]) == d {
      assert store.OrdersValid();
      TwoCompletedCountTwice(store.orders, i, j, u, d);
    }
  }

  lemma {:induction false} TwoCompletedCountTwice(orders: seq<FlashSaleOrder>, i: nat, j: nat, u: nat, d: int)
    requires i < j < |orders|
    requires CompletedOn(orders[i], u, d) && CompletedOn(orders[j], u, d)
    ensures CountCompletedOn(orders, u, d) >= 2
    decreases |orders|
  {
    var n := |orders| - 1;
    var prefix := orders[..n];
    if j == n {
      assert prefix[i] == orders[i];
      assert CountCompletedOn(prefix, u, d) > 0;
    } else {
      assert prefix[i] == orders[i] && prefix[j] == orders[j];
      TwoCompletedCountTwice(prefix, i, j, u, d);
    }
  }
}
