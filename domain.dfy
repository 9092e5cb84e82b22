/**
 * Shared vocabulary of the flash-sale model: optional values and results,
 * the clock, and the plain entity records (users, products, orders, OTP
 * records and inventory-sync log rows).
 *
 * Money is held in integer cents: every price and balance column of the
 * store has scale 2. Instants are whole seconds counted from a local epoch,
 * so a calendar date is a day number and a time of day is a second of that
 * day.
 */
module Domain {

  datatype Option<+T> = None | Some(value: T)

  datatype Result<+T, +E> = Success(value: T) | Failure(error: E)

  /**
   * What a repository query declared to return at most one row yields:
   * no row, exactly one row, or several rows (which the persistence layer
   * rejects with an error instead of picking one).
   */
  datatype Single<+T> = NoRow | OneRow(row: T) | ManyRows

  /** The character of a decimal digit. */
  function DigitChar(d: nat): (c: char)
    requires d < 10
    ensures '0' <= c <= '9'
  {
    ('0' as int + d) as char
  }

  // ---------------------------------------------------------------------
  // Clock

  const SecondsPerDay: int := 86400

  /** The calendar date (day number) of an instant. */
  function Today(now: int): int
  {
    now / SecondsPerDay
  }

  /** The time of day (second of the day) of an instant. */
  function TimeOfDay(now: int): (t: int)
    ensures 0 <= t < SecondsPerDay
  {
    now % SecondsPerDay
  }

  /** The instant at the given time of day on the given date (86400 is `SecondsPerDay` written out). */
  function At(date: int, time: int): int
  {
    date * 86400 + time
  }

  // ---------------------------------------------------------------------
  // Entities that the core treats as plain records

  /** A buyer account; `balance` in cents. */
  datatype User = User(
    id: nat,
    email: Option<string>,
    phone: Option<string>,
    passwordHash: string,
    balance: int,
    emailVerified: bool,
    phoneVerified: bool)

  /** A catalog product; `regularPrice` in cents, `stockQuantity` on hand. */
  datatype Product = Product(
    id: nat,
    name: string,
    description: string,
    regularPrice: int,
    stockQuantity: int)

  datatype OrderStatus = Completed | Cancelled

  /** A flash-sale order; `amount` in cents, `orderedAt` an instant. */
  datatype FlashSaleOrder = FlashSaleOrder(
    id: nat,
    userId: nat,
    productId: nat,
    flashSaleConfigId: nat,
    amount: int,
    status: OrderStatus,
    orderedAt: int)

  /**
   * The order-date column is filled in by the database, not by the
   * application; the model takes it to be the date of `orderedAt`.
   */
  function OrderDate(o: FlashSaleOrder): int
  {
    Today(o.orderedAt)
  }

  datatype VerificationType = Email | Phone

  /** A one-time password issued to a contact (an email or a phone). */
  datatype OtpVerification = OtpVerification(
    userId: nat,
    otpCode: string,
    verificationType: VerificationType,
    contactInfo: string,
    expiresAt: int,
    isUsed: bool)

  /** An audit row recording one stock movement. */
  datatype InventorySyncLog = InventorySyncLog(
    productId: nat,
    quantityChange: int,
    stockBefore: int,
    stockAfter: int,
    syncType: string,
    referenceId: string)
}
