# Flash sale: a verified model of the purchase, inventory-sync and account core

The flash-sale service sells products at a discount during fixed daily windows. Each sale has an allocation of units. A buyer may complete one flash-sale purchase per calendar day.

This project models the service's domain logic in Dafny:

- the listing of the sales running now;
- the purchase, with its ordered admission checks and four writes;
- the idempotent inventory-sync audit trail;
- the stock predicate of a sale configuration;
- the repository queries (the sale window, the daily guard, the OTP lookup);
- account registration, one-time-password verification and login;
- the email-then-phone username resolution.

All the tables live in one `Store` object (`store.dfy`). Each service call is one atomic step on it. The store's invariant `Valid` holds:

- users and orders carry generated ids;
- balances and stocks are never negative;
- `0 <= soldQuantity <= flashQuantity` for every sale;
- a sale never has more completed orders than units sold;
- each user has at most one completed order per date;
- the audit trail holds at most one row per (type, reference).

The purchase and both account operations are methods that keep this invariant. The lemmas `NeverOversold` and `OneCompletedOrderPerUserPerDay` turn it into the two headline guarantees.

Conventions:

- Money is integer cents, because every price and balance column has scale 2.
- An instant is a whole number of seconds from a local epoch. A date is `instant / 86400` and a time of day is `instant % 86400`.
- The clock, the password encoder, the token generator and the authentication outcome are parameters.
- The random OTP digits are an arbitrary choice.

Files:

- `domain.dfy`: the records and the clock.
- `flash_sale_config.dfy`: the sale configuration class.
- `config_repository.dfy`, `order_repository.dfy`, `sync_log_repository.dfy`, `otp_repository.dfy`: the queries, as filters.
- `user_details.dfy`: the username resolution.
- `store.dfy`: the store and its invariants.
- `inventory_sync.dfy`: the inventory sync.
- `flash_sale_service.dfy`: the listing and the purchase.
- `auth_service.dfy`: the accounts.

## Model

| member | source | states |
|---|---|---|
| FlashSaleConfigEntity.FlashSaleConfig.constructor | src/main/java/com/example/flashsale/entity/FlashSaleConfig.java:31-68 | A new configuration has the given columns. `soldQuantity` defaults to 0 and `isActive` to true. It has stock iff sold < allocation. |
| FlashSaleConfigEntity.FlashSaleConfig.HasStock | src/main/java/com/example/flashsale/entity/FlashSaleConfig.java:87-89 | A sale has stock iff one more unit can be sold without exceeding its allocation. |
| FlashSaleConfigEntity.FlashSaleConfig.IncrementSoldQuantity | src/main/java/com/example/flashsale/entity/FlashSaleConfig.java:87-93 | Adds exactly one to `soldQuantity`, and only that field may change. With stock before, sold stays within the allocation. Without stock before, there is none after. |
| FlashSaleConfigRepository.InSaleWindow | src/main/java/com/example/flashsale/repository/FlashSaleConfigRepository.java:19-22 | A configuration is running iff it is active, is for that date, and the instant lies between its start and end instants, both included. |
| FlashSaleConfigRepository.WindowIncludesBothEnds | src/main/java/com/example/flashsale/repository/FlashSaleConfigRepository.java:18-27 | The window includes both its start and its end second, and excludes the seconds just outside them. |
| FlashSaleConfigRepository.FindActiveFlashSales | src/main/java/com/example/flashsale/repository/FlashSaleConfigRepository.java:18-27 | Returns exactly the stored sales that are on the date, inside the window, active and not sold out. Every one it returns has stock. Over rows with distinct ids, each sale appears once: no id repeats. No order is promised, since the query has no ORDER BY. |
| FlashSaleConfigRepository.FindByIdWithLock | src/main/java/com/example/flashsale/repository/FlashSaleConfigRepository.java:29-31 | Finds a stored configuration with the id. It finds none exactly when no configuration has that id. |
| FlashSaleConfigRepository.FindByIdWithLockFindsItself | src/main/java/com/example/flashsale/repository/FlashSaleConfigRepository.java:29-31 | With distinct ids, looking up a stored configuration's own id returns that configuration. |
| FlashSaleConfigRepository.FindActiveFlashSaleForProduct | src/main/java/com/example/flashsale/repository/FlashSaleConfigRepository.java:33-43 | Applies the same date, window and active filters plus the product, with no stock filter. No row iff nothing matches. One row is the unique match. Several rows means two distinct matches exist. |
| FlashSaleOrderRepository.CountCompletedOn | src/main/java/com/example/flashsale/repository/FlashSaleOrderRepository.java:13-20 | The count is zero iff no order is a completed order of the user on the date. |
| FlashSaleOrderRepository.ExistsByUserIdAndOrderDate | src/main/java/com/example/flashsale/repository/FlashSaleOrderRepository.java:13-20 | True iff some order has the user, the date and status COMPLETED. |
| FlashSaleOrderRepository.GuardAfterAppend | src/main/java/com/example/flashsale/repository/FlashSaleOrderRepository.java:13-20 | Appending an order turns the guard on for exactly the pair it completes. Cancelled orders, and orders of another user or date, leave the guard unchanged. |
| FlashSaleOrderRepository.CountCompletedOnAppend | src/main/java/com/example/flashsale/repository/FlashSaleOrderRepository.java:13-20 | Appending an order adds one to the count of its own (user, date) pair and nothing to any other. |
| FlashSaleOrderRepository.AppendKeepsOnePerUserPerDay | src/main/java/com/example/flashsale/service/impl/FlashSaleServiceImpl.java:78-82 | An order appended only while its user has no completed order that day keeps every (user, date) count at one or less. |
| FlashSaleOrderRepository.FindById | src/main/java/com/example/flashsale/service/impl/InventorySyncServiceImpl.java:47-48 | Finds a stored order with the id. It finds none iff no order has it. |
| FlashSaleOrderRepository.FindByGeneratedId | src/main/java/com/example/flashsale/service/impl/FlashSaleServiceImpl.java:133-136 | With generated ids, the lookup of the id just issued finds the order just saved. |
| InventorySyncLogRepository.ExistsBySyncTypeAndReferenceId | src/main/java/com/example/flashsale/service/impl/InventorySyncServiceImpl.java:37 | True iff some row carries both the sync type and the reference. |
| InventorySyncLogRepository.CountAfterAppend | src/main/java/com/example/flashsale/service/impl/InventorySyncServiceImpl.java:37-67 | Appending a row adds one to the count of its own (type, reference) key only. |
| OtpVerificationRepository.MatchingOtpIndices | src/main/java/com/example/flashsale/repository/OtpVerificationRepository.java:12-16 | The matching positions are exactly the records with the contact and code, unused, expiring strictly after now. They are listed in increasing order. |
| OtpVerificationRepository.FindByContactInfoAndOtpCodeAndIsUsedFalseAndExpiresAtAfter | src/main/java/com/example/flashsale/repository/OtpVerificationRepository.java:12-16 | A found record has the contact and the code, is unused, expires strictly after now, and is the only match. No row iff nothing matches. Several rows means two matches exist. |
| OtpVerificationRepository.UsedOtpIsNotFoundAgain | src/main/java/com/example/flashsale/repository/OtpVerificationRepository.java:12-16 | Once the found record is marked used, the same lookup at the same or a later instant finds nothing. |
| UserDetailsService.FindByEmail | src/main/java/com/example/flashsale/service/impl/CustomUserDetailsServiceImpl.java:42 | Finds a user with the email. It finds none iff no user has it. |
| UserDetailsService.FindByPhone | src/main/java/com/example/flashsale/service/impl/CustomUserDetailsServiceImpl.java:43 | Finds a user with the phone. It finds none iff no user has it. |
| UserDetailsService.ExistsByEmail | src/main/java/com/example/flashsale/service/impl/AuthServiceImpl.java:61 | True iff some user has the email. |
| UserDetailsService.ExistsByPhone | src/main/java/com/example/flashsale/service/impl/AuthServiceImpl.java:64 | True iff some user has the phone number. |
| UserDetailsService.FindById | src/main/java/com/example/flashsale/service/impl/AuthServiceImpl.java:136-137 | Finds a user with the id. It finds none iff no user has it. |
| UserDetailsService.GetUserByUsername | src/main/java/com/example/flashsale/service/impl/CustomUserDetailsServiceImpl.java:41-45 | If some user has the username as email, returns that user. Otherwise it succeeds iff some user has it as phone. The result is a stored user with that email or phone. Failure is `UsernameNotFound(username)`. |
| UserDetailsService.LoadUserByUsername | src/main/java/com/example/flashsale/service/impl/CustomUserDetailsServiceImpl.java:26-32 | Succeeds iff `GetUserByUsername` does. It returns the given username, that user's password hash and no authorities. Otherwise it fails with `UsernameNotFound`. |
| UserDetailsService.ResolveUsernameKeepsContacts | src/main/java/com/example/flashsale/service/impl/CustomUserDetailsServiceImpl.java:42-44 | Updates that leave every email and phone alone, such as a balance debit or a verified flag, do not change how any username resolves. |
| FlashSaleStore.UserUpdateKeepsUsersValid | src/main/java/com/example/flashsale/service/impl/FlashSaleServiceImpl.java:113-114 | Replacing a user by one with the same id and contacts and a non-negative balance keeps the user table valid. |
| FlashSaleStore.AppendUserKeepsUsersValid | src/main/java/com/example/flashsale/service/impl/AuthServiceImpl.java:61-77 | Appending a user with the next id, a non-negative balance and an email and phone nobody has keeps the user table valid. |
| FlashSaleStore.NeverOversold | src/main/java/com/example/flashsale/service/impl/FlashSaleServiceImpl.java:94-96 | In a valid store, no sale has more completed orders than its allocation. |
| FlashSaleStore.OneCompletedOrderPerUserPerDay | src/main/java/com/example/flashsale/service/impl/FlashSaleServiceImpl.java:78-82 | In a valid store, two distinct completed orders never share both user and date. |
| InventorySyncService.DecimalDigits | src/main/java/com/example/flashsale/service/impl/InventorySyncServiceImpl.java:34 | The decimal numeral of an id, as `Long.toString` writes it: non-empty and all digits, reading back (`NumeralValue`, digits folded left to right) to the id itself, with a leading `0` exactly for the id 0. |
| InventorySyncService.DecimalDigitsInjective | src/main/java/com/example/flashsale/service/impl/InventorySyncServiceImpl.java:34 | Different ids have different numerals. |
| InventorySyncService.ReferenceId | src/main/java/com/example/flashsale/service/impl/InventorySyncServiceImpl.java:34 | The reference is `ORDER_` followed by at least one digit and nothing else. The digits read back to the order id in decimal, with no leading zero for an id other than 0. |
| InventorySyncService.ReferenceIdInjective | src/main/java/com/example/flashsale/service/impl/InventorySyncServiceImpl.java:34 | `"ORDER_" + id` identifies the order: equal references mean equal ids. |
| InventorySyncService.SyncStep | src/main/java/com/example/flashsale/service/impl/InventorySyncServiceImpl.java:33-69 | Already synced iff a row for the reference exists. A missing product is an error, and so is a missing order after it. The order is skipped as not completed iff no row exists and the product and order are found but the order is not COMPLETED. Only `Synced` writes, appending exactly one row: the product, change -1, before = stock + 1, after = stock, and the type and reference. |
| InventorySyncService.SyncStepIdempotent | src/main/java/com/example/flashsale/service/impl/InventorySyncServiceImpl.java:37-40 | Syncing the same order again leaves the trail as it is. After a recorded sync, the second call reports already synced. |
| InventorySyncService.SyncStepKeepsOneRowPerReference | src/main/java/com/example/flashsale/service/impl/InventorySyncServiceImpl.java:37-67 | Uniqueness of (type, reference) survives a sync. After a sync that recorded or found the row, the order has exactly one row. |
| InventorySyncService.SyncTwiceLeavesOneRow | src/main/java/com/example/flashsale/service/impl/InventorySyncServiceImpl.java:37-67 | Two calls for one order leave exactly one row for it. |
| InventorySyncService.SyncOfRecordedOrder | src/main/java/com/example/flashsale/service/impl/InventorySyncServiceImpl.java:43-67 | With the product and the order present, the sync cannot fail. For a completed order without a row, it appends exactly the decrement row. |
| InventorySyncService.SyncAfterPurchase | src/main/java/com/example/flashsale/service/impl/FlashSaleServiceImpl.java:133-136 | The sync a purchase runs on the order it has just saved under the next id cannot fail. It keeps the trail when the order already has a row. Otherwise it appends exactly the decrement row: change -1, before = stock + 1, after = stock. |
| InventorySyncService.SyncInventoryForOrder | src/main/java/com/example/flashsale/service/impl/InventorySyncServiceImpl.java:33-69 | Only the audit trail may change. It becomes what `SyncStep` says, and the outcome is `SyncStep`'s. The store stays valid. |
| InventorySyncService.StockFiguresExample | src/main/java/com/example/flashsale/service/impl/InventorySyncServiceImpl.java:54-56 | On-hand stock 99 is recorded as before 100, after 99, change -1, reference `ORDER_1`. |
| FlashSaleService.RoundHalfUp | src/main/java/com/example/flashsale/service/impl/FlashSaleServiceImpl.java:156 | The quotient is rounded to the nearest integer with ties away from zero: `2|d||q| - |d| <= 2|n| < 2|d||q| + |d|`, with the sign of `n/d`. |
| FlashSaleService.RoundHalfUpExact | src/main/java/com/example/flashsale/service/impl/FlashSaleServiceImpl.java:157-168 | Rounding an exact multiple gives it back, so the final rescale to two places changes nothing. |
| FlashSaleService.DiscountPercentage | src/main/java/com/example/flashsale/service/impl/FlashSaleServiceImpl.java:154-168 | The discount in hundredths of a percent is `(regular - flash) / regular` rounded HALF_UP to four places. |
| FlashSaleService.DiscountWithinRange | src/main/java/com/example/flashsale/service/impl/FlashSaleServiceImpl.java:154-157 | A flash price between 0 and the regular price gives a discount between 0% and 100%. |
| FlashSaleService.DiscountExample | src/main/java/com/example/flashsale/service/impl/FlashSaleServiceImpl.java:154-168 | Regular 30,000,000 and flash 25,000,000 give 16.67%. |
| FlashSaleService.RemainingSeconds | src/main/java/com/example/flashsale/service/impl/FlashSaleServiceImpl.java:158-159 | Never negative. Positive exactly before the window's end instant, and then it is that end minus now. |
| FlashSaleService.MapToResponse | src/main/java/com/example/flashsale/service/impl/FlashSaleServiceImpl.java:152-175 | Succeeds iff the product exists with a non-zero regular price. The sale id, product id, name, description, regular and flash prices, and start and end times are copied through. Available + sold = total = allocation. Remaining seconds and discount are the functions above. |
| FlashSaleService.MapAll | src/main/java/com/example/flashsale/service/impl/FlashSaleServiceImpl.java:57 | Succeeds iff every sale maps. The views are then those of the sales, one for one and in order. |
| FlashSaleService.GetCurrentFlashSaleProducts | src/main/java/com/example/flashsale/service/impl/FlashSaleServiceImpl.java:51-58 | The listing is the views of the active sales with stock, position by position the query's result, so each view is its sale's `MapToResponse`. Over sales with distinct ids, no two views carry the same flash-sale id: each active sale is listed once. Each view shows at least one unit available, a non-negative time left, and the id of a stored sale running now. |
| FlashSaleService.ListingFailsExactlyWhen | src/main/java/com/example/flashsale/service/impl/FlashSaleServiceImpl.java:51-58 | The listing fails iff some active sale has no product row, or a product whose regular price is zero. |
| FlashSaleService.AvailableQuantityExample | src/main/java/com/example/flashsale/service/impl/FlashSaleServiceImpl.java:169 | An allocation of 50 with 10 sold shows 40 available. |
| FlashSaleService.AdmitPurchase | src/main/java/com/example/flashsale/service/impl/FlashSaleServiceImpl.java:74-110 | An admission passed every check: the username resolves to the buyer, who has no completed order today. The one sale of the product running now has stock. The product exists with stock, and the buyer's balance covers the flash price. |
| FlashSaleService.AdmissionUpToTheSale | src/main/java/com/example/flashsale/service/impl/FlashSaleServiceImpl.java:74-91 | The first four refusals, each iff its condition, in order: no such user, already purchased today, no running sale, several running sales. The re-fetch by id never refuses. |
| FlashSaleService.AdmissionAfterTheSale | src/main/java/com/example/flashsale/service/impl/FlashSaleServiceImpl.java:89-110 | Once the buyer passes the daily guard and one sale runs, the re-fetch finds it. The remaining refusals are each iff their condition, in order: sold out, product missing, product out of stock, balance too low. Admission happens iff all four checks pass. |
| FlashSaleService.SecondPurchaseOnOneDayRefused | src/main/java/com/example/flashsale/service/impl/FlashSaleServiceImpl.java:77-82 | Once the buyer a username resolves to has a completed order on a date, a purchase on that date by that username is refused as already purchased today. This holds for any product, sales, stock and balance. |
| FlashSaleService.DebitBuyer | src/main/java/com/example/flashsale/service/impl/FlashSaleServiceImpl.java:113-114 | The buyer's balance falls by exactly the amount. No other user changes, and the user table stays valid. |
| FlashSaleService.TakeOneFromStock | src/main/java/com/example/flashsale/service/impl/FlashSaleServiceImpl.java:121-122 | The product's stock falls by exactly one. No other product changes, and stocks stay non-negative. |
| FlashSaleService.RecordSale | src/main/java/com/example/flashsale/service/impl/FlashSaleServiceImpl.java:117-133 | The sale's sold count rises by one and exactly the new order is appended. The sale and order invariants survive. |
| FlashSaleService.WritePurchase | src/main/java/com/example/flashsale/service/impl/FlashSaleServiceImpl.java:112-133 | Applies the four writes exactly: balance minus price, sold plus one, stock minus one, and one COMPLETED order appended under the next id with the buyer, product, sale and price. No other sale's sold count changes. The store stays valid. |
| FlashSaleService.StatusName | src/main/java/com/example/flashsale/service/impl/FlashSaleServiceImpl.java:146 | The status is spelled `COMPLETED` iff the order is completed, and `CANCELLED` iff it is cancelled. |
| FlashSaleService.CompletePurchase | src/main/java/com/example/flashsale/service/impl/FlashSaleServiceImpl.java:112-149 | Applies the four writes exactly, then leaves the trail as `SyncStep` says for the new order. The response carries the new order id, the product, the price, the new balance, `COMPLETED`, the instant and the success message. No other sale's sold count changes. The store stays valid. |
| FlashSaleService.PurchaseFlashSaleProduct | src/main/java/com/example/flashsale/service/impl/FlashSaleServiceImpl.java:72-150 | Fails iff admission fails, with the same error and nothing changed. On success the whole new state is stated: balance minus price, sold count plus one with other sales' counts kept, stock minus one, the COMPLETED order under the next id, and the trail as `SyncStep` leaves it. The store stays valid: never oversold, one order per user per day, no negative balance or stock. |
| FlashSaleService.PurchaseTwiceOnOneDay | src/main/java/com/example/flashsale/service/impl/FlashSaleServiceImpl.java:77-82 | After a successful purchase, a second purchase by the same user on the same date is refused as already purchased today, whatever the product. |
| AuthService.ContactOf | src/main/java/com/example/flashsale/service/impl/AuthServiceImpl.java:81 | The contact is the email when given, and otherwise the phone (absent when the phone is absent too). |
| AuthService.GenerateOtp | src/main/java/com/example/flashsale/service/impl/AuthServiceImpl.java:199-206 | Exactly `otpLength` characters (none for a length below one), each a decimal digit. |
| AuthService.MarkVerified | src/main/java/com/example/flashsale/service/impl/AuthServiceImpl.java:139-143 | Sets only the verified flag of the OTP's channel. Id, contacts, hash and balance are kept. |
| AuthService.NewUser | src/main/java/com/example/flashsale/service/impl/AuthServiceImpl.java:69-76 | A new account keeps the given id, contacts and password hash, starts with balance 100,000,000 (positive), and has neither contact verified. |
| AuthService.SaveNewUser | src/main/java/com/example/flashsale/service/impl/AuthServiceImpl.java:69-77 | Appends exactly the new user, under the next id with unused contacts. The store stays valid. |
| AuthService.Register | src/main/java/com/example/flashsale/service/impl/AuthServiceImpl.java:54-109 | Refusals, in order: no contact, email taken, phone taken. Each stores nothing. On success, one user is appended with the encoded password, balance 100,000,000 and both flags false. One unused OTP of `otpLength` digits is appended for it, on the email channel iff an email is given, expiring `otpExpirationMinutes` later. Both response texts are stated. |
| AuthService.VerifyOtp | src/main/java/com/example/flashsale/service/impl/AuthServiceImpl.java:120-154 | No match means invalid or expired, and several matches is an error. Every refusal changes nothing. On success, exactly the found record is marked used, and its user gets only that channel's flag. While every OTP belongs to a user, a single match always succeeds. |
| AuthService.GeneratedUserIdsAreFound | src/main/java/com/example/flashsale/service/impl/AuthServiceImpl.java:136-137 | Under generated ids, every id from 1 to the table size finds its user. |
| AuthService.VerifyOtpTwice | src/main/java/com/example/flashsale/service/impl/AuthServiceImpl.java:123-133 | After a successful verification, the same code for the same contact, now or later, is refused as invalid or expired. |
| AuthService.MillisToSeconds | src/main/java/com/example/flashsale/service/impl/AuthServiceImpl.java:194 | Milliseconds to seconds, truncating toward zero as `long` division does. |
| AuthService.MillisToSecondsExample | src/main/java/com/example/flashsale/service/impl/AuthServiceImpl.java:194 | A lifetime of 3,600,000 ms is reported as 3,600 s. |
| AuthService.ChannelName | src/main/java/com/example/flashsale/service/impl/AuthServiceImpl.java:104 | The channel named in the registration message is `email` exactly for email verification and `phone` exactly for phone verification. |
| AuthService.Login | src/main/java/com/example/flashsale/service/impl/AuthServiceImpl.java:164-197 | Refused without a contact, then when authentication fails, then when the username resolves to no user, and for no other reason: with a contact, passed authentication and a resolving username, the login succeeds. Success returns the token for the username, type `Bearer`, the lifetime in seconds, and the details of the resolved user, who has the username as email or phone. |
| AuthService.LoginWithStandardAuthentication | src/main/java/com/example/flashsale/service/impl/AuthServiceImpl.java:172-177 | With authentication through the user lookup and the password matcher, the user-not-found refusal cannot happen. Login succeeds iff authentication does. |
| AuthService.RegisteredUserCanLogIn | src/main/java/com/example/flashsale/service/impl/AuthServiceImpl.java:164-197 | An account registered under fresh contacts can log in at once with its password, verified or not. Its details show the new id and both flags false. |

## Left out

- Register, GenerateOtp: the column lengths are not modelled. The source stores email in at most 255 characters (src/main/java/com/example/flashsale/entity/User.java:30), phone in at most 20 (User.java:33) and the OTP code in at most 10 (src/main/java/com/example/flashsale/entity/OtpVerification.java:33). A longer value fails at save and rolls the registration back, whereas the model's Register accepts contacts of any length and GenerateOtp any positive length.
- Locks and isolation. The pessimistic locks, the serializable isolation of the purchase and the `@Version` column are not modelled. Each service call is one atomic step, so the guarantees hold over any sequence of calls but say nothing about interleavings.
- Rollback. A refused purchase, registration or verification is modelled as changing nothing. In the code, every refusal comes before the first write, or the transaction rolls back.
- The security context. The purchase takes the username as a parameter.
- Password encoding, token generation and the authentication manager are parameters (`encode`, `matches`, `generateToken`, `authenticated`). Their insides are not modelled.
- `Random`. Each OTP digit is an arbitrary choice in 0..9.
- The clock. Each operation takes one instant, `now`, in whole seconds. Sub-second precision is not modelled, and `Duration.getSeconds` is exact at whole seconds. The several `now()` calls of one request are read as the same instant.
- Logging and the creation and update timestamps are not modelled.
- OrderDate: the database fills in the order-date column. The model takes it to be the date of `orderedAt`.
- Several matching rows. A single-row query that matches several rows is the error result `ManyRows` (`NonUniqueSale`, `NonUniqueOtp`), as the persistence layer raises an error there. It is not excluded by a precondition.
- The order of the sync. The inventory sync runs inside the purchase transaction, directly after the order is saved, as the code does. It does not run after commit.
- Java integer width. The `int` sold count and stock and the `long` ids are unbounded integers, so `soldQuantity++` and id generation do not wrap. The invariants keep sold counts at or below the allocation and stocks non-negative.
- Generated ids. Users and orders are numbered 1, 2, 3, … with no gaps (`users[i].id == i + 1`, `orders[i].id == i + 1`). A database identity column promises only distinct ids: an insert that is rolled back, for example on a serialization conflict after the order is saved (FlashSaleServiceImpl.java:133), still uses up its value. The concrete order id `|orders| + 1` that `CompletePurchase` and `PurchaseFlashSaleProduct` promise follows from this assumption only.
- BigDecimal is integer cents for prices and balances, and hundredths of a percent for the discount. The scale-4 intermediate of the discount is modelled exactly by `RoundHalfUp`.
- ProductRepository and UserRepository are not part of this model beyond the lookups the core makes (by id, email and phone, and the two existence checks). They are written out as searches over the store.
- Controllers, DTO wrapping (the `ApiResponse` timestamp and error fields) and the service interfaces are not modelled.
- The setters and builder of a sale configuration beyond its constructor are not modelled. The core never changes any column but `soldQuantity`.
- AdmitPurchase: its own contract states soundness only. The refusals and their order are stated by `AdmissionUpToTheSale` and `AdmissionAfterTheSale`. There, the "flash sale not found" refusal of the re-fetch by id is proved never to happen (the sale was just found among the same rows), so no path of the model produces it.
- Login: the phone-only case resolves the username as an email first, as the code does. If another account has the phone's text as its email, login returns that account. `RegisteredUserCanLogIn` therefore requires that no such account exists.
- VerifyOtp: the code marks the OTP used before it looks up the user, and a missing user rolls back the whole transaction. The model refuses with nothing changed. That branch is proved unreachable while every OTP belongs to a stored user (`OtpsValid`).
