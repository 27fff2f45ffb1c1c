# POS backend settlement, modelled in Dafny

This project models the core of a point-of-sale REST backend written in PHP/Laravel. That core is the sale and
purchase-receiving settlement, plus the catalog, customer, user and gift-card endpoints around it. Everything
the endpoints read or write lives in one `Database.Store` object. It holds one map per table (row id to record)
and one auto-increment counter per table. Each controller is a module whose methods take the store.

- Money is `real`: the model's sums and percentages are exact, where the PHP computes in floating point and the
  database rounds to its decimal columns (see "## Left out").
- Quantities and stock are `int`. Stock can go negative through createSale's per-line check, and the model shows how.
- Every endpoint that runs in a database transaction is modelled as all-or-nothing: each failing outcome ensures
  `unchanged(db)`. completeHeldSale writes before it can fail, so it restores the three tables it touched.
- The `Store.Valid()` invariant is required and preserved by every endpoint and by the helpers that write headers
  (the loop helpers take what they need of it as preconditions). It says:
  - no row id has reached its table's counter, and every receiving line refers to an existing item;
  - every item's cost and price are at least 0 (the `min:0` rules on create and update);
  - every gift card's balance, when set, is at least 0 (the `min:0` rule, and redemption never overdraws);
  - every sale's discount lies between 0 and its total, and its net amount is the total minus the discount;
  - every purchase order's discount total lies between 0 and its total, and its amount due is the total minus
    the discount total.

Modules:

- `Common`: `Option`, `Result` and the error kinds:
  - `NotFound` (a 404, or `findOrFail`/`firstOrFail`);
  - `Invalid` (a failed numeric or length validation rule);
  - `InsufficientStock`;
  - `AlreadyCompleted`;
  - `SupplierMismatch`.
- `Text`: decimal digits, `str_pad`, `substr`, `intval`, `sprintf("%03d")` and SQL `LIKE '%s%'` containment, on `seq<char>`.
- `Records`: one datatype per table row.
- `Database`: the store and its invariant, plus the "last row by id" query.
- `SaleSettlement` and `ReceivingSettlement`: the settlement arithmetic as pure functions. Each controller
  method is proved against these functions.
- `SalesController`, `ReceivingController`, `ReceivingItemController`, `ItemController`, `CustomersController`,
  `UsersController`, `GiftCardsController`: the endpoints. The source's loops become methods with loop invariants.

Validation rules are modelled in two ways:

- `exists:` and `unique:` rules become preconditions, because the model does not hold the category, card or role
  tables that some of them consult.
- Numeric and length rules (`min:1`, `min:0`, `max:100`, `min:6`) become `Invalid` results, so their error paths
  are modelled.

Facts the model records about the code as written:

- createSale checks each line against the stock read before any write. Two lines for the same item can each pass
  while together they take its stock below zero. completeHeldSale checks each line against the stock left by the
  earlier lines, so it rejects the same basket. See `SaleSettlement.PerLineCheckOversells`.
- createSale never reads a payment type from the request (it is not among the validated fields), so every
  created sale is a cash sale. It never sets `status` or `held_by` on the header. The `status` and `held_by`
  it passes for each sale line are not fillable on sale lines, so they are dropped.
- updateReceivingItem without a new percentage subtracts the stored `discount` column as an amount. That column
  holds the percentage createReceiving stored. See `ReceivingItemController.StoredPercentSubtractedAsAmount`.
- updateGiftCard keeps the gift-card number generated at creation even when it changes the card type, so the
  number can stop matching the card type. See `GiftCardsController.UpdateKeepsNumber`.
- archiveGiftCard sets only `is_archived`. The sale paths look a card up by `is_active` alone, so an archived
  active card can still be redeemed.

## Model

| member | source | states |
|---|---|---|
| SaleSettlement.BasketTotal | app/Http/Controllers/SalesController.php:101-108 | the basket total: price at the time of the call times quantity, summed over the lines in request order (also holdSale's total, lines 185-189) |
| SaleSettlement.BasketTotalNonNegative | app/Http/Controllers/SalesController.php:101-108 | with prices that are not negative and positive quantities, the summed basket total is not negative |
| SaleSettlement.LineSnapshot | app/Http/Controllers/SalesController.php:147-155 | a stored sale line carries the requested item and quantity, the item's current price, and price times quantity as its total |
| SaleSettlement.Snapshot | app/Http/Controllers/SalesController.php:144-160 | one stored line per requested line, in request order, each the price snapshot of its request |
| SaleSettlement.SnapshotTotal | app/Http/Controllers/SalesController.php:135-160 | the header's total_amount equals the sum of the totals stored on its lines |
| SaleSettlement.Requested | app/Http/Controllers/SalesController.php:254-256 | completeHeldSale reads back, from each stored line, the item and quantity it decrements |
| SaleSettlement.RequestedSnapshot | app/Http/Controllers/SalesController.php:201-211 | reading the stored lines of a held sale back gives exactly the basket it was held with |
| SaleSettlement.Debit | app/Http/Controllers/SalesController.php:157-159 | decrementing stock line by line keeps the set of items |
| SaleSettlement.DebitAt | app/Http/Controllers/SalesController.php:144-160 | after the decrement loop each item has lost exactly the total quantity the basket asks of it, and nothing else about it changed |
| SaleSettlement.DebitStep | app/Http/Controllers/SalesController.php:157-159 | one more iteration of the decrement loop decrements the current line's item by its quantity |
| SaleSettlement.SnapshotStep | app/Http/Controllers/SalesController.php:147-155 | one more iteration of the line loop appends that line's price snapshot |
| SaleSettlement.SettleHeld | app/Http/Controllers/SalesController.php:254-261 | completeHeldSale's stock pass as a value: line by line, a missing item is not found, a line asking more than the stock the earlier lines left fails naming its item, otherwise that stock drops by the line's quantity |
| SaleSettlement.SettleHeldFailureSticks | app/Http/Controllers/SalesController.php:254-261 | once a line of completeHeldSale's stock pass fails, the whole pass fails with that line's error |
| SaleSettlement.SettleHeldIsDebit | app/Http/Controllers/SalesController.php:254-261 | a successful completeHeldSale stock pass decrements exactly like createSale's unchecked loop |
| SaleSettlement.CoveredSnoc | app/Http/Controllers/SalesController.php:254-261 | a basket of non-negative quantities is covered by the stock exactly when its prefix is and the last line's item has stock for everything asked of it |
| SaleSettlement.SettleHeldIsCheckedDebit | app/Http/Controllers/SalesController.php:254-261 | completeHeldSale's pass succeeds exactly when each item's stock covers the total asked of it; it then equals the plain decrement and leaves no touched item below zero |
| SaleSettlement.QtyForNonNegative | app/Http/Controllers/SalesController.php:94 | quantities that are not negative never add up to a negative demand |
| SaleSettlement.PerLineCheckOversells | app/Http/Controllers/SalesController.php:102-108 | two lines for one item, each within its stock but together over it, pass createSale's check and drive the stock negative, while completeHeldSale rejects them |
| SaleSettlement.ApplyGiftCard | app/Http/Controllers/SalesController.php:118-125 | discount = min(balance, total); the balance drops by the discount; the card is deactivated exactly when balance <= total, its balance then 0; with non-negative inputs the discount, new balance and net amount stay within bounds |
| SaleSettlement.BalanceOf | app/Http/Controllers/SalesController.php:118-125 | the balance the redemption reads: the stored balance, with an unset (NULL) balance read as 0 |
| SaleSettlement.Redeem | app/Http/Controllers/SalesController.php:112-127 | no card: no discount and no change; a missing or inactive card fails with not found; otherwise only that card's balance and active flag change, by ApplyGiftCard, and the discount is min(balance, total) |
| SalesController.CardToApply | app/Http/Controllers/SalesController.php:113 | a gift-card id of 0 counts as no gift card; any other given id is used |
| SalesController.CheckAndPrice | app/Http/Controllers/SalesController.php:101-108 | succeeds exactly when every line passes the stock test on its own, returning the basket total; otherwise fails naming the first short line |
| SalesController.PriceBasket | app/Http/Controllers/SalesController.php:185-189 | the total is the basket total at current prices |
| SalesController.CreateSale | app/Http/Controllers/SalesController.php:88-168 | invalid basket, short stock (naming the first short line) or unusable gift card fail with nothing changed; success: stock decremented by Debit, the card redeemed, a cash sale with total, discount, net = total - discount and price-snapshot lines under the next id; 0 <= discount <= total, 0 <= net <= total, and the redeemed card's balance is at least 0 |
| SalesController.RecordSale | app/Http/Controllers/SalesController.php:126-160 | writes the redeemed cards, the header and its lines, and decrements stock, as CreateSale's success case states |
| SalesController.OpenSale | app/Http/Controllers/SalesController.php:126-141 | saves the redeemed gift cards and creates the header under the next sale id |
| SalesController.WriteLinesAndDebit | app/Http/Controllers/SalesController.php:144-160 | after the loop the stock is Debit of the old stock and the sale's lines are the price snapshot |
| SalesController.HoldSale | app/Http/Controllers/SalesController.php:173-219 | invalid basket fails; otherwise a held sale (discount 0, net = total, no payment type, held by the caller) with price-snapshot lines; stock and gift cards untouched |
| SalesController.WriteLines | app/Http/Controllers/SalesController.php:201-211 | the held sale's lines become the price snapshot of the basket |
| SalesController.CompleteHeldSale | app/Http/Controllers/SalesController.php:224-269 | a sale that is not held is not found; a gift-card or stock failure rolls everything back; success redeems the card against the stored total, completes the header (payment type default cash) and decrements stock by the line-by-line pass; 0 <= discount <= total, 0 <= net <= total, and the redeemed card's balance is at least 0 |
| SalesController.SettleInTransaction | app/Http/Controllers/SalesController.php:228-262 | the transaction after the card lookup: the header and cards are written, then the stock pass; if the pass fails all three tables are restored, otherwise the stock is SettleHeld's result |
| SalesController.CloseSale | app/Http/Controllers/SalesController.php:232-252 | saves the redeemed gift cards and sets discount, net = total - discount, payment type and status completed on the sale, keeping the invariant |
| SalesController.SettleStock | app/Http/Controllers/SalesController.php:254-261 | the loop succeeds exactly when SettleHeld does, leaving its stock with prices and costs unchanged, and otherwise fails with SettleHeld's error |
| SalesController.BasketTotalAtLeastZero | app/Http/Controllers/SalesController.php:101-108 | in a valid store a valid basket's total is at least 0 |
| SalesController.DebitKeepsPrices | app/Http/Controllers/SalesController.php:157-159 | a sale's stock decrements keep every item's cost and price at least 0 |
| SalesController.RedeemKeepsFunds | app/Http/Controllers/SalesController.php:112-127 | against a total of at least 0, redemption gives a discount between 0 and the total and leaves every balance at least 0 |
| ReceivingSettlement.PercentBounds | app/Http/Controllers/ReceivingController.php:115 | a percentage within [0, 100] of a non-negative base is between 0 and the base |
| ReceivingSettlement.NewLine | app/Http/Controllers/ReceivingController.php:112-125 | the stored order line: the item's cost at the time of the call, the quantity, the percentage (0 when absent) and the total cost times quantity minus that percentage of it |
| ReceivingSettlement.OrderTotal | app/Http/Controllers/ReceivingController.php:109-129 | the header total: cost times quantity summed over the lines |
| ReceivingSettlement.DiscountTotal | app/Http/Controllers/ReceivingController.php:109-129 | the header discount total: each line's percentage of its cost times quantity, summed |
| ReceivingSettlement.NewLineBounds | app/Http/Controllers/ReceivingController.php:113-125 | a stored order line keeps the item's cost, the quantity and the percentage (0 when absent), and totals between 0 and cost times quantity; exactly that without a percentage |
| ReceivingSettlement.AmountDueIsSumOfLines | app/Http/Controllers/ReceivingController.php:127-135 | amount_due = total - discount_total equals the sum of the totals stored on the new lines |
| ReceivingSettlement.HeaderBounds | app/Http/Controllers/ReceivingController.php:109-135 | with valid lines and non-negative costs, 0 <= discount_total <= total |
| ReceivingSettlement.PlacedAt | app/Http/Controllers/ReceivingController.php:118-125 | the i-th requested line is stored at line id next + i; no other line id is added or changed |
| ReceivingSettlement.Received | app/Http/Controllers/ReceivingController.php:178-180 | crediting the order's lines keeps the set of items |
| ReceivingSettlement.ReceivedAt | app/Http/Controllers/ReceivingController.php:178-180 | each item's stock rises by exactly the quantity the order's lines name for it, nothing else about it changing |
| ReceivingSettlement.ReceivedQtyNonNegative | app/Http/Controllers/ReceivingController.php:83 | lines of quantity at least 0 never lower a stock |
| ReceivingSettlement.ReceivedQtyOfNoLines | app/Http/Controllers/ReceivingController.php:178-180 | an item no line of the order names gains nothing |
| ReceivingController.CheckSuppliers | app/Http/Controllers/ReceivingController.php:88-96 | reports no item exactly when every line's item belongs to the supplier; otherwise the first foreign line's item |
| ReceivingController.CreateReceiving | app/Http/Controllers/ReceivingController.php:68-153 | invalid lines, then the first foreign item, fail with nothing changed; success: a Pending header with OrderTotal, DiscountTotal and amount due, the lines placed at consecutive line ids, stock untouched; 0 <= discount total <= total and 0 <= amount due <= total |
| ReceivingController.RecordOrder | app/Http/Controllers/ReceivingController.php:99-135 | writes the Pending header with zero amounts, then the lines, then the summed amounts on the header, keeping the invariant |
| ReceivingController.WriteOrderLines | app/Http/Controllers/ReceivingController.php:112-129 | stores the lines at consecutive ids and returns the summed base and discount amounts |
| ReceivingController.CompleteReceiving | app/Http/Controllers/ReceivingController.php:157-198 | missing order not found, completed order rejected, both unchanged; otherwise each item gains what the order's lines deliver and the order is Completed, so a second call adds nothing |
| ReceivingController.AddStock | app/Http/Controllers/ReceivingController.php:178-180 | the stock after the loop is Received of the stock before it, keeping the invariant |
| ReceivingController.OrderBounds | app/Http/Controllers/ReceivingController.php:109-135 | in a valid store a valid order's discount total lies between 0 and its total |
| ReceivingController.ReceivingKeepsPrices | app/Http/Controllers/ReceivingController.php:178-180 | crediting received stock keeps every item's cost and price at least 0 |
| ReceivingController.CompletionCreditsEachItem | app/Http/Controllers/ReceivingController.php:178-182 | after completion an item's stock has risen by exactly what the order's lines deliver |
| ReceivingItemController.Subtracted | app/Http/Controllers/ReceivingItemController.php:44-45 | the amount subtracted from the revised base: the new percentage of it when one is given, otherwise the stored discount column taken as an amount |
| ReceivingItemController.Revised | app/Http/Controllers/ReceivingItemController.php:44-48 | the updated line: the given fields replace the stored ones and the total becomes the revised base minus Subtracted |
| ReceivingItemController.RevisedWithPercent | app/Http/Controllers/ReceivingItemController.php:44-48 | with a new percentage the recomputed line equals the line createReceiving would store, and its total is between 0 and the new base |
| ReceivingItemController.ResubmittedPercentKeepsLine | app/Http/Controllers/ReceivingItemController.php:44-48 | resubmitting only a line's own percentage leaves the line unchanged |
| ReceivingItemController.StoredPercentSubtractedAsAmount | app/Http/Controllers/ReceivingItemController.php:45 | without a new percentage the stored percentage is subtracted as an amount: a line at cost 10, quantity 2 and 50 % goes from total 10 to -30 on an empty update |
| ReceivingItemController.UpdateReceivingItem | app/Http/Controllers/ReceivingItemController.php:27-55 | a missing line is not found and invalid fields are rejected, both unchanged; otherwise only that line changes, and no header is recomputed |
| ReceivingItemController.DeleteReceivingItem | app/Http/Controllers/ReceivingItemController.php:58-75 | removes exactly that line, or fails as not found with nothing changed; headers untouched |
| ItemController.MatchesSearch | app/Http/Controllers/ItemController.php:16-26 | the search filter: the search text occurs in the item's name, its barcode, or its supplier's company name |
| ItemController.LowStock | app/Http/Controllers/ItemController.php:33-36 | the low-stock filter: the item has a minimum stock and its stock is at or under it |
| ItemController.Listed | app/Http/Controllers/ItemController.php:13-36 | an item is listed when it is active and passes every filter the query gives |
| ItemController.View | app/Models/Item.php:36-39 | the margin is price minus cost |
| ItemController.ListItems | app/Http/Controllers/ItemController.php:11-57 | lists exactly the active items passing every given filter, each with its margin; no such item is not found |
| ItemController.ListedItemsAreActive | app/Http/Controllers/ItemController.php:13-36 | a listed item is active, in the requested category, and at or under its minimum stock under the low-stock filter |
| ItemController.FiltersOnlyNarrow | app/Http/Controllers/ItemController.php:16-36 | adding filters never adds an item to the listing |
| ItemController.ArchivedItemIsNotListed | app/Http/Controllers/ItemController.php:157-174 | deactivating an item removes exactly that item from every listing |
| ItemController.GetItemById | app/Http/Controllers/ItemController.php:60-77 | any existing item, active or not, with its margin; else not found |
| ItemController.CreateItem | app/Http/Controllers/ItemController.php:80-112 | a negative cost, price, stock or minimum is rejected with nothing changed; otherwise the item is stored under the next id, active unless the request says otherwise |
| ItemController.Apply | app/Http/Controllers/ItemController.php:140 | the given fields replace the stored ones; under the numeric rules an item priced at 0 or more stays so, and a stock of at least 0 stays so |
| ItemController.UpdateItem | app/Http/Controllers/ItemController.php:115-154 | missing item not found, invalid numbers rejected, both unchanged; otherwise only that item changes, its given fields replaced |
| ItemController.ArchiveItem | app/Http/Controllers/ItemController.php:157-174 | a missing item is not found; otherwise only its active flag is cleared |
| Text.PadLeft | app/Http/Controllers/CustomersController.php:39 | str_pad to the left: the result is the width long, or the string's own length when that is longer |
| Text.PadLeftShape | app/Http/Controllers/CustomersController.php:39 | str_pad to the left keeps the original string as suffix, with only fill characters before it |
| Text.IntVal | app/Http/Controllers/UsersController.php:69 | intval: leading whitespace skipped, then an optional sign, then the longest run of decimal digits (0 when there is none) |
| Text.SubstrFrom | app/Http/Controllers/UsersController.php:69 | substr from k: the rest of the string after its first k characters, empty when it is shorter |
| Text.IntValOfPadded | app/Http/Controllers/UsersController.php:69-70 | intval of a zero-padded decimal is the number |
| Text.PaddedDigits | app/Http/Controllers/GiftCardsController.php:32 | a zero-padded decimal is all digits and denotes the number |
| Text.ValueIgnoresLeadingZeros | app/Http/Controllers/CustomersController.php:39 | leading zeros do not change a decimal's value |
| Database.LastId | app/Http/Controllers/CustomersController.php:37 | the highest id in use, or none when the table is empty |
| CustomersController.CustomerNumber | app/Http/Controllers/CustomersController.php:37-39 | 'CUST-' followed by the id zero-padded to at least four digits |
| CustomersController.CustomerNumberRoundTrip | app/Http/Controllers/CustomersController.php:37-39 | the digits after 'CUST-' read back as the id the number was made from |
| CustomersController.CustomerNumberInjective | app/Http/Controllers/CustomersController.php:39 | different ids give different customer numbers |
| CustomersController.NextNumberId | app/Http/Controllers/CustomersController.php:37-38 | one past the highest id in use (archived rows included), or 1 for an empty table; above every id in use |
| CustomersController.CreateCustomer | app/Http/Controllers/CustomersController.php:17-60 | the customer is stored under the next row id, not archived, numbered from one past the highest id in use |
| CustomersController.ListCustomers | app/Http/Controllers/CustomersController.php:64-89 | exactly the customers that are not archived |
| CustomersController.GetCustomerById | app/Http/Controllers/CustomersController.php:95-110 | a customer that exists and is not archived, which is then also listed; else not found |
| CustomersController.Apply | app/Http/Controllers/CustomersController.php:151 | an update never changes the customer number or archive flag; the contact fields are the union of stored and given ones, the given ones winning, the others kept |
| CustomersController.UpdateCustomer | app/Http/Controllers/CustomersController.php:113-165 | a missing or archived customer is not found with nothing changed; otherwise only that customer changes |
| CustomersController.ArchiveCustomer | app/Http/Controllers/CustomersController.php:169-186 | a missing or archived customer is not found; otherwise only its archive flag is set |
| CustomersController.ArchivedCustomerIsHidden | app/Http/Controllers/CustomersController.php:169-186 | after archiving, the customer is not found and the listing loses exactly that customer |
| UsersController.EmployeeNumber | app/Http/Controllers/UsersController.php:70-71 | 'EMP' followed by the number zero-padded to at least four digits |
| UsersController.ParseEmployeeNumber | app/Http/Controllers/UsersController.php:69 | intval of everything after the first three characters of an employee number |
| UsersController.NextEmployeeNumber | app/Http/Controllers/UsersController.php:68-71 | one past the number read from the last user's employee number, or 1 when there is no user |
| UsersController.EmployeeNumberRoundTrip | app/Http/Controllers/UsersController.php:68-71 | intval of everything after 'EMP' gives back the number the employee number was made from |
| UsersController.EmployeeNumbersConsecutive | app/Http/Controllers/UsersController.php:68-71 | after the user numbered n the next user gets number n + 1; the first user gets EMP0001 |
| UsersController.EmployeeNumberInjective | app/Http/Controllers/UsersController.php:70-71 | different numbers give different employee numbers |
| UsersController.LastUser | app/Http/Controllers/UsersController.php:68 | the user with the highest id, archived or not; none for an empty table |
| UsersController.CreateUser | app/Http/Controllers/UsersController.php:45-87 | a password under six characters is rejected with nothing changed; otherwise the user is stored under the next id with the hashed password, not archived, and the next employee number |
| UsersController.ListUsers | app/Http/Controllers/UsersController.php:11-26 | exactly the users that are not archived; none is not found |
| UsersController.GetUserById | app/Http/Controllers/UsersController.php:28-43 | a user that exists and is not archived, which is then also listed; else not found |
| UsersController.Apply | app/Http/Controllers/UsersController.php:118-124 | the stored user after an update: given fields replace the stored ones, and the password hash changes only when a non-empty password is given |
| UsersController.PasswordKeptUnlessGiven | app/Http/Controllers/UsersController.php:118-124 | the stored hash is kept when no or an empty password is given, and replaced by the new password's hash otherwise; employee number and archive flag never change |
| UsersController.UpdateUser | app/Http/Controllers/UsersController.php:90-138 | a missing or archived user is not found, a short password rejected, both unchanged; otherwise only that user changes |
| UsersController.ArchiveUser | app/Http/Controllers/UsersController.php:140-157 | a missing or archived user is not found; otherwise its archive flag is set and lookups no longer find it |
| GiftCardsController.GiftCardNumber | app/Http/Controllers/GiftCardsController.php:30-32 | 'GC', the card type id zero-padded to at least three digits, '-', then the year |
| GiftCardsController.DashAfterDigits | app/Http/Controllers/GiftCardsController.php:32 | in a number of the form digits-year the first '-' follows the digits |
| GiftCardsController.SplitAtDash | app/Http/Controllers/GiftCardsController.php:32 | the card-type digits and the year can be read back from such a number |
| GiftCardsController.SplitAfterPrefix | app/Http/Controllers/GiftCardsController.php:32 | behind the 'GC' prefix the card-type digits and the year can still be read back |
| GiftCardsController.GiftCardNumberDeterminedByTypeAndYear | app/Http/Controllers/GiftCardsController.php:30-32 | two cards get the same number exactly when they have the same card type and year |
| GiftCardsController.CreateGiftCard | app/Http/Controllers/GiftCardsController.php:17-41 | a negative value or balance is rejected with nothing changed; otherwise the card is stored under the next id with the generated number, not archived |
| GiftCardsController.GetGiftCardById | app/Http/Controllers/GiftCardsController.php:65-80 | any existing card, archived or not; else not found |
| GiftCardsController.Apply | app/Http/Controllers/GiftCardsController.php:105 | an update keeps the number and the archive flag, and under the min:0 rules a balance of at least 0 stays so |
| GiftCardsController.UpdateKeepsNumber | app/Http/Controllers/GiftCardsController.php:105 | an update keeps the number and archive flag, so moving a card to another card type leaves a number that no longer matches it |
| GiftCardsController.UpdateGiftCard | app/Http/Controllers/GiftCardsController.php:83-112 | a missing card is not found, a negative value or balance rejected, both unchanged; otherwise only that card changes |
| GiftCardsController.ArchiveGiftCard | app/Http/Controllers/GiftCardsController.php:115-132 | a missing or archived card is not found; otherwise only its archive flag is set |

## Left out

- HTTP, authentication and pagination are not modelled. The caller's user id (`auth()->id()`) is a parameter.
- Responses are reduced to a `Result`: the HTTP status codes (404, 400, 422, 500) and the messages are not kept.
- `Hash::make` and `date('Y')` are parameters (`hash`, `year`).
- Row locking and concurrent requests are not modelled: each endpoint runs alone.
- The `exists:` and `unique:` rules are preconditions, not error paths. The categories, cards and roles tables they consult are not part of this model.
- String length limits, the email format rule and the gift card's `after:today` expiration rule are not modelled.
- File uploads (profile pictures) are not modelled. The customers' and users' free-text contact fields are kept only as an opaque field map.
- The `description` field of items and gift cards (validated at app/Http/Controllers/ItemController.php:85 and 129 and app/Http/Controllers/GiftCardsController.php:22 and 97) is not part of the records: it is stored and returned as given and takes part in no rule.
- Floating point and decimal columns are not modelled: money is an exact `real`. The PHP sums floats and the database rounds each stored amount to its decimal column, so `SaleSettlement.SnapshotTotal` and `ReceivingSettlement.AmountDueIsSumOfLines` hold exactly in the model but only up to rounding in the running system.
- The sale `status` column's database default is taken not to be 'held'. createSale never writes `status` (app/Http/Controllers/SalesController.php:127-136), so the model stores no status, and `SalesController.IsHeld` only finds a sale whose status is 'held'. With a default of 'held', completeHeldSale (line 226) would find a sale createSale made and take its stock a second time; the schema is not part of this model.
- `SaleSettlement.BalanceOf`: a gift card whose balance is NULL is read as a balance of 0. In PHP `min(null, $total)` is null, so the running system would store a NULL discount or fail the insert; the model gives a discount of 0 and deactivates the card.
- A request field explicitly set to null is treated as absent in the updates. Laravel would write NULL for a nullable field: `discount` on updateReceivingItem, `barcode` and `min_stock` on updateItem, `balance` and `expiration_date` on updateGiftCard.
- `amount_paid`, `change` and the sale's `gift_card_id` are never written by the modelled endpoints.
- `ItemController.MatchesSearch`: `LIKE` is modelled as exact substring containment. It ignores the database's case-insensitive collation and `%` or `_` inside the search text.
- `Text.IntVal`: intval is modelled for optional leading whitespace, an optional sign and decimal digits. It does not model overflow to the platform's integer bounds or exponent notation.
- The read-only listings getAllSales, getSaleById and getHeldSales (app/Http/Controllers/SalesController.php:21, 44 and 64), getByReceiving, getAllReceivings, getReceivingById and getGiftCards are not modelled. They only filter, join and paginate rows.
- The `date` rule on createReceiving's `expected_delivery_date` (app/Http/Controllers/ReceivingController.php:75) is not modelled: the date is kept as an optional string.
- `ReceivingController.CompleteReceiving`: the order's lines are credited in line-id order. Stock addition commutes, so the order does not affect the result.
- A gift card whose `is_archived` column is left to its database default is created with the flag unset.
