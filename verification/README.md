# Price estimation and settlement engine — a Dafny model

This project models the core of a small exchange back end. A user asks for a
quote to BUY or SELL a volume of a trading pair (`getOptimalPrice`). The
service walks the venue's depth ladder to find the volume-weighted subtotal
and adds a spread and a fee. It then stores a price estimation that is valid
for 30 seconds. Later the user settles the estimation (`createOrder`). The
service checks it, places a market order at the venue, moves the user's
quote-token and base-token balances in one ledger transaction, and records a
swap re-priced from the venue's executed quote quantity. A small symbol
table (`config.ts`, `symbols.service.ts`) holds each symbol's fee, spread,
notional and venue proxy.

Modules (one file each):

- `Fixed8` (`fixed8.dfy`): `+x.toFixed(8)` on exact reals, rounding half away from zero.
- `Outcomes` (`outcomes.dfy`): `Option`, `Result`, and the error taxonomy with the HTTP
  status each error is thrown as (NotFound, BadRequest, Conflict).
- `Records` (`records.dfy`): `Side`, `Level`, `OrderBook`, `Pair`, `PriceEstimation`,
  `Swap`, and `Store`. `Store` holds the pair, estimation, swap and balance tables as maps.
- `Config` (`config.dfy`): `priceExpiration`, `symbolsDictionary`, and `symbolsArray`.
- `Symbols` (`symbols.dfy`): `getSymbolForBinance`, `getSymbolFeeAndSpread`, and `isNotionalValid`.
- `Pricing` (`pricing.dfy`): `calculateFeeAndSpread`.
- `BookWalker` (`book_walker.dfy`): `getOptimalPriceFromOrders`. It is given as a function
  with a closed-form contract, and as the loop of `getOptimalPriceFromOrders` (`WalkOrders`) refined to it.
- `Ledger` (`ledger.dfy`): `getUserBalance` and `performBalanceTransaction`.
- `OrderBooks` (`order_books.dfy`): `getOptimalPrice`, `createOrder`, and the end-to-end
  properties that tie them together.

The model takes the outside world as inputs:

- The venue's depth snapshot is a function `(symbol, limit) -> OrderBook`.
- The venue's order execution is a function `VenueOrder -> Execution`, which gives
  the `orderId` and the `cummulativeQuoteQty`.
- The clock is an integer `now`, in milliseconds.
- Fresh row ids are parameters.

The model follows the services as written, including these behaviours:

- The venue order is always a BUY, whatever the estimation's side (`CreateOrder`
  contract, `SellChecksQuoteTokenOnly`).
- The funds check always reads the quote-token row and compares it with the quoted
  `price`, even for a SELL (`SellChecksQuoteTokenOnly`).
- The ledger moves the QUOTED price. The swap records the EXECUTED subtotal and the
  total priced from it (`CreateOrderSettles`).
- A walked subtotal of exactly 0 is refused as NotFound, the same as a volume the
  ladder cannot cover (`QuoteRejections`).
- Expiry is strict (`expiration < now` refuses), and so is the notional check
  (`subtotal < notional` refuses). In both cases equality passes.
- An unknown symbol is refused as NotFound (`order-books.service.ts` lines 37-39), and the
  model returns `UnknownPair` with status NotFound. The end-to-end test "should not
  accept other symbols" (`test/app.e2e-spec.ts` lines 78-87) expects 400 for it instead.

## Model

| member | source | states |
|---|---|---|
| Fixed8.Round8 | src/order-books/order-books.service.ts:177 | The rounded value has at most eight decimals, lies within half a unit of the eighth decimal of its input, and keeps its input's sign. |
| Fixed8.Round8Exact | src/order-books/order-books.service.ts:191-196 | Rounding a value that already has eight decimals leaves it unchanged, so re-rounding a rounded amount loses nothing. |
| Fixed8.Round8Monotone | src/order-books/order-books.service.ts:191-196 | Rounding preserves order between amounts. |
| Config.PriceExpirationIsThirtySeconds | src/config.ts:1 | The validity window of a quote is 30 000 ms. |
| Config.SymbolsArrayIsKeySet | src/config.ts:3-26 | `symbolsArray` lists exactly the table's keys (ETHUSDT, BTCUSDT, AAVEUSDC), each once. |
| Config.TablePolicy | src/config.ts:3-22 | Every listed symbol has notional 5 and spread 0.01. The fee is 0.001, except AAVEUSDC at 0.002. Only AAVEUSDC has a proxy, AAVEUSDT. |
| Symbols.GetSymbolForBinance | src/symbols/symbols.service.ts:6-8 | The venue symbol is AAVEUSDT for AAVEUSDC and the symbol itself for every other listed symbol. |
| Symbols.GetSymbolFeeAndSpread | src/symbols/symbols.service.ts:10-13 | Returns exactly the configured spread (0.01) and fee (0.002 for AAVEUSDC, else 0.001). |
| Symbols.IsNotionalValid | src/symbols/symbols.service.ts:15-17 | True iff the price reaches the notional of 5, so equality is valid. |
| Pricing.CalculateFeeAndSpread | src/order-books/order-books.service.ts:180-198 | Spread and fee are the subtotal times their percentages, and the total is subtotal + spread + fee for BUY and subtotal − spread − fee for SELL. Each amount is rounded to eight decimals and lies within half a unit of the exact value. |
| Pricing.ChargesIgnoreSide | src/order-books/order-books.service.ts:191-192 | Spread and fee are the same for BUY and SELL. Only the total depends on the side. |
| Pricing.BuyCostsAtLeastSell | src/order-books/order-books.service.ts:191-196 | With non-negative percentages and subtotal, the charges are non-negative and SELL total ≤ rounded subtotal ≤ BUY total. |
| Pricing.TotalsExactOnGrid | src/order-books/order-books.service.ts:193-196 | On an eight-decimal subtotal the BUY total is exactly subtotal + spread + fee and the SELL total exactly subtotal − spread − fee. The two totals sit symmetrically around the subtotal. |
| Pricing.ChargedQuotesStraddleSubtotal | src/order-books/order-books.service.ts:193-196 | With a positive charge, SELL total < subtotal < BUY total, strictly. |
| Pricing.BuyAboveSubtotal | src/order-books/order-books.service.ts:191-196 | A subtotal that reaches a notional whose spread rounds to a positive amount is priced strictly above itself for BUY. |
| Pricing.SellAtMostSubtotal | src/order-books/order-books.service.ts:193-196 | A non-negative eight-decimal subtotal is never priced above itself for SELL. |
| Pricing.BuyTotalExceedsSellTotal | src/order-books/order-books.service.ts:191-196 | Pricing a subtotal as BUY beats pricing a smaller one as SELL when both reach a notional that earns a spread. |
| BookWalker.GetOptimalPriceFromOrders | src/order-books/order-books.service.ts:160-178 | Defined exactly when some non-empty prefix of the ladder holds the volume, or the ladder is empty and the volume ≤ 0 (which costs 0). It then equals the rounded cost of the whole levels before the fill point plus the remainder at the fill level's price. Levels after the fill point play no part. |
| BookWalker.WalkStopsAtFillPoint | src/order-books/order-books.service.ts:163-171 | Started at any earlier level with that prefix's totals, the loop stops at the fill point, filled exactly to the volume, with the fill cost. |
| BookWalker.WalkTakesEverything | src/order-books/order-books.service.ts:163-175 | If no later prefix holds the volume, the loop takes every level whole. |
| BookWalker.WalkNeverOverfills | src/order-books/order-books.service.ts:166-170 | The loop's filled volume equals the volume when a prefix holds it and never exceeds it on a non-empty ladder. |
| BookWalker.LiquidityBoundary | src/order-books/order-books.service.ts:166-177 | With non-negative quantities the walk succeeds iff the total depth reaches the volume. A volume equal to the depth is filled, and anything beyond it is not. |
| BookWalker.DearerLadderCostsMore | src/order-books/order-books.service.ts:160-178 | For a positive volume, walking the asks of an uncrossed book never costs less than walking its bids. |
| BookWalker.WalkExample | src/order-books/order-books.service.ts:163-175 | Ladder [(100, 1), (101, 2)] with volume 2 costs 201. |
| BookWalker.WalkOrders | src/order-books/order-books.service.ts:160-178 | The loop with its early exit computes the same result as the walker's closed-form definition. |
| Ledger.GetUserBalance | src/users/users.service.ts:23-32 | Returns the amount stored under the composite key (userId, tokenId), or none when that row is absent. |
| Ledger.PerformBalanceTransaction | src/users/users.service.ts:34-68 | Succeeds iff both the quote row and the base row exist, and changes nothing otherwise. On success no row is added or removed, and each row moves by exactly the deltas addressed to it: −price/+price on the quote row for BUY/SELL and +volume/−volume on the base row. No other row moves. |
| Ledger.BalanceTransactionMovesFunds | src/users/users.service.ts:39-67 | For distinct tokens, BUY lowers the quote row by the price and raises the base row by the volume. SELL does the opposite. |
| Ledger.BuyThenSellRestores | src/users/users.service.ts:46-63 | Applying an estimation as BUY and then as SELL with the same price and volume restores every balance. |
| Ledger.BalanceMayGoNegative | src/users/users.service.ts:39-52 | No floor check is made: a BUY priced above the quote balance leaves it negative. |
| OrderBooks.GetOptimalPrice | src/order-books/order-books.service.ts:23-87 | A refused quote stores nothing. An issued quote adds exactly one estimation under the new id, owned by the user, and leaves every other estimation and table unchanged. It returns that estimation's price and an expiry of now + 30 000. |
| OrderBooks.QuoteRejections | src/order-books/order-books.service.ts:37-59 | The refusals come in order: an unknown symbol gives UnknownPair; then a missing or zero subtotal gives InsufficientLiquidity (NotFound); then a subtotal below the notional gives NotionalTooLow (BadRequest). A quote is issued iff a non-zero subtotal reaches the notional. |
| OrderBooks.QuoteRefusalStatus | src/order-books/order-books.service.ts:37-59 | A refused quote is a NotFound exactly when the symbol is unknown or the walk is missing or zero. It is a BadRequest exactly when the subtotal is below the notional. The message "Requested volume cannot be covered by available orders" goes with the uncoverable walk, and "Notional value is too low" with the BadRequest. |
| OrderBooks.QuoteIssued | src/order-books/order-books.service.ts:41-86 | The stored subtotal is the walk of the asks for BUY or the bids for SELL, taken from the snapshot of the venue symbol at depth 1000. Spread, fee and price are the pair's pricing of that subtotal. The expiration is now + 30 000, and the receipt returns that price and expiration. |
| OrderBooks.QuotedPrice | src/order-books/order-books.service.ts:46-66 | An issued quote's price is the pair's pricing of a walked subtotal that reaches the notional. |
| OrderBooks.VenueSymbolAgreesWithSymbols | src/order-books/order-books.service.ts:42 | For a pair row that carries the configured policy, `binanceProxySymbol ?? symbol` equals the symbols service's resolution. |
| OrderBooks.NotionalRuleAgreesWithSymbols | src/order-books/order-books.service.ts:57 | For a configured pair, the quote's "too low" condition is exactly the negation of `isNotionalValid`, and both services read the same fee and spread. |
| OrderBooks.ConfiguredPairsAreCharged | src/config.ts:3-22 | Every configured pair has a positive notional, non-negative percentages, and a spread on the notional that survives rounding. |
| OrderBooks.PricedAsksExceedPricedBids | src/order-books/order-books.service.ts:46-66 | On an uncrossed book, the priced BUY walk exceeds the priced SELL walk when both reach a notional that earns a spread. |
| OrderBooks.BuyQuoteExceedsSellQuote | src/order-books/order-books.service.ts:46-66 | Quoted back to back against one uncrossed book for a positive volume, an issued BUY quote is strictly dearer than an issued SELL quote. |
| OrderBooks.BtcQuoteExample | test/app.e2e-spec.ts:63-76 | BTCUSDT quoted both ways for 0.0001 against a book asking 60001 and bidding 60000: BUY is issued at 6.0661011 and SELL at 5.934, both expiring at now + 30 000. The configured pair and this book meet every requirement of `BuyQuoteExceedsSellQuote`. |
| OrderBooks.FindEstimation | src/order-books/order-books.service.ts:90-99 | Finds the estimation with this id only when it belongs to this user. |
| OrderBooks.CreateOrder | src/order-books/order-books.service.ts:89-158 | A refused settlement changes nothing. Any venue order placed is a market BUY. On success the estimation had no swap and now has exactly one, with the new id and with the executed quote quantity as its subtotal. Estimations, pairs and the set of balance rows are unchanged, and the receipt returns the swap's id and total. |
| OrderBooks.CreateOrderRejections | src/order-books/order-books.service.ts:101-121 | Each refusal happens exactly when the earlier checks pass and its own fails, in this order: not found for this user, already swapped (Conflict), `expiration < now` (equality passes), missing or insufficient quote-token balance. None of them places an order or changes a table. |
| OrderBooks.SettlementRefusalStatus | src/order-books/order-books.service.ts:101-132 | A refused settlement is a NotFound exactly when the user does not own the estimation, and a Conflict exactly when it is already swapped. It is a BadRequest exactly when it is open but expired or short of quote-token funds, and only the funds refusal says "Insufficient funds". It is an internal error exactly when every check passes but the ledger transaction finds a row missing. |
| OrderBooks.CreateOrderSettles | src/order-books/order-books.service.ts:123-157 | After the checks, the order is a market BUY of the volume on the venue symbol, and the ledger applies the QUOTED price and volume. The swap stores the executed subtotal priced for the estimation's side. If a balance row is missing, the order has been placed but nothing changes. |
| OrderBooks.SettleAtMostOnce | src/order-books/order-books.service.ts:104-106 | After a successful settlement, every later attempt by the same user on the same estimation is a Conflict that places nothing and changes nothing, whatever the clock, venue or new id. |
| OrderBooks.QuoteSettlesWithinWindow | src/order-books/order-books.service.ts:68-132 | A fresh quote settles at any time up to and including now + 30 000, given enough quote-token funds and a base-token row. After that it is refused as expired. |
| OrderBooks.SettledBuyKeepsQuoteCovered | src/order-books/order-books.service.ts:111-132 | A settled BUY on two distinct tokens had a quote-token row holding at least the quoted price. That row drops by the price and ends non-negative, and the base row rises by the volume. |
| OrderBooks.SellChecksQuoteTokenOnly | src/order-books/order-books.service.ts:111-132 | A SELL with enough quote-token funds settles whatever its base balance holds, still places a BUY, and lowers the base row by the full volume, below zero if the row held less. |

## Left out

- The HTTP controller, the auth controller, module wiring, guards and decorators are
  framework plumbing and are not modelled. The controller also calls both operations
  without a `userId`. The model always takes one.
- The Binance client is network I/O. The depth snapshot and the order execution are
  function parameters. Parsing the ladder's price and quantity strings (`+order[0]`)
  and the executed quantity string is not modelled. The snapshot function receives
  the limit of 1000, but its meaning at the venue is not modelled. The venue
  functions are total.
- Prisma persistence is modelled as maps. Ids generated by the database are
  parameters, and the quote requires its new id to be unused (uuids are unique). The
  seed script is not modelled. Note that it stores AAVEUSDC with fee 0.001 while the
  configuration says 0.002. The quote reads the pair row, so `MatchesConfig` does not
  hold for that seeded row.
- The ledger transaction (`order-books.service.ts` line 132) and the swap insert (lines
  141-155) are two separate writes. A failure of the insert after the transaction has
  committed is not modelled: the model applies both as one step.
- The service has no separate error for a failed venue call. The `newOrder` call at
  lines 123-130 simply throws. Its failures are not modelled, and the venue is a total
  function here.
- An estimation carries the pair row as it was when the quote was issued. `createOrder`
  re-reads the pair with the estimation (`include: { pair: true }`, lines 95-98). The two
  agree because the engine never changes pair rows, and a pair edited between quote
  and settlement by other means is not modelled.
- The Zod request schemas are not modelled. `Side` has exactly two constructors, and
  the volume is any real (the schema does not bound it).
- IEEE double arithmetic is not modelled. Amounts are exact reals, and `toFixed(8)`
  rounds the exact value half away from zero. NaN subtotals do not arise.
- Concurrency is not modelled: the check-then-act race on swaps and balances, and
  cross-request atomicity. Each operation is one sequential step.
- The clock reads (`Date.now()`, `new Date()`) are the parameter `now`.
- `findOne` and `create` of the users service belong to authentication, not to the
  engine, and are not modelled.
- Pricing.CalculateFeeAndSpread: its contract bounds each amount to within half a unit
  of the eighth decimal and does not pin the rounded value. The exact totals are
  stated by Pricing.TotalsExactOnGrid for eight-decimal subtotals, which is what a
  walked subtotal always is.
- OrderBooks.BuyQuoteExceedsSellQuote: it assumes an uncrossed book (every ask at
  least every bid), non-negative quantities and a positive volume. These are
  properties of a live venue book that the service does not check itself.
