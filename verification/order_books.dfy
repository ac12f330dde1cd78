/** Quote issuance and settlement: the decision logic of the order-books
    service. The venue and the clock are parameters; the tables are maps. */
module OrderBooks {
  import opened Outcomes
  import opened Fixed8
  import opened Records
  import opened Config
  import opened Pricing
  import opened BookWalker
  import opened Ledger
  import Symbols

  /** Depth of the snapshot requested from the venue. */
  const DepthLimit: int := 1000

  /** The symbol the venue is asked about: the pair's proxy symbol when it
      has one, else its own symbol. */
  function VenueSymbol(pair: Pair): string {
    pair.binanceProxySymbol.GetOr(pair.symbol)
  }

  /** The ladder a trade walks: the asks for a BUY, the bids for a SELL. */
  function SideLadder(book: OrderBook, side: Side): seq<Level> {
    if side == Buy then book.asks else book.bids
  }

  /** The walked subtotal for a pair, from a fresh snapshot of its venue
      symbol. */
  function WalkedSubtotal(
    pair: Pair, side: Side, volume: real, venue: (string, int) -> OrderBook): Option<real>
  {
    GetOptimalPriceFromOrders(SideLadder(venue(VenueSymbol(pair), DepthLimit), side), volume)
  }

  datatype QuoteReceipt = QuoteReceipt(price: real, estimateId: Id, expires: int)

  datatype QuoteOutcome = QuoteOutcome(result: Result<QuoteReceipt>, store: Store)

  /** Issues a quote. The pair is looked up by symbol, the matching side of
      the venue's book is walked, a missing or zero subtotal and one below
      the pair's notional are refused, and the priced estimation is stored
      under the fresh id `newId`, valid until `now` + 30 s. A refused quote
      stores nothing; an issued one adds exactly the new estimation. */
  function GetOptimalPrice(
    store: Store, symbol: string, side: Side, volume: real, userId: Id,
    venue: (string, int) -> OrderBook, now: int, newId: Id): (o: QuoteOutcome)
    requires newId !in store.estimates
    ensures o.result.Err? ==> o.store == store
    ensures o.result.Ok? ==>
              && o.result.value.estimateId == newId
              && o.result.value.expires == now + PriceExpiration
              && o.store == store.(estimates := o.store.estimates)
              && o.store.estimates.Keys == store.estimates.Keys + {newId}
              && (forall id :: id in store.estimates ==> o.store.estimates[id] == store.estimates[id])
              && o.store.estimates[newId].userId == userId
              && o.store.estimates[newId].price == o.result.value.price
              && o.store.estimates[newId].expiration == o.result.value.expires
  {
    if symbol !in store.pairs then QuoteOutcome(Err(UnknownPair), store)
    else
      var pair := store.pairs[symbol];
      var subTotalPrice := WalkedSubtotal(pair, side, volume, venue);
      if subTotalPrice.None? || subTotalPrice.value == 0.0 then
        QuoteOutcome(Err(InsufficientLiquidity), store)
      else if subTotalPrice.value < pair.notional then
        QuoteOutcome(Err(NotionalTooLow), store)
      else
        var c := CalculateFeeAndSpread(pair.spreadPercentage, pair.feePercentage, side, subTotalPrice.value);
        var estimation := PriceEstimation(
          newId, userId, pair, side, volume, subTotalPrice.value, c.spread, c.fee, c.totalPrice,
          now + PriceExpiration);
        QuoteOutcome(
          Ok(QuoteReceipt(estimation.price, estimation.id, estimation.expiration)),
          store.(estimates := store.estimates[newId := estimation]))
  }

  /** The quote's refusals, in the order they are checked: an unknown
      symbol; then an unfillable volume or a zero subtotal; then a subtotal
      below the notional (a subtotal equal to it passes). Anything else is
      issued. */
  lemma QuoteRejections(
    store: Store, symbol: string, side: Side, volume: real, userId: Id,
    venue: (string, int) -> OrderBook, now: int, newId: Id)
    requires newId !in store.estimates
    ensures var o := GetOptimalPrice(store, symbol, side, volume, userId, venue, now, newId);
            && (o.result == Err(UnknownPair) <==> symbol !in store.pairs)
            && (o.result == Err(InsufficientLiquidity) <==>
                  symbol in store.pairs
                  && var w := WalkedSubtotal(store.pairs[symbol], side, volume, venue);
                     w.None? || w.value == 0.0)
            && (o.result == Err(NotionalTooLow) <==>
                  symbol in store.pairs
                  && var w := WalkedSubtotal(store.pairs[symbol], side, volume, venue);
                     w.Some? && w.value != 0.0 && w.value < store.pairs[symbol].notional)
            && (o.result.Ok? <==>
                  symbol in store.pairs
                  && var w := WalkedSubtotal(store.pairs[symbol], side, volume, venue);
                     w.Some? && w.value != 0.0 && w.value >= store.pairs[symbol].notional)
  {
  }

  /** The exception each refusal of a quote is thrown as: NotFound for an
      unknown symbol or an uncoverable volume, BadRequest for a subtotal
      below the notional. Only those two carry a message. */
  lemma QuoteRefusalStatus(
    store: Store, symbol: string, side: Side, volume: real, userId: Id,
    venue: (string, int) -> OrderBook, now: int, newId: Id)
    requires newId !in store.estimates
    ensures var o := GetOptimalPrice(store, symbol, side, volume, userId, venue, now, newId);
            && (o.result.Err? && StatusOf(o.result.error) == NotFound <==>
                  || symbol !in store.pairs
                  || var w := WalkedSubtotal(store.pairs[symbol], side, volume, venue);
                     w.None? || w.value == 0.0)
            && (o.result.Err? && StatusOf(o.result.error) == BadRequest <==>
                  symbol in store.pairs
                  && var w := WalkedSubtotal(store.pairs[symbol], side, volume, venue);
                     w.Some? && w.value != 0.0 && w.value < store.pairs[symbol].notional)
            && (o.result.Err? && MessageOf(o.result.error)
                  == "Requested volume cannot be covered by available orders" <==>
                  symbol in store.pairs
                  && var w := WalkedSubtotal(store.pairs[symbol], side, volume, venue);
                     w.None? || w.value == 0.0)
            && (o.result.Err? && MessageOf(o.result.error) == "Notional value is too low" <==>
                  o.result.Err? && StatusOf(o.result.error) == BadRequest)
  {
    QuoteRejections(store, symbol, side, volume, userId, venue, now, newId);
  }

  /** An issued quote: the subtotal is the walk of the asks (BUY) or the
      bids (SELL) of the venue symbol's snapshot, priced with the pair's
      fee and spread; the stored estimation records all of it, and the
      receipt returns its price and expiration. */
  lemma QuoteIssued(
    store: Store, symbol: string, side: Side, volume: real, userId: Id,
    venue: (string, int) -> OrderBook, now: int, newId: Id)
    requires newId !in store.estimates
    requires GetOptimalPrice(store, symbol, side, volume, userId, venue, now, newId).result.Ok?
    ensures symbol in store.pairs
    ensures var o := GetOptimalPrice(store, symbol, side, volume, userId, venue, now, newId);
            var pair := store.pairs[symbol];
            var book := venue(VenueSymbol(pair), DepthLimit);
            var e := o.store.estimates[newId];
            && e.subtotal != 0.0 && e.subtotal >= pair.notional
            && Some(e.subtotal) == GetOptimalPriceFromOrders(if side == Buy then book.asks else book.bids, volume)
            && e == PriceEstimation(
                      newId, userId, pair, side, volume, e.subtotal, e.spread, e.fee, e.price,
                      now + 30000)
            && Charges(e.price, e.spread, e.fee)
               == CalculateFeeAndSpread(pair.spreadPercentage, pair.feePercentage, side, e.subtotal)
            && o.result.value == QuoteReceipt(e.price, newId, now + 30000)
  {
  }

  /** A pair row that carries the configured policy of its symbol. */
  ghost predicate MatchesConfig(pair: Pair) {
    && pair.symbol in SymbolsDictionary
    && var c := SymbolsDictionary[pair.symbol];
       && pair.binanceProxySymbol == c.binanceProxy
       && pair.notional == c.notional
       && pair.feePercentage == c.feePercentage
       && pair.spreadPercentage == c.spreadPercentage
  }

  /** The quote's venue symbol is the symbols service's resolution. */
  lemma VenueSymbolAgreesWithSymbols(pair: Pair)
    requires MatchesConfig(pair)
    ensures VenueSymbol(pair) == Symbols.GetSymbolForBinance(pair.symbol)
  {
  }

  /** The quote's "notional too low" condition is exactly the negation of
      the symbols service's notional check, and both services read the
      same fee and spread. */
  lemma NotionalRuleAgreesWithSymbols(pair: Pair, subTotalPrice: real)
    requires MatchesConfig(pair)
    ensures subTotalPrice < pair.notional <==> !Symbols.IsNotionalValid(pair.symbol, subTotalPrice)
    ensures Symbols.GetSymbolFeeAndSpread(pair.symbol)
            == Symbols.FeeAndSpread(pair.spreadPercentage, pair.feePercentage)
  {
  }

  /** Every configured pair charges a positive spread on any subtotal that
      reaches its notional. */
  lemma ConfiguredPairsAreCharged(pair: Pair)
    requires MatchesConfig(pair)
    ensures EarnsSpread(pair.spreadPercentage, pair.feePercentage, pair.notional)
  {
    Config.TablePolicy(pair.symbol);
    assert Units(0.05) == 5000000;
  }

  /** Quoted back to back against one book that is not crossed (every ask
      at least `m`, every bid at most `m`), for a positive volume on a pair
      whose notional earns a positive spread, an issued BUY quote is
      strictly dearer than an issued SELL quote. */
  lemma BuyQuoteExceedsSellQuote(
    store: Store, symbol: string, volume: real, userId: Id,
    venue: (string, int) -> OrderBook, now: int, buyId: Id, sellId: Id, m: real)
    requires buyId !in store.estimates && sellId !in store.estimates
    requires volume > 0.0
    requires symbol in store.pairs
    requires var pair := store.pairs[symbol];
             EarnsSpread(pair.spreadPercentage, pair.feePercentage, pair.notional)
    requires var book := venue(VenueSymbol(store.pairs[symbol]), DepthLimit);
             Uncrossed(book.asks, book.bids, m)
    requires GetOptimalPrice(store, symbol, Buy, volume, userId, venue, now, buyId).result.Ok?
    requires GetOptimalPrice(store, symbol, Sell, volume, userId, venue, now, sellId).result.Ok?
    ensures GetOptimalPrice(store, symbol, Buy, volume, userId, venue, now, buyId).result.value.price
            > GetOptimalPrice(store, symbol, Sell, volume, userId, venue, now, sellId).result.value.price
  {
    var pair := store.pairs[symbol];
    var book := venue(VenueSymbol(pair), DepthLimit);
    QuotedPrice(store, symbol, Buy, volume, userId, venue, now, buyId);
    QuotedPrice(store, symbol, Sell, volume, userId, venue, now, sellId);
    assert WalkedSubtotal(pair, Buy, volume, venue) == GetOptimalPriceFromOrders(book.asks, volume);
    assert WalkedSubtotal(pair, Sell, volume, venue) == GetOptimalPriceFromOrders(book.bids, volume);
    PricedAsksExceedPricedBids(pair, book.asks, book.bids, volume, m);
  }

  /** BTCUSDT quoted both ways for 0.0001 against a book with 0.5 asked at
      60001 and 0.5 bid at 60000. The BUY walk costs 6.0001 and is priced
      6.0661011. The SELL walk costs 6 and is priced 5.934. The pair and
      the book meet every requirement of `BuyQuoteExceedsSellQuote`. */
  lemma BtcQuoteExample(now: int)
    ensures var pair := Pair("btcusdt", "BTCUSDT", "btc", "usdt", None, 5.0, 0.001, 0.01);
            var store := Store(map["BTCUSDT" := pair], map[], map[], map[]);
            var venue := (s: string, limit: int) => OrderBook([Level(60000.0, 0.5)], [Level(60001.0, 0.5)]);
            var book := venue(VenueSymbol(pair), DepthLimit);
            && MatchesConfig(pair)
            && EarnsSpread(pair.spreadPercentage, pair.feePercentage, pair.notional)
            && Uncrossed(book.asks, book.bids, 60000.5)
            && GetOptimalPrice(store, "BTCUSDT", Buy, 0.0001, "u", venue, now, "buy").result
               == Ok(QuoteReceipt(6.0661011, "buy", now + 30000))
            && GetOptimalPrice(store, "BTCUSDT", Sell, 0.0001, "u", venue, now, "sell").result
               == Ok(QuoteReceipt(5.934, "sell", now + 30000))
  {
    var pair := Pair("btcusdt", "BTCUSDT", "btc", "usdt", None, 5.0, 0.001, 0.01);
    ConfiguredPairsAreCharged(pair);
    BtcWalks();
    BtcPricing();
  }

  lemma BtcWalks()
    ensures GetOptimalPriceFromOrders([Level(60001.0, 0.5)], 0.0001) == Some(6.0001)
    ensures GetOptimalPriceFromOrders([Level(60000.0, 0.5)], 0.0001) == Some(6.0)
  {
    assert Units(6.0001) == 600010000;
    assert Units(6.0) == 600000000;
  }

  lemma BtcPricing()
    ensures CalculateFeeAndSpread(0.01, 0.001, Buy, 6.0001) == Charges(6.0661011, 0.060001, 0.0060001)
    ensures CalculateFeeAndSpread(0.01, 0.001, Sell, 6.0) == Charges(5.934, 0.06, 0.006)
  {
    BtcBuyCharges();
    BtcSellCharges();
  }

  lemma BtcBuyCharges()
    ensures Round8(6.0001 * 0.01) == 0.060001
    ensures Round8(6.0001 * 0.001) == 0.0060001
    ensures Round8(6.0001 + 0.060001 + 0.0060001) == 6.0661011
  {
    assert Units(0.060001) == 6000100;
    assert Units(0.0060001) == 600010;
    assert Units(6.0661011) == 606610110;
  }

  lemma BtcSellCharges()
    ensures Round8(6.0 * 0.01) == 0.06
    ensures Round8(6.0 * 0.001) == 0.006
    ensures Round8(6.0 - 0.06 - 0.006) == 5.934
  {
    assert Units(0.06) == 6000000;
    assert Units(0.006) == 600000;
    assert Units(5.934) == 593400000;
  }

  /** The priced walk of the asks exceeds the priced walk of the bids, for
      an uncrossed book and subtotals that reach a notional earning a
      positive spread. */
  lemma PricedAsksExceedPricedBids(pair: Pair, asks: seq<Level>, bids: seq<Level>, volume: real, m: real)
    requires EarnsSpread(pair.spreadPercentage, pair.feePercentage, pair.notional)
    requires volume > 0.0 && Uncrossed(asks, bids, m)
    requires var w := GetOptimalPriceFromOrders(asks, volume); w.Some? && w.value >= pair.notional
    requires var w := GetOptimalPriceFromOrders(bids, volume); w.Some? && w.value >= pair.notional
    ensures CalculateFeeAndSpread(pair.spreadPercentage, pair.feePercentage, Buy,
                                  GetOptimalPriceFromOrders(asks, volume).value).totalPrice
            > CalculateFeeAndSpread(pair.spreadPercentage, pair.feePercentage, Sell,
                                    GetOptimalPriceFromOrders(bids, volume).value).totalPrice
  {
    DearerLadderCostsMore(asks, bids, volume, m);
    BuyTotalExceedsSellTotal(pair.spreadPercentage, pair.feePercentage, pair.notional,
                GetOptimalPriceFromOrders(asks, volume).value, GetOptimalPriceFromOrders(bids, volume).value);
  }

  /** The price of an issued quote is the pair's pricing of the walked
      subtotal, which reaches the notional. */
  lemma QuotedPrice(
    store: Store, symbol: string, side: Side, volume: real, userId: Id,
    venue: (string, int) -> OrderBook, now: int, newId: Id)
    requires newId !in store.estimates
    requires GetOptimalPrice(store, symbol, side, volume, userId, venue, now, newId).result.Ok?
    ensures symbol in store.pairs
    ensures var pair := store.pairs[symbol];
            var w := WalkedSubtotal(pair, side, volume, venue);
            && w.Some? && w.value >= pair.notional
            && GetOptimalPrice(store, symbol, side, volume, userId, venue, now, newId).result.value.price
               == CalculateFeeAndSpread(pair.spreadPercentage, pair.feePercentage, side, w.value).totalPrice
  {
  }

  datatype OrderType = Market

  /** The order sent to the venue. */
  datatype VenueOrder = VenueOrder(symbol: string, side: Side, orderType: OrderType, quantity: real)

  /** What the venue reports back: its order id and the executed quote
      quantity. */
  datatype Execution = Execution(orderId: string, cummulativeQuoteQty: real)

  datatype SwapReceipt = SwapReceipt(id: Id, total: real)

  /** The result of a settlement attempt, the venue order placed (if it got
      that far) and the store afterwards. */
  datatype OrderOutcome = OrderOutcome(result: Result<SwapReceipt>, placed: Option<VenueOrder>, store: Store)

  /** The estimation with this id, provided it belongs to this user. */
  function FindEstimation(store: Store, estimateId: Id, userId: Id): (r: Option<PriceEstimation>)
    ensures r.Some? <==> estimateId in store.estimates && store.estimates[estimateId].userId == userId
    ensures r.Some? ==> r.value == store.estimates[estimateId]
  {
    if estimateId in store.estimates && store.estimates[estimateId].userId == userId
    then Some(store.estimates[estimateId]) else None
  }

  /** The market order placed for an estimation: always a BUY of its volume
      on its venue symbol, whatever the estimation's side. */
  function MarketOrderFor(e: PriceEstimation): VenueOrder {
    VenueOrder(VenueSymbol(e.pair), Buy, Market, e.volume)
  }

  /** Settles an estimation. Refuses, in this order: an estimation not
      found for this user; one that already has a swap; one whose
      expiration lies before `now`; a missing or insufficient quote-token
      balance (against the quoted price). Then it places the market order,
      applies the ledger transaction with the quoted price and volume, and
      records a swap priced from the venue's executed quote quantity. A
      refusal places nothing and changes nothing; a ledger failure after
      the order leaves the store unchanged. */
  function CreateOrder(
    store: Store, estimateId: Id, userId: Id, now: int,
    venue: VenueOrder -> Execution, newSwapId: Id): (o: OrderOutcome)
    ensures o.result.Err? ==> o.store == store
    ensures o.placed.Some? ==> o.placed.value.side == Buy && o.placed.value.orderType == Market
    ensures o.result.Ok? ==>
              && o.placed.Some?
              && estimateId !in store.swaps
              && o.store.swaps.Keys == store.swaps.Keys + {estimateId}
              && (forall id :: id in store.swaps ==> o.store.swaps[id] == store.swaps[id])
              && o.store.estimates == store.estimates
              && o.store.pairs == store.pairs
              && o.store.balances.Keys == store.balances.Keys
              && o.result.value == SwapReceipt(newSwapId, o.store.swaps[estimateId].total)
              && o.store.swaps[estimateId].id == newSwapId
              && o.store.swaps[estimateId].userId == userId
              && o.store.swaps[estimateId].subtotal == venue(o.placed.value).cummulativeQuoteQty
  {
    var found := FindEstimation(store, estimateId, userId);
    if found.None? then OrderOutcome(Err(EstimateNotFound), None, store)
    else
      var estimation := found.value;
      if estimateId in store.swaps then OrderOutcome(Err(AlreadySwapped), None, store)
      else if estimation.expiration < now then OrderOutcome(Err(EstimateExpired), None, store)
      else
        var funds := GetUserBalance(store.balances, estimation.pair.quoteTokenId, userId);
        if funds.None? || funds.value < estimation.price then
          OrderOutcome(Err(InsufficientFunds), None, store)
        else
          var order := MarketOrderFor(estimation);
          var execution := venue(order);
          var ledger := PerformBalanceTransaction(store.balances, estimation, userId);
          if ledger.None? then OrderOutcome(Err(BalanceRowMissing), Some(order), store)
          else
            var c := CalculateFeeAndSpread(
              estimation.pair.spreadPercentage, estimation.pair.feePercentage, estimation.side,
              execution.cummulativeQuoteQty);
            var swap := Swap(
              newSwapId, estimation.id, execution.orderId, c.fee, c.spread,
              execution.cummulativeQuoteQty, c.totalPrice, userId);
            OrderOutcome(
              Ok(SwapReceipt(swap.id, swap.total)), Some(order),
              store.(balances := ledger.value, swaps := store.swaps[estimateId := swap]))
  }

  /** The settlement's refusals, each exactly when the earlier checks pass
      and its own fails. None of them places an order or changes a table.
      Expiry is strict: an estimation expiring exactly at `now` passes. */
  lemma CreateOrderRejections(
    store: Store, estimateId: Id, userId: Id, now: int,
    venue: VenueOrder -> Execution, newSwapId: Id)
    ensures var o := CreateOrder(store, estimateId, userId, now, venue, newSwapId);
            var found := estimateId in store.estimates && store.estimates[estimateId].userId == userId;
            && (o.result == Err(EstimateNotFound) <==> !found)
            && (o.result == Err(AlreadySwapped) <==> found && estimateId in store.swaps)
            && (o.result == Err(EstimateExpired) <==>
                  found && estimateId !in store.swaps && store.estimates[estimateId].expiration < now)
            && (o.result == Err(InsufficientFunds) <==>
                  && found && estimateId !in store.swaps && now <= store.estimates[estimateId].expiration
                  && var key := BalanceKey(userId, store.estimates[estimateId].pair.quoteTokenId);
                     key !in store.balances || store.balances[key] < store.estimates[estimateId].price)
            && (o.result.Err? && o.result.error != BalanceRowMissing ==> o.placed == None && o.store == store)
  {
  }

  /** The exception each refusal of a settlement is thrown as: NotFound for
      an estimation this user does not own, Conflict for one already
      swapped, BadRequest for an expired one or missing funds (only the
      latter with a message). A failure of the ledger transaction after
      the order is an internal error. */
  lemma SettlementRefusalStatus(
    store: Store, estimateId: Id, userId: Id, now: int,
    venue: VenueOrder -> Execution, newSwapId: Id)
    ensures var o := CreateOrder(store, estimateId, userId, now, venue, newSwapId);
            var found := estimateId in store.estimates && store.estimates[estimateId].userId == userId;
            var open := found && estimateId !in store.swaps;
            var covered := open && now <= store.estimates[estimateId].expiration
                           && var key := BalanceKey(userId, store.estimates[estimateId].pair.quoteTokenId);
                              key in store.balances && store.balances[key] >= store.estimates[estimateId].price;
            && (o.result.Err? && StatusOf(o.result.error) == NotFound <==> !found)
            && (o.result.Err? && StatusOf(o.result.error) == Conflict <==> found && estimateId in store.swaps)
            && (o.result.Err? && StatusOf(o.result.error) == BadRequest <==> open && !covered)
            && (o.result.Err? && MessageOf(o.result.error) == "Insufficient funds" <==>
                  open && now <= store.estimates[estimateId].expiration && !covered)
            && (o.result.Err? && StatusOf(o.result.error) == InternalError <==>
                  covered && PerformBalanceTransaction(store.balances, store.estimates[estimateId], userId).None?)
  {
    CreateOrderRejections(store, estimateId, userId, now, venue, newSwapId);
  }

  /** A settlement that passes every check: the market order is a BUY of
      the estimation's volume on its venue symbol; the ledger moves the
      QUOTED price and volume; the swap records the venue's executed quote
      quantity as subtotal, priced with the pair's fee and spread for the
      estimation's side. If a balance row is missing the order has still
      been placed, but no table changes. */
  lemma CreateOrderSettles(
    store: Store, estimateId: Id, userId: Id, now: int,
    venue: VenueOrder -> Execution, newSwapId: Id)
    requires estimateId in store.estimates && estimateId !in store.swaps
    requires var e := store.estimates[estimateId];
             && e.userId == userId && now <= e.expiration
             && BalanceKey(userId, e.pair.quoteTokenId) in store.balances
             && store.balances[BalanceKey(userId, e.pair.quoteTokenId)] >= e.price
    ensures var o := CreateOrder(store, estimateId, userId, now, venue, newSwapId);
            var e := store.estimates[estimateId];
            var order := VenueOrder(VenueSymbol(e.pair), Buy, Market, e.volume);
            var executed := venue(order).cummulativeQuoteQty;
            var c := CalculateFeeAndSpread(e.pair.spreadPercentage, e.pair.feePercentage, e.side, executed);
            var ledger := PerformBalanceTransaction(store.balances, e, userId);
            && o.placed == Some(order)
            && (ledger.None? ==> o.result == Err(BalanceRowMissing) && o.store == store)
            && (ledger.Some? ==>
                  && o.result == Ok(SwapReceipt(newSwapId, c.totalPrice))
                  && o.store.balances == ledger.value
                  && o.store.swaps[estimateId]
                     == Swap(newSwapId, e.id, venue(order).orderId, c.fee, c.spread, executed, c.totalPrice, userId))
  {
  }

  /** An estimation settles at most once: after a successful settlement
      every further attempt is a Conflict that changes nothing. */
  lemma SettleAtMostOnce(
    store: Store, estimateId: Id, userId: Id, now: int, venue: VenueOrder -> Execution, newSwapId: Id,
    laterNow: int, laterVenue: VenueOrder -> Execution, laterSwapId: Id)
    requires CreateOrder(store, estimateId, userId, now, venue, newSwapId).result.Ok?
    ensures var first := CreateOrder(store, estimateId, userId, now, venue, newSwapId);
            CreateOrder(first.store, estimateId, userId, laterNow, laterVenue, laterSwapId)
            == OrderOutcome(Err(AlreadySwapped), None, first.store)
  {
  }

  /** A fresh quote settles for its owner at any time up to and including
      its expiration, given enough quote-token funds and a base-token row;
      a moment later it is refused as expired. */
  lemma QuoteSettlesWithinWindow(
    store: Store, symbol: string, side: Side, volume: real, userId: Id,
    book: (string, int) -> OrderBook, now: int, newId: Id,
    settleNow: int, venue: VenueOrder -> Execution, newSwapId: Id)
    requires newId !in store.estimates && newId !in store.swaps
    requires GetOptimalPrice(store, symbol, side, volume, userId, book, now, newId).result.Ok?
    ensures var q := GetOptimalPrice(store, symbol, side, volume, userId, book, now, newId);
            var e := q.store.estimates[newId];
            var o := CreateOrder(q.store, newId, userId, settleNow, venue, newSwapId);
            && (settleNow > now + PriceExpiration ==> o.result == Err(EstimateExpired))
            && (settleNow <= now + PriceExpiration
                && BalanceKey(userId, e.pair.quoteTokenId) in store.balances
                && store.balances[BalanceKey(userId, e.pair.quoteTokenId)] >= q.result.value.price
                && BalanceKey(userId, e.pair.baseTokenId) in store.balances
                ==> o.result.Ok?)
  {
  }

  /** What the funds check does guarantee: a settled BUY on two distinct
      tokens pays the quoted price out of a quote-token row that held at
      least that much, so the row ends non-negative, and the base row
      receives the volume. */
  lemma SettledBuyKeepsQuoteCovered(
    store: Store, estimateId: Id, userId: Id, now: int,
    venue: VenueOrder -> Execution, newSwapId: Id)
    requires estimateId in store.estimates
    requires var e := store.estimates[estimateId];
             e.side == Buy && e.pair.quoteTokenId != e.pair.baseTokenId
    requires CreateOrder(store, estimateId, userId, now, venue, newSwapId).result.Ok?
    ensures var o := CreateOrder(store, estimateId, userId, now, venue, newSwapId);
            var e := store.estimates[estimateId];
            var quote := BalanceKey(userId, e.pair.quoteTokenId);
            var base := BalanceKey(userId, e.pair.baseTokenId);
            && quote in store.balances && base in store.balances
            && store.balances[quote] >= e.price
            && o.store.balances[quote] == store.balances[quote] - e.price
            && o.store.balances[quote] >= 0.0
            && o.store.balances[base] == store.balances[base] + e.volume
  {
    var e := store.estimates[estimateId];
    BalanceTransactionMovesFunds(store.balances, e, userId);
  }

  /** As written, the funds check of a SELL looks at the quote token and
      the quoted price, never at the base token being sold: with enough of
      the quote token a SELL settles whatever the base balance holds, and
      the base row drops by the full volume (below zero if it held less). */
  lemma SellChecksQuoteTokenOnly(
    store: Store, estimateId: Id, userId: Id, now: int,
    venue: VenueOrder -> Execution, newSwapId: Id)
    requires estimateId in store.estimates && estimateId !in store.swaps
    requires var e := store.estimates[estimateId];
             && e.userId == userId && now <= e.expiration && e.side == Sell
             && e.pair.quoteTokenId != e.pair.baseTokenId
             && BalanceKey(userId, e.pair.quoteTokenId) in store.balances
             && store.balances[BalanceKey(userId, e.pair.quoteTokenId)] >= e.price
             && BalanceKey(userId, e.pair.baseTokenId) in store.balances
    ensures var o := CreateOrder(store, estimateId, userId, now, venue, newSwapId);
            var e := store.estimates[estimateId];
            var base := BalanceKey(userId, e.pair.baseTokenId);
            && o.result.Ok?
            && o.placed.value.side == Buy
            && o.store.balances[base] == store.balances[base] - e.volume
  {
    var e := store.estimates[estimateId];
    BalanceTransactionMovesFunds(store.balances, e, userId);
  }
}
