/** The entities the engine reads and writes: trading pairs, order-book
    levels, price estimations, swaps and balances, and the store that
    holds them. */
module Records {
  import opened Outcomes

  /** Row identifiers (uuids in the database). */
  type Id = string

  /** Direction of a trade, as seen by the user. */
  datatype Side = Buy | Sell

  /** One level of a depth ladder: a price and the quantity resting there. */
  datatype Level = Level(price: real, qty: real)

  /** A depth snapshot from the venue, each side best price first. */
  datatype OrderBook = OrderBook(bids: seq<Level>, asks: seq<Level>)

  /** A trading pair row: reference data, never changed by the engine. */
  datatype Pair = Pair(
    id: Id,
    symbol: string,
    baseTokenId: Id,
    quoteTokenId: Id,
    binanceProxySymbol: Option<string>,
    notional: real,
    feePercentage: real,
    spreadPercentage: real)

  /** A quote issued to a user. `pair` is the joined pair row. Times are
      milliseconds since the epoch. */
  datatype PriceEstimation = PriceEstimation(
    id: Id,
    userId: Id,
    pair: Pair,
    side: Side,
    volume: real,
    subtotal: real,
    spread: real,
    fee: real,
    price: real,
    expiration: int)

  /** The record of an executed, ledger-applied estimation. */
  datatype Swap = Swap(
    id: Id,
    priceEstimationId: Id,
    orderId: string,
    fee: real,
    spread: real,
    subtotal: real,
    total: real,
    userId: Id)

  /** The composite key of a balance row. */
  datatype BalanceKey = BalanceKey(userId: Id, tokenId: Id)

  type Balances = map<BalanceKey, real>

  /** The database tables the engine touches. Pairs are keyed by their
      unique symbol, estimations by id, swaps by the estimation they settle
      (one swap per estimation), balances by (user, token). */
  datatype Store = Store(
    pairs: map<string, Pair>,
    estimates: map<Id, PriceEstimation>,
    swaps: map<Id, Swap>,
    balances: Balances)
}
