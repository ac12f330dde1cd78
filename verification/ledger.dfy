/** The balance ledger of the users service: composite-key lookup and the
    two-row update that settles an estimation. */
module Ledger {
  import opened Outcomes
  import opened Records

  /** The balance row of (userId, tokenId), if there is one. */
  function GetUserBalance(balances: Balances, tokenId: Id, userId: Id): (r: Option<real>)
    ensures r.Some? <==> BalanceKey(userId, tokenId) in balances
    ensures r.Some? ==> r.value == balances[BalanceKey(userId, tokenId)]
  {
    var key := BalanceKey(userId, tokenId);
    if key in balances then Some(balances[key]) else None
  }

  /** Change applied to the quote-token row: a BUY pays the price, a SELL
      receives it. */
  function QuoteDelta(e: PriceEstimation): real {
    if e.side == Buy then -e.price else e.price
  }

  /** Change applied to the base-token row: a BUY receives the volume, a
      SELL gives it up. */
  function BaseDelta(e: PriceEstimation): real {
    if e.side == Buy then e.volume else -e.volume
  }

  /** Both row updates in one transaction: the quote-token row, then the
      base-token row. A missing row aborts the transaction and nothing
      changes (None). There is no floor check: amounts may go negative.
      Every row moves by the deltas addressed to it (both, when the two
      tokens are the same), and no other row moves. */
  function PerformBalanceTransaction(balances: Balances, e: PriceEstimation, userId: Id): (r: Option<Balances>)
    ensures var q := BalanceKey(userId, e.pair.quoteTokenId);
            var b := BalanceKey(userId, e.pair.baseTokenId);
            r.Some? <==> q in balances && b in balances
    ensures r.Some? ==> r.value.Keys == balances.Keys
    ensures r.Some? ==>
              var q := BalanceKey(userId, e.pair.quoteTokenId);
              var b := BalanceKey(userId, e.pair.baseTokenId);
              forall k :: k in balances ==>
                r.value[k] == balances[k]
                              + (if k == q then QuoteDelta(e) else 0.0)
                              + (if k == b then BaseDelta(e) else 0.0)
  {
    var q := BalanceKey(userId, e.pair.quoteTokenId);
    var b := BalanceKey(userId, e.pair.baseTokenId);
    if q !in balances then None
    else
      var afterQuote := balances[q := balances[q] + QuoteDelta(e)];
      if b !in afterQuote then None
      else Some(afterQuote[b := afterQuote[b] + BaseDelta(e)])
  }

  /** A BUY on distinct tokens: the quote row drops by the price, the base
      row rises by the volume. A SELL does the opposite. */
  lemma BalanceTransactionMovesFunds(balances: Balances, e: PriceEstimation, userId: Id)
    requires e.pair.quoteTokenId != e.pair.baseTokenId
    requires BalanceKey(userId, e.pair.quoteTokenId) in balances
    requires BalanceKey(userId, e.pair.baseTokenId) in balances
    ensures var r := PerformBalanceTransaction(balances, e, userId).value;
            var q := BalanceKey(userId, e.pair.quoteTokenId);
            var b := BalanceKey(userId, e.pair.baseTokenId);
            && (e.side == Buy ==> r[q] == balances[q] - e.price && r[b] == balances[b] + e.volume)
            && (e.side == Sell ==> r[q] == balances[q] + e.price && r[b] == balances[b] - e.volume)
  {
  }

  /** Applying an estimation as a BUY and then as a SELL, with the same
      price and volume, restores every balance. */
  lemma BuyThenSellRestores(balances: Balances, e: PriceEstimation, userId: Id)
    requires e.side == Buy
    requires BalanceKey(userId, e.pair.quoteTokenId) in balances
    requires BalanceKey(userId, e.pair.baseTokenId) in balances
    ensures var bought := PerformBalanceTransaction(balances, e, userId);
            bought.Some? && PerformBalanceTransaction(bought.value, e.(side := Sell), userId) == Some(balances)
  {
    var bought := PerformBalanceTransaction(balances, e, userId).value;
    var sold := PerformBalanceTransaction(bought, e.(side := Sell), userId).value;
    assert sold.Keys == balances.Keys;
    assert forall k :: k in balances ==> sold[k] == balances[k];
    assert sold == balances;
  }

  /** No floor check: a BUY priced above the quote balance drives it below
      zero. */
  lemma BalanceMayGoNegative(balances: Balances, e: PriceEstimation, userId: Id)
    requires e.side == Buy && e.pair.quoteTokenId != e.pair.baseTokenId
    requires BalanceKey(userId, e.pair.quoteTokenId) in balances
    requires BalanceKey(userId, e.pair.baseTokenId) in balances
    requires balances[BalanceKey(userId, e.pair.quoteTokenId)] < e.price
    ensures PerformBalanceTransaction(balances, e, userId).value[BalanceKey(userId, e.pair.quoteTokenId)] < 0.0
  {
    BalanceTransactionMovesFunds(balances, e, userId);
  }
}
