/** The pricing model: spread and fee are percentages of the subtotal, and
    the user pays both on a BUY and gives both up on a SELL. */
module Pricing {
  import opened Fixed8
  import opened Records

  datatype Charges = Charges(totalPrice: real, spread: real, fee: real)

  /** Prices a subtotal. Every amount is rounded to eight decimals, and the
      total is rounded once more after the charges are applied. */
  function CalculateFeeAndSpread(
    spreadPercentage: real, feePercentage: real, side: Side, subTotalPrice: real): (c: Charges)
    ensures OnGrid(c.spread) && OnGrid(c.fee) && OnGrid(c.totalPrice)
    ensures Near(c.spread, subTotalPrice * spreadPercentage)
    ensures Near(c.fee, subTotalPrice * feePercentage)
    ensures side == Buy ==> Near(c.totalPrice, subTotalPrice + c.spread + c.fee)
    ensures side == Sell ==> Near(c.totalPrice, subTotalPrice - c.spread - c.fee)
  {
    var spread := Round8(subTotalPrice * spreadPercentage);
    var fee := Round8(subTotalPrice * feePercentage);
    var totalPrice :=
      if side == Buy then Round8(subTotalPrice + spread + fee)
      else Round8(subTotalPrice - spread - fee);
    Charges(totalPrice, spread, fee)
  }

  lemma ProductNonNegative(a: real, b: real)
    requires a >= 0.0 && b >= 0.0
    ensures a * b >= 0.0
  {
  }

  /** Spread and fee do not depend on the side; only the total does. */
  lemma ChargesIgnoreSide(spreadPercentage: real, feePercentage: real, subTotalPrice: real)
    ensures var b := CalculateFeeAndSpread(spreadPercentage, feePercentage, Buy, subTotalPrice);
            var s := CalculateFeeAndSpread(spreadPercentage, feePercentage, Sell, subTotalPrice);
            b.spread == s.spread && b.fee == s.fee
  {
  }

  /** With non-negative percentages and a non-negative subtotal, the
      charges are non-negative, and the total moves away from the rounded
      subtotal in the user's disfavour: BUY total >= subtotal >= SELL total. */
  lemma BuyCostsAtLeastSell(spreadPercentage: real, feePercentage: real, subTotalPrice: real)
    requires spreadPercentage >= 0.0 && feePercentage >= 0.0 && subTotalPrice >= 0.0
    ensures var b := CalculateFeeAndSpread(spreadPercentage, feePercentage, Buy, subTotalPrice);
            var s := CalculateFeeAndSpread(spreadPercentage, feePercentage, Sell, subTotalPrice);
            && b.spread >= 0.0 && b.fee >= 0.0
            && s.totalPrice <= Round8(subTotalPrice) <= b.totalPrice
  {
    var b := CalculateFeeAndSpread(spreadPercentage, feePercentage, Buy, subTotalPrice);
    ProductNonNegative(subTotalPrice, spreadPercentage);
    ProductNonNegative(subTotalPrice, feePercentage);
    Round8Monotone(subTotalPrice, subTotalPrice + b.spread + b.fee);
    Round8Monotone(subTotalPrice - b.spread - b.fee, subTotalPrice);
  }

  /** When the subtotal already has eight decimals (as a walked subtotal
      does) the final rounding loses nothing: the BUY total is exactly
      subtotal + spread + fee and the SELL total exactly subtotal - spread
      - fee, so the two sit symmetrically around the subtotal. */
  lemma TotalsExactOnGrid(spreadPercentage: real, feePercentage: real, subTotalPrice: real)
    requires OnGrid(subTotalPrice)
    ensures var b := CalculateFeeAndSpread(spreadPercentage, feePercentage, Buy, subTotalPrice);
            var s := CalculateFeeAndSpread(spreadPercentage, feePercentage, Sell, subTotalPrice);
            && b.totalPrice == subTotalPrice + b.spread + b.fee
            && s.totalPrice == subTotalPrice - s.spread - s.fee
            && b.totalPrice - subTotalPrice == subTotalPrice - s.totalPrice
  {
    var b := CalculateFeeAndSpread(spreadPercentage, feePercentage, Buy, subTotalPrice);
    GridClosed(subTotalPrice, b.spread);
    GridClosed(subTotalPrice + b.spread, b.fee);
    GridClosed(subTotalPrice - b.spread, b.fee);
    Round8Exact(subTotalPrice + b.spread + b.fee);
    Round8Exact(subTotalPrice - b.spread - b.fee);
  }

  /** On an eight-decimal subtotal with a positive charge, BUY is strictly
      dearer than the subtotal and SELL strictly cheaper. */
  lemma ChargedQuotesStraddleSubtotal(spreadPercentage: real, feePercentage: real, subTotalPrice: real)
    requires OnGrid(subTotalPrice)
    requires var c := CalculateFeeAndSpread(spreadPercentage, feePercentage, Buy, subTotalPrice);
             c.spread + c.fee > 0.0
    ensures CalculateFeeAndSpread(spreadPercentage, feePercentage, Sell, subTotalPrice).totalPrice
            < subTotalPrice
            < CalculateFeeAndSpread(spreadPercentage, feePercentage, Buy, subTotalPrice).totalPrice
  {
    TotalsExactOnGrid(spreadPercentage, feePercentage, subTotalPrice);
  }

  /** A subtotal of at least `floor` pays at least the spread due on
      `floor`: when that is positive, the BUY total of an eight-decimal
      subtotal is strictly above it. */
  lemma BuyAboveSubtotal(spreadPercentage: real, feePercentage: real, subTotalPrice: real, floor: real)
    requires OnGrid(subTotalPrice) && subTotalPrice >= floor >= 0.0
    requires spreadPercentage >= 0.0 && feePercentage >= 0.0
    requires Round8(floor * spreadPercentage) > 0.0
    ensures CalculateFeeAndSpread(spreadPercentage, feePercentage, Buy, subTotalPrice).totalPrice > subTotalPrice
  {
    assert floor * spreadPercentage <= subTotalPrice * spreadPercentage by {
      ProductNonNegative(subTotalPrice - floor, spreadPercentage);
    }
    Round8Monotone(floor * spreadPercentage, subTotalPrice * spreadPercentage);
    BuyCostsAtLeastSell(spreadPercentage, feePercentage, subTotalPrice);
    ChargedQuotesStraddleSubtotal(spreadPercentage, feePercentage, subTotalPrice);
  }

  /** The SELL total of a non-negative eight-decimal subtotal never exceeds
      it. */
  lemma SellAtMostSubtotal(spreadPercentage: real, feePercentage: real, subTotalPrice: real)
    requires OnGrid(subTotalPrice) && subTotalPrice >= 0.0
    requires spreadPercentage >= 0.0 && feePercentage >= 0.0
    ensures CalculateFeeAndSpread(spreadPercentage, feePercentage, Sell, subTotalPrice).totalPrice <= subTotalPrice
  {
    BuyCostsAtLeastSell(spreadPercentage, feePercentage, subTotalPrice);
    Round8Exact(subTotalPrice);
  }

  /** Non-negative percentages, a positive notional, and a spread on the
      notional that survives rounding. */
  ghost predicate EarnsSpread(spreadPercentage: real, feePercentage: real, notional: real) {
    && notional > 0.0 && spreadPercentage >= 0.0 && feePercentage >= 0.0
    && Round8(notional * spreadPercentage) > 0.0
  }

  /** Pricing a subtotal as a BUY beats pricing a smaller one as a SELL,
      when both reach a notional whose spread is positive. */
  lemma BuyTotalExceedsSellTotal(spreadPercentage: real, feePercentage: real, notional: real, sa: real, sb: real)
    requires EarnsSpread(spreadPercentage, feePercentage, notional)
    requires OnGrid(sa) && OnGrid(sb) && notional <= sb <= sa
    ensures CalculateFeeAndSpread(spreadPercentage, feePercentage, Buy, sa).totalPrice
            > CalculateFeeAndSpread(spreadPercentage, feePercentage, Sell, sb).totalPrice
  {
    BuyAboveSubtotal(spreadPercentage, feePercentage, sa, notional);
    SellAtMostSubtotal(spreadPercentage, feePercentage, sb);
  }
}
