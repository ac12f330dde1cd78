/** Lookups into the configured pricing table: the symbol to quote at the
    venue, the fee and spread of a symbol, and the notional check. */
module Symbols {
  import opened Config

  datatype FeeAndSpread = FeeAndSpread(spreadPercentage: real, feePercentage: real)

  /** The venue symbol: the configured proxy when there is one, else the
      symbol itself. Only AAVEUSDC is routed elsewhere. */
  function GetSymbolForBinance(symbol: string): (r: string)
    requires symbol in SymbolsDictionary
    ensures r == if symbol == "AAVEUSDC" then "AAVEUSDT" else symbol
  {
    SymbolsDictionary[symbol].binanceProxy.GetOr(symbol)
  }

  /** The configured spread and fee of a symbol, and nothing else. */
  function GetSymbolFeeAndSpread(symbol: string): (r: FeeAndSpread)
    requires symbol in SymbolsDictionary
    ensures r.spreadPercentage == 0.01
    ensures r.feePercentage == if symbol == "AAVEUSDC" then 0.002 else 0.001
  {
    var c := SymbolsDictionary[symbol];
    FeeAndSpread(c.spreadPercentage, c.feePercentage)
  }

  /** A price is acceptable iff it reaches the symbol's notional; every
      listed symbol has notional 5. */
  function IsNotionalValid(symbol: string, price: real): (r: bool)
    requires symbol in SymbolsDictionary
    ensures r <==> price >= 5.0
  {
    price >= SymbolsDictionary[symbol].notional
  }
}
