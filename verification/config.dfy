/** The constants of the configuration file: the validity window of a quote
    and the pricing table of the listed symbols. */
module Config {
  import opened Outcomes

  /** A quote stays valid for 30 seconds, in milliseconds. */
  const PriceExpiration: int := 30 * 1000

  /** Pricing policy of one symbol. */
  datatype SymbolConfig = SymbolConfig(
    feePercentage: real,
    spreadPercentage: real,
    notional: real,
    binanceProxy: Option<string>)

  const SymbolsDictionary: map<string, SymbolConfig> := map[
    "ETHUSDT" := SymbolConfig(0.001, 0.01, 5.0, None),
    "BTCUSDT" := SymbolConfig(0.001, 0.01, 5.0, None),
    "AAVEUSDC" := SymbolConfig(0.002, 0.01, 5.0, Some("AAVEUSDT"))
  ]

  /** The table's keys, in declaration order. */
  const SymbolsArray: seq<string> := ["ETHUSDT", "BTCUSDT", "AAVEUSDC"]

  /** The validity window is thirty thousand milliseconds. */
  lemma PriceExpirationIsThirtySeconds()
    ensures PriceExpiration == 30000
  {
  }

  /** `symbolsArray` lists every key of the table exactly once. */
  lemma SymbolsArrayIsKeySet()
    ensures forall s :: s in SymbolsArray <==> s in SymbolsDictionary
    ensures forall i, j :: 0 <= i < j < |SymbolsArray| ==> SymbolsArray[i] != SymbolsArray[j]
    ensures |SymbolsArray| == |SymbolsDictionary| == 3
  {
    assert SymbolsDictionary.Keys == {"ETHUSDT", "BTCUSDT", "AAVEUSDC"};
  }

  /** Every listed symbol has notional 5 and spread 1%; the fee is 0.1%
      except for AAVEUSDC (0.2%), which alone is traded through the
      AAVEUSDT proxy. */
  lemma TablePolicy(symbol: string)
    requires symbol in SymbolsDictionary
    ensures SymbolsDictionary[symbol].notional == 5.0
    ensures SymbolsDictionary[symbol].spreadPercentage == 0.01
    ensures SymbolsDictionary[symbol].feePercentage
            == if symbol == "AAVEUSDC" then 0.002 else 0.001
    ensures SymbolsDictionary[symbol].binanceProxy
            == if symbol == "AAVEUSDC" then Some("AAVEUSDT") else None
  {
  }
}
