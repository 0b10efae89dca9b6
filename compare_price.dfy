/** `compare_prices`: evaluate one symbol and notify on a first 5% divergence. */
module ComparePrice {
  import opened Divergence
  import opened Shared

  /**
   * Reads both snapshot prices, skips on a missing or zero price, and on a
   * divergence of at least 5% for a symbol not yet in the ledger sends one
   * notification and then records the symbol, whether or not the delivery
   * succeeded. The price tables are only read.
   */
  method ComparePrices(shared: SharedState, notifier: Notifier, symbol: string)
    modifies shared`tweetedSymbols, notifier
    ensures shared.BookWith(notifier)
            == Evaluate(old(shared.BookWith(notifier)), shared.bybitPrices, shared.hyperliquidPrices, symbol)
    ensures Consistent(old(shared.BookWith(notifier))) ==> Consistent(shared.BookWith(notifier))
    ensures shared.bybitPrices == old(shared.bybitPrices)
    ensures shared.hyperliquidPrices == old(shared.hyperliquidPrices)
  {
    var bybitPrice := if symbol in shared.bybitPrices then shared.bybitPrices[symbol] else 0.0;
    var hyperliquidPrice := if symbol in shared.hyperliquidPrices then shared.hyperliquidPrices[symbol] else 0.0;
    ghost var before := shared.BookWith(notifier);
    EvaluateKeepsConsistent(before, shared.bybitPrices, shared.hyperliquidPrices, symbol);

    if bybitPrice == 0.0 || hyperliquidPrice == 0.0 {
      return;
    }

    var difference := Difference(bybitPrice, hyperliquidPrice);
    if difference >= Threshold {
      if symbol !in shared.tweetedSymbols {
        var alert := Alert(symbol, bybitPrice, hyperliquidPrice, difference);
        // A failed delivery is only logged; it does not keep the symbol out of the ledger.
        var _ := notifier.Send(alert);
        shared.tweetedSymbols := shared.tweetedSymbols + {symbol};
      }
    }
  }
}
