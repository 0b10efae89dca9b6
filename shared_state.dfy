/**
 * The process-wide state the feeds and the evaluator share: one price
 * table per source and the alert ledger (`tweeted_symbols`), plus the
 * outbound notifier. Each lock-guarded collection is a field that the
 * methods reassign; locking itself is not modelled.
 */
module Shared {
  import opened Divergence

  class SharedState {
    /** Latest Bybit price per normalised symbol. */
    var bybitPrices: map<string, real>
    /** Latest Hyperliquid price per normalised symbol. */
    var hyperliquidPrices: map<string, real>
    /** Symbols already alerted; nothing ever removes one. */
    var tweetedSymbols: set<string>

    constructor ()
      ensures bybitPrices == map[] && hyperliquidPrices == map[] && tweetedSymbols == {}
    {
      bybitPrices := map[];
      hyperliquidPrices := map[];
      tweetedSymbols := {};
    }

    /** The ledger together with everything `notifier` has been asked to send. */
    ghost function BookWith(notifier: Notifier): Book
      reads this, notifier
    {
      Book(tweetedSymbols, notifier.sent)
    }
  }

  /**
   * The outbound notification channel. Every call is recorded in the
   * ghost log `sent`; whether delivery succeeds is outside the model, so
   * the outcome is arbitrary.
   */
  class Notifier {
    ghost var sent: seq<Alert>

    constructor ()
      ensures sent == []
    {
      sent := [];
    }

    method Send(alert: Alert) returns (ok: bool)
      modifies this
      ensures sent == old(sent) + [alert]
    {
      sent := sent + [alert];
      ok := *;
    }
  }
}
