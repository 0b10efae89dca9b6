/**
 * The divergence evaluator of `compare_prices`, as pure functions:
 * how a symbol's two snapshot prices are read, how their divergence is
 * measured against the Bybit price, and how the alert ledger (the set of
 * symbols already notified) and the log of attempted notifications
 * change after one evaluation.
 */
module Divergence {

  /** Alert threshold, in percent. */
  const Threshold: real := 5.0

  function Abs(x: real): real {
    if x < 0.0 then -x else x
  }

  /** The stored price of `symbol`; a missing entry reads as 0 ("unknown"). */
  function PriceOf(table: map<string, real>, symbol: string): (p: real)
    ensures p == 0.0 <==> symbol !in table || table[symbol] == 0.0
    ensures p != 0.0 ==> symbol in table && table[symbol] == p
  {
    if symbol in table then table[symbol] else 0.0
  }

  /** Relative divergence in percent, always taken against the Bybit price. */
  function Difference(bybit: real, hyperliquid: real): (d: real)
    requires bybit != 0.0
    ensures d >= 0.0
    ensures d == 0.0 <==> bybit == hyperliquid
    ensures d * Abs(bybit) == 100.0 * Abs(bybit - hyperliquid)
  {
    QuotientAbs(bybit - hyperliquid, bybit);
    Abs((bybit - hyperliquid) / bybit) * 100.0
  }

  /**
   * Reference statement of "the prices diverge by at least 5%", written
   * without division: the gap is at least a twentieth of the Bybit price.
   */
  predicate Diverges(bybit: real, hyperliquid: real) {
    20.0 * Abs(bybit - hyperliquid) >= Abs(bybit)
  }

  /** What a notification is about (its text formatting is not modelled). */
  datatype Alert = Alert(symbol: string, bybitPrice: real, hyperliquidPrice: real, difference: real)

  /** The branch one evaluation takes. */
  datatype Verdict =
    | Unknown          // a price is missing or 0
    | BelowThreshold   // divergence under 5%
    | AlreadyAlerted   // the symbol is in the ledger
    | Fire(alert: Alert)

  function Judge(bybit: map<string, real>, hyperliquid: map<string, real>,
                 ledger: set<string>, symbol: string): Verdict
  {
    var b := PriceOf(bybit, symbol);
    var h := PriceOf(hyperliquid, symbol);
    if b == 0.0 || h == 0.0 then Unknown
    else
      var d := Difference(b, h);
      if d < Threshold then BelowThreshold
      else if symbol in ledger then AlreadyAlerted
      else Fire(Alert(symbol, b, h, d))
  }

  /**
   * The state an evaluation reads and writes besides the price tables:
   * the alert ledger and the log of notifications attempted so far.
   */
  datatype Book = Book(ledger: set<string>, sent: seq<Alert>)

  /**
   * One evaluation of a symbol: a first qualifying divergence attempts one
   * notification and records the symbol, whatever the delivery outcome;
   * every other branch leaves the book as it was.
   */
  function Evaluate(book: Book, bybit: map<string, real>, hyperliquid: map<string, real>,
                    symbol: string): (after: Book)
    ensures after == book || (
              var b, h := PriceOf(bybit, symbol), PriceOf(hyperliquid, symbol);
              && b != 0.0 && h != 0.0 && Diverges(b, h)
              && symbol !in book.ledger
              && after == Book(book.ledger + {symbol}, book.sent + [Alert(symbol, b, h, Difference(b, h))]))
  {
    DivergesIff(PriceOf(bybit, symbol), PriceOf(hyperliquid, symbol));
    match Judge(bybit, hyperliquid, book.ledger, symbol)
    case Fire(a) => Book(book.ledger + {symbol}, book.sent + [a])
    case _ => book
  }

  // ---------------------------------------------------------------------
  // The divergence measure

  lemma QuotientAbs(n: real, d: real)
    requires d != 0.0
    ensures Abs(n / d) * Abs(d) == Abs(n)
  {
    assert (n / d) * d == n;
    if d < 0.0 {
      assert Abs(n / d) * Abs(d) == (if n / d < 0.0 then -(n / d) else n / d) * -d;
    }
  }

  lemma ScaledThreshold(q: real, gap: real, base: real)
    requires base > 0.0 && q * base == gap
    ensures q * 100.0 >= 5.0 <==> 20.0 * gap >= base
  {
    assert 20.0 * gap - base == (20.0 * q - 1.0) * base;
  }

  lemma DivergesIff(bybit: real, hyperliquid: real)
    ensures bybit != 0.0 ==> (Difference(bybit, hyperliquid) >= Threshold <==> Diverges(bybit, hyperliquid))
  {
    if bybit == 0.0 {
      return;
    }
    QuotientAbs(bybit - hyperliquid, bybit);
    ScaledThreshold(Abs((bybit - hyperliquid) / bybit), Abs(bybit - hyperliquid), Abs(bybit));
  }

  /** The measure is directional: swapping the sources changes it unless the prices agree. */
  lemma DifferenceSwapIff(a: real, b: real)
    requires a > 0.0 && b > 0.0
    ensures Difference(a, b) == Difference(b, a) <==> a == b
  {
    var there, back := Difference(a, b), Difference(b, a);
    assert Abs(b - a) == Abs(a - b);
    assert there * a == back * b;
    if there == back {
      assert there * a == there * b;
      assert there == 0.0 || a == b;
    }
  }

  /** Prices 100 and 94 diverge by 6% one way round and by about 6.38% the other. */
  lemma DifferenceExamples()
    ensures Difference(100.0, 94.0) == 6.0
    ensures Difference(94.0, 100.0) == 600.0 / 94.0
    ensures 6.38 < Difference(94.0, 100.0) < 6.39
  {
  }

  // ---------------------------------------------------------------------
  // One evaluation

  /** A missing entry and a stored 0 are the same to the evaluator. */
  lemma AbsentIsZero(book: Book, bybit: map<string, real>, hyperliquid: map<string, real>,
                     symbol: string)
    ensures symbol !in bybit ==>
              Evaluate(book, bybit, hyperliquid, symbol) == Evaluate(book, bybit[symbol := 0.0], hyperliquid, symbol)
    ensures symbol !in hyperliquid ==>
              Evaluate(book, bybit, hyperliquid, symbol) == Evaluate(book, bybit, hyperliquid[symbol := 0.0], symbol)
  {
  }

  /** Missing data, a small divergence or an earlier alert: nothing happens. */
  lemma EvaluateQuiet(book: Book, bybit: map<string, real>, hyperliquid: map<string, real>,
                      symbol: string)
    requires || PriceOf(bybit, symbol) == 0.0
             || PriceOf(hyperliquid, symbol) == 0.0
             || !Diverges(PriceOf(bybit, symbol), PriceOf(hyperliquid, symbol))
             || symbol in book.ledger
    ensures Evaluate(book, bybit, hyperliquid, symbol) == book
  {
    var b, h := PriceOf(bybit, symbol), PriceOf(hyperliquid, symbol);
    if b != 0.0 && h != 0.0 {
      DivergesIff(b, h);
    }
  }

  /** A first qualifying divergence: one attempted notification, and the symbol enters the ledger. */
  lemma EvaluateFires(book: Book, bybit: map<string, real>, hyperliquid: map<string, real>,
                      symbol: string)
    requires PriceOf(bybit, symbol) != 0.0 && PriceOf(hyperliquid, symbol) != 0.0
    requires Diverges(PriceOf(bybit, symbol), PriceOf(hyperliquid, symbol))
    requires symbol !in book.ledger
    ensures var b, h := PriceOf(bybit, symbol), PriceOf(hyperliquid, symbol);
            Evaluate(book, bybit, hyperliquid, symbol)
            == Book(book.ledger + {symbol}, book.sent + [Alert(symbol, b, h, Difference(b, h))])
  {
    DivergesIff(PriceOf(bybit, symbol), PriceOf(hyperliquid, symbol));
  }

  /** The ledger only grows, by at most the evaluated symbol; the log only grows, by at most one alert. */
  lemma EvaluateGrows(book: Book, bybit: map<string, real>, hyperliquid: map<string, real>,
                      symbol: string)
    ensures var after := Evaluate(book, bybit, hyperliquid, symbol);
            && book.ledger <= after.ledger <= book.ledger + {symbol}
            && book.sent <= after.sent
            && |after.sent| <= |book.sent| + 1
            && (|after.sent| == |book.sent| + 1 <==> symbol in after.ledger - book.ledger)
  {
  }

  /** Re-evaluating with the same snapshots changes nothing more. */
  lemma EvaluateIdempotent(book: Book, bybit: map<string, real>, hyperliquid: map<string, real>,
                           symbol: string)
    ensures var once := Evaluate(book, bybit, hyperliquid, symbol);
            Evaluate(once, bybit, hyperliquid, symbol) == once
  {
    var once := Evaluate(book, bybit, hyperliquid, symbol);
    if symbol !in once.ledger {
      assert once == book;
    }
  }

  // ---------------------------------------------------------------------
  // The ledger/log invariant over many evaluations

  /** The symbols that have had a notification attempted. */
  function Alerted(sent: seq<Alert>): set<string> {
    if sent == [] then {} else Alerted(sent[..|sent| - 1]) + {sent[|sent| - 1].symbol}
  }

  predicate NoRepeats(sent: seq<Alert>) {
    forall i, j :: 0 <= i < j < |sent| ==> sent[i].symbol != sent[j].symbol
  }

  /** An alert is only ever about two known prices at least 5% apart. */
  predicate Justified(a: Alert) {
    && a.bybitPrice != 0.0
    && a.hyperliquidPrice != 0.0
    && a.difference == Difference(a.bybitPrice, a.hyperliquidPrice)
    && Diverges(a.bybitPrice, a.hyperliquidPrice)
  }

  /**
   * The ledger holds exactly the symbols that have been notified, each at
   * most once, and every notification was justified.
   */
  predicate Consistent(book: Book) {
    && book.ledger == Alerted(book.sent)
    && NoRepeats(book.sent)
    && forall i :: 0 <= i < |book.sent| ==> Justified(book.sent[i])
  }

  lemma {:induction false} AlertedMembers(sent: seq<Alert>, symbol: string)
    ensures symbol in Alerted(sent) <==> exists i :: 0 <= i < |sent| && sent[i].symbol == symbol
  {
    if sent != [] {
      var init := sent[..|sent| - 1];
      AlertedMembers(init, symbol);
      if symbol in Alerted(init) {
        var i :| 0 <= i < |init| && init[i].symbol == symbol;
        assert sent[i].symbol == symbol;
      }
      if i :| 0 <= i < |sent| - 1 && sent[i].symbol == symbol {
        assert init[i].symbol == symbol;
      }
    }
  }

  lemma EvaluateKeepsConsistent(book: Book, bybit: map<string, real>, hyperliquid: map<string, real>,
                                symbol: string)
    ensures Consistent(book) ==> Consistent(Evaluate(book, bybit, hyperliquid, symbol))
  {
    if !Consistent(book) {
      return;
    }
    match Judge(bybit, hyperliquid, book.ledger, symbol)
    case Fire(a) =>
      var sent := book.sent + [a];
      assert sent[..|sent| - 1] == book.sent;
      DivergesIff(a.bybitPrice, a.hyperliquidPrice);
      forall i | 0 <= i < |book.sent|
        ensures sent[i].symbol != symbol
      {
        AlertedMembers(book.sent, symbol);
      }
    case _ =>
  }

  /** The snapshots one evaluation reads: both tables and the symbol. */
  datatype Tick = Tick(bybit: map<string, real>, hyperliquid: map<string, real>, symbol: string)

  /** A sequence of evaluations, one per tick, in order. */
  function Run(book: Book, ticks: seq<Tick>): Book
    decreases |ticks|
  {
    if ticks == [] then book
    else
      var last := ticks[|ticks| - 1];
      Evaluate(Run(book, ticks[..|ticks| - 1]), last.bybit, last.hyperliquid, last.symbol)
  }

  lemma {:induction false} RunKeepsConsistent(book: Book, ticks: seq<Tick>)
    requires Consistent(book)
    ensures Consistent(Run(book, ticks))
    decreases |ticks|
  {
    if ticks != [] {
      var last := ticks[|ticks| - 1];
      RunKeepsConsistent(book, ticks[..|ticks| - 1]);
      EvaluateKeepsConsistent(Run(book, ticks[..|ticks| - 1]), last.bybit, last.hyperliquid, last.symbol);
    }
  }

  lemma {:induction false} AlertCount(sent: seq<Alert>)
    requires NoRepeats(sent)
    ensures |Alerted(sent)| == |sent|
  {
    if sent != [] {
      var init := sent[..|sent| - 1];
      AlertCount(init);
      AlertedMembers(init, sent[|sent| - 1].symbol);
    }
  }

  /**
   * From process start (empty ledger, nothing sent), any sequence of
   * evaluations notifies each symbol at most once, and the number of
   * notifications equals the size of the ledger.
   */
  lemma {:induction false} AtMostOneAlertPerSymbol(ticks: seq<Tick>)
    ensures var after := Run(Book({}, []), ticks);
            && NoRepeats(after.sent)
            && |after.sent| == |after.ledger|
            && forall i :: 0 <= i < |after.sent| ==> after.sent[i].symbol in after.ledger
  {
    RunKeepsConsistent(Book({}, []), ticks);
    var after := Run(Book({}, []), ticks);
    AlertCount(after.sent);
    forall i | 0 <= i < |after.sent|
      ensures after.sent[i].symbol in after.ledger
    {
      AlertedMembers(after.sent, after.sent[i].symbol);
    }
  }
}
