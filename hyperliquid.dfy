/**
 * The Hyperliquid side: normalising Hyperliquid coin names into the
 * Bybit-style symbol space (`format_ticker_name`), listing the tradable
 * assets (`get_tickers`), and writing each tick batch into the shared
 * Hyperliquid price table (`hyperliquid_ws`).
 */
module Hyperliquid {
  import opened Divergence
  import opened Shared

  // ---------------------------------------------------------------------
  // Ticker normalisation

  /** `starts_with("k")` */
  predicate StartsWithK(ticker: string) {
    |ticker| > 0 && ticker[0] == 'k'
  }

  /** Position of the first occurrence of `c` in `s`. */
  function FirstIndex(s: string, c: char): (i: nat)
    requires c in s
    ensures i < |s| && s[i] == c && c !in s[..i]
  {
    if s[0] == c then 0 else 1 + FirstIndex(s[1..], c)
  }

  /** `replacen(c, with, 1)`: replace the first occurrence of `c`, if any. */
  function ReplaceFirst(s: string, c: char, with: string): (r: string)
    ensures c !in s ==> r == s
    ensures c in s ==> r == s[..FirstIndex(s, c)] + with + s[FirstIndex(s, c) + 1..]
  {
    if s == [] then []
    else if s[0] == c then with + s[1..]
    else
      var rest := ReplaceFirst(s[1..], c, with);
      assert c in s ==> c in s[1..] && FirstIndex(s, c) == 1 + FirstIndex(s[1..], c);
      [s[0]] + rest
  }

  /** `format_ticker_name`: a leading `k` becomes `1000`, then `USDT` is appended. */
  function FormatTickerName(ticker: string): (symbol: string)
    ensures symbol == (if StartsWithK(ticker) then "1000" + ticker[1..] else ticker) + "USDT"
  {
    var base := if StartsWithK(ticker) then ReplaceFirst(ticker, 'k', "1000") else ticker;
    base + "USDT"
  }

  /** Every normalised symbol is quoted in USDT. */
  lemma FormatTickerNameSuffix(ticker: string)
    ensures var symbol := FormatTickerName(ticker);
            |symbol| >= 4 && symbol[|symbol| - 4..] == "USDT"
  {
  }

  /** Number of occurrences of `c` in `s`. */
  function Count(s: string, c: char): nat {
    if s == [] then 0 else (if s[0] == c then 1 else 0) + Count(s[1..], c)
  }

  lemma {:induction false} CountAppend(s: string, t: string, c: char)
    ensures Count(s + t, c) == Count(s, c) + Count(t, c)
  {
    if s != [] {
      assert (s + t)[1..] == s[1..] + t;
      CountAppend(s[1..], t, c);
    } else {
      assert s + t == t;
    }
  }

  /** Only the leading `k` is rewritten: every later `k` survives. */
  lemma FormatTickerNameKeepsLaterKs(ticker: string)
    ensures StartsWithK(ticker) ==> Count(FormatTickerName(ticker), 'k') == Count(ticker, 'k') - 1
    ensures !StartsWithK(ticker) ==> Count(FormatTickerName(ticker), 'k') == Count(ticker, 'k')
  {
    assert Count("USDT", 'k') == 0;
    if StartsWithK(ticker) {
      assert Count("1000", 'k') == 0;
      CountAppend("1000", ticker[1..], 'k');
      CountAppend("1000" + ticker[1..], "USDT", 'k');
    } else {
      CountAppend(ticker, "USDT", 'k');
    }
  }

  /**
   * Two coin names share a symbol exactly when they are equal or one is
   * `k` + X and the other `1000` + X.
   */
  lemma FormatTickerNameCollision(a: string, b: string)
    ensures FormatTickerName(a) == FormatTickerName(b)
            <==> || a == b
                 || (StartsWithK(a) && b == "1000" + a[1..])
                 || (StartsWithK(b) && a == "1000" + b[1..])
  {
    var ba := if StartsWithK(a) then "1000" + a[1..] else a;
    var bb := if StartsWithK(b) then "1000" + b[1..] else b;
    assert FormatTickerName(a) == ba + "USDT";
    assert FormatTickerName(b) == bb + "USDT";
    if FormatTickerName(a) == FormatTickerName(b) {
      assert ba == (ba + "USDT")[..|ba|];
      assert bb == (bb + "USDT")[..|bb|];
      assert ba == bb;
      if StartsWithK(a) && StartsWithK(b) {
        assert a[1..] == ba[4..] == b[1..];
        assert a == [a[0]] + a[1..];
        assert b == [b[0]] + b[1..];
      }
    }
  }

  // ---------------------------------------------------------------------
  // Listing the tradable assets

  /** One entry of the `meta` response's `universe`. */
  datatype AssetMeta = AssetMeta(name: string, isDelisted: bool)

  /** The assets that are not delisted, in their original order. */
  function Listed(universe: seq<AssetMeta>): seq<AssetMeta> {
    if universe == [] then []
    else (if universe[0].isDelisted then [] else [universe[0]]) + Listed(universe[1..])
  }

  /** `get_tickers` after the response is decoded: filter out delisted assets, normalise the rest. */
  function GetTickers(universe: seq<AssetMeta>): (tickers: seq<string>)
    ensures |tickers| == |Listed(universe)|
    ensures forall i :: 0 <= i < |tickers| ==> tickers[i] == FormatTickerName(Listed(universe)[i].name)
  {
    if universe == [] then []
    else
      var rest := GetTickers(universe[1..]);
      if universe[0].isDelisted then rest else [FormatTickerName(universe[0].name)] + rest
  }

  lemma {:induction false} ListedMembers(universe: seq<AssetMeta>, asset: AssetMeta)
    ensures asset in Listed(universe) <==> asset in universe && !asset.isDelisted
  {
    if universe != [] {
      ListedMembers(universe[1..], asset);
      assert universe == [universe[0]] + universe[1..];
    }
  }

  /** Filtering keeps the original order: it distributes over concatenation. */
  lemma {:induction false} ListedAppend(u: seq<AssetMeta>, v: seq<AssetMeta>)
    ensures Listed(u + v) == Listed(u) + Listed(v)
  {
    if u != [] {
      assert (u + v)[1..] == u[1..] + v;
      ListedAppend(u[1..], v);
    } else {
      assert u + v == v;
    }
  }

  lemma {:induction false} ListedNoneDelisted(universe: seq<AssetMeta>)
    ensures (forall i :: 0 <= i < |universe| ==> !universe[i].isDelisted) <==> Listed(universe) == universe
  {
    if universe != [] {
      ListedNoneDelisted(universe[1..]);
      ListedLength(universe[1..]);
      if universe[0].isDelisted {
        assert |Listed(universe)| < |universe|;
      }
    }
  }

  lemma {:induction false} ListedLength(universe: seq<AssetMeta>)
    ensures |Listed(universe)| <= |universe|
  {
    if universe != [] {
      ListedLength(universe[1..]);
    }
  }

  // ---------------------------------------------------------------------
  // Writing tick batches into the Hyperliquid price table

  /** Outcome of parsing a mid-price string. */
  datatype ParsedPrice = Parsed(value: real) | Unparsable

  /** `unwrap_or(0.0)`: a price that does not parse is stored as 0. */
  function PriceOrZero(p: ParsedPrice): (price: real)
    ensures p.Parsed? ==> price == p.value
    ensures price == 0.0 <==> p == Unparsable || p == Parsed(0.0)
  {
    match p
    case Parsed(v) => v
    case Unparsable => 0.0
  }

  /** The normalised symbols a batch of (coin, price text) pairs writes. */
  function BatchKeys(mids: seq<(string, string)>): set<string> {
    set i | 0 <= i < |mids| :: FormatTickerName(mids[i].0)
  }

  /** The table after writing every pair of `mids`, in order, last write winning. */
  function Applied(table: map<string, real>, mids: seq<(string, string)>,
                   parse: string -> ParsedPrice): map<string, real>
    decreases |mids|
  {
    if mids == [] then table
    else
      var last := mids[|mids| - 1];
      Applied(table, mids[..|mids| - 1], parse)[FormatTickerName(last.0) := PriceOrZero(parse(last.1))]
  }

  /** The inner `for` loop of `hyperliquid_ws`: one `AllMids` batch. */
  method ApplyMids(shared: SharedState, mids: seq<(string, string)>, parse: string -> ParsedPrice)
    modifies shared`hyperliquidPrices
    ensures shared.hyperliquidPrices == Applied(old(shared.hyperliquidPrices), mids, parse)
  {
    for i := 0 to |mids|
      invariant shared.hyperliquidPrices == Applied(old(shared.hyperliquidPrices), mids[..i], parse)
    {
      var (ticker, priceText) := mids[i];
      var formattedTicker := FormatTickerName(ticker);
      var price := PriceOrZero(parse(priceText));
      shared.hyperliquidPrices := shared.hyperliquidPrices[formattedTicker := price];
      assert mids[..i + 1][..i] == mids[..i];
    }
    assert mids[..|mids|] == mids;
  }

  lemma {:induction false} AppliedKeys(table: map<string, real>, mids: seq<(string, string)>,
                                       parse: string -> ParsedPrice)
    ensures Applied(table, mids, parse).Keys == table.Keys + BatchKeys(mids)
    decreases |mids|
  {
    if mids != [] {
      var init := mids[..|mids| - 1];
      AppliedKeys(table, init, parse);
      assert BatchKeys(mids) == BatchKeys(init) + {FormatTickerName(mids[|mids| - 1].0)} by {
        forall k | k in BatchKeys(mids) ensures k in BatchKeys(init) + {FormatTickerName(mids[|mids| - 1].0)} {
          var i :| 0 <= i < |mids| && k == FormatTickerName(mids[i].0);
          if i < |mids| - 1 {
            assert init[i] == mids[i];
          }
        }
        forall k | k in BatchKeys(init) ensures k in BatchKeys(mids) {
          var i :| 0 <= i < |init| && k == FormatTickerName(init[i].0);
          assert mids[i] == init[i];
        }
      }
    }
  }

  /** Symbols the batch does not mention keep their old entry (or stay absent). */
  lemma {:induction false} AppliedElsewhere(table: map<string, real>, mids: seq<(string, string)>,
                                            parse: string -> ParsedPrice, symbol: string)
    requires forall i :: 0 <= i < |mids| ==> FormatTickerName(mids[i].0) != symbol
    ensures symbol in Applied(table, mids, parse) <==> symbol in table
    ensures symbol in table ==> Applied(table, mids, parse)[symbol] == table[symbol]
    decreases |mids|
  {
    if mids != [] {
      AppliedElsewhere(table, mids[..|mids| - 1], parse, symbol);
    }
  }

  /** Each normalised symbol holds the price of its last occurrence in the batch. */
  lemma {:induction false} AppliedLastWins(table: map<string, real>, mids: seq<(string, string)>,
                                           parse: string -> ParsedPrice, i: nat)
    requires i < |mids|
    requires forall j :: i < j < |mids| ==> FormatTickerName(mids[j].0) != FormatTickerName(mids[i].0)
    ensures FormatTickerName(mids[i].0) in Applied(table, mids, parse)
    ensures Applied(table, mids, parse)[FormatTickerName(mids[i].0)] == PriceOrZero(parse(mids[i].1))
    decreases |mids|
  {
    if i < |mids| - 1 {
      var init := mids[..|mids| - 1];
      assert init[i] == mids[i];
      AppliedLastWins(table, init, parse, i);
    }
  }

  /**
   * A coin whose last price in the batch does not parse is stored as 0, so
   * the evaluator treats its symbol as unknown and does nothing.
   */
  lemma UnparsableIsUnknown(book: Book, bybit: map<string, real>, hyperliquid: map<string, real>,
                            mids: seq<(string, string)>, parse: string -> ParsedPrice, i: nat)
    requires i < |mids| && parse(mids[i].1) == Unparsable
    requires forall j :: i < j < |mids| ==> FormatTickerName(mids[j].0) != FormatTickerName(mids[i].0)
    ensures Evaluate(book, bybit, Applied(hyperliquid, mids, parse), FormatTickerName(mids[i].0)) == book
  {
    AppliedLastWins(hyperliquid, mids, parse, i);
  }

  /** A message from the `AllMids` subscription channel. */
  datatype Message = AllMids(mids: seq<(string, string)>) | OtherMessage

  /**
   * The table after the receive loop has consumed `messages`: it applies
   * each `AllMids` batch and stops at the first other message.
   */
  function Stream(table: map<string, real>, messages: seq<Message>,
                  parse: string -> ParsedPrice): map<string, real>
    decreases |messages|
  {
    if messages == [] then table
    else match messages[0]
      case AllMids(mids) => Stream(Applied(table, mids, parse), messages[1..], parse)
      case OtherMessage => table
  }

  /**
   * The receive loop of `hyperliquid_ws`, over the messages that arrive
   * before the channel closes.
   */
  method HyperliquidWs(shared: SharedState, messages: seq<Message>, parse: string -> ParsedPrice)
    modifies shared`hyperliquidPrices
    ensures shared.hyperliquidPrices == Stream(old(shared.hyperliquidPrices), messages, parse)
  {
    var i := 0;
    while i < |messages| && messages[i].AllMids?
      invariant 0 <= i <= |messages|
      invariant Stream(shared.hyperliquidPrices, messages[i..], parse)
                == Stream(old(shared.hyperliquidPrices), messages, parse)
    {
      ApplyMids(shared, messages[i].mids, parse);
      assert messages[i..][1..] == messages[i + 1..];
      i := i + 1;
    }
  }

  /** No tick ever removes a symbol from the table. */
  lemma {:induction false} StreamKeepsKeys(table: map<string, real>, messages: seq<Message>,
                                           parse: string -> ParsedPrice)
    ensures table.Keys <= Stream(table, messages, parse).Keys
    decreases |messages|
  {
    if messages != [] && messages[0].AllMids? {
      AppliedKeys(table, messages[0].mids, parse);
      StreamKeepsKeys(Applied(table, messages[0].mids, parse), messages[1..], parse);
    }
  }
}
