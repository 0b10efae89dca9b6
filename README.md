# Price-divergence alerts: Bybit vs Hyperliquid

This project models the core of a small service that watches two crypto
venues, Bybit and Hyperliquid, and sends one Telegram alert per symbol the
first time their prices for that symbol differ by 5% or more.

- `divergence.dfy` (module `Divergence`): the decision `compare_prices` takes,
  as pure functions. A missing price reads as 0, and a 0 price means
  "unknown". The divergence is `|(bybit - hyperliquid) / bybit| * 100`, with
  the 5.0 threshold. `Evaluate` gives the new alert ledger and the new log
  of attempted notifications. The lemmas cover the measure (an exact
  division-free reference, directionality), one evaluation (quiet cases,
  firing, growth, idempotence) and any sequence of evaluations (the ledger
  equals the set of alerted symbols, each alerted at most once).
- `shared_state.dfy` (module `Shared`): the shared state as a class with the
  two price tables (`map<string, real>`) and the ledger (`set<string>`). The
  Telegram notifier is a class whose `Send` records each attempt in a ghost
  log and returns an arbitrary success flag.
- `compare_price.dfy` (module `ComparePrice`): `compare_prices` as an
  imperative method. It is proved to change the ledger and the notifier log
  exactly as `Evaluate` says, and to leave both price tables alone.
- `hyperliquid.dfy` (module `Hyperliquid`): `format_ticker_name`, which turns
  a leading `k` into `1000` and appends `USDT`, with `replacen(.., 1)`
  modelled as "replace the first occurrence". It also holds the filter/map of
  `get_tickers` and the tick loops of `hyperliquid_ws`. `ApplyMids` is
  proved against `Applied`, a fold over one batch, and `HyperliquidWs`
  against `Stream`, a fold over the received messages; the lemmas give
  last-write-wins, untouched keys and no removed keys. `UnparsableIsUnknown`
  joins the feed to the evaluator: an unparsable price stored as 0 makes
  the evaluator do nothing.

The normaliser is not injective. `FormatTickerNameCollision` shows that `kX`
and `1000X` map to the same symbol `1000XUSDT`, and that this is the only way
two distinct names collide. If both were listed, they would share one price
slot, and the last write would win.

Inputs that come from outside are parameters. These are the decoded
`universe` list, the sequence of received `AllMids` messages (each a
sequence of (coin, price text) pairs, in the order the loop visits them),
the price-string parser (`parse: string -> ParsedPrice`) and the delivery
outcome (chosen arbitrarily inside `Notifier.Send`).

The loop walks `all_mids.data.mids.iter()` (src/hyperliquid.rs:67). If
that container is a hash map, each coin occurs once per batch and the
visiting order is unspecified. A `kX`/`1000X` pair in one batch then
leaves whichever price the hash order visits last. The model's batches
are more general: they fix an order and allow a coin to repeat. The
container's type is defined in the Hyperliquid SDK, which is not part of
this model.

The measure is directional: Bybit 100 / Hyperliquid 94 gives 6%, and
94 / 100 gives about 6.38% (`DifferenceExamples`).

The evaluator call in `hyperliquid_ws` is commented out
(src/hyperliquid.rs:76-78), so the Hyperliquid loop only writes prices.

## Model

| member | source | states |
|---|---|---|
| Divergence.PriceOf | src/compare_price.rs:9-17 | a symbol reads as 0 ("unknown") exactly when it is absent or stored as 0; any other reading is the stored price |
| Divergence.Difference | src/compare_price.rs:23 | the measure is non-negative, is 0 exactly when the prices agree, and times \|bybit\| equals 100 · \|bybit − hyperliquid\|: a percentage of the Bybit price |
| Divergence.Evaluate | src/compare_price.rs:9-51 | an evaluation either leaves ledger and log as they were, or happens on two known prices at least 5% apart for a symbol not yet in the ledger, and then adds exactly that symbol and one alert (symbol, both prices, divergence) |
| Divergence.DivergesIff | src/compare_price.rs:23-31 | for a non-zero Bybit price, the divergence reaches 5.0 exactly when 20·\|bybit − hyperliquid\| ≥ \|bybit\| (an exact, division-free form of the threshold test) |
| Divergence.DifferenceSwapIff | src/compare_price.rs:23 | for positive prices, swapping the two sources leaves the measure unchanged only when the prices are equal: the Bybit price is always the denominator |
| Divergence.DifferenceExamples | src/compare_price.rs:23 | (bybit 100, hyperliquid 94) gives exactly 6%; (94, 100) gives 600/94, between 6.38% and 6.39% |
| Divergence.AbsentIsZero | src/compare_price.rs:9-21 | an absent table entry and a stored 0.0 give the same evaluation, on either side |
| Divergence.EvaluateQuiet | src/compare_price.rs:19-33 | with a missing or zero price, a divergence under 5%, or a symbol already in the ledger, neither the ledger nor the notification log changes |
| Divergence.EvaluateFires | src/compare_price.rs:31-51 | on known prices at least 5% apart for a symbol not in the ledger, exactly one alert (symbol, both prices, divergence) is attempted and the symbol is added to the ledger |
| Divergence.EvaluateGrows | src/compare_price.rs:50-51 | the ledger only grows, by at most the evaluated symbol; the log only grows, by at most one alert, and it grows exactly when the symbol newly enters the ledger |
| Divergence.EvaluateIdempotent | src/compare_price.rs:32-33 | evaluating the same symbol again on the same snapshots changes nothing more |
| Divergence.EvaluateKeepsConsistent | src/compare_price.rs:31-51 | the invariant "ledger = set of alerted symbols, no symbol alerted twice, every alert on known prices at least 5% apart" survives one evaluation |
| Divergence.RunKeepsConsistent | src/compare_price.rs:5-73 | that invariant survives any sequence of evaluations over any changing snapshots |
| Divergence.AtMostOneAlertPerSymbol | src/compare_price.rs:31-51 | from an empty ledger, any sequence of evaluations alerts each symbol at most once, and the number of alerts equals the ledger's size |
| Shared.Notifier.Send | src/telegram.rs:63-94 | every call is recorded as one attempted alert; whether it succeeds is left open |
| ComparePrice.ComparePrices | src/compare_price.rs:5-53 | the ledger and the notifier log change exactly as `Evaluate` says, whatever the delivery outcome; the invariant is kept; both price tables are left unchanged |
| Hyperliquid.ReplaceFirst | src/hyperliquid.rs:34 | without `c` the string is unchanged; otherwise only the first occurrence of `c` is replaced by `with` |
| Hyperliquid.FormatTickerName | src/hyperliquid.rs:32-39 | a name starting with `k` gives `1000` + the rest + `USDT`; any other name gives name + `USDT` |
| Hyperliquid.FormatTickerNameSuffix | src/hyperliquid.rs:38 | every normalised symbol ends in `USDT` |
| Hyperliquid.FormatTickerNameKeepsLaterKs | src/hyperliquid.rs:33-34 | a leading `k` is the only `k` removed: the result has one `k` fewer, or the same number when the name does not start with `k` |
| Hyperliquid.FormatTickerNameCollision | src/hyperliquid.rs:32-39 | two names give the same symbol if and only if they are equal or are `k`+X and `1000`+X |
| Hyperliquid.GetTickers | src/hyperliquid.rs:52-56 | one ticker per non-delisted asset, in the original order: the i-th ticker is the normalised name of the i-th listed asset |
| Hyperliquid.ListedMembers | src/hyperliquid.rs:54 | an asset is kept if and only if it is in the universe and not delisted |
| Hyperliquid.ListedAppend | src/hyperliquid.rs:52-56 | filtering distributes over concatenation, so the relative order is preserved |
| Hyperliquid.ListedNoneDelisted | src/hyperliquid.rs:54 | the filter returns the universe unchanged if and only if no asset is delisted |
| Hyperliquid.PriceOrZero | src/hyperliquid.rs:69 | a parsed price is kept; the stored price is 0 exactly when the text did not parse or parsed as 0 |
| Hyperliquid.ApplyMids | src/hyperliquid.rs:67-73 | after one batch, the Hyperliquid table equals the in-order fold of its writes; nothing else in the shared state changes |
| Hyperliquid.AppliedKeys | src/hyperliquid.rs:67-73 | after a batch the table's keys are the old keys plus the normalised tickers of the batch; no key is removed |
| Hyperliquid.AppliedElsewhere | src/hyperliquid.rs:67-73 | a symbol the batch does not write keeps its old value, or stays absent |
| Hyperliquid.AppliedLastWins | src/hyperliquid.rs:67-73 | each written symbol holds the price of its last occurrence in the batch, with an unparsable price stored as 0 |
| Hyperliquid.UnparsableIsUnknown | src/hyperliquid.rs:69 | if a coin's last price in the batch fails to parse, evaluating its symbol afterwards changes neither the ledger nor the log |
| Hyperliquid.HyperliquidWs | src/hyperliquid.rs:66-80 | the receive loop applies every `AllMids` batch in order and stops at the end of the stream or at the first other message |
| Hyperliquid.StreamKeepsKeys | src/hyperliquid.rs:66-73 | no run of the receive loop removes a symbol from the table |

## Left out

- Locking and concurrency: the `RwLock`s and the async tasks. The code
  checks the ledger under a read lock, drops it, sends the alert, and only
  then inserts the symbol under a write lock (src/compare_price.rs:32-34,
  :45-51). Two concurrent evaluations could both pass the check and both
  notify. The model runs check, send and insert as one sequential step, in
  the code's order, and cannot show this.
- Alert text and logging: message formatting, `{:.5}` printing, the chrono
  timestamp and the console output (src/compare_price.rs:36-44, :46). An
  alert is modelled as the record (symbol, Bybit price, Hyperliquid price,
  divergence).
- The Telegram transport in src/telegram.rs: HTTP, environment variables
  and JSON, plus `log_all_chat_ids_from_telegram`. `send_telegram_message`
  is only an abstract notifier that may fail.
- Hyperliquid network code: `InfoClient` construction (src/hyperliquid.rs:26-30),
  the `meta` request with JSON decoding (:42-50), and the websocket
  subscription and channel (:60-66). The decoded universe and the received
  messages are inputs instead.
- `f64` arithmetic: rounding, NaN and infinities. Prices are exact reals, and
  string-to-float parsing is the uninterpreted `parse` parameter.
- The `Result` that `compare_prices` returns: it is always `Ok(())`.
- Commented-out code (src/compare_price.rs:55-70, src/hyperliquid.rs:74-78).
- The Bybit feed, process start-up and src/share_state.rs are not part of
  this model. The `SharedState` class holds only the three collections
  the modelled code uses.
