# Gold trade ledger — a Dafny model

A model of the trading core of a small gold-trading web service
(`gold_trade/views.py` and `gold_trade/models.py`). Users hold a cash
balance, buy and sell gold at a market price that is cached for five
minutes and refilled from an external rate provider, and page through
their own transaction history.

The model has one Dafny module per component:

- `Models` (`models.dfy`): the user profile and the transaction record.
  A trade's kind is `Buy`, `Sell` or `Other(tag)`, restricted to the
  kinds a request string can produce (`RequestKind`: `Other` never holds
  BUY or SELL); the record keeps the
  owner, kind, quantity, effective unit price and creation instant.
  Profiles are a map from user to balance, so each user has at most one.
  `InitialBalance` is the 10000.00 a profile starts with.
- `Pricing` (`pricing.dfy`): the 2% commission. A BUY pays
  `market * 1.02`; every other kind is priced `market * 0.98`.
- `PriceCache` (`price_cache.dfy`): the shared cache entry (price and
  expiry instant) as a class `Cache`, with the price endpoint's read
  (`CurrentPrice`) and the trade path's read (`TradePrice`). Both are
  specified by the pure function `ReadPrice`. The provider's reply
  (HTTP status and XAU rate) and the clock `now` are inputs. A fetched
  price is `1 / rate` and is cached for 300 seconds.
- `TradeLedger` (`ledger.dfy`): a class `Ledger` with the balances and the
  append-only log. `Execute` is specified by the pure function `Trade`.
  Its invariant `Conserved` says every balance equals 10000.00 plus the
  net cash flow of that user's records.
- `History` (`history.dfy`): the history read as a pure function of the
  log. It keeps the caller's records, orders them newest first and
  serves page `n` of ten.
- `Trading` (`trading.dfy`): a whole trade request. It reads the price on
  the trade path, then executes the trade on the ledger.

Behaviour of the code that the model keeps on purpose:

- Kinds other than BUY and SELL are not refused. They are priced as a
  sale, leave the balance alone, and still append a record.
- The quantity is never checked. Trades of any quantity are modelled.
  `SolventStaysSolvent` assumes a non-negative quantity and price, and
  `NegativePurchaseCredits` shows what a negative quantity does.
- A reply with a missing or zero rate makes the code divide by zero or by
  `None` and abort the request before anything is written. The model
  returns the typed failures `MissingRate` and `ZeroRate` and changes no
  state, which is the abort's observable effect.
- The price endpoint serves any live cached price, even 0. Only the trade
  path treats a cached 0 as a miss.
- A price fetched on the trade path stays cached even when the ledger
  then refuses the trade. The cache is not part of the database
  transaction.

Inputs standing for the environment: the clock (`now`, whole seconds),
the provider's reply (`ProviderResponse`), and whether the database
accepts the write (`storageOk`). A refused write is the code's
catch-all exception path. There, the enclosing database transaction
rolls back both the balance update and the record insert.

## Model

| member | source | states |
|---|---|---|
| `Models.ParseKind` | gold_trade/views.py:149-153 | only the exact strings BUY and SELL are recognised as kinds; any other string is kept, and the stored name is always the string sent |
| `Models.KindName` | gold_trade/views.py:159 | the stored `transaction_type` of a kind: BUY, SELL, or the unrecognised string itself |
| `Models.ParseKindName` | gold_trade/models.py:12 | every request kind is read back unchanged from the name it is stored under |
| `Pricing.EffectivePrice` | gold_trade/views.py:139-140 | BUY pays the market price plus 2%, every other kind gets the market price minus 2%; for a positive market price the price stays positive and exceeds the market price exactly for BUY |
| `Pricing.TotalCost` | gold_trade/views.py:141 | the total is the quantity times the effective price |
| `Pricing.Spread` | gold_trade/views.py:140 | buy and sell prices lie `2 * 0.02 * market` apart |
| `PriceCache.Lookup` | gold_trade/views.py:76 | a read of the cache key: the stored price while the entry has not expired, nothing otherwise |
| `PriceCache.StoredPriceLifetime` | gold_trade/views.py:95 | a price written with `ex=300` at t is read back exactly at the instants before t + 300, and never from then on |
| `PriceCache.ExpiryIsFinal` | gold_trade/views.py:95 | an entry live at a later instant was live with the same price at every earlier one; once expired it never comes back |
| `PriceCache.NeedsFetch` | gold_trade/views.py:117-119 | a read goes to the provider when no live price is cached (the price endpoint's test at views.py:79), and on the trade path also when the cached price is zero |
| `PriceCache.PriceFromResponse` | gold_trade/views.py:86-92 | a price exists iff the status is 200 and a nonzero XAU rate is present; it is then the reciprocal of the rate; a non-200 status is reported with that status, a missing rate and a zero rate each by its own error |
| `PriceCache.ReadPrice` | gold_trade/views.py:76-99 | the provider is consulted iff the read misses; a hit returns the cached price and leaves the cache alone; a miss returns the provider's price and caches it for 300 s; a failure leaves the cache untouched |
| `PriceCache.FetchedPriceServedWithinTtl` | gold_trade/views.py:94-95 | after a successful fetch at `t`, every read in `[t, t + 300)` on either path returns that price without a provider call, whatever the provider would say |
| `PriceCache.CachedZeroIsMissOnlyForTrades` | gold_trade/views.py:117-119 | a live cached 0 is served by the price endpoint and refetched by the trade path |
| `PriceCache.RefillScenario` | gold_trade/views.py:88-95 | an empty cache and rate 0.0005 give price 2000.00, cached, and served again one second later without a fetch |
| `PriceCache.Cache.Refresh` | gold_trade/views.py:128-137 | a successful fetch stores its price with expiry `now + 300`; a failed one leaves the cache unchanged |
| `PriceCache.Cache.CurrentPrice` | gold_trade/views.py:73-99 | the price endpoint's read: result, new cache entry and provider use are those of `ReadPrice` with only a missing entry counted as a miss |
| `PriceCache.Cache.TradePrice` | gold_trade/views.py:116-137 | the trade path's read: as `ReadPrice` with a cached 0 also counted as a miss |
| `PriceCache.RepeatedRead` | gold_trade/views.py:76-95 | two endpoint reads less than 300 s apart: once the first fetched a price, the second returns it without a fetch |
| `TradeLedger.BalanceDelta` | gold_trade/views.py:149-154 | a BUY debits the total, a SELL credits it, any other kind moves nothing |
| `TradeLedger.Settle` | gold_trade/views.py:149-154 | only a BUY can be refused, exactly when the balance is below the total; success moves the balance by the signed total; a BUY never leaves it negative and leaves 0 exactly when balance equals total |
| `TradeLedger.Trade` | gold_trade/views.py:139-168 | success iff the profile exists, storage accepts and a BUY is covered; a missing profile, a shortfall and a refused write are reported as such; on failure nothing changes; on success exactly one record (request kind, amount, effective price, now) is appended and only the caller's balance moves, by the record's signed cost |
| `TradeLedger.TradePreservesConservation` | gold_trade/views.py:149-160 | every trade keeps each balance equal to 10000.00 plus its owner's records' net flow, and keeps every record owned by a user with a profile |
| `TradeLedger.AppendPreservesConservation` | gold_trade/views.py:152-160 | appending a record while moving its owner's balance by its signed cost keeps conservation |
| `TradeLedger.ConservedAt` | gold_trade/views.py:152-160 | the same for one user: after the append, that user's balance still equals 10000.00 plus the net flow of that user's records |
| `TradeLedger.NetFlowAppend` | gold_trade/views.py:159-160 | an appended record adds its signed cost to the net flow of the log |
| `TradeLedger.SolventStaysSolvent` | gold_trade/views.py:149-154 | with non-negative balance, quantity and market price, no accepted trade makes the balance negative |
| `TradeLedger.BuyThenSellLosesSpread` | gold_trade/views.py:140-154 | a covered BUY followed by a SELL of the same quantity at the same market price leaves the balance reduced by `2 * 0.02 * amount * market` |
| `TradeLedger.NegativePurchaseCredits` | gold_trade/views.py:111 | from a non-negative balance, a BUY of any negative quantity at a positive market price is accepted and raises the balance |
| `TradeLedger.TradeKeepsChronological` | gold_trade/models.py:15 | a trade requested no earlier than every logged record keeps the log in timestamp order, which is what `HistoryOfChronologicalLog` needs |
| `TradeLedger.PurchaseScenario` | gold_trade/views.py:140-160 | balance 10000.00, BUY 1 at market 2000.00: price 2040.00, balance 7960.00, one record |
| `TradeLedger.SaleScenario` | gold_trade/views.py:153-154 | a SELL from balance 0.00 is accepted and credits 1960.00 |
| `TradeLedger.NoRecordsWithoutProfile` | gold_trade/models.py:11 | a user owning no record of the log has an empty record list, so a new profile starts conserved |
| `TradeLedger.Ledger.constructor` | gold_trade/models.py:5-15 | no profiles and an empty log, conserved |
| `TradeLedger.Ledger.CreateProfile` | gold_trade/serializers.py:15-22 | a user without a profile gets one holding 10000.00; a second profile for the same user is refused; the log is untouched |
| `TradeLedger.Ledger.Execute` | gold_trade/views.py:144-160 | the new balances, log and result are those of `Trade` at the given market price, and conservation is kept |
| `History.RecordsOf` | gold_trade/views.py:176 | every record kept belongs to the caller and comes from the log |
| `History.RecordsOfCounts` | gold_trade/views.py:176 | the kept records are exactly the caller's records of the log, each as often as it occurs there, and nobody else's |
| `History.RecordsOfAppend` | gold_trade/views.py:176 | an appended record extends its owner's records by itself and nobody else's |
| `History.InsertOlder` | gold_trade/views.py:176 | inserting a record adds exactly that record |
| `History.InsertOlderKeepsOrder` | gold_trade/views.py:176 | inserting an older record keeps newest-first order |
| `History.InsertOldestAtEnd` | gold_trade/views.py:176 | a record no more recent than the others goes last |
| `History.NewestFirst` | gold_trade/views.py:176 | the result is a permutation of the input with timestamps never increasing |
| `History.Reverse` | gold_trade/views.py:176 | the i-th element is the i-th from the end |
| `History.ChronologicalTail` | gold_trade/models.py:15 | the tail of a chronological sequence is chronological |
| `History.OldestFirst` | gold_trade/models.py:15 | the first record of a chronological sequence is no more recent than any record of its reversed tail |
| `History.NewestFirstOfChronological` | gold_trade/views.py:176 | for a chronological sequence, newest first is its reverse |
| `History.RecordsOfChronological` | gold_trade/views.py:176 | keeping one user's records preserves chronological order |
| `History.HistoryOfChronologicalLog` | gold_trade/views.py:176 | with a clock that never goes back, a user's history is the reverse of that user's records in the log |
| `History.NumPages` | gold_trade/views.py:178 | the least positive page count with room for every record: exactly 1 for an empty history, covers the count, and the last page of a non-empty history is non-empty |
| `History.PageSlice` | gold_trade/views.py:181 | page n holds the entries from position `(n - 1) * 10`, at most 10, all 10 except on the last page, at least one unless the history is empty |
| `History.FirstPagesArePrefix` | gold_trade/views.py:178-181 | pages 1 to k together are the first `min(10 * k, n)` entries of an n-entry history |
| `History.AllPagesAreWholeHistory` | gold_trade/views.py:178-181 | the pages, read in turn, give the whole history once and in order |
| `History.PagingScenario` | gold_trade/views.py:178-181 | twelve records make two pages of ten and two |
| `History.ListHistory` | gold_trade/views.py:174-191 | success iff the page (1 when absent) lies in `1..pages`, otherwise `InvalidPage`; reports the caller's record count and page count; at most 10 records, all the caller's and from the log, newest first, the requested page of the ordered history |
| `History.PageBeyondLastScenario` | gold_trade/views.py:180-183 | with twelve records, page 5 is refused and the default page is served |
| `Trading.LedgerResult` | gold_trade/views.py:162-166 | the request's reply to a ledger outcome: a success passes its record through, a refusal is wrapped as `Rejected` with its reason |
| `Trading.BuySell` | gold_trade/views.py:105-168 | the raw `type` string is read with `ParseKind`; the cache ends as the trade path's read leaves it; without a price the request fails and the ledger is unchanged; otherwise the ledger and result are those of `Trade` at the read price, and conservation is kept |

## Left out

- Registration and login (gold_trade/views.py:26-67): identity and
  token issuance belong to the authentication collaborator. Only the
  profile creation of registration (gold_trade/serializers.py:20) is
  modelled, as `CreateProfile`.
- The Redis client, the HTTP request to the rate provider and the
  settings that configure them: I/O. They are replaced by the cache
  entry, the `ProviderResponse` input and the clock input.
- The process-wide lock, `select_for_update` and the nested database
  transactions: their purpose is concurrency. The model is sequential,
  so all-or-nothing is a postcondition of each operation. Per-account
  locking is not modelled.
- Floating point and the `Decimal` conversions: money, quantities and
  prices are exact reals.
- The decimal columns' two fractional digits and ten-digit limit
  (gold_trade/models.py:7, 13-14): stored values are not rounded. A
  value that does not fit would make the database raise; that case is
  only covered abstractly, by `storageOk`.
- The balance column's default of 0.00 (gold_trade/models.py:7): the only
  modelled way to create a profile sets 10000.00.
- The `choices` of the kind column and its length limit of four
  (gold_trade/models.py:12): neither is enforced when a record is
  created. The model carries any other kind as `Other`. A database that
  enforces the length would refuse the write, which `storageOk` stands
  for.
- `timestamp` is set once, from the `now` input, in the record value
  (gold_trade/models.py:15). The database clock itself is not modelled.
- `History.NewestFirst`: its contract states the order and the
  permutation only. Among equal timestamps the database leaves the order
  open. The definition puts the later insertion first, and this
  tie-break is proved only for chronological logs
  (`NewestFirstOfChronological`).
- Request parsing: a missing or non-numeric `amount`, a missing or
  non-string `type`, and a page parameter that is not an integer. The
  model takes the parsed values.
- HTTP status codes, response messages and the shape of the serialized
  history: web plumbing, mapped to typed results.
- Expiry is modelled in whole seconds, with the entry live for
  `[t, t + 300)`. Redis's millisecond boundary is not modelled.
- The serializers (apart from the starting balance), the admin
  configuration and the URL routing: plumbing.
