/** The trade request: the market price is read through the cache (with
    the trade path's refresh rule), then the ledger executes the trade at
    that price. A cache refill is not undone when the ledger later refuses
    the trade. */
module Trading {
  import opened Wrappers
  import opened Models
  import opened PriceCache
  import opened TradeLedger

  /** Why a trade request failed. */
  datatype TradeError =
    | PriceFailed(cause: PriceError)  // no market price; nothing was changed
    | Rejected(reason: LedgerError)   // the ledger refused; balances and log unchanged

  /** The ledger's answer to a trade at `market`, lifted to a request result. */
  function LedgerResult(r: Result<Record, LedgerError>): Result<Record, TradeError> {
    match r
    case Success(rec) => Success(rec)
    case Failure(e) => Failure(Rejected(e))
  }

  /** One trade request by `user` at `now`, with the raw `type` string
      `kindName`. `resp` is what the provider
      would answer and `storageOk` whether the storage layer accepts the
      write. Without a price nothing changes; otherwise the cache is as the
      trade path's read leaves it and the ledger as `Trade` at that price
      leaves it. */
  method BuySell(prices: Cache, ledger: Ledger, user: UserId, kindName: string, amount: real,
                 now: int, resp: ProviderResponse, storageOk: bool)
    returns (r: Result<Record, TradeError>, fetched: bool)
    requires ledger.Valid()
    modifies prices, ledger
    ensures ledger.Valid()
    ensures var read := ReadPrice(old(prices.entry), now, resp, true);
            && fetched == read.fetched
            && prices.entry == read.entry
            && (read.result.Failure? ==>
                  r == Failure(PriceFailed(read.result.error))
                  && ledger.balances == old(ledger.balances) && ledger.log == old(ledger.log))
            && (read.result.Success? ==>
                  var o := Trade(old(ledger.balances), old(ledger.log), user, ParseKind(kindName), amount,
                                 read.result.value, now, storageOk);
                  r == LedgerResult(o.result) && ledger.balances == o.balances && ledger.log == o.log)
  {
    var market;
    market, fetched := prices.TradePrice(now, resp);
    if market.Failure? {
      return Failure(PriceFailed(market.error)), fetched;
    }
    var executed := ledger.Execute(user, ParseKind(kindName), amount, market.value, now, storageOk);
    r := LedgerResult(executed);
  }
}
