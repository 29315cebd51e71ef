/** The trade ledger: one cash balance per user and the append-only log of
    executed trades. A trade changes its owner's balance and appends its
    record together, or changes nothing. */
module TradeLedger {
  import opened Wrappers
  import opened Models
  import opened Pricing
  import opened History

  /** Why the ledger refused a trade. */
  datatype LedgerError =
    | ProfileNotFound      // the user has no profile
    | InsufficientBalance  // a purchase costs more than the balance
    | PersistenceFailure   // the storage layer failed; the write was rolled back

  /** Change a settled trade of `kind` and total cost `total` makes to the
      balance: a purchase debits, a sale credits, any other kind moves
      nothing. */
  function BalanceDelta(kind: Kind, total: real): real {
    match kind
    case Buy => -total
    case Sell => total
    case Other(_) => 0.0
  }

  /** The balance after a trade, or the refusal. Only a purchase is checked
      for cover, and it never leaves the balance below zero; a balance that
      equals the cost exactly is enough. */
  function Settle(balance: real, kind: Kind, total: real): (r: Result<real, LedgerError>)
    ensures r.Failure? <==> kind.Buy? && balance < total
    ensures r.Failure? ==> r.error == InsufficientBalance
    ensures r.Success? ==> r.value - balance == BalanceDelta(kind, total)
    ensures r.Success? && kind.Buy? ==> 0.0 <= r.value && (r.value == 0.0 <==> balance == total)
  {
    if kind.Buy? && balance < total then Failure(InsufficientBalance)
    else Success(balance + BalanceDelta(kind, total))
  }

  /** What a record did to its owner's balance. */
  function SignedCost(rec: Record): real {
    BalanceDelta(rec.kind, rec.amount * rec.pricePerGram)
  }

  /** Total balance change made by `records`. */
  function NetFlow(records: seq<Record>): real {
    if records == [] then 0.0 else SignedCost(records[0]) + NetFlow(records[1..])
  }

  /** The net flow of a log grows by the signed cost of an appended record. */
  lemma {:induction false} NetFlowAppend(records: seq<Record>, rec: Record)
    ensures NetFlow(records + [rec]) == NetFlow(records) + SignedCost(rec)
  {
    if records != [] {
      assert (records + [rec])[1..] == records[1..] + [rec];
      NetFlowAppend(records[1..], rec);
    }
  }

  /** Conservation: every record belongs to a user with a profile, and each
      balance is the starting balance plus what that user's records moved. */
  ghost predicate Conserved(balances: map<UserId, real>, log: seq<Record>) {
    && (forall i :: 0 <= i < |log| ==> log[i].user in balances)
    && (forall u :: u in balances ==> balances[u] == InitialBalance + NetFlow(RecordsOf(log, u)))
  }

  /** The ledger state a trade leaves and its result. */
  datatype TradeOutcome = TradeOutcome(result: Result<Record, LedgerError>, balances: map<UserId, real>, log: seq<Record>)

  /** One trade of `amount` grams at market price `market`, requested at
      `now`; `storageOk` says whether the storage layer accepts the write.
      All or nothing: a refused trade leaves balances and log as they were;
      an accepted one changes only its owner's balance and appends exactly
      one record, carrying the request's kind and amount and the effective
      price. */
  function Trade(balances: map<UserId, real>, log: seq<Record>, user: UserId, kind: RequestKind,
                 amount: real, market: real, now: int, storageOk: bool): (o: TradeOutcome)
    ensures o.result.Success? <==>
              user in balances && storageOk && !(kind.Buy? && balances[user] < TotalCost(kind, amount, market))
    ensures user !in balances ==> o.result == Failure(ProfileNotFound)
    ensures user in balances && kind.Buy? && balances[user] < TotalCost(kind, amount, market) ==>
              o.result == Failure(InsufficientBalance)
    ensures user in balances && !(kind.Buy? && balances[user] < TotalCost(kind, amount, market)) && !storageOk ==>
              o.result == Failure(PersistenceFailure)
    ensures o.result.Failure? ==> o.balances == balances && o.log == log
    ensures o.result.Success? ==>
              && o.result.value == Record(user, kind, amount, EffectivePrice(kind, market), now)
              && o.log == log + [o.result.value]
              && o.balances.Keys == balances.Keys
              && (forall u :: u in balances && u != user ==> o.balances[u] == balances[u])
              && o.balances[user] == balances[user] + SignedCost(o.result.value)
  {
    var price := EffectivePrice(kind, market);
    var total := TotalCost(kind, amount, market);
    if user !in balances then
      TradeOutcome(Failure(ProfileNotFound), balances, log)
    else
      match Settle(balances[user], kind, total)
      case Failure(e) => TradeOutcome(Failure(e), balances, log)
      case Success(b) =>
        if !storageOk then TradeOutcome(Failure(PersistenceFailure), balances, log)
        else
          var rec := Record(user, kind, amount, price, now);
          TradeOutcome(Success(rec), balances[user := b], log + [rec])
  }

  /** Every trade keeps the balances equal to the starting balance plus the
      net flow of each user's records. */
  lemma TradePreservesConservation(balances: map<UserId, real>, log: seq<Record>, user: UserId, kind: RequestKind,
                                   amount: real, market: real, now: int, storageOk: bool)
    requires Conserved(balances, log)
    ensures var o := Trade(balances, log, user, kind, amount, market, now, storageOk);
            Conserved(o.balances, o.log)
  {
    var o := Trade(balances, log, user, kind, amount, market, now, storageOk);
    if o.result.Success? {
      var rec := o.result.value;
      AppendPreservesConservation(balances, log, rec, o.balances[user]);
      assert o.balances == balances[user := o.balances[user]];
    }
  }

  /** Appending a record and moving its owner's balance by its signed cost
      keeps conservation. */
  lemma AppendPreservesConservation(balances: map<UserId, real>, log: seq<Record>, rec: Record, b: real)
    requires Conserved(balances, log)
    requires rec.user in balances && b == balances[rec.user] + SignedCost(rec)
    ensures Conserved(balances[rec.user := b], log + [rec])
  {
    var balances', log' := balances[rec.user := b], log + [rec];
    forall i | 0 <= i < |log'|
      ensures log'[i].user in balances'
    {
      if i < |log| {
        assert log'[i] == log[i];
      }
    }
    forall u | u in balances'
      ensures balances'[u] == InitialBalance + NetFlow(RecordsOf(log', u))
    {
      ConservedAt(balances, log, rec, b, u);
    }
  }

  /** Conservation for one user across an append. */
  lemma ConservedAt(balances: map<UserId, real>, log: seq<Record>, rec: Record, b: real, u: UserId)
    requires u in balances && balances[u] == InitialBalance + NetFlow(RecordsOf(log, u))
    requires rec.user in balances && b == balances[rec.user] + SignedCost(rec)
    ensures balances[rec.user := b][u] == InitialBalance + NetFlow(RecordsOf(log + [rec], u))
  {
    RecordsOfAppend(log, rec, u);
    if u == rec.user {
      calc {
        NetFlow(RecordsOf(log + [rec], u));
        NetFlow(RecordsOf(log, u) + [rec]);
        { NetFlowAppend(RecordsOf(log, u), rec); }
        NetFlow(RecordsOf(log, u)) + SignedCost(rec);
      }
    } else {
      assert RecordsOf(log + [rec], u) == RecordsOf(log, u);
    }
  }

  /** With a non-negative quantity and market price, a non-negative balance
      stays non-negative whatever the kind of trade. */
  lemma SolventStaysSolvent(balance: real, kind: Kind, amount: real, market: real)
    requires 0.0 <= balance && 0.0 <= amount && 0.0 <= market
    ensures var r := Settle(balance, kind, TotalCost(kind, amount, market));
            r.Success? ==> 0.0 <= r.value
  {
  }

  /** Buying a quantity and selling it back at the same market price costs
      the commission on both legs. */
  lemma BuyThenSellLosesSpread(balance: real, amount: real, market: real)
    requires TotalCost(Buy, amount, market) <= balance
    ensures var bought := Settle(balance, Buy, TotalCost(Buy, amount, market));
            bought.Success? &&
            Settle(bought.value, Sell, TotalCost(Sell, amount, market))
              == Success(balance - 2.0 * CommissionRate * (amount * market))
  {
    var x := amount * market;
    var tb, ts := TotalCost(Buy, amount, market), TotalCost(Sell, amount, market);
    assert amount * (market * 1.02) == 1.02 * x;
    assert amount * (market * 0.98) == 0.98 * x;
    assert tb == 1.02 * x && ts == 0.98 * x;
    assert BalanceDelta(Buy, tb) == -tb && BalanceDelta(Sell, ts) == ts;
    var bought := Settle(balance, Buy, tb);
    assert bought.Success? && bought.value == balance - tb;
    var sold := Settle(bought.value, Sell, ts);
    assert sold.Success? && sold.value == bought.value + ts;
    assert 2.0 * CommissionRate * x == 0.04 * x;
    assert sold == Success(balance - 2.0 * CommissionRate * x);
  }

  /** The quantity is never validated: from a non-negative balance, a
      purchase of any negative quantity at a positive market price is
      accepted and raises the balance. */
  lemma NegativePurchaseCredits(balance: real, amount: real, market: real)
    requires 0.0 <= balance && amount < 0.0 && 0.0 < market
    ensures var r := Settle(balance, Buy, TotalCost(Buy, amount, market));
            r.Success? && r.value > balance
  {
    var price := EffectivePrice(Buy, market);
    assert 0.0 < price;
    assert amount * price < 0.0;
  }

  /** A trade requested no earlier than every logged record keeps the log
      chronological, so the history of a ledger driven by a clock that never
      goes back is the reverse of its records. */
  lemma TradeKeepsChronological(balances: map<UserId, real>, log: seq<Record>, user: UserId, kind: RequestKind,
                                amount: real, market: real, now: int, storageOk: bool)
    requires Chronological(log)
    requires forall i :: 0 <= i < |log| ==> log[i].timestamp <= now
    ensures Chronological(Trade(balances, log, user, kind, amount, market, now, storageOk).log)
  {
    var o := Trade(balances, log, user, kind, amount, market, now, storageOk);
    if o.result.Success? {
      var log' := o.log;
      assert log' == log + [o.result.value];
      forall i, j | 0 <= i < j < |log'|
        ensures log'[i].timestamp <= log'[j].timestamp
      {
        if j < |log| {
          assert log'[i] == log[i] && log'[j] == log[j];
        } else {
          assert log'[i] == log[i] && log'[j].timestamp == now;
        }
      }
    }
  }

  /** A purchase of one gram at a market price of 2000.00 from the starting
      balance costs 2040.00 and appends one record at that price. */
  lemma PurchaseScenario(user: UserId, now: int)
    ensures var o := Trade(map[user := InitialBalance], [], user, Buy, 1.0, 2000.0, now, true);
            && o.result == Success(Record(user, Buy, 1.0, 2040.0, now))
            && o.balances == map[user := 7960.0]
            && o.log == [Record(user, Buy, 1.0, 2040.0, now)]
  {
    assert EffectivePrice(Buy, 2000.0) == 2040.0;
  }

  /** A sale from an empty balance is accepted: sales are never checked. */
  lemma SaleScenario(user: UserId, now: int)
    ensures var o := Trade(map[user := 0.0], [], user, Sell, 1.0, 2000.0, now, true);
            o.result.Success? && o.balances == map[user := 1960.0]
  {
    assert EffectivePrice(Sell, 2000.0) == 1960.0;
  }

  /** The accounts and the log. */
  class Ledger {
    var balances: map<UserId, real>
    var log: seq<Record>

    ghost predicate Valid()
      reads this
    {
      Conserved(balances, log)
    }

    /** No profiles and no records. */
    constructor ()
      ensures Valid() && balances == map[] && log == []
    {
      balances := map[];
      log := [];
    }

    /** Registration's profile creation: a user without a profile gets one
        holding the starting balance; a second one is refused. */
    method CreateProfile(user: UserId) returns (ok: bool)
      requires Valid()
      modifies this
      ensures Valid()
      ensures ok <==> user !in old(balances)
      ensures balances == if ok then old(balances)[user := InitialBalance] else old(balances)
      ensures log == old(log)
    {
      ok := user !in balances;
      if ok {
        forall i | 0 <= i < |log|
          ensures log[i].user != user
        {
        }
        NoRecordsWithoutProfile(log, user);
        balances := balances[user := InitialBalance];
      }
    }

    /** Executes a trade at market price `market`: the new state and the
        result are those of `Trade`, and conservation is kept. */
    method Execute(user: UserId, kind: RequestKind, amount: real, market: real, now: int, storageOk: bool)
      returns (r: Result<Record, LedgerError>)
      requires Valid()
      modifies this
      ensures Valid()
      ensures var o := Trade(old(balances), old(log), user, kind, amount, market, now, storageOk);
              r == o.result && balances == o.balances && log == o.log
    {
      var price := EffectivePrice(kind, market);
      var total := TotalCost(kind, amount, market);
      TradePreservesConservation(balances, log, user, kind, amount, market, now, storageOk);
      ghost var o := Trade(balances, log, user, kind, amount, market, now, storageOk);
      if user !in balances {
        return Failure(ProfileNotFound);
      }
      var settled := Settle(balances[user], kind, total);
      if settled.Failure? {
        assert o.result == Failure(InsufficientBalance);
        return Failure(settled.error);
      }
      if !storageOk {
        assert o == TradeOutcome(Failure(PersistenceFailure), balances, log);
        return Failure(PersistenceFailure);
      }
      var rec := Record(user, kind, amount, price, now);
      assert o == TradeOutcome(Success(rec), balances[user := settled.value], log + [rec]);
      balances := balances[user := settled.value];
      log := log + [rec];
      r := Success(rec);
    }
  }

  /** A user none of whose records is in the log has no records. */
  lemma {:induction false} NoRecordsWithoutProfile(log: seq<Record>, user: UserId)
    requires forall i :: 0 <= i < |log| ==> log[i].user != user
    ensures RecordsOf(log, user) == []
  {
    if log != [] {
      NoRecordsWithoutProfile(log[1..], user);
    }
  }
}
