/** The pricing policy of a trade: a fixed commission charged against the
    trader, added to the market price on a purchase and deducted otherwise. */
module Pricing {
  import opened Models

  /** The commission rate. */
  const CommissionRate: real := 0.02

  /** The unit price a trade of `kind` executes at, for a market price.
      Every kind that is not BUY is priced as a sale. */
  function EffectivePrice(kind: Kind, market: real): (p: real)
    ensures kind.Buy? ==> p == market + CommissionRate * market
    ensures !kind.Buy? ==> p == market - CommissionRate * market
    ensures market > 0.0 ==> 0.0 < p && (kind.Buy? <==> market < p)
  {
    market * (if kind.Buy? then 1.0 + CommissionRate else 1.0 - CommissionRate)
  }

  /** What a trade of `amount` grams costs or yields at the effective price. */
  function TotalCost(kind: Kind, amount: real, market: real): real {
    amount * EffectivePrice(kind, market)
  }

  /** The buyer pays and the seller receives prices that lie twice the
      commission apart, relative to the market price. */
  lemma Spread(market: real)
    ensures EffectivePrice(Buy, market) - EffectivePrice(Sell, market) == 2.0 * CommissionRate * market
  {
  }
}
