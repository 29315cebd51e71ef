/** The persistent entities of the trading service: the per-user profile
    that holds a cash balance, and the record of one executed trade. */
module Models {

  /** Primary key of an authenticated user. */
  type UserId = nat

  /** The `type` field of a trade request, as the client sent it. The record
      column declares the choices BUY and SELL, but nothing enforces them when
      a record is created, so any other string is carried along as `Other`. */
  datatype Kind = Buy | Sell | Other(tag: string)

  /** A kind some request string can produce: `Other` never carries the
      strings BUY or SELL, which always mean `Buy` and `Sell`. */
  predicate Canonical(k: Kind) {
    !(k.Other? && (k.tag == "BUY" || k.tag == "SELL"))
  }

  /** The kinds a trade request and a record can carry. */
  type RequestKind = k: Kind | Canonical(k) witness Buy

  /** The string stored in a record's `transaction_type` column. */
  function KindName(k: Kind): string {
    match k
    case Buy => "BUY"
    case Sell => "SELL"
    case Other(tag) => tag
  }

  /** Reads the raw request string. Only the exact strings BUY and SELL are
      recognised, and the stored name is always the string that was sent. */
  function ParseKind(s: string): (k: RequestKind)
    ensures k.Buy? <==> s == "BUY"
    ensures k.Sell? <==> s == "SELL"
    ensures KindName(k) == s
  {
    if s == "BUY" then Buy else if s == "SELL" then Sell else Other(s)
  }

  /** Every request kind is read back from the name it is stored under. */
  lemma ParseKindName(k: RequestKind)
    ensures ParseKind(KindName(k)) == k
  {
  }

  /** One row of the transaction table: its owner, the requested kind, the
      quantity of gold, the effective unit price, and the creation instant.
      A record is a value: once appended to the log it is never altered. */
  datatype Record = Record(user: UserId, kind: RequestKind, amount: real, pricePerGram: real, timestamp: int)

  /** Cash balance every profile is created with at registration. */
  const InitialBalance: real := 10000.0
}
