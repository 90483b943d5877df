/** Currency pairs, quotes and the two sides of a book: the values the market-data path passes along. */
module Quotes {
  const NO_SYMBOL := ""
  const INVALID_SYMBOL := "???"

  predicate ValidSymbol(s: string) {
    s != NO_SYMBOL && s != INVALID_SYMBOL
  }

  /** A currency pair, given by the symbols of its two currencies. */
  datatype Pair = Pair(baseCcy: string, quoteCcy: string) {
    predicate Valid() {
      ValidSymbol(baseCcy) && ValidSymbol(quoteCcy)
    }

    function ToString(): string {
      if baseCcy == NO_SYMBOL && quoteCcy == NO_SYMBOL then "" else baseCcy + "/" + quoteCcy
    }
  }

  datatype UpdateType = QtNew | QtUpdate | QtDelete | QtSnapshot

  /** What an order book stores.  Prices and volumes are integers (hundredths of a pip, hundredths of a unit). */
  datatype Quote = Quote(
    key: int,
    refKey: int,
    updateType: UpdateType,
    price: int,
    volume: int,
    minQty: int,
    used: bool
  )

  /** `r` is the integer nearest to `x`, and of two the one that is farther from zero. */
  predicate Rounded(r: int, x: real) {
    if x >= 0.0 then r as real - 0.5 <= x < r as real + 0.5 else r as real - 0.5 < x <= r as real + 0.5
  }

  /** Round half away from zero, as `llround` does. */
  function RoundHalfAway(x: real): (r: int)
    ensures Rounded(r, x)
  {
    if x >= 0.0 then (x + 0.5).Floor else -((-x + 0.5).Floor)
  }

  /** How a pair's decimal prices and quantities become integers. */
  datatype Scale = Scale(cpipFactor: int, qtyFactor: int) {
    function ToCpip(price: real): (r: int)
      ensures Rounded(r, price * cpipFactor as real)
    {
      RoundHalfAway(price * cpipFactor as real)
    }

    function ToQty(volume: real): (r: int)
      ensures Rounded(r, volume * qtyFactor as real)
    {
      RoundHalfAway(volume * qtyFactor as real)
    }
  }

  /** The bid and the ask vector of one pair, best quote first. */
  datatype Sides = Sides(bids: seq<Quote>, asks: seq<Quote>) {
    function Get(bid: bool): seq<Quote> {
      if bid then bids else asks
    }

    function Set(bid: bool, vec: seq<Quote>): Sides {
      if bid then this.(bids := vec) else this.(asks := vec)
    }
  }
}
