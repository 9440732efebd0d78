/**
 Assets, prices and the integer arithmetic of exchanging one asset for another: every product is
 divided rounding down.
 */
module Prices {
  type Symbol = nat

  datatype Asset = Asset(amount: int, symbol: Symbol)

  /** base for quote; the sell price of an order sells base and asks quote. */
  datatype Price = Price(base: Asset, quote: Asset)

  predicate ValidPrice(p: Price) {
    p.base.amount > 0 && p.quote.amount > 0 && p.base.symbol != p.quote.symbol
  }

  function Inverse(p: Price): Price {
    Price(p.quote, p.base)
  }

  /** What `amount` of one side of the price is worth in the other. */
  function Exchange(amount: nat, have: int, want: int): (r: nat)
    requires have > 0 && want > 0
    ensures r * have <= amount * want < (r + 1) * have
  {
    DivBounds(amount * want, have);
    amount * want / have
  }

  lemma DivBounds(a: int, c: int)
    requires a >= 0 && c > 0
    ensures 0 <= a / c && (a / c) * c <= a < (a / c + 1) * c
  {
  }

  // ---- Percentages ---------------------------------------------------------------------------

  const FULL: nat := 10_000

  /** A percentage of an amount, in hundredths of a percent, rounded down. */
  function Part(amount: nat, percent: nat): (r: nat)
    ensures r * FULL <= amount * percent < (r + 1) * FULL
  {
    DivBounds(amount * percent, FULL);
    amount * percent / FULL
  }

  lemma PartAtMost(amount: nat, percent: nat)
    requires percent <= FULL
    ensures Part(amount, percent) <= amount
  {
    MulMono(amount, percent, FULL);
  }

  // ---- Prices --------------------------------------------------------------------------------

  /** The asset on the other side of the price, or nothing when the price does not involve the asset. */
  function Times(a: Asset, p: Price): (r: Asset)
    requires ValidPrice(p) && a.amount >= 0 && (a.symbol == p.base.symbol || a.symbol == p.quote.symbol)
    ensures r.amount >= 0
    ensures a.symbol == p.base.symbol ==> r.symbol == p.quote.symbol
    ensures a.symbol == p.base.symbol ==> r.amount == Exchange(a.amount, p.base.amount, p.quote.amount)
    ensures a.symbol != p.base.symbol ==> r.symbol == p.base.symbol
    ensures a.symbol != p.base.symbol ==> r.amount == Exchange(a.amount, p.quote.amount, p.base.amount)
  {
    if a.symbol == p.base.symbol
    then Asset(Exchange(a.amount, p.base.amount, p.quote.amount), p.quote.symbol)
    else Asset(Exchange(a.amount, p.quote.amount, p.base.amount), p.base.symbol)
  }

  /** Prices of one market compare by cross multiplication; otherwise their symbols decide. */
  predicate PriceLess(a: Price, b: Price) {
    if (a.base.symbol, a.quote.symbol) != (b.base.symbol, b.quote.symbol)
    then a.base.symbol < b.base.symbol || (a.base.symbol == b.base.symbol && a.quote.symbol < b.quote.symbol)
    else b.quote.amount * a.base.amount < a.quote.amount * b.base.amount
  }

  predicate PriceEqual(a: Price, b: Price) {
    && (a.base.symbol, a.quote.symbol) == (b.base.symbol, b.quote.symbol)
    && b.quote.amount * a.base.amount == a.quote.amount * b.base.amount
  }

  /** Cross multiplication is transitive for positive amounts. */
  lemma CrossTransitive(b1: int, q1: int, b2: int, q2: int, b3: int, q3: int)
    requires b1 > 0 && q1 > 0 && b2 > 0 && q2 > 0 && b3 > 0 && q3 > 0
    requires q2 * b1 <= q1 * b2 && q3 * b2 <= q2 * b3
    ensures q3 * b1 <= q1 * b3
    ensures q2 * b1 < q1 * b2 || q3 * b2 < q2 * b3 ==> q3 * b1 < q1 * b3
  {
    calc {
      (q3 * b1) * q2;
      q3 * (q2 * b1);
    <= { MulMono(q3, q2 * b1, q1 * b2); }
      q3 * (q1 * b2);
      q1 * (q3 * b2);
    <= { MulMono(q1, q3 * b2, q2 * b3); }
      q1 * (q2 * b3);
      (q1 * b3) * q2;
    }
    if q3 * b1 > q1 * b3 { MulStrict(q2, q1 * b3, q3 * b1); }
    if q2 * b1 < q1 * b2 { MulStrict(q3, q2 * b1, q1 * b2); }
    if q3 * b2 < q2 * b3 { MulStrict(q1, q3 * b2, q2 * b3); }
  }

  lemma MulMono(c: int, x: int, y: int)
    requires c >= 0 && x <= y
    ensures c * x <= c * y
  {
  }

  lemma MulStrict(c: int, x: int, y: int)
    requires c > 0 && x < y
    ensures c * x < c * y
  {
  }

  lemma MulLess(c: int, x: int, y: int)
    requires c > 0 && c * x < c * y
    ensures x < y
  {
    if x >= y { MulMono(c, y, x); }
  }

  /** x <= y when c x <= c y. */
  lemma MulCancel(c: int, x: int, y: int)
    requires c > 0 && c * x <= c * y
    ensures x <= y
  {
    if x > y { MulStrict(c, y, x); }
  }

  /** The comparison of prices is a strict total order up to equality of ratios. */
  lemma PriceOrder(a: Price, b: Price, c: Price)
    requires ValidPrice(a) && ValidPrice(b) && ValidPrice(c)
    ensures !PriceLess(a, a)
    ensures PriceLess(a, b) || PriceEqual(a, b) || PriceLess(b, a)
    ensures PriceLess(a, b) && PriceLess(b, c) ==> PriceLess(a, c)
    ensures PriceEqual(a, b) && PriceLess(b, c) ==> PriceLess(a, c)
    ensures PriceLess(a, b) && PriceEqual(b, c) ==> PriceLess(a, c)
    ensures PriceEqual(a, b) && PriceEqual(b, c) ==> PriceEqual(a, c)
  {
    if a.base.symbol == b.base.symbol == c.base.symbol && a.quote.symbol == b.quote.symbol == c.quote.symbol {
      var (b1, q1, b2, q2, b3, q3) :=
        (a.base.amount, a.quote.amount, b.base.amount, b.quote.amount, c.base.amount, c.quote.amount);
      if q2 * b1 <= q1 * b2 && q3 * b2 <= q2 * b3 { CrossTransitive(b1, q1, b2, q2, b3, q3); }
      if q2 * b1 >= q1 * b2 && q3 * b2 >= q2 * b3 {
        CrossTransitive(b3, q3, b2, q2, b1, q1);
      }
    }
  }

  // ---- The arithmetic of one match -----------------------------------------------------------

  /** What the new order pays and receives against a resting order at the resting order's price. */
  function MatchAmounts(newForSale: nat, oldForSale: nat, base: int, quote: int): (nat, nat)
    requires base > 0 && quote > 0
  {
    if newForSale <= Exchange(oldForSale, base, quote)
    then (newForSale, Exchange(newForSale, quote, base))
    else (Exchange(oldForSale, base, quote), oldForSale)
  }

  /**
   A match of a new order (n asked m for) against a crossing resting order (base asked quote for):
   one side is filled completely, neither pays more than it has, neither pays for nothing, and
   each receives at least what its own price promises for what it pays.
   */
  lemma MatchIsFair(newForSale: nat, oldForSale: nat, base: int, quote: int, n: int, m: int)
    requires base > 0 && quote > 0 && n > 0 && m > 0
    requires quote * m <= base * n
    requires Exchange(newForSale, n, m) > 0 && Exchange(oldForSale, base, quote) > 0
    ensures var (pays, gets) := MatchAmounts(newForSale, oldForSale, base, quote);
            && 0 < pays <= newForSale && 0 < gets <= oldForSale
            && (pays == newForSale || gets == oldForSale)
            && gets >= Exchange(pays, n, m)
            && pays >= Exchange(gets, base, quote)
  {
    hide Exchange;
    var r := Exchange(oldForSale, base, quote);
    if newForSale <= r {
      MatchNewFilled(newForSale, oldForSale, base, quote, n, m);
    } else {
      MatchOldFilled(r, oldForSale, base, quote, n, m);
    }
  }

  lemma MatchNewFilled(pays: nat, oldForSale: nat, base: int, quote: int, n: int, m: int)
    requires base > 0 && quote > 0 && n > 0 && m > 0 && quote * m <= base * n
    requires pays <= Exchange(oldForSale, base, quote) && Exchange(pays, n, m) > 0
    ensures var gets := Exchange(pays, quote, base);
            0 < gets <= oldForSale && gets >= Exchange(pays, n, m) && pays >= Exchange(gets, base, quote)
  {
    GetsLimit(pays, base, quote, n, m);
    GetsAvailable(pays, oldForSale, base, quote);
    ThereAndBack(pays, quote, base);
  }

  /** At a crossing price an order gets at least what its limit promises. */
  lemma GetsLimit(pays: nat, base: int, quote: int, n: int, m: int)
    requires base > 0 && quote > 0 && n > 0 && m > 0 && quote * m <= base * n
    ensures Exchange(pays, n, m) <= Exchange(pays, quote, base)
  {
    hide Exchange;
    var gets, limit := Exchange(pays, quote, base), Exchange(pays, n, m);
    ExchangeBeats(pays, limit, base, quote, n, m);
    MulLess(quote, limit, gets + 1);
  }

  lemma GetsAvailable(pays: nat, have: nat, base: int, quote: int)
    requires base > 0 && quote > 0 && pays <= Exchange(have, base, quote)
    ensures Exchange(pays, quote, base) <= have
  {
    hide Exchange;
    var r, gets := Exchange(have, base, quote), Exchange(pays, quote, base);
    MulMono(base, pays, r);
    MulCancel(quote, gets, have);
  }

  /** Exchanging back and forth gains nothing. */
  lemma ThereAndBack(amount: nat, have: int, want: int)
    requires have > 0 && want > 0
    ensures Exchange(Exchange(amount, have, want), want, have) <= amount
  {
    hide Exchange;
    var there := Exchange(amount, have, want);
    MulCancel(want, Exchange(there, want, have), amount);
  }

  lemma MatchOldFilled(pays: nat, gets: nat, base: int, quote: int, n: int, m: int)
    requires base > 0 && quote > 0 && n > 0 && m > 0 && quote * m <= base * n
    requires pays == Exchange(gets, base, quote) > 0
    ensures gets > 0 && gets >= Exchange(pays, n, m)
  {
    hide Exchange;
    var limit := Exchange(pays, n, m);
    ExchangeBeats(pays, limit, base, quote, n, m);
    MulCancel(quote, limit, gets);
  }

  /** At a crossing price the limit amount is worth no more than what is paid. */
  lemma ExchangeBeats(pays: nat, limit: nat, base: int, quote: int, n: int, m: int)
    requires base > 0 && quote > 0 && n > 0 && m > 0 && quote * m <= base * n
    requires limit * n <= pays * m
    ensures limit * quote <= pays * base
  {
    calc {
      n * (limit * quote);
      quote * (limit * n);
    <= { MulMono(quote, limit * n, pays * m); }
      quote * (pays * m);
      pays * (quote * m);
    <= { MulMono(pays, quote * m, base * n); }
      pays * (base * n);
      n * (pays * base);
    }
    MulCancel(n, limit * quote, pays * base);
  }
}
