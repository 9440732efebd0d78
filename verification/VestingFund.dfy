/**
 The vesting fund and the price of a vesting share, and the schedule of a power-down.
 */
module VestingFund {
  import opened Prices

  // ---- The price of a share ------------------------------------------------------------------

  /** What d shares are worth: their part of the fund, or the founding price while either side is empty. */
  function Converted(d: nat, fund: nat, shares: nat): nat {
    if fund == 0 || shares == 0 then Exchange(d, 1_000_000, 1_000) else Exchange(d, shares, fund)
  }

  /** Shares are worth their part of the fund, or a thousandth of a token while either side is empty, rounded down. */
  lemma ConvertedIsPart(d: nat, fund: nat, shares: nat)
    ensures var c := Converted(d, fund, shares);
      if fund == 0 || shares == 0 then c * 1_000 <= d < (c + 1) * 1_000 else c * shares <= d * fund < (c + 1) * shares
  {
  }

  /** Outstanding shares have something behind them. */
  predicate Backed(fund: int, shares: int) {
    fund >= 0 && shares >= 0 && (shares > 0 ==> fund > 0)
  }

  /** A share is worth no less at (f1, s1) than at (f0, s0). */
  predicate NotDiluted(f0: int, s0: int, f1: int, s1: int) {
    f1 * s0 >= f0 * s1
  }

  /** Cashing shares of a backed fund neither overdraws nor dilutes it, and leaves it backed. */
  lemma CashingBacked(d: nat, fund: nat, shares: nat)
    requires Backed(fund, shares) && d <= shares
    ensures var c := Converted(d, fund, shares);
      c <= fund && Backed(fund - c, shares - d) && NotDiluted(fund, shares, fund - c, shares - d)
  {
    if shares == 0 {
      assert Exchange(0, 1_000_000, 1_000) == 0;
    } else {
      var c := Exchange(d, shares, fund);
      assert c * shares <= d * fund;
      MulMono(fund, d, shares);
      assert d * fund == fund * d && shares * fund == fund * shares;
      MulCancel(shares, c, fund);
      assert (fund - c) * shares == fund * shares - c * shares;
      assert fund * (shares - d) == fund * shares - fund * d;
      if c == fund {
        MulCancel(fund, shares, d);
      }
    }
  }

  /** At the founding price a fund that holds nothing is overdrawn by a thousand shares or more. */
  lemma CashingUnbacked(d: nat, shares: nat)
    ensures Converted(d, 0, shares) <= 0 <==> d < 1_000
  {
  }

  /** How many shares a deposit of tokens buys. */
  function Minted(amount: nat, fund: nat, shares: nat): nat {
    if fund == 0 || shares == 0 then Exchange(amount, 1_000, 1_000_000) else Exchange(amount, fund, shares)
  }

  /** A deposit buys its part of the shares, or a thousand for every token while either side is empty. */
  lemma MintedIsPart(amount: nat, fund: nat, shares: nat)
    ensures var m := Minted(amount, fund, shares);
      if fund == 0 || shares == 0 then m == 1_000 * amount else m * fund <= amount * shares < (m + 1) * fund
  {
    Thousand(amount);
  }

  /** A deposit dilutes nobody who holds shares, and backs the fund. */
  lemma MintingBacked(amount: nat, fund: nat, shares: nat)
    requires amount > 0
    ensures var m := Minted(amount, fund, shares); Backed(fund + amount, shares + m)
    ensures var m := Minted(amount, fund, shares); shares > 0 ==> NotDiluted(fund, shares, fund + amount, shares + m)
  {
    var m := Minted(amount, fund, shares);
    if shares > 0 && fund > 0 {
      assert m * fund <= amount * shares;
      assert (fund + amount) * shares == fund * shares + amount * shares;
      assert fund * (shares + m) == fund * shares + m * fund;
    }
  }

  /**
   Depositing and cashing at once gains nothing, except for the first depositor of a fund that holds
   tokens nobody has shares of.
   */
  lemma DepositAndBack(amount: nat, fund: nat, shares: nat)
    requires amount > 0
    ensures var m := Minted(amount, fund, shares);
      Converted(m, fund + amount, shares + m) <= amount <==> (shares > 0 || fund == 0)
  {
    var m := Minted(amount, fund, shares);
    var back := Converted(m, fund + amount, shares + m);
    if shares > 0 && fund > 0 {
      NoGain(m, amount, fund, shares);
      FloorAtMost(back, amount, shares + m, m * (fund + amount));
    } else {
      assert m == 1_000 * amount by { Thousand(amount); }
      if shares > 0 {
        NoGain(m, amount, 0, shares);
        FloorAtMost(back, amount, shares + m, m * amount);
      } else {
        assert back * m <= m * (fund + amount) < (back + 1) * m;
        SameFactor(back, fund + amount, m);
      }
    }
  }

  lemma Thousand(amount: nat)
    ensures Exchange(amount, 1_000, 1_000_000) == 1_000 * amount
  {
  }

  lemma NoGain(m: nat, amount: nat, fund: nat, shares: nat)
    requires m * fund <= amount * shares
    ensures m * (fund + amount) <= amount * (shares + m)
  {
    assert m * (fund + amount) == m * fund + m * amount;
    assert amount * (shares + m) == amount * shares + m * amount;
  }

  lemma FloorAtMost(r: int, bound: int, have: int, worth: int)
    requires have > 0 && r * have <= worth <= bound * have
    ensures r <= bound
  {
    MulCancel(have, r, bound);
  }

  lemma SameFactor(r: int, x: int, m: int)
    requires m > 0 && r * m <= m * x < (r + 1) * m
    ensures r == x
  {
    MulCancel(m, r, x);
    MulLess(m, x, r + 1);
  }

  lemma NotDilutedTrans(f0: int, s0: int, f1: int, s1: int, f2: int, s2: int)
    requires f0 >= 0 && f1 >= 0 && f2 >= 0 && s0 >= 0 && s1 >= 0 && s2 >= 0 && (s1 == 0 ==> s2 == 0)
    requires NotDiluted(f0, s0, f1, s1) && NotDiluted(f1, s1, f2, s2)
    ensures NotDiluted(f0, s0, f2, s2)
  {
    if s1 == 0 {
      assert f2 * s0 >= 0 && f0 * 0 == 0;
    } else {
      calc {
        s1 * (f0 * s2);
        s2 * (f0 * s1);
      <= { MulMono(s2, f0 * s1, f1 * s0); }
        s2 * (f1 * s0);
        s0 * (f1 * s2);
      <= { MulMono(s0, f1 * s2, f2 * s1); }
        s0 * (f2 * s1);
        s1 * (f2 * s0);
      }
      MulCancel(s1, f0 * s2, f2 * s0);
    }
  }

  /** Who cashes later, after others did, gets no less for the same shares. */
  lemma LaterIsNoWorse(d: nat, f0: nat, s0: nat, f1: nat, s1: nat)
    requires Backed(f0, s0) && Backed(f1, s1) && NotDiluted(f0, s0, f1, s1) && d <= s1 <= s0
    ensures Converted(d, f1, s1) >= Converted(d, f0, s0)
  {
    if s1 == 0 {
      CashingNothing(f0, s0);
      CashingNothing(f1, s1);
    } else {
      hide Exchange;
      var c0, c1 := Exchange(d, s0, f0), Exchange(d, s1, f1);
      CrossFloor(c0, d, f0, s0, f1, s1);
      FloorIsBest(c0, c1, s1, d * f1);
    }
  }

  lemma CashingNothing(fund: nat, shares: nat)
    ensures Converted(0, fund, shares) == 0
  {
    if fund > 0 && shares > 0 {
      assert 0 * fund == 0;
    }
  }

  lemma CrossFloor(c0: nat, d: nat, f0: nat, s0: nat, f1: nat, s1: nat)
    requires s0 > 0 && c0 * s0 <= d * f0 && f1 * s0 >= f0 * s1
    ensures c0 * s1 <= d * f1
  {
    calc {
      s0 * (c0 * s1);
      s1 * (c0 * s0);
    <= { MulMono(s1, c0 * s0, d * f0); }
      s1 * (d * f0);
      d * (f0 * s1);
    <= { MulMono(d, f0 * s1, f1 * s0); }
      d * (f1 * s0);
      s0 * (d * f1);
    }
    MulCancel(s0, c0 * s1, d * f1);
  }

  lemma FloorIsBest(x: int, r: int, have: int, worth: int)
    requires have > 0 && x * have <= worth < (r + 1) * have
    ensures x <= r
  {
    if x > r { MulMono(have, r + 1, x); }
  }

  // ---- Rewarded shares -----------------------------------------------------------------------

  /** Shares for a reward, at the price of the fund with everything that waits to be claimed. */
  function RewardShares(tokens: nat, fund: int, shares: int): (r: nat)
    ensures fund > 0 && shares >= 0 ==> r * fund <= tokens * shares < (r + 1) * fund
  {
    if fund <= 0 || shares < 0 then 0 else
      DivBounds(tokens * shares, fund);
      tokens * shares / fund
  }

  /** The tokens that follow claimed shares: all of them with the last share, else their part rounded down. */
  function MovedWith(vests: nat, shares: int, tokens: int): (r: int)
    requires tokens >= 0 && vests <= shares
    ensures 0 <= r <= tokens && (vests == shares ==> r == tokens)
    ensures vests < shares ==> r * shares <= vests * tokens < (r + 1) * shares
  {
    if vests == shares then tokens
    else
      MulMono(tokens, vests, shares);
      PartOfWhole(vests, tokens, shares);
      vests * tokens / shares
  }

  lemma PartOfWhole(x: nat, y: nat, z: nat)
    requires z > 0 && x * y <= z * y
    ensures 0 <= x * y / z <= y && (x * y / z) * z <= x * y < (x * y / z + 1) * z
  {
    var q := x * y / z;
    DivBounds(x * y, z);
    if q > y { MulMono(z, y + 1, q); }
  }

  // ---- The power-down schedule ---------------------------------------------------------------

  const INTERVALS: nat := 13

  function Rate(total: nat): (r: nat)
    ensures r >= 1
  {
    var even := if total / INTERVALS == 0 then 1 else total / INTERVALS;
    if even * INTERVALS < total then even + 1 else even
  }

  /** The rate is the least one that pays the total in time. */
  lemma RateIsLeast(total: nat, r: nat)
    requires r >= 1
    ensures r * INTERVALS >= total <==> r >= Rate(total)
  {
  }

  datatype Plan = Plan(total: nat, withdrawn: nat, rate: nat)

  /** What the next payout takes from an account holding the given shares. */
  function Due(vests: nat, p: Plan): (d: nat)
    requires p.rate > 0
    ensures d <= vests
  {
    var amount := if p.total - p.withdrawn < p.rate then p.total % p.rate else p.rate;
    if vests < amount then vests else amount
  }

  /** The plan after a payout; the rate is cleared when everything was paid or no shares are left. */
  function AfterPayout(p: Plan, paid: nat, vestsLeft: nat): Plan {
    var w := p.withdrawn + paid;
    Plan(p.total, w, if w >= p.total || vestsLeft == 0 then 0 else p.rate)
  }

  /** The last, smaller payout is what is left of the total exactly when full rates were paid before. */
  lemma LastPayout(p: Plan)
    requires p.rate > 0 && 0 < p.total - p.withdrawn < p.rate
    ensures p.total % p.rate == p.total - p.withdrawn <==> p.withdrawn % p.rate == 0
  {
    ModPlus(p.withdrawn / p.rate, p.withdrawn % p.rate, p.rate, p.total - p.withdrawn);
  }

  lemma ModPlus(q: nat, m: nat, r: nat, left: nat)
    requires m < r && left < r
    ensures (q * r + m + left) % r == if m + left < r then m + left else m + left - r
  {
    if m + left < r {
      ModOf(q, r, m + left);
    } else {
      NextMultiple(q, r);
      ModOf(q + 1, r, m + left - r);
    }
  }

  lemma ModOf(q: nat, r: nat, m: nat)
    requires m < r
    ensures (q * r + m) % r == m && (q * r + m) / r == q
  {
    var x := q * r + m;
    assert x == (x / r) * r + x % r;
    QuotientUnique(q, m, x / r, x % r, r);
  }

  lemma QuotientUnique(q: int, m: int, p: int, n: int, r: int)
    requires 0 <= m < r && 0 <= n < r && q * r + m == p * r + n
    ensures q == p && m == n
  {
    if q > p { MulMono(r, p + 1, q); } else if q < p { MulMono(r, q + 1, p); }
  }

  /** While shares suffice, each payout is a full rate or all that is left. */
  lemma DueInTurn(total: nat, k: nat, vests: nat, p: Plan)
    requires total > 0 && p == Plan(total, k * Rate(total), Rate(total)) && p.withdrawn < total
    requires vests >= total - p.withdrawn
    ensures Due(vests, p) == if total - p.withdrawn < p.rate then total - p.withdrawn else p.rate
    ensures k < INTERVALS
  {
    var r := p.rate;
    if total - p.withdrawn < r {
      ModOf(k, r, 0);
      LastPayout(p);
    }
    RateIsLeast(total, r);
    if k >= INTERVALS { MulMono(r, INTERVALS, k); }
  }

  function SumOf(s: seq<nat>): nat {
    if s == [] then 0 else SumOf(s[..|s| - 1]) + s[|s| - 1]
  }

  /**
   A plan against the payouts made under it. While it runs all of them were full rates and the account
   holds what is still to come; once it has ended, by itself or on request, they add up to its total.
   */
  ghost predicate OnTrack(p: Plan, vests: nat, payouts: seq<nat>) {
    && SumOf(payouts) == p.withdrawn && |payouts| <= INTERVALS
    && if p.rate > 0 then
         && p.rate == Rate(p.total) && p.withdrawn == |payouts| * p.rate < p.total && vests >= p.total - p.withdrawn
         && forall i | 0 <= i < |payouts| :: payouts[i] == p.rate
       else
         p.withdrawn == p.total && forall i | 0 <= i < |payouts| - 1 :: payouts[i] == Rate(p.total)
  }

  /** A new plan is on track when the account holds its total. */
  lemma StartsOnTrack(total: nat, vests: nat)
    requires 0 < total <= vests
    ensures OnTrack(Plan(total, 0, Rate(total)), vests, [])
  {
  }

  /** More shares do no harm. */
  lemma StaysOnTrack(p: Plan, vests: nat, more: nat, payouts: seq<nat>)
    requires OnTrack(p, vests, payouts) && vests <= more
    ensures OnTrack(p, more, payouts)
  {
  }

  /** Every payout takes something, never more than is left, and keeps the plan on track, whatever else arrives. */
  lemma PayoutOnTrack(p: Plan, vests: nat, payouts: seq<nat>, arrives: nat)
    requires OnTrack(p, vests, payouts) && p.rate > 0
    ensures var due := Due(vests, p); var left := vests - due + arrives;
      0 < due <= p.total - p.withdrawn && OnTrack(AfterPayout(p, due, left), left, payouts + [due])
  {
    var due := Due(vests, p);
    DueInTurn(p.total, |payouts|, vests, p);
    NextMultiple(|payouts|, p.rate);
    assert (payouts + [due])[..|payouts|] == payouts;
  }

  lemma NextMultiple(k: nat, r: nat)
    ensures (k + 1) * r == k * r + r
  {
  }
}
