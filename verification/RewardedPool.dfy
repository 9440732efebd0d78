/**
 The vesting fund together with rewarded shares that wait to be claimed. A claim creates shares and
 moves the tokens behind them into the fund, rounded down; into an empty fund it may bring shares and
 no tokens, and only after such a claim can a payout overdraw the fund.
 */
module RewardedPool {
  import opened Sums
  import opened Prices
  import opened VestingFund
  import opened VestingWithdrawal

  /** Rewarded shares of an account and the tokens behind them. */
  datatype Pending = Pending(shares: nat, tokens: nat)

  ghost function SharesDue(): (Name, Pending) -> int {
    (_, d: Pending) => d.shares
  }

  ghost function TokensDue(): (Name, Pending) -> int {
    (_, d: Pending) => d.tokens
  }

  /** Rewarded shares have tokens behind them. */
  ghost predicate Behind(due: map<Name, Pending>) {
    forall a | a in due :: due[a].shares > 0 ==> due[a].tokens > 0
  }

  /** The claim brings shares but no tokens into an empty fund. */
  predicate Bare(d: Pending, vests: nat, fund: nat) {
    fund == 0 && vests > 0 && vests * d.tokens < d.shares
  }

  /** A claim leaves a backed fund backed exactly when it is not bare. */
  lemma ClaimBacks(d: Pending, vests: nat, fund: nat, shares: nat)
    requires vests <= d.shares && Backed(fund, shares) && (d.shares > 0 ==> d.tokens > 0)
    ensures Backed(fund + MovedWith(vests, d.shares, d.tokens), shares + vests) <==> !Bare(d, vests, fund)
  {
    var move := MovedWith(vests, d.shares, d.tokens);
    if vests == d.shares > 0 {
      MulMono(d.shares, 1, d.tokens);
    } else if vests < d.shares && move > 0 {
      MulMono(d.shares, 1, move);
    }
  }

  /** What is left unclaimed still has tokens behind it. */
  lemma ClaimLeaves(d: Pending, vests: nat)
    requires vests <= d.shares && (d.shares > 0 ==> d.tokens > 0)
    ensures vests < d.shares ==> MovedWith(vests, d.shares, d.tokens) < d.tokens
  {
    if vests < d.shares {
      var move := MovedWith(vests, d.shares, d.tokens);
      assert (d.shares - vests) * d.tokens > 0;
      assert (d.shares - vests) * d.tokens == d.shares * d.tokens - vests * d.tokens;
      if move >= d.tokens { MulMono(d.shares, d.tokens, move); }
    }
  }

  lemma RewardHasTokens(tokens: nat, fund: int, shares: int)
    ensures RewardShares(tokens, fund, shares) > 0 ==> tokens > 0
  {
    assert 0 * shares == 0;
  }

  function WithVests(accounts: Accounts, name: Name, vests: nat): Accounts {
    if name in accounts then accounts[name := accounts[name].(vests := accounts[name].vests + vests)] else accounts
  }

  datatype Action =
    | Step(step: VestingWithdrawal.Step)
    | Reward(name: Name, tokens: nat)
    | Claim(name: Name, vests: nat)

  class Rewards {
    const pool: Pool
    var due: map<Name, Pending>
    var pendingShares: int
    var pendingTokens: int
    var rewardFund: nat

    ghost predicate Valid()
      reads this, pool
    {
      && pool.Valid() && pendingShares == Total(due, SharesDue()) && pendingTokens == Total(due, TokensDue())
      && Behind(due)
    }

    function DueTo(name: Name): Pending
      reads `due
    {
      if name in due then due[name] else Pending(0, 0)
    }

    /** Every token there is. */
    ghost function Tokens(): int
      reads this, pool
    {
      Total(pool.accounts, BalanceOf()) + pool.fund + pendingTokens + rewardFund
    }

    constructor (balances: map<Name, nat>, treasury: Name, rewardFund: nat)
      ensures Valid() && fresh(pool) && pool.fund == pool.shares == 0 && pool.treasury == treasury && due == map[]
      ensures pendingShares == 0 == pendingTokens
      ensures pool.accounts.Keys == balances.Keys && this.rewardFund == rewardFund
      ensures forall a | a in pool.accounts :: pool.accounts[a] == NewAccount(balances[a])
    {
      pool := new Pool(balances, treasury);
      due, pendingShares, pendingTokens := map[], 0, 0;
      this.rewardFund := rewardFund;
      new;
      TotalNone(due, SharesDue());
      TotalNone(due, TokensDue());
    }

    method PutDue(name: Name, d: Pending)
      requires pendingShares == Total(due, SharesDue()) && pendingTokens == Total(due, TokensDue())
      modifies `due, `pendingShares, `pendingTokens
      ensures due == old(due)[name := d]
      ensures pendingShares == Total(due, SharesDue()) == old(pendingShares) + d.shares - old(DueTo(name)).shares
      ensures pendingTokens == Total(due, TokensDue()) == old(pendingTokens) + d.tokens - old(DueTo(name)).tokens
    {
      hide Total;
      TotalPut(due, SharesDue(), name, d);
      TotalPut(due, TokensDue(), name, d);
      pendingShares := pendingShares + d.shares - DueTo(name).shares;
      pendingTokens := pendingTokens + d.tokens - DueTo(name).tokens;
      due := due[name := d];
    }

    /** Rewards an account with shares for tokens of the reward fund, at the price with everything unclaimed. */
    method PayReward(name: Name, tokens: nat) returns (ok: bool)
      requires Valid()
      modifies `due, `pendingShares, `pendingTokens, `rewardFund
      ensures Valid() && Tokens() == old(Tokens())
      ensures ok <==> name in pool.accounts && tokens <= old(rewardFund) && pool.fund + old(pendingTokens) > 0
      ensures !ok ==> due == old(due) && rewardFund == old(rewardFund)
      ensures ok ==>
        var d := old(DueTo(name));
        var minted := RewardShares(tokens, pool.fund + old(pendingTokens), pool.shares + old(pendingShares));
        due == old(due)[name := Pending(d.shares + minted, d.tokens + tokens)] && rewardFund == old(rewardFund) - tokens
    {
      hide Total, AccountsOk, RewardShares;
      if name !in pool.accounts || tokens > rewardFund || pool.fund + pendingTokens <= 0 {
        return false;
      }
      var minted := RewardShares(tokens, pool.fund + pendingTokens, pool.shares + pendingShares);
      var d := DueTo(name);
      RewardHasTokens(tokens, pool.fund + pendingTokens, pool.shares + pendingShares);
      PutDue(name, Pending(d.shares + minted, d.tokens + tokens));
      rewardFund := rewardFund - tokens;
      ok := true;
    }

    /** Claims rewarded shares. */
    method ClaimVests(name: Name, vests: nat) returns (ok: bool)
      requires Valid()
      modifies `due, `pendingShares, `pendingTokens, pool`accounts, pool`fund, pool`shares
      ensures Valid() && Tokens() == old(Tokens())
      ensures ok <==> name in old(pool.accounts) && vests <= old(DueTo(name)).shares
      ensures !ok ==> due == old(due) && pool.accounts == old(pool.accounts)
      ensures !ok ==> pool.fund == old(pool.fund) && pool.shares == old(pool.shares)
      ensures ok ==>
        var d := old(DueTo(name)); var move := MovedWith(vests, d.shares, d.tokens);
        && due == old(due)[name := Pending(d.shares - vests, d.tokens - move)]
        && pool.fund == old(pool.fund) + move && pool.shares == old(pool.shares) + vests
        && pool.accounts == WithVests(old(pool.accounts), name, vests)
      ensures ok && old(Backed(pool.fund, pool.shares)) ==>
        (Backed(pool.fund, pool.shares) <==> !Bare(old(DueTo(name)), vests, old(pool.fund)))
    {
      hide Total, AccountsOk, MovedWith;
      if name !in pool.accounts || vests > DueTo(name).shares {
        return false;
      }
      var d := DueTo(name);
      var move := MovedWith(vests, d.shares, d.tokens);
      ClaimLeaves(d, vests);
      if Backed(pool.fund, pool.shares) {
        ClaimBacks(d, vests, pool.fund, pool.shares);
      }
      pool.AddClaimed(name, vests, move);
      PutDue(name, Pending(d.shares - vests, d.tokens - move));
      ok := true;
    }

    method Execute(action: Action) returns (overdrawn: bool, bare: bool)
      requires Valid()
      modifies this, pool
      ensures Valid() && Tokens() == old(Tokens())
      ensures overdrawn ==> !old(Backed(pool.fund, pool.shares))
      ensures old(Backed(pool.fund, pool.shares)) ==> (bare || Backed(pool.fund, pool.shares))
    {
      hide Total, AccountsOk, MovedWith, RewardShares;
      overdrawn, bare := false, false;
      match action {
        case Step(step) =>
          overdrawn := pool.Execute(step);
        case Reward(name, tokens) =>
          var _ := PayReward(name, tokens);
        case Claim(name, vests) =>
          bare := Bare(DueTo(name), vests, pool.fund);
          var _ := ClaimVests(name, vests);
      }
    }

    /**
     Over every run of deposits, power-downs, payouts, rewards and claims no token appears or is lost, and
     no payout overdraws the fund unless a bare claim was made before.
     */
    method Run(actions: seq<Action>) returns (overdrawn: bool, bare: bool)
      requires Valid() && Backed(pool.fund, pool.shares)
      modifies this, pool
      ensures Valid() && Tokens() == old(Tokens())
      ensures !bare ==> !overdrawn && Backed(pool.fund, pool.shares)
      ensures forall a | a in pool.accounts ::
        OnTrack(pool.accounts[a].plan, pool.accounts[a].vests, pool.accounts[a].payouts)
    {
      hide Total, AccountsOk, Backed;
      overdrawn, bare := false, false;
      var i := 0;
      while i < |actions|
        invariant 0 <= i <= |actions| && Valid() && Tokens() == old(Tokens())
        invariant !bare ==> !overdrawn && Backed(pool.fund, pool.shares)
      {
        var o, b := Execute(actions[i]);
        overdrawn, bare := overdrawn || o, bare || b;
        i := i + 1;
      }
      AllOnTrack(pool.accounts);
    }
  }
  // ---- A run that overdraws the fund ---------------------------------------------------------

  /** Alice holds all shares and powers them down; bob has rewards to claim. */
  ghost predicate Leaving(r: Rewards)
    reads r, r.pool
  {
    && r.Valid() && r.due == map["bob" := Pending(20_000, 20)] && r.pool.accounts.Keys == {"alice", "bob"}
    && r.pool.accounts["bob"] == NewAccount(0)
    && var a := r.pool.accounts["alice"];
       && a.vests == r.pool.shares == 1_000 - a.plan.withdrawn && a.plan.total == 1_000 && a.routes == map[]
       && (if a.vests == 0 then r.pool.fund == 0 else Backed(r.pool.fund, r.pool.shares))
       && (a.plan.rate > 0 ==> a.next == WEEK * (|a.payouts| + 1)) && r.pool.now <= WEEK * |a.payouts|
  }

  lemma Amounts()
    ensures Minted(1, 0, 0) == 1_000 && RewardShares(20, 1, 1_000) == 20_000
    ensures Rate(1_000) == 77 && Rate(13_000) == 1_000
  {
  }

  method FirstSteps() returns (r: Rewards)
    ensures fresh(r) && fresh(r.pool) && Leaving(r)
  {
    hide Total, AccountsOk, Minted, RewardShares, Rate, Behind, NotDiluted;
    Amounts();
    r := new Rewards(map["alice" := 1, "bob" := 0], "treasury", 20);
    r.pool.now := 0;
    var invested := r.pool.Deposit("alice", "alice", 1);
    var rewarded := r.PayReward("bob", 20);
    var left := r.pool.WithdrawVesting("alice", 1_000, 0);
    assert r.pool.accounts.Keys == {"alice", "bob"};
    assert r.due == map["bob" := Pending(20_000, 20)];
  }

  lemma NoRoutesParts(a: Account, amount: nat)
    requires a.routes == map[]
    ensures Parts(a.routes, amount, true) == 0 == Parts(a.routes, amount, false) && Rest(a.routes, amount) == amount
  {
    TotalNone(a.routes, PartOf(amount, true));
    TotalNone(a.routes, PartOf(amount, false));
  }
  /** Alice's next payout. */
  method PayAlice(r: Rewards)
    requires Leaving(r) && r.pool.accounts["alice"].plan.rate > 0
    modifies r.pool`accounts, r.pool`fund, r.pool`shares, r.pool`now
    ensures Leaving(r)
    ensures |r.pool.accounts["alice"].payouts| == |old(r.pool.accounts)["alice"].payouts| + 1 <= INTERVALS
  {
    hide Total, AccountsOk, Rate, Behind, Overdraws, PaidOut, Cashed, Parts;
    ghost var a, before, f0 := r.pool.accounts["alice"], r.pool.accounts, r.pool.FundNow();
    AliceOk(r);
    r.pool.now := r.pool.accounts["alice"].next;
    NoRoutesParts(a, DueFrom(a));
    BackedPays(a, DueFrom(a), f0);
    var ok := r.pool.Payout("alice");
    AliceAfter(before, r.pool.accounts, f0);
    LastShare(f0, r.pool.FundNow());
    AliceOk(r);
  }

  lemma AliceOk(r: Rewards)
    requires r.pool.Valid() && "alice" in r.pool.accounts
    ensures var a := r.pool.accounts["alice"]; OnTrack(a.plan, a.vests, a.payouts)
  {
    OneOk(r.pool.accounts, "alice");
  }

  lemma BackedPays(a: Account, amount: nat, f: Fund)
    requires f.fund > 0
    ensures !Overdraws(a, amount, f)
  {
  }

  lemma LastShare(f0: Fund, f1: Fund)
    requires Cashed(f0, f1) && f0.fund > 0 && f0.shares > 0
    ensures Backed(f1.fund, f1.shares) && (f1.shares == 0 ==> f1.fund == 0)
  {
  }

  lemma AliceAfter(before: Accounts, after: Accounts, f0: Fund)
    requires before.Keys == {"alice", "bob"} && before["alice"].plan.rate > 0 && before["alice"].routes == map[]
    requires PaidOut(before, after, "alice", f0)
    ensures after.Keys == before.Keys && after["bob"] == before["bob"]
    ensures var b, a := before["alice"], after["alice"]; var amount := DueFrom(b);
      && a.vests == b.vests - amount && a.routes == map[] && a.plan == AfterPayout(b.plan, amount, a.vests)
      && a.next == (if a.plan.rate == 0 then NEVER else b.next + WEEK) && a.payouts == b.payouts + [amount]
  {
    hide Worth, Due;
    var amount := DueFrom(before["alice"]);
    assert AfterPaying(before["alice"], after["alice"], "alice", "alice", map[], amount, f0);
    assert AfterPaying(before["bob"], after["bob"], "bob", "alice", map[], amount, f0);
  }
  /** Nobody holds a share, the fund is empty, and bob has rewards to claim. */
  ghost predicate AllLeft(r: Rewards, claimed: nat)
    requires claimed < 20_000
    reads r, r.pool
  {
    && r.Valid() && r.due == map["bob" := Pending(20_000 - claimed, 20)] && "bob" in r.pool.accounts
    && r.pool.accounts["bob"] == NewAccount(0).(vests := claimed)
    && r.pool.fund == 0 && r.pool.shares == claimed && r.pool.now <= WEEK * INTERVALS
  }

  /** All of alice's payouts: the last one empties the fund. */
  method AliceLeaves(r: Rewards)
    requires Leaving(r)
    modifies r.pool`accounts, r.pool`fund, r.pool`shares, r.pool`now
    ensures AllLeft(r, 0)
  {
    hide Total, AccountsOk, Rate, Behind;
    AliceOk(r);
    while r.pool.accounts["alice"].plan.rate > 0
      invariant Leaving(r) && |r.pool.accounts["alice"].payouts| <= INTERVALS
      decreases INTERVALS - |r.pool.accounts["alice"].payouts|
    {
      PayAlice(r);
    }
    AliceOk(r);
  }

  /** Bob claims one share at a time: less than a token is behind each, so none moves. */
  method ClaimOneByOne(r: Rewards, n: nat)
    requires AllLeft(r, 0) && n <= 13_000
    modifies r, r.pool
    ensures AllLeft(r, n)
  {
    hide Total, AccountsOk, Behind, Backed;
    var i := 0;
    while i < n
      invariant 0 <= i <= n && AllLeft(r, i)
    {
      NothingMoves(20_000 - i);
      var ok := r.ClaimVests("bob", 1);
      i := i + 1;
    }
  }

  lemma NothingMoves(shares: nat)
    requires 7_000 <= shares
    ensures MovedWith(1, shares, 20) == 0
  {
    var r := MovedWith(1, shares, 20);
    if r > 0 { MulMono(shares, 1, r); }
  }

  /**
   A run of deposits, rewards, power-downs, payouts and claims, from the start of a chain, that ends in
   a payout of more tokens than the fund holds.
   */
  method FundOverdrawn() returns (overdrawn: bool)
    ensures overdrawn
  {
    hide Total, AccountsOk, Behind, Backed, Rate, Overdraws, Cashed, PaidOut;
    var r := FirstSteps();
    AliceLeaves(r);
    ClaimOneByOne(r, 13_000);
    Amounts();
    var left := r.pool.WithdrawVesting("bob", 13_000, 0);
    r.pool.now := r.pool.accounts["bob"].next;
    ghost var a := r.pool.accounts["bob"];
    FoundingPriceOverdraws(a, DueFrom(a), r.pool.shares);
    var ok := r.pool.Payout("bob");
    overdrawn := !ok;
  }
}
