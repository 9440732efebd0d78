/**
 Stake that is lent out and stake that is powering down, together: the two ledgers of module
 VestingWithdrawal and module Delegation over the same accounts. What an account may still delegate
 is computed from its shares, its counters and its running power-down, as the chain computes it.

 Only the two manabars are not part of the model: what they hold at the moment of the operation is a
 parameter, which may say anything.
 */
module Stakes {
  import opened Sums
  import opened VestingFund
  import Lending = Delegation
  import Powering = VestingWithdrawal

  type Name = string

  datatype Step =
    | Create(name: Name)
    | Invest(from: Name, to: Name, amount: nat)
    | Reroute(from: Name, to: Name, percent: nat, autoVest: bool)
    | Withdraw(from: Name, total: nat)
    | Pay(from: Name)
    | Change(delegator: Name, delegatee: Name, shares: nat, mana: int, downvoteMana: int, minDelegation: nat,
        minUpdate: nat)
    | BlockAt(time: nat)

  // ---- What an account may delegate ----------------------------------------------------------

  /** What a power-down has still to pay. */
  function Remaining(a: Powering.Account): int {
    a.plan.total - a.plan.withdrawn
  }

  function Weekly(a: Powering.Account): int {
    if a.plan.rate < Remaining(a) then a.plan.rate else Remaining(a)
  }

  /** The shares an account votes with. */
  function Effective(a: Powering.Account, l: Lending.Account): int {
    a.vests + l.received - l.delegated - if a.next != Powering.NEVER then Weekly(a) else 0
  }

  /** What may be delegated, given what the manabar holds. */
  function Available(a: Powering.Account, l: Lending.Account, mana: int): int {
    var own := Effective(a, l) - l.received;
    var some := if mana < own then mana else own;
    if a.next < Powering.NEVER && Remaining(a) > a.plan.rate then some + Weekly(a) - Remaining(a) else some
  }

  /** What is neither lent out nor powering down. */
  function Free(a: Powering.Account, l: Lending.Account): int {
    a.vests - l.delegated - Remaining(a)
  }

  /** What is lent out and what is powering down are different shares of the account. */
  ghost predicate Covers(a: Powering.Account, l: Lending.Account) {
    0 <= l.delegated && 0 <= Remaining(a) && l.delegated + Remaining(a) <= a.vests
  }

  /** Nothing powering down and nothing lent out can be delegated, whatever the manabar says. */
  lemma AvailableIsFree(a: Powering.Account, l: Lending.Account, mana: int, names: set<Name>)
    requires Powering.AccountOk(a, names)
    ensures 0 <= Remaining(a)
    ensures Available(a, l, mana) <= Free(a, l)
    ensures mana >= Effective(a, l) - l.received <==> Available(a, l, mana) == Free(a, l)
  {
    hide Powering.RoutesFit;
  }

  // ---- All accounts --------------------------------------------------------------------------

  ghost predicate Covered(accounts: Powering.Accounts, lent: map<Name, Lending.Account>) {
    forall a | a in accounts && a in lent :: Covers(accounts[a], lent[a])
  }

  /** No account votes with a negative number of shares. */
  lemma EffectiveNonneg(accounts: Powering.Accounts, lent: map<Name, Lending.Account>, a: Name)
    requires accounts.Keys == lent.Keys && Covered(accounts, lent) && a in accounts && lent[a].received >= 0
    ensures Effective(accounts[a], lent[a]) >= lent[a].received
    ensures lent[a].delegated + Remaining(accounts[a]) <= accounts[a].vests
  {
    assert Covers(accounts[a], lent[a]);
  }

  /** All that is lent out exists. */
  lemma LentExists(accounts: Powering.Accounts, lent: map<Name, Lending.Account>)
    requires accounts.Keys == lent.Keys && Covered(accounts, lent)
    ensures Lending.LentBy(lent) <= Total(accounts, Powering.VestsOf())
  {
    hide Sum;
    forall a | a in accounts.Keys
      ensures Entry(lent, Lending.LentOf())(a) <= Entry(accounts, Powering.VestsOf())(a) {
      assert Covers(accounts[a], lent[a]);
    }
    SumMono(accounts.Keys, Entry(lent, Lending.LentOf()), Entry(accounts, Powering.VestsOf()));
  }

  lemma OneFree(accounts: Powering.Accounts, lent: map<Name, Lending.Account>, a: Name, mana: int)
    requires Powering.AccountsOk(accounts) && a in accounts && a in lent && Covered(accounts, lent)
    ensures Available(accounts[a], lent[a], mana) <= Free(accounts[a], lent[a]) && 0 <= Free(accounts[a], lent[a])
  {
    hide Powering.RoutesFit;
    assert Covers(accounts[a], lent[a]);
    assert Powering.AccountOk(accounts[a], accounts.Keys);
    AvailableIsFree(accounts[a], lent[a], mana, accounts.Keys);
  }

  lemma CoveredAfterPayout(before: Powering.Accounts, after: Powering.Accounts, from: Name, f0: Powering.Fund,
      lent: map<Name, Lending.Account>)
    requires Powering.AccountsOk(before) && before.Keys == lent.Keys && Covered(before, lent)
    requires from in before && before[from].plan.rate > 0 && Powering.PaidOut(before, after, from, f0)
    ensures Covered(after, lent)
  {
    hide Powering.RoutesFit, Powering.Worth, Powering.Rest, Powering.AutoPart, Powering.LiquidPart;
    var routes, due := before[from].routes, Due(before[from].vests, before[from].plan);
    assert Powering.AccountOk(before[from], before.Keys);
    PayoutOnTrack(before[from].plan, before[from].vests, before[from].payouts, Powering.AutoPart(routes, due, from));
    forall x | x in after ensures Covers(after[x], lent[x]) {
      assert Powering.AfterPaying(before[x], after[x], x, from, routes, due, f0) && Covers(before[x], lent[x]);
    }
  }

  lemma CoveredAfterDeposit(before: Powering.Accounts, from: Name, to: Name, amount: nat, minted: nat,
      lent: map<Name, Lending.Account>)
    requires before.Keys == lent.Keys && Covered(before, lent) && from in before && to in before
    requires before[from].balance >= amount
    ensures Covered(Powering.Deposited(before, from, to, amount, minted), lent)
  {
    var after := Powering.Deposited(before, from, to, amount, minted);
    forall x | x in after ensures Covers(after[x], lent[x]) {
      assert Covers(before[x], lent[x]);
    }
  }

  lemma CoveredAfterPlan(before: Powering.Accounts, from: Name, total: nat, now: nat, lent: map<Name, Lending.Account>)
    requires before.Keys == lent.Keys && Covered(before, lent) && from in before
    requires before[from].vests - lent[from].delegated >= total
    ensures Covered(before[from := Powering.Planned(before[from], total, now)], lent)
  {
    hide Rate;
    assert Covers(before[from], lent[from]);
  }

  lemma CoveredAfterRoute(before: Powering.Accounts, from: Name, to: Name, percent: nat, autoVest: bool,
      lent: map<Name, Lending.Account>)
    requires before.Keys == lent.Keys && Covered(before, lent) && from in before
    ensures Covered(before[from := Powering.Rerouted(before[from], to, percent, autoVest)], lent)
  {
    assert Covers(before[from], lent[from]);
  }

  lemma CoveredAfterLending(accounts: Powering.Accounts, lent: map<Name, Lending.Account>,
      lent': map<Name, Lending.Account>, delegator: Name, rise: nat)
    requires accounts.Keys == lent.Keys && Covered(accounts, lent) && Lending.Lends(lent, lent', delegator, rise)
    requires delegator in accounts
    requires rise <= Free(accounts[delegator], lent[delegator])
    ensures accounts.Keys == lent'.Keys && Covered(accounts, lent')
  {
    forall x | x in accounts ensures Covers(accounts[x], lent'[x]) {
      assert Covers(accounts[x], lent[x]);
    }
  }

  lemma CoveredAfterReturns(accounts: Powering.Accounts, lent: map<Name, Lending.Account>,
      lent': map<Name, Lending.Account>)
    requires accounts.Keys == lent.Keys && Covered(accounts, lent) && lent'.Keys == lent.Keys
    requires forall a | a in lent' :: 0 <= lent'[a].delegated <= lent[a].delegated
    ensures Covered(accounts, lent')
  {
    forall x | x in accounts ensures Covers(accounts[x], lent'[x]) {
      assert Covers(accounts[x], lent[x]);
    }
  }

  class Stakes {
    const pool: Powering.Pool
    const loans: Lending.Delegations

    ghost predicate Valid()
      reads this, pool, loans
    {
      && pool.Valid() && loans.Valid()
      && pool.accounts.Keys == loans.accounts.Keys && Covered(pool.accounts, loans.accounts)
    }

    /** A chain at its start. */
    constructor (balances: map<Name, nat>, treasury: Name, returnPeriod: nat)
      ensures Valid() && fresh(pool) && fresh(loans) && pool.fund == pool.shares == 0
      ensures pool.accounts.Keys == loans.accounts.Keys == balances.Keys
    {
      pool := new Powering.Pool(balances, treasury);
      loans := new Lending.Delegations(balances.Keys, returnPeriod);
    }

    method CreateAccount(name: Name) returns (ok: bool)
      requires Valid()
      modifies pool`accounts, loans`accounts
      ensures Valid()
      ensures ok <==> name !in old(pool.accounts)
      ensures pool.accounts.Keys == old(pool.accounts.Keys) + {name}
    {
      hide Total, Powering.AccountsOk, Lending.Counted, Lending.Known;
      ok := pool.CreateAccount(name);
      if ok {
        loans.CreateAccount(name);
      }
    }

    /** Starts, changes or stops a power-down: only shares that are not lent out may leave. */
    method WithdrawVesting(from: Name, total: nat) returns (ok: bool)
      requires Valid()
      modifies pool`accounts
      ensures Valid()
      ensures ok <==>
        from in old(pool.accounts) && old(pool.accounts)[from].vests - loans.accounts[from].delegated >= total
                      && old(pool.accounts)[from].plan.rate != if total == 0 then 0 else Rate(total)
      ensures !ok ==> pool.accounts == old(pool.accounts)
      ensures ok ==> Remaining(pool.accounts[from]) == total
    {
      hide Total, Powering.AccountsOk, Lending.Counted, Lending.Known, Covered, Rate;
      if from !in pool.accounts {
        return false;
      }
      Lending.CountersNonneg(loans.accounts, loans.live, loans.back, from);
      ghost var before := pool.accounts;
      ok := pool.WithdrawVesting(from, total, loans.accounts[from].delegated);
      if ok {
        CoveredAfterPlan(before, from, total, pool.now, loans.accounts);
      }
    }

    /**
     Creates, raises, lowers or removes a delegation. Nothing that is lent out already or that is
     powering down is lent, whatever the manabars say.
     */
    method Delegate(delegator: Name, delegatee: Name, shares: nat, mana: int, downvoteMana: int, minDelegation: nat,
        minUpdate: nat) returns (ok: bool)
      requires Valid()
      modifies loans`accounts, loans`live, loans`back, loans`next
      ensures Valid()
      ensures ok <==> delegator in pool.accounts && old(loans.Allowed((delegator, delegatee), shares,
        Available(pool.accounts[delegator], loans.accounts[delegator], mana),
        Available(pool.accounts[delegator], loans.accounts[delegator], downvoteMana), minDelegation, minUpdate))
      ensures !ok ==> loans.accounts == old(loans.accounts) && loans.live == old(loans.live)
      ensures ok ==>
        Lending.Rise(old(loans.live), (delegator, delegatee), shares)
          <= Free(pool.accounts[delegator], old(loans.accounts)[delegator])
      ensures ok ==> Lending.Settled(old(loans.live), loans.live, old(loans.back), loans.back, old(loans.next),
        (delegator, delegatee), shares, loans.now, loans.returnPeriod)
    {
      hide Total, Powering.AccountsOk, Lending.Counted, Lending.Known, Covered, Lending.Lends, Lending.Settled;
      if delegator !in pool.accounts {
        return false;
      }
      var a, l := pool.accounts[delegator], loans.accounts[delegator];
      var available, downvote := Available(a, l, mana), Available(a, l, downvoteMana);
      OneFree(pool.accounts, loans.accounts, delegator, mana);
      ghost var lent := loans.accounts;
      ghost var rise := Lending.Rise(loans.live, (delegator, delegatee), shares);
      ok := loans.Delegate(delegator, delegatee, shares, available, downvote, minDelegation, minUpdate);
      if ok {
        CoveredAfterLending(pool.accounts, lent, loans.accounts, delegator, rise);
      }
    }

    /** The start of a block: delegations that have come back can be used again. */
    method StartBlock(time: nat)
      requires Valid() && time + Powering.WEEK < Powering.NEVER
      modifies pool`now, loans
      ensures Valid() && pool.now == loans.now == time
      ensures loans.back == map i | i in old(loans.back) && old(loans.back)[i].expiration >= time :: old(loans.back)[i]
    {
      hide Total, Powering.AccountsOk, Lending.Counted, Lending.Known, Covered;
      ghost var lent := loans.accounts;
      pool.now, loans.now := time, time;
      loans.ClearExpiredDelegations();
      forall a | a in loans.accounts ensures loans.accounts[a].delegated >= 0 {
        Lending.CountersNonneg(loans.accounts, loans.live, loans.back, a);
      }
      CoveredAfterReturns(pool.accounts, lent, loans.accounts);
    }

    /** A step of the power-down ledger alone. */
    method ExecutePool(step: Step)
      requires Valid()
      modifies pool`accounts, pool`fund, pool`shares
      ensures Valid()
    {
      hide Total, Powering.AccountsOk, Lending.Counted, Lending.Known, Covered, Powering.PaidOut;
      ghost var before, f0 := pool.accounts, pool.FundNow();
      match step {
        case Invest(from, to, amount) =>
          var ok := pool.Deposit(from, to, amount);
          if ok {
            CoveredAfterDeposit(before, from, to, amount, Minted(amount, f0.fund, f0.shares), loans.accounts);
          }
        case Reroute(from, to, percent, autoVest) =>
          var ok := pool.SetRoute(from, to, percent, autoVest);
          if ok {
            CoveredAfterRoute(before, from, to, percent, autoVest, loans.accounts);
          }
        case Pay(from) =>
          if from in pool.accounts && pool.accounts[from].next <= pool.now {
            Powering.OkRoutes(pool.accounts, from, pool.now);
            var ok := pool.Payout(from);
            if ok {
              CoveredAfterPayout(before, pool.accounts, from, f0, loans.accounts);
            }
          }
        case _ =>
      }
    }

    /** One step of a chain. */
    method Execute(step: Step)
      requires Valid()
      modifies pool, loans
      ensures Valid()
    {
      match step {
        case Create(name) =>
          var _ := CreateAccount(name);
        case Withdraw(from, total) =>
          var _ := WithdrawVesting(from, total);
        case Change(a, b, shares, mana, downvoteMana, minDelegation, minUpdate) =>
          var _ := Delegate(a, b, shares, mana, downvoteMana, minDelegation, minUpdate);
        case BlockAt(time) =>
          if time + Powering.WEEK < Powering.NEVER {
            StartBlock(time);
          }
        case _ =>
          ExecutePool(step);
      }
    }

    /**
     Over every run of deposits, power-downs, payouts and delegations no share is both lent out and
     powering down, none is lent out twice, and nobody votes with a negative number of shares.
     */
    method Run(steps: seq<Step>)
      requires Valid()
      modifies pool, loans
      ensures Valid()
      ensures forall a | a in pool.accounts ::
        loans.accounts[a].delegated + Remaining(pool.accounts[a]) <= pool.accounts[a].vests
      ensures forall a | a in pool.accounts :: Effective(pool.accounts[a], loans.accounts[a]) >= 0
      ensures Lending.LentBy(loans.accounts) <= pool.shares
    {
      hide Total, Powering.AccountsOk, Lending.Counted, Lending.Known, Covered;
      var i := 0;
      while i < |steps|
        invariant 0 <= i <= |steps| && Valid()
      {
        Execute(steps[i]);
        i := i + 1;
      }
      LentExists(pool.accounts, loans.accounts);
      forall a | a in pool.accounts ensures
          loans.accounts[a].delegated + Remaining(pool.accounts[a]) <= pool.accounts[a].vests
          && Effective(pool.accounts[a], loans.accounts[a]) >= 0 {
        Lending.CountersNonneg(loans.accounts, loans.live, loans.back, a);
        EffectiveNonneg(pool.accounts, loans.accounts, a);
      }
    }
  }
}
