/**
 Vesting withdrawals: routes that send parts of a payout to other accounts, the two-pass payout,
 and what it does to the vesting fund.

 Routes of an account are visited in an unspecified order, so the results hold for every order, the
 index order of the chain included. The effect of a payout on proxied votes is in module Voting.
 */
module VestingWithdrawal {
  import opened Sums
  import opened Prices
  import opened VestingFund

  type Name = string

  const MAX_ROUTES: nat := 10
  const NEVER: nat := 0xFFFF_FFFF
  const WEEK: nat := 604_800

  datatype Route = Route(percent: nat, autoVest: bool)

  type Routes = map<Name, Route>

  datatype Account = Account(vests: nat, balance: int, plan: Plan, next: nat, routes: Routes, routeCount: nat,
                             payouts: seq<nat>)

  type Accounts = map<Name, Account>

  // ---- Routes --------------------------------------------------------------------------------

  ghost function PercentOf(): (Name, Route) -> int {
    (_, r: Route) => r.percent
  }

  ghost predicate RoutesFit(routes: Routes) {
    && Total(routes, PercentOf()) <= FULL && |routes| <= MAX_ROUTES
    && forall x | x in routes :: 0 < routes[x].percent <= FULL
  }

  /** The part of a payout that goes along a route, counting only routes of one kind. */
  ghost function PartOf(amount: nat, autoVest: bool): (Name, Route) -> int {
    (_, r: Route) => if r.autoVest == autoVest then Part(amount, r.percent) else 0
  }

  ghost function Parts(routes: Routes, amount: nat, autoVest: bool): int {
    Total(routes, PartOf(amount, autoVest))
  }

  /** Rounding each part down, the routes together never get more than the payout. */
  lemma PartsFit(routes: Routes, amount: nat)
    requires RoutesFit(routes)
    ensures 0 <= Parts(routes, amount, true) && 0 <= Parts(routes, amount, false)
    ensures Parts(routes, amount, true) + Parts(routes, amount, false) <= amount
  {
    hide Total, Part;
    TotalNonneg(routes, PartOf(amount, true));
    TotalNonneg(routes, PartOf(amount, false));
    ScaledParts(routes, amount);
    MulMono(amount, Total(routes, PercentOf()), FULL);
  }

  lemma {:induction false} ScaledParts(routes: Routes, amount: nat)
    ensures (Parts(routes, amount, true) + Parts(routes, amount, false)) * FULL <= amount * Total(routes, PercentOf())
    decreases |routes|
  {
    hide Total, Part;
    if routes.Keys == {} {
      TotalNone(routes, PartOf(amount, true));
      TotalNone(routes, PartOf(amount, false));
      TotalNone(routes, PercentOf());
    } else {
      var x :| x in routes;
      ScaledParts(routes - {x}, amount);
      TotalDrop(routes, PartOf(amount, true), x);
      TotalDrop(routes, PartOf(amount, false), x);
      TotalDrop(routes, PercentOf(), x);
      assert amount * (Total(routes - {x}, PercentOf()) + routes[x].percent)
          == amount * Total(routes - {x}, PercentOf()) + amount * routes[x].percent;
    }
  }

  // ---- Accounts ------------------------------------------------------------------------------

  ghost function VestsOf(): (Name, Account) -> int {
    (_, a: Account) => a.vests
  }

  ghost function BalanceOf(): (Name, Account) -> int {
    (_, a: Account) => a.balance
  }

  ghost predicate AccountOk(a: Account, names: set<Name>) {
    && RoutesFit(a.routes) && a.routeCount == |a.routes| && a.routes.Keys <= names
    && a.next <= NEVER && (a.next != NEVER <==> a.plan.rate > 0) && OnTrack(a.plan, a.vests, a.payouts)
  }

  function NewAccount(balance: int): Account {
    Account(0, balance, Plan(0, 0, 0), NEVER, map[], 0, [])
  }

  lemma NoRoutes()
    ensures RoutesFit(map[])
  {
    var none: Routes := map[];
    TotalNone(none, PercentOf());
  }

  lemma NewAccountOk(accounts: Accounts, name: Name)
    requires AccountsOk(accounts) && name !in accounts
    ensures AccountsOk(accounts[name := NewAccount(0)])
  {
    hide RoutesFit, OnTrack;
    NoRoutes();
    var after := accounts[name := NewAccount(0)];
    forall a | a in after ensures AccountOk(after[a], after.Keys) {
      if a != name {
        assert AccountOk(accounts[a], accounts.Keys);
      } else {
        assert OnTrack(Plan(0, 0, 0), 0, []) by { NothingPlanned(); }
      }
    }
  }

  lemma AllOnTrack(accounts: Accounts)
    requires AccountsOk(accounts)
    ensures forall a | a in accounts :: OnTrack(accounts[a].plan, accounts[a].vests, accounts[a].payouts)
  {
    forall a | a in accounts ensures OnTrack(accounts[a].plan, accounts[a].vests, accounts[a].payouts) {
      assert AccountOk(accounts[a], accounts.Keys);
    }
  }

  lemma FirstAccounts(accounts: Accounts)
    requires forall a | a in accounts :: accounts[a] == NewAccount(accounts[a].balance)
    ensures AccountsOk(accounts) && Total(accounts, VestsOf()) == 0
  {
    hide RoutesFit, OnTrack;
    SumZero(accounts.Keys, Entry(accounts, VestsOf()));
    NoRoutes();
    NothingPlanned();
    forall a | a in accounts ensures AccountOk(accounts[a], accounts.Keys) {
    }
  }

  lemma NothingPlanned()
    ensures OnTrack(Plan(0, 0, 0), 0, [])
  {
  }

  ghost predicate AccountsOk(accounts: Accounts) {
    forall a | a in accounts :: AccountOk(accounts[a], accounts.Keys)
  }

  /** What arrives along an automatic route. */
  ghost function AutoPart(routes: Routes, amount: nat, x: Name): nat {
    if x in routes && routes[x].autoVest then Part(amount, routes[x].percent) else 0
  }

  /** What is cashed along a liquid route. */
  ghost function LiquidPart(routes: Routes, amount: nat, x: Name): nat {
    if x in routes && !routes[x].autoVest then Part(amount, routes[x].percent) else 0
  }

  // ---- The first pass: deposits of shares ----------------------------------------------------

  /** The automatic routes outside `left` were served, and nothing else changed. */
  ghost predicate AutoServed(before: Accounts, after: Accounts, routes: Routes, left: set<Name>, amount: nat) {
    && after.Keys == before.Keys
    && forall x | x in before ::
      after[x] == before[x].(vests := before[x].vests + if x in left then 0 else AutoPart(routes, amount, x))
  }

  lemma AutoServedOn(before: Accounts, after: Accounts, routes: Routes, left: set<Name>, amount: nat, x: Name)
    requires AutoServed(before, after, routes, left, amount) && x in left && x in routes && x in before
    ensures x in after
    ensures var d := AutoPart(routes, amount, x); var after' := after[x := after[x].(vests := after[x].vests + d)];
      (d == 0 ==> AutoServed(before, after, routes, left - {x}, amount)) &&
      AutoServed(before, after', routes, left - {x}, amount) && Total(after', VestsOf()) == Total(after,
          VestsOf()) + d && Total(after', BalanceOf()) == Total(after, BalanceOf())
  {
    hide Total, Part;
    var d := AutoPart(routes, amount, x);
    TotalPut(after, VestsOf(), x, after[x].(vests := after[x].vests + d));
    TotalPut(after, BalanceOf(), x, after[x].(vests := after[x].vests + d));
  }

  lemma AutoServedNone(accounts: Accounts, routes: Routes, amount: nat)
    ensures AutoServed(accounts, accounts, routes, routes.Keys, amount)
  {
  }

  // ---- The second pass: liquid payments ------------------------------------------------------

  /** The state of the fund while shares are being cashed. */
  datatype Fund = Fund(fund: nat, shares: nat)

  /**
   Cashing went from one state of the fund to another: a backed fund stayed backed and undiluted, and
   the last share took what was left.
   */
  ghost predicate Cashed(f0: Fund, f1: Fund) {
    && f1.shares <= f0.shares && f1.fund <= f0.fund
    && (Backed(f0.fund, f0.shares) ==> Backed(f1.fund, f1.shares))
    && NotDiluted(f0.fund, f0.shares, f1.fund, f1.shares)
    && (f0.fund > 0 && f0.shares > 0 && f1.shares == 0 ==> f1.fund == 0)
  }

  function Cash(f: Fund, d: nat): Fund
    requires Converted(d, f.fund, f.shares) <= f.fund && d <= f.shares
  {
    Fund(f.fund - Converted(d, f.fund, f.shares), f.shares - d)
  }

  /** A conversion would take more than the fund holds: only from an empty fund at the founding price. */
  predicate Overdraft(f: Fund, d: nat) {
    f.fund == 0 && d >= 1_000
  }

  lemma CashIs(f: Fund, d: nat)
    requires d <= f.shares
    ensures Converted(d, f.fund, f.shares) <= f.fund <==> !Overdraft(f, d)
    ensures !Overdraft(f, d) ==> Cashed(f, Cash(f, d)) && (f.fund == 0 ==> Cash(f, d).fund == 0)
  {
    if f.fund == 0 {
      CashingUnbacked(d, f.shares);
    } else {
      CashingBacked(d, f.fund, f.shares);
      if d == f.shares > 0 {
        CashingAll(f.fund, d);
      }
    }
  }

  lemma CashingAll(fund: nat, shares: nat)
    requires fund > 0 && shares > 0
    ensures Converted(shares, fund, shares) == fund
  {
    var c := Converted(shares, fund, shares);
    MulCancel(shares, c, fund);
    MulCancel(shares, fund, c);
    if c < fund { MulMono(shares, c + 1, fund); }
  }

  lemma CashedTrans(f0: Fund, f1: Fund, f2: Fund)
    requires Cashed(f0, f1) && Cashed(f1, f2)
    ensures Cashed(f0, f2)
  {
    NotDilutedTrans(f0.fund, f0.shares, f1.fund, f1.shares, f2.fund, f2.shares);
  }

  /** Who is cashed later gets no less than at the fund's first state. */
  lemma CashedNoWorse(f0: Fund, f1: Fund, d: nat)
    requires Cashed(f0, f1) && d <= f1.shares && !Overdraft(f1, d)
    ensures Converted(d, f1.fund, f1.shares) >= if f0.fund == 0 then 0 else Converted(d, f0.fund, f0.shares)
  {
    if f0.fund > 0 {
      LaterIsNoWorse(d, f0.fund, f0.shares, f1.fund, f1.shares);
    }
  }

  /** What a conversion of d shares is worth at the fund's first state. */
  ghost function Worth(f0: Fund, d: nat): nat {
    if f0.fund == 0 then 0 else Converted(d, f0.fund, f0.shares)
  }

  /** The liquid routes outside `left` were paid at least what their shares were worth, and nothing else changed. */
  ghost predicate LiquidServed(before: Accounts, after: Accounts, routes: Routes, left: set<Name>, amount: nat,
      f0: Fund) {
    && after.Keys == before.Keys
    && forall x | x in before :: Paid(before[x], after[x], if x in left then 0 else LiquidPart(routes, amount, x), f0)
  }

  ghost predicate Paid(before: Account, after: Account, part: nat, f0: Fund) {
    && after == before.(balance := after.balance)
    && after.balance >= before.balance + Worth(f0, part)
    && (part == 0 ==> after.balance == before.balance)
  }

  /** c tokens are no less than d shares were worth, but for rounding each of so many conversions down. */
  ghost predicate NoLess(f0: Fund, d: int, c: int, conversions: nat) {
    f0.fund > 0 && f0.shares > 0 ==> (c + conversions) * f0.shares > d * f0.fund
  }

  /** c tokens are no more than d shares were worth. */
  ghost predicate NoMore(f0: Fund, d: int, c: int) {
    f0.fund > 0 && f0.shares > 0 ==> c * f0.shares <= d * f0.fund
  }

  lemma WorthIsPart(f0: Fund, d: nat, c: int)
    requires c >= Worth(f0, d)
    ensures NoLess(f0, d, c, 1)
  {
    if f0.fund > 0 && f0.shares > 0 {
      ConvertedIsPart(d, f0.fund, f0.shares);
      MulMono(f0.shares, Worth(f0, d) + 1, c + 1);
    }
  }

  lemma WorthOfTwo(f0: Fund, d: nat, d': nat, c: int)
    requires c >= Worth(f0, d) + Worth(f0, d')
    ensures NoLess(f0, d + d', c, 2)
  {
    if f0.fund > 0 && f0.shares > 0 {
      hide Worth;
      var w := Worth(f0, d);
      WorthIsPart(f0, d, w);
      WorthIsPart(f0, d', c - w);
      assert (w + 1) * f0.shares + (c - w + 1) * f0.shares == (c + 2) * f0.shares;
      assert d * f0.fund + d' * f0.fund == (d + d') * f0.fund;
    }
  }

  lemma WorthNothing(f0: Fund)
    ensures Worth(f0, 0) == 0
  {
    CashingNothing(f0.fund, f0.shares);
  }

  lemma LiquidServedNone(accounts: Accounts, routes: Routes, amount: nat, f0: Fund)
    ensures LiquidServed(accounts, accounts, routes, routes.Keys, amount, f0)
  {
    WorthNothing(f0);
  }

  lemma LiquidServedOn(before: Accounts, after: Accounts, routes: Routes, left: set<Name>, amount: nat, f0: Fund,
      x: Name, c: nat)
    requires LiquidServed(before, after, routes, left, amount, f0) && x in left && x in routes && x in before
    requires c >= Worth(f0, LiquidPart(routes, amount, x)) && (LiquidPart(routes, amount, x) == 0 ==> c == 0)
    ensures x in after
    ensures var after' := after[x := after[x].(balance := after[x].balance + c)];
      LiquidServed(before, after', routes, left - {x}, amount, f0) && Total(after', VestsOf()) == Total(after,
          VestsOf()) && Total(after', BalanceOf()) == Total(after, BalanceOf()) + c
  {
    hide Total, Part, Converted, Worth;
    WorthNothing(f0);
    var a := after[x].(balance := after[x].balance + c);
    TotalPut(after, VestsOf(), x, a);
    TotalPut(after, BalanceOf(), x, a);
    assert Paid(before[x], a, LiquidPart(routes, amount, x), f0);
  }

  lemma ServedNoLess(before: Accounts, after: Accounts, routes: Routes, amount: nat, f0: Fund)
    requires LiquidServed(before, after, routes, {}, amount, f0)
    ensures forall x | x in before :: NoLess(f0, LiquidPart(routes, amount, x), after[x].balance - before[x].balance, 1)
  {
    hide NoLess, Worth, LiquidPart;
    forall x | x in before
      ensures NoLess(f0, LiquidPart(routes, amount, x), after[x].balance - before[x].balance, 1) {
      assert Paid(before[x], after[x], LiquidPart(routes, amount, x), f0);
      WorthIsPart(f0, LiquidPart(routes, amount, x), after[x].balance - before[x].balance);
    }
  }

  // ---- The payout ----------------------------------------------------------------------------

  /** Some conversion of the payout takes a thousand shares or more out of an empty fund. */
  ghost predicate Overdraws(a: Account, amount: nat, f: Fund) {
    && f.fund == 0
    && (|| (exists x | x in a.routes :: LiquidPart(a.routes, amount, x) >= 1_000)
        || Rest(a.routes, amount) >= 1_000)
  }

  lemma CashedNothing(f: Fund)
    ensures Cashed(f, f)
  {
  }

  lemma PartsLeft(routes: Routes, left: set<Name>, amount: nat)
    ensures Sum(left, Entry(routes, PartOf(amount, false))) >= 0
  {
    SumZero(left, _ => 0);
    SumMono(left, _ => 0, Entry(routes, PartOf(amount, false)));
  }

  lemma LiquidUnserved(before: Accounts, after: Accounts, routes: Routes, left: set<Name>, amount: nat, f0: Fund,
      x: Name)
    requires LiquidServed(before, after, routes, left, amount, f0) && LiquidPart(routes, amount, x) == 0
    ensures LiquidServed(before, after, routes, left - {x}, amount, f0) && !Overdraft(f0, LiquidPart(routes, amount, x))
  {
  }

  /** Both passes are done. */
  ghost predicate Served(before: Accounts, after: Accounts, routes: Routes, amount: nat, f0: Fund) {
    && after.Keys == before.Keys
    && forall x | x in before :: ServedOne(before[x], after[x], x, routes, amount, f0)
  }

  ghost predicate ServedOne(b: Account, a: Account, x: Name, routes: Routes, amount: nat, f0: Fund) {
    && a == b.(vests := b.vests + AutoPart(routes, amount, x), balance := a.balance)
    && a.balance >= b.balance + Worth(f0, LiquidPart(routes, amount, x))
    && (LiquidPart(routes, amount, x) == 0 ==> a.balance == b.balance)
  }

  /** One conversion after others: it is refused, keeps an empty fund empty, and is worth, as at the first state. */
  lemma OneCashed(f0: Fund, f1: Fund, d: nat)
    requires Cashed(f0, f1) && d <= f1.shares && (f0.fund == 0 ==> f1.fund == 0)
    ensures Converted(d, f1.fund, f1.shares) <= f1.fund <==> !Overdraft(f0, d)
    ensures !Overdraft(f0, d) ==> Cashed(f0, Cash(f1, d)) && (f0.fund == 0 ==> Cash(f1, d).fund == 0)
    ensures !Overdraft(f0, d) ==> Converted(d, f1.fund, f1.shares) >= Worth(f0, d)
    ensures d == 0 ==> Converted(d, f1.fund, f1.shares) == 0
  {
    CashingNothing(f1.fund, f1.shares);
    CashIs(f1, d);
    if d > 0 && f0.fund > 0 {
      assert f1.fund > 0;
    }
    if !Overdraft(f0, d) {
      CashedTrans(f0, f1, Cash(f1, d));
      CashedNoWorse(f0, f1, d);
    }
  }

  lemma OverdrawsWhen(a: Account, amount: nat, f: Fund)
    requires RoutesFit(a.routes)
    ensures var rest := Rest(a.routes, amount);
      && rest >= 0
      && (Overdraws(a, amount, f) <==>
            (exists x | x in a.routes :: Overdraft(f, LiquidPart(a.routes, amount, x))) || Overdraft(f, rest))
  {
    hide Total, Part;
    PartsFit(a.routes, amount);
    if x :| x in a.routes && LiquidPart(a.routes, amount, x) >= 1_000 && f.fund == 0 {
      assert Overdraft(f, LiquidPart(a.routes, amount, x));
    }
    if x :| x in a.routes && Overdraft(f, LiquidPart(a.routes, amount, x)) {
      assert LiquidPart(a.routes, amount, x) >= 1_000;
    }
  }

  lemma OkRoutes(accounts: Accounts, from: Name, now: nat)
    requires AccountsOk(accounts) && from in accounts && accounts[from].next <= now && now + WEEK < NEVER
    ensures RoutesFit(accounts[from].routes) && accounts[from].routes.Keys <= accounts.Keys
    ensures accounts[from].plan.rate > 0
  {
    assert AccountOk(accounts[from], accounts.Keys);
  }

  /** What is left of a payout when all routes are served. */
  ghost function Rest(routes: Routes, amount: nat): int {
    amount - Parts(routes, amount, true) - Parts(routes, amount, false)
  }

  /** One account after a payout of `amount` by an account with these routes. */
  ghost predicate AfterPaying(b: Account, a: Account, x: Name, from: Name, routes: Routes, amount: nat, f0: Fund) {
    var liquid := LiquidPart(routes, amount, x);
    var rest := if x == from && Rest(routes, amount) > 0 then Rest(routes, amount) else 0;
    && a == b.(vests := a.vests, balance := a.balance, plan := a.plan, next := a.next, payouts := a.payouts)
    && a.vests == b.vests + AutoPart(routes, amount, x) - (if x == from then amount else 0)
    && a.balance >= b.balance + Worth(f0, liquid) + Worth(f0, rest)
    && (liquid == 0 && rest == 0 ==> a.balance == b.balance)
    && a.plan == (if x == from then AfterPayout(b.plan, amount, a.vests) else b.plan)
    && a.next == (if x != from then b.next else if a.plan.rate == 0 then NEVER else b.next + WEEK)
    && a.payouts == (if x == from then b.payouts + [amount] else b.payouts)
  }

  function DueFrom(a: Account): nat
    requires a.plan.rate > 0
  {
    Due(a.vests, a.plan)
  }

  ghost predicate PaidOut(before: Accounts, after: Accounts, from: Name, f0: Fund)
    requires from in before && before[from].plan.rate > 0
  {
    && after.Keys == before.Keys
    && forall x | x in before ::
         AfterPaying(before[x], after[x], x, from, before[from].routes, Due(before[from].vests, before[from].plan), f0)
  }

  /**
   What every account got of a payout: no less than its part was worth before, as a liquid route or as
   what is left for the paying account itself; without routes, no more either.
   */
  ghost predicate FairlyPaid(before: Accounts, after: Accounts, from: Name, f0: Fund)
    requires from in before && before[from].plan.rate > 0 && after.Keys == before.Keys
  {
    var routes, amount := before[from].routes, DueFrom(before[from]);
    && (forall x | x in before :: GotWorth(before[x], after[x], x, from, routes, amount, f0))
    && (routes == map[] ==>
          var got := after[from].balance - before[from].balance;
          NoLess(f0, amount, got, 1) && NoMore(f0, amount, got))
  }

  ghost predicate GotWorth(b: Account, a: Account, x: Name, from: Name, routes: Routes, amount: nat, f0: Fund) {
    var got, liquid := a.balance - b.balance, LiquidPart(routes, amount, x);
    && (x != from ==> NoLess(f0, liquid, got, 1))
    && (x == from ==> NoLess(f0, liquid + Rest(routes, amount), got, if liquid > 0 then 2 else 1))
  }

  lemma PaidGotWorth(b: Account, a: Account, x: Name, from: Name, routes: Routes, amount: nat, f0: Fund)
    requires AfterPaying(b, a, x, from, routes, amount, f0) && Rest(routes, amount) >= 0
    ensures GotWorth(b, a, x, from, routes, amount, f0)
  {
    hide NoLess, Worth, LiquidPart, Rest, AfterPayout, AutoPart;
    var got, liquid := a.balance - b.balance, LiquidPart(routes, amount, x);
    WorthNothing(f0);
    if x != from {
      WorthIsPart(f0, liquid, got);
    } else if liquid > 0 {
      WorthOfTwo(f0, liquid, Rest(routes, amount), got);
    } else {
      WorthIsPart(f0, Rest(routes, amount), got);
    }
  }

  lemma PaidIsFair(before: Accounts, after: Accounts, from: Name, f0: Fund, f1: Fund)
    requires from in before && before[from].plan.rate > 0 && PaidOut(before, after, from, f0)
    requires RoutesFit(before[from].routes) && Cashed(f0, f1)
    requires var a := before[from]; f1.shares == f0.shares - DueFrom(a) + Parts(a.routes, DueFrom(a), true)
    requires Total(after, BalanceOf()) + f1.fund == Total(before, BalanceOf()) + f0.fund
    ensures FairlyPaid(before, after, from, f0)
  {
    hide NoLess, NoMore, Due, RoutesFit, AfterPaying, GotWorth, Total, Cashed, Rest, LiquidPart, Parts;
    var routes, amount := before[from].routes, DueFrom(before[from]);
    RestNonneg(routes, amount);
    forall x | x in before ensures GotWorth(before[x], after[x], x, from, routes, amount, f0) {
      PaidGotWorth(before[x], after[x], x, from, routes, amount, f0);
    }
    if routes == map[] {
      NoParts(amount);
      forall x | x in before && x != from ensures after[x].balance == before[x].balance {
        PaidNothing(before[x], after[x], x, from, amount, f0);
      }
      BalanceMoved(before, after, from);
      UndilutedNoMore(f0, f1, amount, after[from].balance - before[from].balance);
      InFull(before[from], after[from], from, amount, f0);
    }
  }

  lemma PaidNothing(b: Account, a: Account, x: Name, from: Name, amount: nat, f0: Fund)
    requires AfterPaying(b, a, x, from, map[], amount, f0) && x != from
    ensures a.balance == b.balance
  {
    hide Worth, AfterPayout, Rest;
  }

  lemma InFull(b: Account, a: Account, from: Name, amount: nat, f0: Fund)
    requires GotWorth(b, a, from, from, map[], amount, f0)
    ensures NoLess(f0, amount, a.balance - b.balance, 1)
  {
    hide NoLess;
    NoParts(amount);
  }

  lemma UndilutedNoMore(f0: Fund, f1: Fund, amount: nat, got: int)
    requires Cashed(f0, f1) && f1.fund == f0.fund - got && f1.shares == f0.shares - amount
    ensures NoMore(f0, amount, got)
  {
    assert (f0.fund - got) * f0.shares == f0.fund * f0.shares - got * f0.shares;
    assert f0.fund * (f0.shares - amount) == f0.fund * f0.shares - amount * f0.fund;
  }

  lemma BalanceMoved(before: Accounts, after: Accounts, from: Name)
    requires from in before && after.Keys == before.Keys
    requires forall x | x in before && x != from :: after[x].balance == before[x].balance
    ensures Total(after, BalanceOf()) == Total(before, BalanceOf()) + after[from].balance - before[from].balance
  {
    hide Sum;
    SumRemove(before.Keys, Entry(before, BalanceOf()), from);
    SumRemove(after.Keys, Entry(after, BalanceOf()), from);
    SumExt(before.Keys - {from}, Entry(before, BalanceOf()), Entry(after, BalanceOf()));
  }

  lemma NoParts(amount: nat)
    ensures var none: Routes := map[];
      Parts(none, amount, true) == Parts(none, amount, false) == 0 && Rest(none, amount) == amount
  {
    var none: Routes := map[];
    TotalNone(none, PartOf(amount, true));
    TotalNone(none, PartOf(amount, false));
  }

  lemma HoldsAtMost(accounts: Accounts, from: Name)
    requires from in accounts
    ensures accounts[from].vests <= Total(accounts, VestsOf())
  {
    TotalAtLeast(accounts, VestsOf(), from);
  }

  lemma RestNonneg(routes: Routes, amount: nat)
    requires RoutesFit(routes)
    ensures Rest(routes, amount) >= 0
  {
    PartsFit(routes, amount);
  }

  lemma ServedIs(before: Accounts, middle: Accounts, late: Accounts, routes: Routes, amount: nat, f0: Fund)
    requires AutoServed(before, middle, routes, {}, amount) && LiquidServed(middle, late, routes, {}, amount, f0)
    ensures Served(before, late, routes, amount, f0)
  {
    hide Part, Worth;
    forall x | x in before ensures x in late && ServedOne(before[x], late[x], x, routes, amount, f0) {
      assert Paid(middle[x], late[x], LiquidPart(routes, amount, x), f0);
    }
  }

  /** The paying account after its payout. */
  function Finished(a: Account, amount: nat, converted: nat): Account
    requires amount <= a.vests
  {
    var left := a.vests - amount;
    var plan := AfterPayout(a.plan, amount, left);
    a.(vests := left, balance := a.balance + converted, plan := plan,
       next := if plan.rate == 0 then NEVER else a.next + WEEK, payouts := a.payouts + [amount])
  }

  lemma FinishedTotals(accounts: Accounts, from: Name, amount: nat, converted: nat)
    requires from in accounts && amount <= accounts[from].vests
    ensures var after := accounts[from := Finished(accounts[from], amount, converted)];
      Total(after, VestsOf()) == Total(accounts, VestsOf()) - amount && Total(after, BalanceOf()) == Total(accounts,
          BalanceOf()) + converted
  {
    hide Total, AfterPayout;
    var a := Finished(accounts[from], amount, converted);
    TotalPut(accounts, VestsOf(), from, a);
    TotalPut(accounts, BalanceOf(), from, a);
  }

  /** The same payout, seen by one account. */
  lemma AfterPayingIs(b: Account, late: Account, x: Name, from: Name, routes: Routes, amount: nat, f0: Fund,
      converted: nat)
    requires ServedOne(b, late, x, routes, amount, f0)
    requires Rest(routes, amount) >= 0 && converted >= Worth(f0, Rest(routes, amount))
    requires (Rest(routes, amount) == 0 ==> converted == 0)
    requires x == from ==> amount <= late.vests
    ensures AfterPaying(b, if x == from then Finished(late, amount, converted) else late, x, from, routes, amount, f0)
  {
    hide Rest, Worth, AutoPart, LiquidPart, AfterPayout;
    WorthNothing(f0);
  }

  lemma PaidOutIs(before: Accounts, late: Accounts, from: Name, f0: Fund, amount: nat, converted: nat)
    requires from in before && before[from].plan.rate > 0 && amount == Due(before[from].vests, before[from].plan)
    requires Served(before, late, before[from].routes, amount, f0)
    requires Rest(before[from].routes, amount) >= 0 && converted >= Worth(f0, Rest(before[from].routes, amount))
    requires Rest(before[from].routes, amount) == 0 ==> converted == 0
    ensures from in late && amount <= late[from].vests
    ensures PaidOut(before, late[from := Finished(late[from], amount, converted)], from, f0)
  {
    hide Due, ServedOne, Worth, Rest, AfterPaying, Finished;
    var routes := before[from].routes;
    assert amount <= late[from].vests by {
      assert ServedOne(before[from], late[from], from, routes, amount, f0);
      StillHolds(before[from], late[from], from, routes, amount, f0);
    }
    forall x | x in before ensures AfterPaying(before[x],
        if x == from then Finished(late[x], amount, converted) else late[x], x, from, routes, amount, f0) {
      assert ServedOne(before[x], late[x], x, routes, amount, f0);
      AfterPayingIs(before[x], late[x], x, from, routes, amount, f0, converted);
    }
  }

  lemma StillHolds(b: Account, a: Account, x: Name, routes: Routes, amount: nat, f0: Fund)
    requires ServedOne(b, a, x, routes, amount, f0)
    ensures a.vests >= b.vests
  {
  }

  /** A payout keeps every account in order, its power-down included. */
  lemma PaidOutOk(before: Accounts, after: Accounts, from: Name, f0: Fund, now: nat)
    requires AccountsOk(before) && from in before && before[from].plan.rate > 0 && PaidOut(before, after, from, f0)
    requires before[from].next <= now && now + WEEK < NEVER
    ensures AccountsOk(after)
  {
    hide RoutesFit, Due, Worth, Rest, AutoPart, LiquidPart, OnTrack, AfterPayout;
    var routes, amount := before[from].routes, Due(before[from].vests, before[from].plan);
    forall x | x in after ensures AccountOk(after[x], after.Keys) {
      assert AccountOk(before[x], before.Keys);
      assert AfterPaying(before[x], after[x], x, from, routes, amount, f0);
      if x == from {
        PayoutOnTrack(before[x].plan, before[x].vests, before[x].payouts, AutoPart(routes, amount, x));
      } else {
        StaysOnTrack(before[x].plan, before[x].vests, after[x].vests, before[x].payouts);
      }
    }
  }

  /** A backed fund is never overdrawn by a payout: only an empty fund with shares outstanding is. */
  lemma BackedNeverOverdraws(a: Account, amount: nat, f: Fund)
    requires RoutesFit(a.routes) && amount <= f.shares
    ensures Overdraws(a, amount, f) ==> f.fund == 0 && f.shares > 0
  {
    hide Total, Part;
    PartsFit(a.routes, amount);
    if f.shares == 0 {
      forall x | x in a.routes ensures LiquidPart(a.routes, amount, x) == 0 {
        NothingOfNothing(a.routes[x].percent);
      }
    }
  }

  lemma NothingOfNothing(percent: nat)
    ensures Part(0, percent) == 0
  {
    assert 0 * percent == 0;
  }

  /** For instance a payout of a thousand shares or more without routes, at the founding price. */
  lemma FoundingPriceOverdraws(a: Account, amount: nat, shares: nat)
    requires a.routes == map[] && 1_000 <= amount <= shares
    ensures Overdraws(a, amount, Fund(0, shares)) && Converted(amount, 0, shares) > 0
  {
    TotalNone(a.routes, PartOf(amount, true));
    TotalNone(a.routes, PartOf(amount, false));
    CashingUnbacked(amount, shares);
  }

  // ---- Changing routes and plans -------------------------------------------------------------

  lemma PercentsLeft(routes: Routes, left: set<Name>)
    ensures Sum(left, Entry(routes, PercentOf())) >= 0
  {
    SumZero(left, _ => 0);
    SumMono(left, _ => 0, Entry(routes, PercentOf()));
  }

  /** An account with one route set to a percentage; zero removes it. */
  function Rerouted(a: Account, to: Name, percent: nat, autoVest: bool): Account {
    var routes := if percent == 0 then a.routes - {to} else a.routes[to := Route(percent, autoVest)];
    a.(routes := routes, routeCount := |routes|)
  }

  /** What is asked of a change of routes. */
  ghost predicate RouteAllowed(accounts: Accounts, from: Name, to: Name, percent: nat, autoVest: bool, treasury: Name) {
    && from in accounts && to in accounts && to != treasury && percent <= FULL
    && (to !in accounts[from].routes ==> percent > 0 && |accounts[from].routes| < MAX_ROUTES)
    && Total(Rerouted(accounts[from], to, percent, autoVest).routes, PercentOf()) <= FULL
  }

  /** One route more cannot overflow a 16-bit sum, and the route count stays right. */
  lemma RerouteAdds(a: Account, to: Name, percent: nat, autoVest: bool)
    requires RoutesFit(a.routes) && a.routeCount == |a.routes| && percent <= FULL && (to !in a.routes ==> percent > 0)
    ensures Total(Rerouted(a, to, percent, autoVest).routes, PercentOf()) < 65_536
    ensures Rerouted(a, to, percent, autoVest).routeCount ==
      a.routeCount + (if to !in a.routes then 1 else 0) - (if percent == 0 then 1 else 0)
  {
    hide Total;
    if percent == 0 {
      TotalDrop(a.routes, PercentOf(), to);
      assert (a.routes - {to}).Keys == a.routes.Keys - {to};
      assert |(a.routes - {to}).Keys| == |a.routes - {to}|;
    } else {
      TotalPut(a.routes, PercentOf(), to, Route(percent, autoVest));
      assert a.routes[to := Route(percent, autoVest)].Keys == a.routes.Keys + {to};
      assert |a.routes[to := Route(percent, autoVest)].Keys| == |a.routes[to := Route(percent, autoVest)]|;
    }
    assert |a.routes.Keys| == |a.routes|;
  }

  lemma OneOk(accounts: Accounts, a: Name)
    requires AccountsOk(accounts) && a in accounts
    ensures AccountOk(accounts[a], accounts.Keys) && RoutesFit(accounts[a].routes)
  {
  }

  lemma MoreVestsOk(accounts: Accounts, x: Name, more: nat)
    requires AccountsOk(accounts) && x in accounts
    ensures AccountsOk(accounts[x := accounts[x].(vests := accounts[x].vests + more)])
  {
    hide OnTrack, RoutesFit;
    OneOk(accounts, x);
    var a := accounts[x];
    StaysOnTrack(a.plan, a.vests, a.vests + more, a.payouts);
    PutKeepsOk(accounts, x, a.(vests := a.vests + more));
  }

  lemma PutKeepsOk(accounts: Accounts, x: Name, a: Account)
    requires AccountsOk(accounts) && x in accounts && AccountOk(a, accounts.Keys)
    ensures AccountsOk(accounts[x := a])
  {
    assert accounts[x := a].Keys == accounts.Keys;
  }

  /** The three ways a route changes, and the sum they leave. */
  lemma Reroutes(accounts: Accounts, from: Name, to: Name, percent: nat, autoVest: bool)
    requires AccountsOk(accounts) && from in accounts && percent <= FULL
    ensures accounts[from].routeCount == |accounts[from].routes|
    ensures (to in accounts[from].routes ==> accounts[from].routeCount > 0)
    ensures var a := accounts[from]; to !in a.routes && percent > 0 ==>
      Rerouted(a, to, percent, autoVest) ==
        a.(routes := a.routes[to := Route(percent, autoVest)], routeCount := a.routeCount + 1)
    ensures var a := accounts[from]; to in a.routes && percent == 0 ==>
      && a.routeCount > 0
      && Rerouted(a, to, percent, autoVest) == a.(routes := a.routes - {to}, routeCount := a.routeCount - 1)
    ensures var a := accounts[from]; to in a.routes && percent > 0 ==>
      Rerouted(a, to, percent, autoVest) == a.(routes := a.routes[to := Route(percent, autoVest)])
    ensures (to !in accounts[from].routes ==> percent > 0) ==>
      Total(Rerouted(accounts[from], to, percent, autoVest).routes, PercentOf()) < 65_536
  {
    hide Total, RoutesFit;
    var a := accounts[from];
    assert AccountOk(a, accounts.Keys);
    if to in a.routes || percent > 0 {
      RerouteAdds(a, to, percent, autoVest);
    }
  }

  lemma RerouteOk(a: Account, names: set<Name>, to: Name, percent: nat, autoVest: bool)
    requires AccountOk(a, names) && to in names && percent <= FULL
    requires to !in a.routes ==> percent > 0 && |a.routes| < MAX_ROUTES
    requires Total(Rerouted(a, to, percent, autoVest).routes, PercentOf()) <= FULL
    ensures AccountOk(Rerouted(a, to, percent, autoVest), names)
  {
    hide Total, OnTrack, Rerouted;
    RerouteAdds(a, to, percent, autoVest);
    RerouteFits(a, to, percent, autoVest);
  }

  lemma RerouteFits(a: Account, to: Name, percent: nat, autoVest: bool)
    requires RoutesFit(a.routes) && percent <= FULL
    ensures var r := Rerouted(a, to, percent, autoVest);
      && r == a.(routes := r.routes, routeCount := |r.routes|) && r.routes.Keys <= a.routes.Keys + {to}
      && forall x | x in r.routes :: 0 < r.routes[x].percent <= FULL
  {
    hide Total;
  }

  lemma RouteKept(accounts: Accounts, from: Name, to: Name, percent: nat, autoVest: bool)
    requires AccountsOk(accounts) && from in accounts && to in accounts && percent <= FULL
    requires to !in accounts[from].routes ==> percent > 0 && |accounts[from].routes| < MAX_ROUTES
    requires Total(Rerouted(accounts[from], to, percent, autoVest).routes, PercentOf()) <= FULL
    ensures var after := accounts[from := Rerouted(accounts[from], to, percent, autoVest)];
      && AccountsOk(after) && Total(after, VestsOf()) == Total(accounts, VestsOf())
      && Total(after, BalanceOf()) == Total(accounts, BalanceOf())
  {
    hide Total, OnTrack, RoutesFit, AccountsOk, AccountOk, Rerouted;
    var a := Rerouted(accounts[from], to, percent, autoVest);
    OneOk(accounts, from);
    RerouteOk(accounts[from], accounts.Keys, to, percent, autoVest);
    PutKeepsOk(accounts, from, a);
    RerouteFits(accounts[from], to, percent, autoVest);
    TotalPut(accounts, VestsOf(), from, a);
    TotalPut(accounts, BalanceOf(), from, a);
  }

  function Planned(a: Account, total: nat, now: nat): Account {
    if total == 0 then a.(plan := Plan(0, 0, 0), next := NEVER, payouts := [])
    else a.(plan := Plan(total, 0, Rate(total)), next := now + WEEK, payouts := [])
  }

  lemma PlanKept(accounts: Accounts, from: Name, total: nat, now: nat)
    requires AccountsOk(accounts) && from in accounts && total <= accounts[from].vests && now + WEEK < NEVER
    ensures var after := accounts[from := Planned(accounts[from], total, now)];
      AccountsOk(after) && Total(after, VestsOf()) == Total(accounts, VestsOf())
  {
    hide Total, RoutesFit;
    var a := Planned(accounts[from], total, now);
    assert AccountOk(accounts[from], accounts.Keys);
    if total > 0 {
      StartsOnTrack(total, a.vests);
    }
    PutKeepsOk(accounts, from, a);
    TotalPut(accounts, VestsOf(), from, a);
  }

  lemma KeepsBalances(accounts: Accounts, from: Name, to: Name, percent: nat, autoVest: bool, total: nat, now: nat)
    ensures from in accounts ==>
      var after := accounts[from := Rerouted(accounts[from], to, percent, autoVest)];
      Total(after, BalanceOf()) == Total(accounts, BalanceOf())
    ensures from in accounts ==>
      Total(accounts[from := Planned(accounts[from], total, now)], BalanceOf()) == Total(accounts, BalanceOf())
  {
    hide Total;
    if from in accounts {
      TotalPut(accounts, BalanceOf(), from, Rerouted(accounts[from], to, percent, autoVest));
      TotalPut(accounts, BalanceOf(), from, Planned(accounts[from], total, now));
    }
  }

  /** The accounts after a deposit. */
  function Deposited(accounts: Accounts, from: Name, to: Name, amount: nat, minted: nat): Accounts
    requires from in accounts && to in accounts
  {
    var paid := accounts[from := accounts[from].(balance := accounts[from].balance - amount)];
    paid[to := paid[to].(vests := paid[to].vests + minted)]
  }

  lemma DepositedTotals(accounts: Accounts, from: Name, to: Name, amount: nat, minted: nat)
    requires AccountsOk(accounts) && from in accounts && to in accounts
    ensures var after := Deposited(accounts, from, to, amount, minted);
      && AccountsOk(after) && Total(after, VestsOf()) == Total(accounts, VestsOf()) + minted
      && Total(after, BalanceOf()) == Total(accounts, BalanceOf()) - amount
  {
    hide Total, AccountsOk;
    var a := accounts[from].(balance := accounts[from].balance - amount);
    PutTotals(accounts, from, a);
    var paid := accounts[from := a];
    PutTotals(paid, to, paid[to].(vests := paid[to].vests + minted));
  }

  /** Changing what an account holds changes the totals by the difference. */
  lemma PutTotals(accounts: Accounts, x: Name, a: Account)
    requires AccountsOk(accounts) && x in accounts && a == accounts[x].(balance := a.balance, vests := a.vests)
    requires a.vests >= accounts[x].vests
    ensures var after := accounts[x := a];
      && AccountsOk(after) && Total(after, VestsOf()) == Total(accounts, VestsOf()) + a.vests - accounts[x].vests
      && Total(after, BalanceOf()) == Total(accounts, BalanceOf()) + a.balance - accounts[x].balance
  {
    hide Total, RoutesFit, OnTrack;
    assert AccountOk(accounts[x], accounts.Keys);
    StaysOnTrack(a.plan, accounts[x].vests, a.vests, a.payouts);
    PutKeepsOk(accounts, x, a);
    TotalPut(accounts, VestsOf(), x, a);
    TotalPut(accounts, BalanceOf(), x, a);
  }

  lemma NotDilutedSame(fund: int, shares: int)
    ensures NotDiluted(fund, shares, fund, shares)
  {
  }

  datatype Step =
    | Reroute(from: Name, to: Name, percent: nat, autoVest: bool)
    | Create(name: Name)
    | Withdraw(from: Name, total: nat, delegated: nat)
    | Invest(from: Name, to: Name, amount: nat)
    | Pay(from: Name)
    | BlockAt(time: nat)

  class Pool {
    const treasury: Name
    var accounts: Accounts
    var fund: nat
    var shares: nat
    var now: nat

    ghost predicate Valid()
      reads this
    {
      AccountsOk(accounts) && Total(accounts, VestsOf()) == shares && now + WEEK < NEVER
    }

    /** A chain at its start: balances, but no shares, routes or plans yet. */
    constructor (balances: map<Name, nat>, treasury: Name)
      ensures Valid() && fund == shares == 0 && this.treasury == treasury && accounts.Keys == balances.Keys
      ensures forall a | a in accounts :: accounts[a] == NewAccount(balances[a])
    {
      hide AccountsOk, Total;
      this.treasury := treasury;
      accounts := map a | a in balances :: NewAccount(balances[a]);
      fund, shares, now := 0, 0, 0;
      new;
      FirstAccounts(accounts);
    }

    /** A new account holds nothing. */
    method CreateAccount(name: Name) returns (ok: bool)
      requires Valid()
      modifies `accounts
      ensures Valid() && Total(accounts, BalanceOf()) == old(Total(accounts, BalanceOf()))
      ensures ok <==> name !in old(accounts)
      ensures accounts == if ok then old(accounts)[name := NewAccount(0)] else old(accounts)
    {
      hide Total;
      if name in accounts {
        return false;
      }
      NewAccountOk(accounts, name);
      TotalPut(accounts, VestsOf(), name, NewAccount(0));
      TotalPut(accounts, BalanceOf(), name, NewAccount(0));
      accounts := accounts[name := NewAccount(0)];
      ok := true;
    }

    ghost function FundNow(): Fund
      reads this
    {
      Fund(fund, shares)
    }

    /** The first pass. */
    method DepositShares(routes: Routes, amount: nat) returns (deposited: nat)
      requires routes.Keys <= accounts.Keys
      modifies `accounts
      ensures deposited == Parts(routes, amount, true)
      ensures AutoServed(old(accounts), accounts, routes, {}, amount) && accounts.Keys == old(accounts).Keys
      ensures Total(accounts, VestsOf()) == old(Total(accounts, VestsOf())) + deposited
      ensures Total(accounts, BalanceOf()) == old(Total(accounts, BalanceOf()))
    {
      hide Sum, Total, AutoServed, Part;
      deposited := 0;
      var left := routes.Keys;
      ghost var part := Entry(routes, PartOf(amount, true));
      TotalIs(routes, PartOf(amount, true));
      AutoServedNone(accounts, routes, amount);
      while left != {}
        invariant left <= routes.Keys && deposited == Sum(routes.Keys, part) - Sum(left, part)
        invariant AutoServed(old(accounts), accounts, routes, left, amount) && accounts.Keys == old(accounts).Keys
        invariant Total(accounts, VestsOf()) == old(Total(accounts, VestsOf())) + deposited
        invariant Total(accounts, BalanceOf()) == old(Total(accounts, BalanceOf()))
        decreases left
      {
        var x :| x in left;
        SumRemove(left, part, x);
        AutoServedOn(old(accounts), accounts, routes, left, amount, x);
        if routes[x].autoVest {
          var toDeposit := Part(amount, routes[x].percent);
          deposited := deposited + toDeposit;
          if toDeposit > 0 {
            accounts := accounts[x := accounts[x].(vests := accounts[x].vests + toDeposit)];
          }
        }
        left := left - {x};
      }
      SumZero(left, part);
    }

    /** One conversion and its payment. */
    method PayOne(x: Name, d: nat) returns (ok: bool)
      requires x in accounts && d <= shares
      modifies `accounts, `fund, `shares
      ensures ok <==> Converted(d, old(fund), old(shares)) <= old(fund)
      ensures ok ==> FundNow() == Cash(old(FundNow()), d)
      ensures ok ==>
        var a := old(accounts)[x];
        accounts == old(accounts)[x := a.(balance := a.balance + Converted(d, old(fund), old(shares)))]
      ensures ok ==>
        var got := accounts[x].balance - old(accounts)[x].balance;
        NoMore(old(FundNow()), d, got) && NoLess(old(FundNow()), d, got, 1)
    {
      ConvertedIsPart(d, fund, shares);
      var converted := Converted(d, fund, shares);
      if converted > fund {
        return false;
      }
      if d > 0 {
        accounts := accounts[x := accounts[x].(balance := accounts[x].balance + converted)];
        fund := fund - converted;
        shares := shares - d;
      } else {
        CashingNothing(fund, shares);
      }
      ok := true;
    }

    /** The routes outside `left` were looked at in the second pass, and so many shares cashed. */
    ghost predicate Paying(before: Accounts, f0: Fund, routes: Routes, left: set<Name>, amount: nat, deposited: nat)
      reads `accounts, `fund, `shares
    {
      && LiquidServed(before, accounts, routes, left, amount, f0) && accounts.Keys == before.Keys
      && shares == f0.shares - deposited && Cashed(f0, Fund(fund, shares)) && (f0.fund == 0 ==> fund == 0)
      && Total(accounts, VestsOf()) == Total(before, VestsOf())
      && Total(accounts, BalanceOf()) + fund == Total(before, BalanceOf()) + f0.fund
    }

    /** One route of the second pass. */
    method PayRoute(x: Name, routes: Routes, amount: nat, ghost before: Accounts, ghost f0: Fund, ghost left: set<Name>,
        ghost deposited: nat) returns (paid: bool, toDeposit: nat)
      requires Paying(before, f0, routes, left, amount, deposited) && x in left && x in routes && x in before
      requires LiquidPart(routes, amount, x) <= shares
      modifies `accounts, `fund, `shares
      ensures paid <==> !Overdraft(f0, LiquidPart(routes, amount, x))
      ensures toDeposit == LiquidPart(routes, amount, x)
      ensures paid ==> Paying(before, f0, routes, left - {x}, amount, deposited + toDeposit)
    {
      hide Sum, Total, LiquidServed, Part, Cashed, Converted, Overdraft, Worth;
      paid, toDeposit := true, 0;
      if routes[x].autoVest {
        LiquidUnserved(before, accounts, routes, left, amount, f0, x);
        return;
      }
      toDeposit := Part(amount, routes[x].percent);
      OneCashed(f0, FundNow(), toDeposit);
      if !Overdraft(f0, toDeposit) {
        LiquidServedOn(before, accounts, routes, left, amount, f0, x, Converted(toDeposit, fund, shares));
      }
      paid := PayOne(x, toDeposit);
    }

    /** The second pass. It stops when a conversion would take more than the fund holds. */
    method PayLiquid(routes: Routes, amount: nat) returns (ok: bool, deposited: nat)
      requires routes.Keys <= accounts.Keys && Parts(routes, amount, false) <= shares
      modifies `accounts, `fund, `shares
      ensures ok <==> forall x | x in routes :: !Overdraft(old(FundNow()), LiquidPart(routes, amount, x))
      ensures ok ==> deposited == Parts(routes, amount, false) && shares == old(shares) - deposited
      ensures ok ==> Cashed(old(FundNow()), FundNow())
      ensures ok ==> LiquidServed(old(accounts), accounts, routes, {}, amount, old(FundNow()))
      ensures ok ==> forall x | x in old(accounts) ::
        NoLess(old(FundNow()), LiquidPart(routes, amount, x), accounts[x].balance - old(accounts)[x].balance, 1)
      ensures ok ==> accounts.Keys == old(accounts).Keys
      ensures ok ==> Total(accounts, VestsOf()) == old(Total(accounts, VestsOf()))
      ensures ok ==> Total(accounts, BalanceOf()) + fund == old(Total(accounts, BalanceOf()) + fund)
      ensures ok && old(fund) == 0 ==> fund == 0
    {
      hide Sum, Total, LiquidServed, Part, Cashed, Overdraft, NoLess;
      deposited := 0;
      var left := routes.Keys;
      ghost var f0 := FundNow();
      ghost var part := Entry(routes, PartOf(amount, false));
      TotalIs(routes, PartOf(amount, false));
      LiquidServedNone(accounts, routes, amount, f0);
      CashedNothing(f0);
      while left != {}
        invariant left <= routes.Keys && deposited == Sum(routes.Keys, part) - Sum(left, part)
        invariant forall x | x in routes && x !in left :: !Overdraft(f0, LiquidPart(routes, amount, x))
        invariant Paying(old(accounts), f0, routes, left, amount, deposited)
        decreases left
      {
        var x :| x in left;
        SumRemove(left, part, x);
        PartsLeft(routes, left - {x}, amount);
        var paid, toDeposit := PayRoute(x, routes, amount, old(accounts), f0, left, deposited);
        if !paid {
          return false, deposited;
        }
        deposited := deposited + toDeposit;
        left := left - {x};
      }
      SumZero(left, part);
      ServedNoLess(old(accounts), accounts, routes, amount, f0);
      ok := true;
    }

    /** Both passes; returns what is left to be paid to the account itself. */
    method ServeRoutes(routes: Routes, amount: nat) returns (ok: bool, rest: nat)
      requires RoutesFit(routes) && routes.Keys <= accounts.Keys && amount <= shares
      modifies `accounts, `fund, `shares
      ensures ok <==> forall x | x in routes :: !Overdraft(old(FundNow()), LiquidPart(routes, amount, x))
      ensures ok ==> rest == Rest(routes, amount) && rest <= shares == old(shares) - Parts(routes, amount, false)
      ensures ok ==> Cashed(old(FundNow()), FundNow())
      ensures ok ==> Served(old(accounts), accounts, routes, amount, old(FundNow()))
      ensures ok ==> accounts.Keys == old(accounts).Keys
      ensures ok ==> Total(accounts, VestsOf()) == old(Total(accounts, VestsOf())) + Parts(routes, amount, true)
      ensures ok ==> Total(accounts, BalanceOf()) + fund == old(Total(accounts, BalanceOf()) + fund)
      ensures ok && old(fund) == 0 ==> fund == 0
    {
      hide Total, AutoServed, LiquidServed, Cashed, Overdraft, RoutesFit, Parts;
      PartsFit(routes, amount);
      var asVests := DepositShares(routes, amount);
      ghost var middle := accounts;
      var asLiquid;
      rest := 0;
      ok, asLiquid := PayLiquid(routes, amount);
      if ok {
        rest := amount - asLiquid - asVests;
        assert Served(old(accounts), accounts, routes, amount, old(FundNow())) by { ServedIs(old(accounts), middle,
            accounts, routes, amount, old(FundNow())); }
      }
    }

    /**
     One payout. It takes what is due from the account, serves its routes and pays the rest out
     liquid. Everything it does is stated against the state before: shares and tokens are conserved
     and what remains in the fund is worth no less per share.
     */
    method Payout(from: Name) returns (ok: bool)
      requires Valid() && from in accounts && accounts[from].next <= now
      modifies `accounts, `fund, `shares
      ensures Valid() && accounts.Keys == old(accounts).Keys
      ensures ok <==> !Overdraws(old(accounts)[from], DueFrom(old(accounts)[from]), old(FundNow()))
      ensures !ok ==> accounts == old(accounts) && fund == old(fund) && shares == old(shares)
      ensures Total(accounts, BalanceOf()) + fund == old(Total(accounts, BalanceOf()) + fund)
      ensures Cashed(old(FundNow()), FundNow())
      ensures ok ==>
        var a := old(accounts)[from]; shares == old(shares) - DueFrom(a) + Parts(a.routes, DueFrom(a), true)
      ensures ok ==> PaidOut(old(accounts), accounts, from, old(FundNow()))
      ensures ok ==> FairlyPaid(old(accounts), accounts, from, old(FundNow()))
    {
      hide Total, Cashed, Converted, AccountsOk, Overdraft, Overdraws, Due, Finished, PaidOut, RoutesFit, Served,
           Parts, Worth, FairlyPaid, LiquidPart, AccountOk, OnTrack, VestsOf, BalanceOf;
      var before, fund0, shares0 := accounts, fund, shares;
      ghost var f0 := FundNow();
      var plan, routes := accounts[from].plan, accounts[from].routes;
      OkRoutes(accounts, from, now);
      CashedNothing(f0);
      var toWithdraw := Due(accounts[from].vests, plan);
      HoldsAtMost(accounts, from);
      OverdrawsWhen(before[from], toWithdraw, f0);
      var toConvert;
      ok, toConvert := ServeRoutes(routes, toWithdraw);
      if ok {
        OneCashed(f0, FundNow(), toConvert);
        var converted := Converted(toConvert, fund, shares);
        ok := converted <= fund;
        if ok {
          PaidOutIs(before, accounts, from, f0, toWithdraw, converted);
          FinishedTotals(accounts, from, toWithdraw, converted);
          accounts := accounts[from := Finished(accounts[from], toWithdraw, converted)];
          fund := fund - converted;
          shares := shares - toConvert;
          PaidOutOk(before, accounts, from, f0, now);
          PaidIsFair(before, accounts, from, f0, FundNow());
          return;
        }
      }
      accounts, fund, shares := before, fund0, shares0;
    }

    /** The percentages of an account's routes, added in 16 bits. */
    method TotalPercent(routes: Routes) returns (total: nat)
      requires Total(routes, PercentOf()) < 65_536
      ensures total == Total(routes, PercentOf())
    {
      hide Sum;
      ghost var percent := Entry(routes, PercentOf());
      total := 0;
      var left := routes.Keys;
      while left != {}
        invariant left <= routes.Keys && total == Sum(routes.Keys, percent) - Sum(left, percent)
        decreases left
      {
        var x :| x in left;
        SumRemove(left, percent, x);
        PercentsLeft(routes, left - {x});
        total := (total + routes[x].percent) % 65_536;
        left := left - {x};
      }
      SumZero(left, percent);
    }

    /** Creates, changes or removes a route. The sum of percentages is checked after the change. */
    method SetRoute(from: Name, to: Name, percent: nat, autoVest: bool) returns (ok: bool)
      requires Valid()
      modifies `accounts
      ensures Valid()
      ensures ok <==> old(RouteAllowed(accounts, from, to, percent, autoVest, treasury))
      ensures !ok ==> accounts == old(accounts)
      ensures ok ==> from in old(accounts)
      ensures ok ==> accounts == old(accounts)[from := Rerouted(old(accounts)[from], to, percent, autoVest)]
    {
      hide Total, AccountsOk, Rerouted;
      if percent > FULL || from !in accounts || to !in accounts || to == treasury {
        return false;
      }
      var a := accounts[from];
      if to !in a.routes {
        Reroutes(accounts, from, to, percent, autoVest);
        if percent == 0 || a.routeCount >= MAX_ROUTES {
          return false;
        }
        a := a.(routes := a.routes[to := Route(percent, autoVest)], routeCount := a.routeCount + 1);
      } else if percent == 0 {
        Reroutes(accounts, from, to, percent, autoVest);
        a := a.(routes := a.routes - {to}, routeCount := a.routeCount - 1);
      } else {
        Reroutes(accounts, from, to, percent, autoVest);
        a := a.(routes := a.routes[to := Route(percent, autoVest)]);
      }
      var total := TotalPercent(a.routes);
      if total > FULL {
        return false;
      }
      RouteKept(accounts, from, to, percent, autoVest);
      accounts := accounts[from := a];
      ok := true;
    }

    /** Starts, changes or stops a power-down of shares that are not delegated. */
    method WithdrawVesting(from: Name, total: nat, delegated: nat) returns (ok: bool)
      requires Valid()
      modifies `accounts
      ensures Valid()
      ensures ok <==> from in old(accounts) && old(accounts)[from].vests - delegated >= total
                      && old(accounts)[from].plan.rate != if total == 0 then 0 else Rate(total)
      ensures !ok ==> accounts == old(accounts)
      ensures ok ==> accounts == old(accounts)[from := Planned(old(accounts)[from], total, now)]
    {
      hide Total, AccountsOk, Rate;
      if from !in accounts || accounts[from].vests - delegated < total {
        return false;
      }
      var a := accounts[from];
      var rate := if total == 0 then 0 else Rate(total);
      if a.plan.rate == rate {
        return false;
      }
      PlanKept(accounts, from, total, now);
      if total == 0 {
        a := a.(plan := Plan(0, 0, 0), next := NEVER, payouts := []);
      } else {
        a := a.(plan := Plan(total, 0, rate), next := now + WEEK, payouts := []);
      }
      accounts := accounts[from := a];
      ok := true;
    }

    /** Shares that were claimed, and the tokens that follow them into the fund. */
    method AddClaimed(name: Name, vests: nat, tokens: nat)
      requires Valid() && name in accounts
      modifies `accounts, `fund, `shares
      ensures Valid() && Total(accounts, BalanceOf()) == old(Total(accounts, BalanceOf()))
      ensures accounts == old(accounts)[name := old(accounts)[name].(vests := old(accounts)[name].vests + vests)]
      ensures fund == old(fund) + tokens && shares == old(shares) + vests
    {
      hide Total, AccountsOk, AccountOk, OnTrack, RoutesFit;
      var a := accounts[name].(vests := accounts[name].vests + vests);
      MoreVestsOk(accounts, name, vests);
      TotalPut(accounts, VestsOf(), name, a);
      TotalPut(accounts, BalanceOf(), name, a);
      accounts := accounts[name := a];
      fund := fund + tokens;
      shares := shares + vests;
    }

    /** Turns tokens into shares of the fund. */
    method Deposit(from: Name, to: Name, amount: nat) returns (ok: bool)
      requires Valid()
      modifies `accounts, `fund, `shares
      ensures Valid() && Total(accounts, BalanceOf()) + fund == old(Total(accounts, BalanceOf()) + fund)
      ensures ok <==> amount > 0 && from in old(accounts) && to in old(accounts) && to != treasury
                      && old(accounts)[from].balance >= amount
      ensures !ok ==> accounts == old(accounts) && fund == old(fund) && shares == old(shares)
      ensures ok ==> fund == old(fund) + amount && shares == old(shares) + Minted(amount, old(fund), old(shares))
      ensures ok ==> accounts == Deposited(old(accounts), from, to, amount, Minted(amount, old(fund), old(shares)))
      ensures ok ==> Backed(fund, shares) && (old(shares) > 0 ==> NotDiluted(old(fund), old(shares), fund, shares))
      ensures ok ==> var bought := accounts[to].vests - old(accounts)[to].vests;
        if old(fund) == 0 || old(shares) == 0 then bought == 1_000 * amount
        else bought * old(fund) <= amount * old(shares) < (bought + 1) * old(fund)
    {
      hide Total, AccountsOk, Minted;
      if amount == 0 || from !in accounts || to !in accounts || to == treasury || accounts[from].balance < amount {
        return false;
      }
      var minted := Minted(amount, fund, shares);
      MintingBacked(amount, fund, shares);
      MintedIsPart(amount, fund, shares);
      DepositedTotals(accounts, from, to, amount, minted);
      accounts := Deposited(accounts, from, to, amount, minted);
      fund := fund + amount;
      shares := shares + minted;
      ok := true;
    }

    method Execute(step: Step) returns (overdrawn: bool)
      requires Valid()
      modifies `accounts, `fund, `shares, `now
      ensures Valid()
      ensures Backed(old(fund), old(shares)) ==> Backed(fund, shares)
      ensures old(shares) > 0 ==> NotDiluted(old(fund), old(shares), fund, shares)
      ensures Total(accounts, BalanceOf()) + fund == old(Total(accounts, BalanceOf()) + fund)
      ensures overdrawn ==> old(fund) == 0 && old(shares) > 0
    {
      hide Total, AccountsOk, Overdraws, PaidOut;
      CashedNothing(FundNow());
      overdrawn := false;
      match step {
        case Reroute(from, to, percent, autoVest) =>
          KeepsBalances(accounts, from, to, percent, autoVest, 0, now);
          var _ := SetRoute(from, to, percent, autoVest);
        case Create(name) =>
          var _ := CreateAccount(name);
        case Withdraw(from, total, delegated) =>
          KeepsBalances(accounts, from, from, 0, false, total, now);
          var _ := WithdrawVesting(from, total, delegated);
        case Invest(from, to, amount) =>
          var _ := Deposit(from, to, amount);
        case Pay(from) =>
          if from in accounts && accounts[from].next <= now {
            OkRoutes(accounts, from, now);
            TotalAtLeast(accounts, VestsOf(), from);
            BackedNeverOverdraws(accounts[from], Due(accounts[from].vests, accounts[from].plan), FundNow());
            var ok := Payout(from);
            overdrawn := !ok;
          }
        case BlockAt(time) =>
          if time + WEEK < NEVER {
            now := time;
          }
      }
    }

    /**
     Over every run from a backed fund no payout overdraws it and no token appears or is lost; and as
     long as somebody holds shares, no share loses worth. Every power-down pays full rates while it
     runs, and exactly its total in at most 13 payouts when it ends.
     */
    method Run(steps: seq<Step>) returns (overdrawn: bool, emptied: bool)
      requires Valid() && Backed(fund, shares)
      modifies `accounts, `fund, `shares, `now
      ensures Valid() && !overdrawn && Backed(fund, shares)
      ensures !emptied ==> NotDiluted(old(fund), old(shares), fund, shares)
      ensures Total(accounts, BalanceOf()) + fund == old(Total(accounts, BalanceOf()) + fund)
      ensures forall a | a in accounts :: OnTrack(accounts[a].plan, accounts[a].vests, accounts[a].payouts)
    {
      hide Total, AccountsOk, NotDiluted;
      overdrawn, emptied := false, shares == 0;
      NotDilutedSame(fund, shares);
      var i := 0;
      while i < |steps|
        invariant 0 <= i <= |steps| && Valid() && Backed(fund, shares) && !overdrawn
        invariant !emptied ==> shares > 0 && NotDiluted(old(fund), old(shares), fund, shares)
        invariant Total(accounts, BalanceOf()) + fund == old(Total(accounts, BalanceOf()) + fund)
      {
        ghost var f1 := FundNow();
        overdrawn := Execute(steps[i]);
        if f1.shares > 0 && !emptied {
          NotDilutedTrans(old(fund), old(shares), f1.fund, f1.shares, fund, shares);
        }
        emptied := emptied || shares == 0;
        i := i + 1;
      }
      AllOnTrack(accounts);
    }
  }
}
