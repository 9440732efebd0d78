/**
 The accounts of the token ledger: liquid and savings purses, claimable rewards, and the interest
 that dollars earn whenever a purse that holds them is touched.
 */
module TokenAccounts {
  import opened Sums
  import Prices

  type Name = string

  datatype Symbol = Token | Dollar

  const YEAR: nat := 31_536_000
  const COMPOUND_INTERVAL: nat := 2_592_000


  /** A purse with its dollar-seconds, the time they were last added up, and that of the last interest. */
  datatype Purse = Purse(token: int, dollar: int, seconds: nat, updated: int, paid: int)

  datatype Account = Account(liquid: Purse, savings: Purse, rewardToken: int, rewardDollar: int,
                             vests: int, rewardVests: int, rewardVestingToken: int, requests: int)

  type Accounts = map<Name, Account>

  // ---- Purses --------------------------------------------------------------------------------

  function Of(p: Purse, s: Symbol): int {
    if s == Token then p.token else p.dollar
  }

  predicate PurseOk(p: Purse, now: int) {
    p.token >= 0 && p.dollar >= 0 && p.updated <= now
  }

  /** Dollar-seconds are brought up to date, and turned into interest when the last payment is long ago. */
  function WithInterest(p: Purse, now: int, rate: nat): (r: Purse)
    requires PurseOk(p, now)
    ensures PurseOk(r, now) && r.token == p.token && r.dollar >= p.dollar
  {
    if p.updated == now then p else
      SecondsNonneg(p.dollar, now - p.updated);
      var seconds: nat := p.seconds + p.dollar * (now - p.updated);
      if seconds > 0 && now - p.paid > COMPOUND_INTERVAL
      then InterestNonneg(seconds / YEAR, rate);
        Purse(p.token, p.dollar + seconds / YEAR * rate / Prices.FULL, 0, now, now)
      else p.(seconds := seconds, updated := now)
  }

  lemma SecondsNonneg(x: int, y: int)
    requires x >= 0 && y >= 0
    ensures x * y >= 0
  {
  }

  lemma InterestNonneg(x: nat, rate: nat)
    ensures x * rate / Prices.FULL >= 0
  {
    SecondsNonneg(x, rate);
  }

  /** No interest is due within the compounding interval. */
  predicate TooSoon(p: Purse, now: int) {
    now - p.paid <= COMPOUND_INTERVAL
  }

  /**
   Touching a purse in between does not change what it earns: bringing it up to date at one time and
   again later is the same as doing so once, as long as nothing was paid at the first time; and
   doing so twice in a block is doing so once.
   */
  lemma InterestPathFree(p: Purse, earlier: int, now: int, rate: nat)
    requires PurseOk(p, earlier) && earlier <= now
    ensures TooSoon(p, earlier) ==>
      WithInterest(WithInterest(p, earlier, rate), now, rate) == WithInterest(p, now, rate)
    ensures WithInterest(WithInterest(p, now, rate), now, rate) == WithInterest(p, now, rate)
    ensures TooSoon(p, now) ==> WithInterest(p, now, rate).dollar == p.dollar
  {
    Distribute(p.dollar, earlier - p.updated, now - earlier);
    assert p.dollar * (now - p.updated) == p.dollar * (earlier - p.updated) + p.dollar * (now - earlier);
  }

  /** Interest is at most the yearly rate on the dollar-seconds, and leaves none of them behind. */
  lemma InterestBounded(p: Purse, now: int, rate: nat)
    requires PurseOk(p, now) && p.updated < now
    ensures var r := WithInterest(p, now, rate); var seconds := p.seconds + p.dollar * (now - p.updated);
      && (r.dollar - p.dollar) * YEAR * Prices.FULL <= seconds * rate
      && (r.dollar > p.dollar ==> r.seconds == 0 && r.paid == now)
      && (!TooSoon(p, now) && seconds > 0 ==>
            r.seconds == 0 && (r.dollar - p.dollar + 1) * Prices.FULL > seconds / YEAR * rate)
  {
    SecondsNonneg(p.dollar, now - p.updated);
    var seconds: nat := p.seconds + p.dollar * (now - p.updated);
    var years := seconds / YEAR;
    assert years * YEAR <= seconds;
    Prices.MulMono(rate, years * YEAR, seconds);
    SecondsNonneg(years, rate);
    Prices.DivBounds(years * rate, Prices.FULL);
    Prices.MulMono(YEAR, (years * rate / Prices.FULL) * Prices.FULL, years * rate);
  }

  /** Adding an amount to a purse; interest is paid first when the amount is in dollars. */
  function Added(p: Purse, s: Symbol, amount: int, now: int, rate: nat): (r: Purse)
    requires PurseOk(p, now)
    ensures r.updated <= now && (Of(p, s) + amount >= 0 ==> PurseOk(r, now))
  {
    if s == Token then p.(token := p.token + amount)
    else var q := WithInterest(p, now, rate); q.(dollar := q.dollar + amount)
  }

  /** The interest paid along with it. */
  function Interest(p: Purse, s: Symbol, now: int, rate: nat): (r: nat)
    requires PurseOk(p, now)
  {
    if s == Token then 0 else WithInterest(p, now, rate).dollar - p.dollar
  }

  lemma AddedOf(p: Purse, s: Symbol, amount: int, now: int, rate: nat, t: Symbol)
    requires PurseOk(p, now)
    ensures Of(Added(p, s, amount, now, rate), t) == Of(p, t) + if t == s then amount + Interest(p, s, now, rate) else 0
  {
  }

  // ---- Accounts ------------------------------------------------------------------------------

  predicate AccountOk(a: Account, now: int) {
    && PurseOk(a.liquid, now) && PurseOk(a.savings, now) && a.rewardToken >= 0 && a.rewardDollar >= 0
    && a.vests >= 0 && a.rewardVests >= 0 && a.rewardVestingToken >= 0
  }

  ghost predicate AccountsOk(accounts: Accounts, now: int) {
    forall a | a in accounts :: AccountOk(accounts[a], now)
  }

  lemma OkAccount(accounts: Accounts, now: int, name: Name)
    requires AccountsOk(accounts, now) && name in accounts
    ensures AccountOk(accounts[name], now)
  {
  }

  /** What an account holds of a symbol, wherever it is. */
  function HeldBy(a: Account, s: Symbol): int {
    Of(a.liquid, s) + Of(a.savings, s) + if s == Token then a.rewardToken else a.rewardDollar
  }

  ghost function HeldOf(s: Symbol): (Name, Account) -> int {
    (_, a: Account) => HeldBy(a, s)
  }

  ghost function VestsOf(): (Name, Account) -> int {
    (_, a: Account) => a.vests + a.rewardVests
  }

  ghost function PendingOf(): (Name, Account) -> int {
    (_, a: Account) => a.rewardVestingToken
  }

  /** Two tables in which only purses differ. */
  ghost predicate OnlyPurses(before: Accounts, after: Accounts) {
    && after.Keys == before.Keys
    && forall a | a in before :: after[a] == before[a].(liquid := after[a].liquid, savings := after[a].savings)
  }

  lemma OnlyPursesNone(a: Accounts)
    ensures OnlyPurses(a, a)
  {
  }

  lemma PursesKeepVests(before: Accounts, after: Accounts)
    requires OnlyPurses(before, after)
    ensures Total(after, VestsOf()) == Total(before, VestsOf())
    ensures Total(after, PendingOf()) == Total(before, PendingOf())
  {
    SumExt(before.Keys, Entry(before, VestsOf()), Entry(after, VestsOf()));
    SumExt(before.Keys, Entry(before, PendingOf()), Entry(after, PendingOf()));
  }

  function PutLiquid(accounts: Accounts, name: Name, s: Symbol, amount: int, now: int, rate: nat): Accounts
    requires name in accounts && PurseOk(accounts[name].liquid, now)
  {
    accounts[name := accounts[name].(liquid := Added(accounts[name].liquid, s, amount, now, rate))]
  }

  function PutSavings(accounts: Accounts, name: Name, s: Symbol, amount: int, now: int, rate: nat): Accounts
    requires name in accounts && PurseOk(accounts[name].savings, now)
  {
    accounts[name := accounts[name].(savings := Added(accounts[name].savings, s, amount, now, rate))]
  }

  /** An amount, positive or negative, added to a balance. */
  function Give(accounts: Accounts, name: Name, s: Symbol, amount: int, now: int, rate: nat): Accounts {
    if name in accounts && PurseOk(accounts[name].liquid, now)
    then PutLiquid(accounts, name, s, amount, now, rate) else accounts
  }

  function GiveSavings(accounts: Accounts, name: Name, s: Symbol, amount: int, now: int, rate: nat): Accounts {
    if name in accounts && PurseOk(accounts[name].savings, now)
    then PutSavings(accounts, name, s, amount, now, rate) else accounts
  }

  lemma LiquidPut(accounts: Accounts, name: Name, s: Symbol, amount: int, now: int, rate: nat, t: Symbol)
    requires AccountsOk(accounts, now) && name in accounts && Of(accounts[name].liquid, s) + amount >= 0
    ensures var after := PutLiquid(accounts, name, s, amount, now, rate);
      && AccountsOk(after, now) && OnlyPurses(accounts, after) && after.Keys == accounts.Keys
      && Total(after, HeldOf(t)) == Total(accounts, HeldOf(t))
           + if t == s then amount + Interest(accounts[name].liquid, s, now, rate) else 0
  {
    hide Total, Added, Interest;
    assert AccountOk(accounts[name], now);
    var a := accounts[name].(liquid := Added(accounts[name].liquid, s, amount, now, rate));
    AddedOf(accounts[name].liquid, s, amount, now, rate, t);
    TotalPut(accounts, HeldOf(t), name, a);
  }

  lemma SavingsPut(accounts: Accounts, name: Name, s: Symbol, amount: int, now: int, rate: nat, t: Symbol)
    requires AccountsOk(accounts, now) && name in accounts && Of(accounts[name].savings, s) + amount >= 0
    ensures var after := PutSavings(accounts, name, s, amount, now, rate);
      && AccountsOk(after, now) && OnlyPurses(accounts, after) && after.Keys == accounts.Keys
      && Total(after, HeldOf(t)) == Total(accounts, HeldOf(t))
           + if t == s then amount + Interest(accounts[name].savings, s, now, rate) else 0
  {
    hide Total, Added, Interest;
    assert AccountOk(accounts[name], now);
    var a := accounts[name].(savings := Added(accounts[name].savings, s, amount, now, rate));
    AddedOf(accounts[name].savings, s, amount, now, rate, t);
    TotalPut(accounts, HeldOf(t), name, a);
  }

  // ---- Payments due in a block ---------------------------------------------------------------

  /** What a balance receives; a payment that touches dollars has the interest on them paid first. */
  datatype Payment = Payment(to: Name, token: nat, dollar: nat, touches: bool)

  type Payments = map<(Name, nat), Payment>

  ghost function TokenTo(a: Name): ((Name, nat), Payment) -> int {
    (_, p: Payment) => if p.to == a then p.token else 0
  }

  ghost function DollarTo(a: Name): ((Name, nat), Payment) -> int {
    (_, p: Payment) => if p.to == a then p.dollar else 0
  }

  ghost function TokenPaid(): ((Name, nat), Payment) -> int {
    (_, p: Payment) => p.token
  }

  ghost predicate Touched(ps: Payments, a: Name) {
    exists k | k in ps :: ps[k].to == a && ps[k].touches
  }

  /** A purse after amounts arrived in it; interest on its dollars comes first when they are touched. */
  function Receives(p: Purse, token: int, dollar: int, touched: bool, now: int, rate: nat): Purse {
    var q := if touched && PurseOk(p, now) then WithInterest(p, now, rate) else p;
    q.(token := q.token + token, dollar := q.dollar + dollar)
  }

  /**
   Every account's balance has received the sum of the payments to it, with the interest on its dollars
   paid once if any of them touches dollars; and nothing but a count of requests changed besides.
   */
  ghost predicate AllPaid(before: Accounts, after: Accounts, ps: Payments, now: int, rate: nat) {
    && after.Keys == before.Keys
    && forall a | a in before :: PaidTo(before[a], after[a], a, ps, now, rate)
  }

  ghost predicate PaidTo(before: Account, after: Account, a: Name, ps: Payments, now: int, rate: nat) {
    after == before.(liquid := Receives(before.liquid, Total(ps, TokenTo(a)), Total(ps, DollarTo(a)), Touched(ps, a),
                                        now, rate),
                     requests := after.requests)
  }

  /** One payment was made. */
  ghost predicate OnePaid(before: Accounts, after: Accounts, p: Payment, now: int, rate: nat) {
    && after.Keys == before.Keys
    && forall a | a in before :: after[a] == before[a].(
         liquid := if a == p.to then Receives(before[a].liquid, p.token, p.dollar, p.touches, now, rate)
                   else before[a].liquid,
         requests := after[a].requests)
  }

  /** Payments that do not touch dollars pay none. */
  ghost predicate Plain(ps: Payments) {
    forall k | k in ps :: ps[k].touches || ps[k].dollar == 0
  }

  lemma ReceivesNothing(p: Purse, now: int, rate: nat)
    ensures Receives(p, 0, 0, false, now, rate) == p
  {
  }

  /** Amounts that arrive one after the other in a block arrive as their sum, with the interest paid once. */
  lemma ReceivesTwice(p: Purse, token: nat, dollar: nat, touched: bool, more: nat, moreDollar: nat, again: bool,
      now: int, rate: nat)
    requires PurseOk(p, now) && (touched || dollar == 0)
    ensures Receives(Receives(p, token, dollar, touched, now, rate), more, moreDollar, again, now, rate)
         == Receives(p, token + more, dollar + moreDollar, touched || again, now, rate)
  {
  }

  lemma PaidNone(accounts: Accounts, ps: Payments, now: int, rate: nat)
    requires ps == map[]
    ensures AllPaid(accounts, accounts, ps, now, rate)
  {
    hide Total, Receives;
    forall a | a in accounts ensures PaidTo(accounts[a], accounts[a], a, ps, now, rate) {
      TotalNone(ps, TokenTo(a));
      TotalNone(ps, DollarTo(a));
      ReceivesNothing(accounts[a].liquid, now, rate);
    }
  }

  lemma Untouched(ps: Payments, a: Name)
    requires Plain(ps)
    ensures Total(ps, TokenTo(a)) >= 0 && Total(ps, DollarTo(a)) >= 0
    ensures Touched(ps, a) || Total(ps, DollarTo(a)) == 0
  {
    TotalNonneg(ps, TokenTo(a));
    TotalNonneg(ps, DollarTo(a));
    if !Touched(ps, a) {
      SumZero(ps.Keys, Entry(ps, DollarTo(a)));
    }
  }

  /** One more payment. */
  lemma PaidNext(before: Accounts, middle: Accounts, after: Accounts, ps: Payments, k: (Name, nat), p: Payment,
      now: int, rate: nat)
    requires AllPaid(before, middle, ps, now, rate) && OnePaid(middle, after, p, now, rate) && k !in ps
    requires Plain(ps) && (p.touches || p.dollar == 0) && AccountsOk(before, now)
    ensures AllPaid(before, after, ps[k := p], now, rate)
  {
    hide Total, Receives;
    forall a | a in before ensures PaidTo(before[a], after[a], a, ps[k := p], now, rate) {
      OkAccount(before, now, a);
      assert PaidTo(before[a], middle[a], a, ps, now, rate);
      Untouched(ps, a);
      TotalPut(ps, TokenTo(a), k, p);
      TotalPut(ps, DollarTo(a), k, p);
      TouchedNext(ps, k, p, a);
      if a == p.to {
        ReceivesTwice(before[a].liquid, Total(ps, TokenTo(a)), Total(ps, DollarTo(a)), Touched(ps, a), p.token,
                      p.dollar, p.touches, now, rate);
      }
    }
  }

  lemma TouchedNext(ps: Payments, k: (Name, nat), p: Payment, a: Name)
    requires k !in ps
    ensures Touched(ps[k := p], a) <==> Touched(ps, a) || (p.to == a && p.touches)
  {
    var qs := ps[k := p];
    if j :| j in ps && ps[j].to == a && ps[j].touches {
      assert qs[j] == ps[j];
    }
    if p.to == a && p.touches {
      assert qs[k] == p;
    }
  }

  /** An amount given to a balance is a payment. */
  lemma GivePays(accounts: Accounts, name: Name, s: Symbol, amount: nat, now: int, rate: nat)
    requires AccountsOk(accounts, now) && name in accounts
    ensures OnePaid(accounts, Give(accounts, name, s, amount, now, rate),
                    Payment(name, if s == Token then amount else 0, if s == Dollar then amount else 0, s == Dollar),
                    now, rate)
  {
    OkAccount(accounts, now, name);
  }
}
