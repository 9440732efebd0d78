/**
 The supply ledger: transfers, savings, escrow, conversions, reward claims and resting orders, and
 the equality of the recorded supply with everything that is held anywhere.

 An operation that fails leaves nothing behind: the session of its transaction is undone. The
 matching of orders is in module Market; here an order is what it holds for sale.
 */
module TokenLedger {
  import opened Blocks
  import opened Sums
  import opened TokenAccounts
  import Prices
  import VestingFund

  type Key = (Name, nat)

  const SAVINGS_TIME: nat := 259_200
  const SAVINGS_LIMIT: nat := 100
  const CONVERSION_DELAY: nat := 302_400

  datatype Escrow = Escrow(from: Name, to: Name, agent: Name, token: nat, dollar: nat, feeSymbol: Symbol, fee: nat,
                           ratifyBy: int, expires: int, toApproved: bool, agentApproved: bool, disputed: bool)
  datatype Withdrawal = Withdrawal(from: Name, to: Name, symbol: Symbol, amount: nat, complete: int)
  datatype Convert = Convert(owner: Name, amount: nat, date: int)
  datatype Order = Order(seller: Name, symbol: Symbol, forSale: nat)

  /** The median price: so many tokens for so many dollars. */
  datatype Ratio = Ratio(dollars: nat, tokens: nat)
  type Feed = f: Ratio | f.dollars > 0 && f.tokens > 0 witness Ratio(1, 1)

  type Percent = x: nat | x <= Prices.FULL

  // ---- What each object holds ----------------------------------------------------------------

  function EscrowHolds(e: Escrow, s: Symbol): nat {
    (if s == Token then e.token else e.dollar) + if s == e.feeSymbol then e.fee else 0
  }

  function EscrowHeld(escrows: map<Key, Escrow>, k: Key, s: Symbol): nat {
    if k in escrows then EscrowHolds(escrows[k], s) else 0
  }

  ghost function InEscrow(s: Symbol): (Key, Escrow) -> int {
    (_, e: Escrow) => EscrowHolds(e, s)
  }

  ghost function InWithdrawal(s: Symbol): (Key, Withdrawal) -> int {
    (_, w: Withdrawal) => if w.symbol == s then w.amount else 0
  }

  ghost function InConversion(s: Symbol): (Key, Convert) -> int {
    (_, c: Convert) => if s == Dollar then c.amount else 0
  }

  function OrderHolds(o: Order, s: Symbol): nat {
    if o.symbol == s then o.forSale else 0
  }

  ghost function InOrder(s: Symbol): (Key, Order) -> int {
    (_, o: Order) => OrderHolds(o, s)
  }

  /** Orders after one of them paid out an amount. */
  function Sold(orders: map<Key, Order>, k: Key, amount: nat): map<Key, Order> {
    if k !in orders || amount >= orders[k].forSale then orders - {k}
    else orders[k := orders[k].(forSale := orders[k].forSale - amount)]
  }

  lemma SoldOther(orders: map<Key, Order>, k: Key, other: Key, amount: nat)
    requires k in orders && amount <= orders[k].forSale && other in orders && other != k
    ensures other in Sold(orders, k, amount) && Sold(orders, k, amount)[other] == orders[other]
  {
  }

  ghost function RequestOf(a: Name): (Key, Withdrawal) -> int {
    (_, w: Withdrawal) => if w.from == a then 1 else 0
  }

  /** An escrow both parties approved has paid its fee, so nothing is left in it once it is released. */
  predicate EscrowOk(e: Escrow, names: set<Name>) {
    && e.from in names && e.to in names && e.agent in names && e.to != e.agent
    && (e.toApproved && e.agentApproved ==> e.fee == 0)
  }

  ghost predicate EscrowsOk(escrows: map<Key, Escrow>, names: set<Name>) {
    forall k | k in escrows :: EscrowOk(escrows[k], names) && k.0 == escrows[k].from
  }

  ghost predicate WithdrawalsOk(withdrawals: map<Key, Withdrawal>, names: set<Name>) {
    forall k | k in withdrawals ::
      withdrawals[k].from in names && withdrawals[k].to in names && k.0 == withdrawals[k].from
  }

  ghost predicate ConvertsOk(converts: map<Key, Convert>, names: set<Name>) {
    forall k | k in converts :: converts[k].owner in names
  }

  ghost predicate OrdersOk(orders: map<Key, Order>, names: set<Name>) {
    forall k | k in orders :: orders[k].seller in names && k.0 == orders[k].seller
  }

  /** Every account's count of pending withdrawals is right. */
  ghost predicate RequestsOk(accounts: Accounts, withdrawals: map<Key, Withdrawal>) {
    forall a | a in accounts :: accounts[a].requests == Total(withdrawals, RequestOf(a))
  }

  lemma PursesKeepRequests(before: Accounts, after: Accounts, withdrawals: map<Key, Withdrawal>)
    requires OnlyPurses(before, after) && RequestsOk(before, withdrawals)
    ensures RequestsOk(after, withdrawals)
  {
    hide Total;
  }

  lemma LiquidNonneg(accounts: Accounts, now: int, name: Name, s: Symbol)
    requires AccountsOk(accounts, now) && name in accounts
    ensures Of(accounts[name].liquid, s) >= 0
  {
    OkAccount(accounts, now, name);
  }

  lemma SavingsNonneg(accounts: Accounts, now: int, name: Name, s: Symbol)
    requires AccountsOk(accounts, now) && name in accounts
    ensures Of(accounts[name].savings, s) >= 0
  {
    OkAccount(accounts, now, name);
  }

  /** An account counts one pending withdrawal more, or one less. */
  function Counting(accounts: Accounts, name: Name, delta: int): Accounts {
    if name in accounts then accounts[name := accounts[name].(requests := accounts[name].requests + delta)]
    else accounts
  }

  lemma CountingOne(accounts: Accounts, withdrawals: map<Key, Withdrawal>, now: int, name: Name, delta: int)
    requires AccountsOk(accounts, now) && name in accounts
    ensures var after := Counting(accounts, name, delta);
      && AccountsOk(after, now) && after.Keys == accounts.Keys
      && (forall t :: Total(after, HeldOf(t)) == Total(accounts, HeldOf(t)))
      && Total(after, VestsOf()) == Total(accounts, VestsOf())
      && Total(after, PendingOf()) == Total(accounts, PendingOf())
  {
    hide Total;
    var a := accounts[name].(requests := accounts[name].requests + delta);
    forall t ensures Total(accounts[name := a], HeldOf(t)) == Total(accounts, HeldOf(t)) {
      TotalPut(accounts, HeldOf(t), name, a);
    }
    TotalPut(accounts, VestsOf(), name, a);
    TotalPut(accounts, PendingOf(), name, a);
  }

  lemma RequestPut(accounts: Accounts, withdrawals: map<Key, Withdrawal>, k: Key, w: Withdrawal)
    requires RequestsOk(accounts, withdrawals) && k !in withdrawals && w.from in accounts
    ensures RequestsOk(Counting(accounts, w.from, 1), withdrawals[k := w])
  {
    hide Total;
    forall a | a in accounts ensures Total(withdrawals[k := w], RequestOf(a)) == Total(withdrawals,
        RequestOf(a)) + if a == w.from then 1 else 0 {
      TotalPut(withdrawals, RequestOf(a), k, w);
    }
  }

  lemma RequestDrop(accounts: Accounts, withdrawals: map<Key, Withdrawal>, k: Key)
    requires RequestsOk(accounts, withdrawals) && k in withdrawals && withdrawals[k].from in accounts
    ensures RequestsOk(Counting(accounts, withdrawals[k].from, -1), withdrawals - {k})
  {
    hide Total;
    forall a | a in accounts ensures Total(withdrawals - {k}, RequestOf(a)) == Total(withdrawals,
        RequestOf(a)) - if a == withdrawals[k].from then 1 else 0 {
      TotalDrop(withdrawals, RequestOf(a), k);
    }
  }

  // ---- Escrow --------------------------------------------------------------------------------

  /** What is due in a symbol: an amount, and the fee if it is in that symbol. */
  function Due(amount: nat, feeSymbol: Symbol, fee: nat, s: Symbol): nat {
    amount + if s == feeSymbol then fee else 0
  }

  lemma EscrowIsOk(escrows: map<Key, Escrow>, names: set<Name>, k: Key)
    requires EscrowsOk(escrows, names) && k in escrows
    ensures EscrowOk(escrows[k], names) && k.0 == escrows[k].from
  {
  }

  /** Taking tokens from a purse leaves its dollars alone. */
  lemma DollarsApart(p: Purse, amount: int, now: int, rate: nat)
    requires PurseOk(p, now)
    ensures Added(p, Token, amount, now, rate).dollar == p.dollar
  {
  }

  predicate ApproveAllowed(e: Escrow, to: Name, agent: Name, who: Name, now: int) {
    && e.to == to && e.agent == agent && now <= e.ratifyBy
    && ((who == to && !e.toApproved) || (who == agent && !e.agentApproved))
  }

  /** An escrow with one more approval; the second one pays the fee out. */
  function Approved(e: Escrow, who: Name): Escrow {
    var f := if who == e.to then e.(toApproved := true) else e.(agentApproved := true);
    if Seconds(e, who) then f.(fee := 0) else f
  }

  /** This approval is the second one. */
  predicate Seconds(e: Escrow, who: Name) {
    if who == e.to then e.agentApproved else e.toApproved
  }

  /** Balances after an escrow's amounts and fee were taken, or given back. */
  ghost function Taken(accounts: Accounts, from: Name, token: nat, dollar: nat, feeSymbol: Symbol, fee: nat, now: int,
      rate: nat): Accounts {
    Give(Give(accounts, from, Token, 0 - Due(token, feeSymbol, fee, Token), now, rate), from, Dollar,
        0 - Due(dollar, feeSymbol, fee, Dollar), now, rate)
  }

  ghost function Refunded(accounts: Accounts, name: Name, e: Escrow, now: int, rate: nat): Accounts {
    Give(Give(Give(accounts, name, Token, e.token, now, rate), name, Dollar, e.dollar, now, rate), name, e.feeSymbol,
        e.fee, now, rate)
  }

  predicate DisputeAllowed(e: Escrow, to: Name, agent: Name, now: int) {
    now < e.expires && e.toApproved && e.agentApproved && !e.disputed && e.to == to && e.agent == agent
  }

  /**
   Who may release how much to whom: the agent in a dispute; otherwise a party, before expiry only to
   the other one.
   */
  predicate ReleaseAllowed(e: Escrow, to: Name, agent: Name, who: Name, receiver: Name, token: nat, dollar: nat,
      now: int) {
    && token <= e.token && dollar <= e.dollar && (token > 0 || dollar > 0)
    && e.to == to && e.agent == agent && (receiver == e.from || receiver == e.to) && e.toApproved && e.agentApproved
    && if e.disputed then who == e.agent
       else (who == e.from || who == e.to) && (e.expires > now ==> receiver == if who == e.from then e.to else e.from)
  }

  /** Escrows after a release: smaller, or gone once it is empty. */
  function Released(escrows: map<Key, Escrow>, k: Key, token: nat, dollar: nat): map<Key, Escrow>
    requires k in escrows && token <= escrows[k].token && dollar <= escrows[k].dollar
  {
    var e := escrows[k].(token := escrows[k].token - token, dollar := escrows[k].dollar - dollar);
    if e.token == 0 && e.dollar == 0 then escrows - {k} else escrows[k := e]
  }

  ghost predicate Overdue(e: Escrow, now: int) {
    !(e.toApproved && e.agentApproved) && e.ratifyBy <= now
  }

  // ---- What is due in a block ----------------------------------------------------------------

  function DueConverts(converts: map<Key, Convert>, now: int): map<Key, Convert> {
    map k | k in converts && converts[k].date <= now :: converts[k]
  }

  /** Every due conversion pays its owner the tokens its dollars are worth. */
  function ConversionPayments(converts: map<Key, Convert>, now: int, f: Feed): Payments {
    map k | k in converts && converts[k].date <= now ::
      Payment(converts[k].owner, Prices.Exchange(converts[k].amount, f.dollars, f.tokens), 0, false)
  }

  /** Every due withdrawal pays its receiver. */
  function WithdrawalPayments(withdrawals: map<Key, Withdrawal>, now: int): Payments {
    map k | k in withdrawals && withdrawals[k].complete <= now :: WithdrawalPayment(withdrawals[k])
  }

  function WithdrawalPayment(w: Withdrawal): Payment {
    Payment(w.to, if w.symbol == Token then w.amount else 0, if w.symbol == Dollar then w.amount else 0,
            w.symbol == Dollar)
  }

  /** Every escrow that was not ratified in time pays its sender its amounts and its fee. */
  ghost function EscrowPayments(escrows: map<Key, Escrow>, now: int): Payments {
    map k | k in escrows && Overdue(escrows[k], now) :: EscrowPayment(escrows[k])
  }

  function EscrowPayment(e: Escrow): Payment {
    Payment(e.from, e.token + if e.feeSymbol == Token then e.fee else 0,
            e.dollar + if e.feeSymbol == Dollar then e.fee else 0, true)
  }

  /** The payments of a block in their order: conversions, withdrawals, escrows. */
  ghost predicate BlockPaid(before: Accounts, after: Accounts, converts: map<Key, Convert>,
      withdrawals: map<Key, Withdrawal>, escrows: map<Key, Escrow>, price: Option<Feed>, now: int, rate: nat) {
    exists first, second ::
      && (if price.Some? then AllPaid(before, first, ConversionPayments(converts, now, price.value), now, rate)
          else first == before)
      && AllPaid(first, second, WithdrawalPayments(withdrawals, now), now, rate)
      && AllPaid(second, after, EscrowPayments(escrows, now), now, rate)
  }

  /** The payments made so far: all that are due but those still to do. */
  lemma DoneNext<V>(due: map<Key, V>, todo: set<Key>, k: Key)
    requires k in todo && k in due
    ensures k !in due - todo && due - (todo - {k}) == (due - todo)[k := due[k]]
  {
  }

  lemma WithdrawalPays(accounts: Accounts, w: Withdrawal, now: int, rate: nat)
    requires AccountsOk(accounts, now) && w.to in accounts
    ensures OnePaid(accounts, Counting(Give(accounts, w.to, w.symbol, w.amount, now, rate), w.from, -1),
                    WithdrawalPayment(w), now, rate)
  {
    hide Receives, Give;
    GivePays(accounts, w.to, w.symbol, w.amount, now, rate);
  }

  lemma RefundPays(accounts: Accounts, e: Escrow, now: int, rate: nat)
    requires AccountsOk(accounts, now) && e.from in accounts
    ensures OnePaid(accounts, Refunded(accounts, e.from, e, now, rate), EscrowPayment(e), now, rate)
  {
    hide WithInterest;
    OkAccount(accounts, now, e.from);
    var p := accounts[e.from].liquid;
    ReceivesTwice(p, e.token, 0, false, 0, e.dollar, true, now, rate);
    var fee := if e.feeSymbol == Token then (e.fee, 0) else (0, e.fee);
    ReceivesTwice(p, e.token, e.dollar, true, fee.0, fee.1, e.feeSymbol == Dollar, now, rate);
  }

  // ---- Rewards -------------------------------------------------------------------------------

  /** The tokens behind claimed shares: all of them with the last share, else their part rounded down. */
  function ToMove(a: Account, vests: nat): (r: int)
    requires a.rewardVestingToken >= 0 && vests <= a.rewardVests
    ensures 0 <= r <= a.rewardVestingToken && (vests == a.rewardVests ==> r == a.rewardVestingToken)
    ensures vests < a.rewardVests ==> r * a.rewardVests <= vests * a.rewardVestingToken < (r + 1) * a.rewardVests
  {
    VestingFund.MovedWith(vests, a.rewardVests, a.rewardVestingToken)
  }

  predicate CanClaim(a: Account, token: nat, dollar: nat, vests: nat) {
    token <= a.rewardToken && dollar <= a.rewardDollar && vests <= a.rewardVests
  }

  function Claimed(accounts: Accounts, name: Name, token: nat, dollar: nat, vests: nat): Accounts
    requires name in accounts && accounts[name].rewardVestingToken >= 0 && vests <= accounts[name].rewardVests
  {
    var a := accounts[name];
    accounts[name := a.(rewardToken := a.rewardToken - token, rewardDollar := a.rewardDollar - dollar,
                        vests := a.vests + vests, rewardVests := a.rewardVests - vests,
                        rewardVestingToken := a.rewardVestingToken - ToMove(a, vests))]
  }

  /** An account with new vesting shares. */
  function Vested(accounts: Accounts, name: Name, minted: nat): Accounts {
    if name in accounts then accounts[name := accounts[name].(vests := accounts[name].vests + minted)] else accounts
  }

  lemma VestedOk(accounts: Accounts, withdrawals: map<Key, Withdrawal>, now: int, name: Name, minted: nat)
    requires AccountsOk(accounts, now) && RequestsOk(accounts, withdrawals) && name in accounts
    ensures var after := Vested(accounts, name, minted);
      && AccountsOk(after, now) && RequestsOk(after, withdrawals) && after.Keys == accounts.Keys
      && Total(after, HeldOf(Token)) == Total(accounts, HeldOf(Token))
      && Total(after, HeldOf(Dollar)) == Total(accounts, HeldOf(Dollar))
      && Total(after, VestsOf()) == Total(accounts, VestsOf()) + minted
      && Total(after, PendingOf()) == Total(accounts, PendingOf())
  {
    hide Total;
    OkAccount(accounts, now, name);
    var a := accounts[name].(vests := accounts[name].vests + minted);
    TotalPut(accounts, HeldOf(Token), name, a);
    TotalPut(accounts, HeldOf(Dollar), name, a);
    TotalPut(accounts, VestsOf(), name, a);
    TotalPut(accounts, PendingOf(), name, a);
  }

  lemma ClaimedOk(accounts: Accounts, withdrawals: map<Key, Withdrawal>, now: int, name: Name, token: nat,
      dollar: nat, vests: nat)
    requires AccountsOk(accounts, now) && RequestsOk(accounts, withdrawals) && name in accounts
    requires token <= accounts[name].rewardToken && dollar <= accounts[name].rewardDollar
    requires vests <= accounts[name].rewardVests
    ensures accounts[name].rewardVestingToken >= 0
    ensures var after := Claimed(accounts, name, token, dollar, vests);
      && AccountsOk(after, now) && RequestsOk(after, withdrawals) && after.Keys == accounts.Keys
      && Total(after, HeldOf(Token)) == Total(accounts, HeldOf(Token)) - token && Total(after,
          HeldOf(Dollar)) == Total(accounts, HeldOf(Dollar)) - dollar
      && Total(after, VestsOf()) == Total(accounts, VestsOf()) && Total(after, PendingOf()) == Total(accounts,
          PendingOf()) - ToMove(accounts[name], vests)
  {
    hide Total, ToMove;
    OkAccount(accounts, now, name);
    var after := Claimed(accounts, name, token, dollar, vests);
    TotalPut(accounts, HeldOf(Token), name, after[name]);
    TotalPut(accounts, HeldOf(Dollar), name, after[name]);
    TotalPut(accounts, VestsOf(), name, after[name]);
    TotalPut(accounts, PendingOf(), name, after[name]);
  }

  /** An account with new rewards to claim. */
  function Rewarded(accounts: Accounts, name: Name, token: nat, dollar: nat, vestingToken: nat, vests: nat): Accounts {
    if name !in accounts then accounts else
      var a := accounts[name];
      accounts[name := a.(rewardToken := a.rewardToken + token, rewardDollar := a.rewardDollar + dollar,
                          rewardVestingToken := a.rewardVestingToken + vestingToken,
                          rewardVests := a.rewardVests + vests)]
  }

  lemma RewardedOk(accounts: Accounts, withdrawals: map<Key, Withdrawal>, now: int, name: Name, token: nat,
      dollar: nat, vestingToken: nat, vests: nat)
    requires AccountsOk(accounts, now) && RequestsOk(accounts, withdrawals) && name in accounts
    ensures var after := Rewarded(accounts, name, token, dollar, vestingToken, vests);
      && AccountsOk(after, now) && RequestsOk(after, withdrawals) && after.Keys == accounts.Keys
      && Total(after, HeldOf(Token)) == Total(accounts, HeldOf(Token)) + token
      && Total(after, HeldOf(Dollar)) == Total(accounts, HeldOf(Dollar)) + dollar
      && Total(after, VestsOf()) == Total(accounts, VestsOf()) + vests
      && Total(after, PendingOf()) == Total(accounts, PendingOf()) + vestingToken
  {
    hide Total;
    OkAccount(accounts, now, name);
    var after := Rewarded(accounts, name, token, dollar, vestingToken, vests);
    TotalPut(accounts, HeldOf(Token), name, after[name]);
    TotalPut(accounts, HeldOf(Dollar), name, after[name]);
    TotalPut(accounts, VestsOf(), name, after[name]);
    TotalPut(accounts, PendingOf(), name, after[name]);
  }

  /** New tokens in the fund and new shares for the producer leave every share worth no less. */
  lemma InflationDilutesNobody(fund: nat, vesting: nat, pay: nat, shares: nat)
    ensures shares > 0 ==>
      VestingFund.NotDiluted(fund, shares, fund + vesting + pay,
        shares + VestingFund.Minted(pay, fund + vesting, shares))
  {
    hide VestingFund.Minted, VestingFund.NotDiluted;
    if shares > 0 {
      var minted := VestingFund.Minted(pay, fund + vesting, shares);
      MoreTokens(fund, fund + vesting, shares);
      if pay > 0 {
        VestingFund.MintingBacked(pay, fund + vesting, shares);
      } else {
        NothingMinted(fund + vesting, shares);
        MoreTokens(fund + vesting, fund + vesting, shares);
      }
      VestingFund.NotDilutedTrans(fund, shares, fund + vesting, shares, fund + vesting + pay, shares + minted);
    }
  }

  lemma MoreTokens(fund: nat, more: nat, shares: nat)
    requires fund <= more
    ensures VestingFund.NotDiluted(fund, shares, more, shares)
  {
    Prices.MulMono(shares, fund, more);
  }

  lemma NothingMinted(fund: nat, shares: nat)
    ensures VestingFund.Minted(0, fund, shares) == 0
  {
  }

  /** What is paid as dollars, as far as dollars are printed, and what is left as tokens. */
  function ToDollars(tokens: nat, printRate: Percent): (r: nat)
    ensures r <= tokens && r * Prices.FULL <= tokens * printRate < (r + 1) * Prices.FULL
  {
    Prices.PartAtMost(tokens, printRate);
    Prices.Part(tokens, printRate)
  }

  /** A new account holds nothing, and earned no interest yet. */
  function Fresh(): Account {
    Account(Purse(0, 0, 0, 0, 0), Purse(0, 0, 0, 0, 0), 0, 0, 0, 0, 0, 0)
  }

  /** One account holds everything there is. */
  function Founded(names: set<Name>, owner: Name, tokens: nat, dollars: nat): Accounts {
    (map x | x in names :: Fresh())[owner := Fresh().(liquid := Purse(tokens, dollars, 0, 0, 0))]
  }

  lemma FoundedOk(names: set<Name>, owner: Name, tokens: nat, dollars: nat, now: nat)
    ensures var accounts := Founded(names, owner, tokens, dollars);
      && AccountsOk(accounts, now) && RequestsOk(accounts, map[])
      && Total(accounts, HeldOf(Token)) == tokens && Total(accounts, HeldOf(Dollar)) == dollars
      && Total(accounts, VestsOf()) == 0 && Total(accounts, PendingOf()) == 0
  {
    hide Total;
    var none: map<Key, Withdrawal>, some: Accounts := map[], map x | x in names :: Fresh();
    var a := Fresh().(liquid := Purse(tokens, dollars, 0, 0, 0));
    NothingIn(some, owner, a, HeldOf(Token));
    NothingIn(some, owner, a, HeldOf(Dollar));
    NothingIn(some, owner, a, VestsOf());
    NothingIn(some, owner, a, PendingOf());
    forall x | x in Founded(names, owner, tokens, dollars) ensures Total(none, RequestOf(x)) == 0 {
      TotalNone(none, RequestOf(x));
    }
  }

  lemma NothingIn(some: Accounts, owner: Name, a: Account, f: (Name, Account) -> int)
    requires forall x | x in some :: some[x] == Fresh() && f(x, Fresh()) == 0
    ensures Total(some[owner := a], f) == f(owner, a)
  {
    hide Sum;
    SumZero(some.Keys, Entry(some, f));
    TotalPut(some, f, owner, a);
  }

  lemma MoreNames(escrows: map<Key, Escrow>, withdrawals: map<Key, Withdrawal>, converts: map<Key, Convert>,
      orders: map<Key, Order>, names: set<Name>, name: Name)
    requires EscrowsOk(escrows, names) && WithdrawalsOk(withdrawals, names) && ConvertsOk(converts, names)
    requires OrdersOk(orders, names)
    ensures EscrowsOk(escrows, names + {name}) && WithdrawalsOk(withdrawals, names + {name})
    ensures ConvertsOk(converts, names + {name}) && OrdersOk(orders, names + {name})
  {
  }

  lemma NoRequests(withdrawals: map<Key, Withdrawal>, names: set<Name>, name: Name)
    requires WithdrawalsOk(withdrawals, names) && name !in names
    ensures Total(withdrawals, RequestOf(name)) == 0
  {
    SumZero(withdrawals.Keys, Entry(withdrawals, RequestOf(name)));
  }

  datatype Operation =
    | NewAccount(name: Name)
    | Pay(from: Name, to: Name, symbol: Symbol, amount: nat)
    | Save(from: Name, to: Name, symbol: Symbol, amount: nat)
    | Unsave(from: Name, to: Name, id: nat, symbol: Symbol, amount: nat)
    | CancelUnsave(from: Name, id: nat)
    | OpenEscrow(escrow: Escrow, id: nat)
    | JudgeEscrow(from: Name, id: nat, to: Name, agent: Name, who: Name, approve: bool)
    | DisputeEscrow(from: Name, id: nat, to: Name, agent: Name)
    | ReleaseEscrow(from: Name, id: nat, to: Name, agent: Name, who: Name, receiver: Name, token: nat, dollar: nat)
    | Exchange(owner: Name, id: nat, amount: nat)
    | Invest(from: Name, to: Name, amount: nat)
    | Claim(name: Name, token: nat, dollar: nat, vests: nat)
    | Offer(owner: Name, id: nat, symbol: Symbol, amount: nat)
    | Withdraw(owner: Name, id: nat)
    | Fill(k1: Key, k2: Key, pays1: nat, pays2: nat)
    | Reward(name: Name, asDollars: nat, asVesting: nat)
    | RewardTreasury(tokens: nat)
    | Inflate(content: nat, vesting: nat, pay: nat, proposals: nat, producer: Name)
    | Block(time: int, interestRate: nat, price: Option<Feed>, printRate: Percent)

  class Ledger {
    const treasury: Name
    var accounts: Accounts
    var escrows: map<Key, Escrow>
    var withdrawals: map<Key, Withdrawal>
    var converts: map<Key, Convert>
    var orders: map<Key, Order>
    var vestingFund: int
    var rewardFund: int
    var pendingToken: int
    var totalShares: int
    var pendingShares: int
    var supplyToken: int
    var supplyDollar: int
    var now: nat
    var rate: nat
    var printRate: Percent
    var feed: Option<Feed>

    // ---- The supply --------------------------------------------------------------------------

    ghost function Supply(s: Symbol): int
      reads `supplyToken, `supplyDollar
    {
      if s == Token then supplyToken else supplyDollar
    }

    /** Everything that is held anywhere. */
    ghost function Held(s: Symbol): int
      reads `accounts, `escrows, `withdrawals, `converts, `orders, `vestingFund, `rewardFund, `pendingToken
    {
      Total(accounts, HeldOf(s)) + Total(escrows, InEscrow(s)) + Total(withdrawals, InWithdrawal(s)) + Total(converts,
          InConversion(s))
      + Total(orders, InOrder(s)) + if s == Token then vestingFund + rewardFund + pendingToken else 0
    }

    /** What is recorded but not held; zero between operations. */
    ghost function Gap(s: Symbol): int
      reads this
    {
      Supply(s) - Held(s)
    }

    ghost predicate VestsOk()
      reads `accounts, `totalShares, `pendingShares, `pendingToken
    {
      totalShares + pendingShares == Total(accounts, VestsOf()) && pendingToken == Total(accounts, PendingOf())
    }

    ghost predicate Sane()
      reads `accounts, `escrows, `withdrawals, `converts, `orders, `totalShares, `pendingShares, `pendingToken, `now
    {
      && AccountsOk(accounts, now) && RequestsOk(accounts, withdrawals) && VestsOk()
      && EscrowsOk(escrows, accounts.Keys) && WithdrawalsOk(withdrawals, accounts.Keys)
      && ConvertsOk(converts, accounts.Keys) && OrdersOk(orders, accounts.Keys)
    }

    ghost predicate Valid()
      reads this
    {
      Sane() && Gap(Token) == 0 && Gap(Dollar) == 0 && vestingFund >= 0 && totalShares >= 0
    }

    /** A chain at its start: one account holds the whole supply. */
    constructor (names: set<Name>, owner: Name, tokens: nat, dollars: nat, treasury: Name, time: nat)
      ensures Valid() && supplyToken == tokens && supplyDollar == dollars && now == time
      ensures accounts == Founded(names, owner, tokens, dollars)
    {
      hide Total, Founded;
      this.treasury := treasury;
      accounts := Founded(names, owner, tokens, dollars);
      escrows, withdrawals, converts, orders := map[], map[], map[], map[];
      vestingFund, rewardFund, pendingToken, totalShares, pendingShares := 0, 0, 0, 0, 0;
      supplyToken, supplyDollar, now, rate, printRate, feed := tokens, dollars, time, 0, Prices.FULL, None;
      new;
      FoundedOk(names, owner, tokens, dollars, time);
      forall s ensures Total(escrows, InEscrow(s)) == 0 && Total(withdrawals, InWithdrawal(s)) == 0
          && Total(converts, InConversion(s)) == 0 && Total(orders, InOrder(s)) == 0 {
        TotalNone(escrows, InEscrow(s));
        TotalNone(withdrawals, InWithdrawal(s));
        TotalNone(converts, InConversion(s));
        TotalNone(orders, InOrder(s));
      }
    }

    ghost predicate CanAdd(name: Name, s: Symbol, amount: int)
      reads `accounts
    {
      name in accounts && Of(accounts[name].liquid, s) + amount >= 0
    }

    lemma SaneAccounts()
      requires Sane()
      ensures AccountsOk(accounts, now)
    {
    }

    lemma SaneWithdrawal(k: Key)
      requires Sane() && k in withdrawals
      ensures AccountsOk(accounts, now) && withdrawals[k].to in accounts
    {
    }

    lemma SaneEscrow(k: Key)
      requires Sane() && k in escrows
      ensures AccountsOk(accounts, now) && escrows[k].from in accounts
    {
    }

    lemma SaneConversion(k: Key)
      requires Sane() && k in converts
      ensures AccountsOk(accounts, now) && converts[k].owner in accounts
    {
    }

    lemma TimePasses(time: int)
      requires Sane() && time >= now
      ensures AccountsOk(accounts, time)
    {
    }

    // ---- Balances ----------------------------------------------------------------------------

    method AdjustBalance(name: Name, s: Symbol, amount: int) returns (ok: bool)
      requires Sane()
      modifies `accounts, `supplyDollar
      ensures Sane() && OnlyPurses(old(accounts), accounts) && accounts.Keys == old(accounts).Keys
      ensures ok <==> old(CanAdd(name, s, amount))
      ensures !ok ==> accounts == old(accounts) && supplyDollar == old(supplyDollar)
      ensures ok ==> accounts == Give(old(accounts), name, s, amount, now, rate)
      ensures s == Token ==> supplyDollar == old(supplyDollar)
      ensures forall t :: Gap(t) == old(Gap(t)) - if ok && t == s then amount else 0
    {
      hide Total, AccountsOk, RequestsOk, EscrowsOk, WithdrawalsOk, ConvertsOk, OrdersOk, OnlyPurses, Added,
           WithInterest;
      OnlyPursesNone(accounts);
      if name !in accounts {
        return false;
      }
      OkAccount(accounts, now, name);
      if amount < 0 && Of(accounts[name].liquid, s) < 0 - amount {
        return false;
      }
      LiquidPut(accounts, name, s, amount, now, rate, Token);
      LiquidPut(accounts, name, s, amount, now, rate, Dollar);
      var interest := Interest(accounts[name].liquid, s, now, rate);
      accounts := PutLiquid(accounts, name, s, amount, now, rate);
      supplyDollar := supplyDollar + interest;
      PursesKeepVests(old(accounts), accounts);
      PursesKeepRequests(old(accounts), accounts, withdrawals);
      ok := true;
    }

    method AdjustSavings(name: Name, s: Symbol, amount: int) returns (ok: bool)
      requires Sane() && name in accounts
      modifies `accounts, `supplyDollar
      ensures Sane() && OnlyPurses(old(accounts), accounts) && accounts.Keys == old(accounts).Keys
      ensures ok <==> Of(old(accounts)[name].savings, s) + amount >= 0
      ensures !ok ==> accounts == old(accounts) && supplyDollar == old(supplyDollar)
      ensures ok ==> accounts == GiveSavings(old(accounts), name, s, amount, now, rate)
      ensures forall t :: Gap(t) == old(Gap(t)) - if ok && t == s then amount else 0
    {
      hide Total, AccountsOk, RequestsOk, EscrowsOk, WithdrawalsOk, ConvertsOk, OrdersOk, OnlyPurses, Added,
           WithInterest;
      OnlyPursesNone(accounts);
      OkAccount(accounts, now, name);
      if Of(accounts[name].savings, s) + amount < 0 {
        return false;
      }
      SavingsPut(accounts, name, s, amount, now, rate, Token);
      SavingsPut(accounts, name, s, amount, now, rate, Dollar);
      var interest := Interest(accounts[name].savings, s, now, rate);
      accounts := PutSavings(accounts, name, s, amount, now, rate);
      supplyDollar := supplyDollar + interest;
      PursesKeepVests(old(accounts), accounts);
      PursesKeepRequests(old(accounts), accounts, withdrawals);
      ok := true;
    }

    /** Credits an amount of either symbol. */
    method PayBoth(name: Name, token: nat, dollar: nat)
      requires Sane() && name in accounts
      modifies `accounts, `supplyDollar
      ensures Sane() && accounts.Keys == old(accounts).Keys
      ensures accounts == Give(Give(old(accounts), name, Token, token, now, rate), name, Dollar, dollar, now, rate)
      ensures forall t :: Gap(t) == old(Gap(t)) - if t == Token then token else dollar
    {
      hide Total, AccountsOk, RequestsOk, EscrowsOk, WithdrawalsOk, ConvertsOk, OrdersOk, VestsOk, OnlyPurses, Give,
           Held;
      LiquidNonneg(accounts, now, name, Token);
      var _ := AdjustBalance(name, Token, token);
      LiquidNonneg(accounts, now, name, Dollar);
      var _ := AdjustBalance(name, Dollar, dollar);
    }

    /** A payment: an amount leaves one balance and arrives at another. */
    method Transfer(from: Name, to: Name, s: Symbol, amount: nat) returns (ok: bool)
      requires Valid()
      modifies `accounts, `supplyDollar
      ensures Valid()
      ensures ok <==> (s == Dollar || to != treasury) && to in old(accounts) && old(CanAdd(from, s, 0 - amount))
      ensures !ok ==> accounts == old(accounts) && supplyDollar == old(supplyDollar)
      ensures ok ==> accounts == Give(Give(old(accounts), from, s, 0 - amount, now, rate), to, s, amount, now, rate)
    {
      hide Total, AccountsOk, RequestsOk, EscrowsOk, WithdrawalsOk, ConvertsOk, OrdersOk, VestsOk, OnlyPurses, Give,
           GiveSavings, Held;
      if s != Dollar && to == treasury {
        return false;
      }
      var accounts0, supply0 := accounts, supplyDollar;
      ok := AdjustBalance(from, s, 0 - amount);
      if !ok {
        return;
      }
      ok := CreditOrUndo(to, s, amount, accounts0, supply0);
    }

    /** Credits an account; when there is none, takes back what was done to the balances. */
    method CreditOrUndo(to: Name, s: Symbol, amount: nat, accounts0: Accounts, supply0: int) returns (ok: bool)
      requires Sane() && accounts.Keys == accounts0.Keys
      modifies `accounts, `supplyDollar
      ensures ok <==> to in accounts0
      ensures !ok ==> accounts == accounts0 && supplyDollar == supply0
      ensures ok ==> Sane() && accounts == Give(old(accounts), to, s, amount, now, rate)
      ensures ok ==> forall t :: Gap(t) == old(Gap(t)) - if t == s then amount else 0
    {
      hide Total, AccountsOk, RequestsOk, EscrowsOk, WithdrawalsOk, ConvertsOk, OrdersOk, VestsOk, OnlyPurses, Give,
           Held;
      if to in accounts {
        OkAccount(accounts, now, to);
        ok := AdjustBalance(to, s, amount);
      } else {
        accounts, supplyDollar := accounts0, supply0;
        ok := false;
      }
    }

    // ---- Savings -----------------------------------------------------------------------------

    method TransferToSavings(from: Name, to: Name, s: Symbol, amount: nat) returns (ok: bool)
      requires Valid()
      modifies `accounts, `supplyDollar
      ensures Valid()
      ensures ok <==> from in old(accounts) && to in old(accounts) && to != treasury && old(CanAdd(from, s, 0 - amount))
      ensures !ok ==> accounts == old(accounts) && supplyDollar == old(supplyDollar)
      ensures ok ==>
        accounts == GiveSavings(Give(old(accounts), from, s, 0 - amount, now, rate), to, s, amount, now, rate)
    {
      hide Total, AccountsOk, RequestsOk, EscrowsOk, WithdrawalsOk, ConvertsOk, OrdersOk, VestsOk, OnlyPurses, Give,
           GiveSavings, Held;
      if from !in accounts || to !in accounts || to == treasury {
        return false;
      }
      ok := AdjustBalance(from, s, 0 - amount);
      if ok {
        SavingsNonneg(accounts, now, to, s);
        var _ := AdjustSavings(to, s, amount);
      }
    }

    /** Puts a pending withdrawal; the account counts it. */
    method PutWithdrawal(k: Key, w: Withdrawal)
      requires Sane() && k !in withdrawals && k.0 == w.from && w.from in accounts && w.to in accounts
      modifies `accounts, `withdrawals
      ensures Sane() && withdrawals == old(withdrawals)[k := w] && accounts.Keys == old(accounts).Keys
      ensures accounts == Counting(old(accounts), w.from, 1)
      ensures forall t :: Gap(t) == old(Gap(t)) - if t == w.symbol then w.amount else 0
    {
      hide Total, AccountsOk, RequestsOk, EscrowsOk, ConvertsOk, OrdersOk;
      CountingOne(accounts, withdrawals, now, w.from, 1);
      RequestPut(accounts, withdrawals, k, w);
      TotalPut(withdrawals, InWithdrawal(Token), k, w);
      TotalPut(withdrawals, InWithdrawal(Dollar), k, w);
      accounts := Counting(accounts, w.from, 1);
      withdrawals := withdrawals[k := w];
    }

    method DropWithdrawal(k: Key)
      requires Sane() && k in withdrawals
      modifies `accounts, `withdrawals
      ensures Sane() && withdrawals == old(withdrawals) - {k} && accounts.Keys == old(accounts).Keys
      ensures accounts == Counting(old(accounts), old(withdrawals)[k].from, -1)
      ensures forall t ::
        Gap(t) == old(Gap(t)) + if t == old(withdrawals)[k].symbol then old(withdrawals)[k].amount else 0
    {
      hide Total, AccountsOk, RequestsOk, EscrowsOk, ConvertsOk, OrdersOk;
      var w := withdrawals[k];
      CountingOne(accounts, withdrawals, now, w.from, -1);
      RequestDrop(accounts, withdrawals, k);
      TotalDrop(withdrawals, InWithdrawal(Token), k);
      TotalDrop(withdrawals, InWithdrawal(Dollar), k);
      accounts := Counting(accounts, w.from, -1);
      withdrawals := withdrawals - {k};
    }

    /** Asks for savings back: the amount waits in a withdrawal. */
    method TransferFromSavings(from: Name, to: Name, id: nat, s: Symbol, amount: nat) returns (ok: bool)
      requires Valid()
      modifies `accounts, `supplyDollar, `withdrawals
      ensures Valid()
      ensures ok <==> from in old(accounts) && to in old(accounts) && old(accounts)[from].requests < SAVINGS_LIMIT
                      && (s == Dollar || to != treasury) && Of(old(accounts)[from].savings, s) >= amount
                      && (from, id) !in old(withdrawals)
      ensures !ok ==> accounts == old(accounts) && supplyDollar == old(supplyDollar) && withdrawals == old(withdrawals)
      ensures ok ==> withdrawals == old(withdrawals)[(from, id) := Withdrawal(from, to, s, amount, now + SAVINGS_TIME)]
      ensures ok ==> accounts == Counting(GiveSavings(old(accounts), from, s, 0 - amount, now, rate), from, 1)
    {
      hide Total, AccountsOk, RequestsOk, EscrowsOk, WithdrawalsOk, ConvertsOk, OrdersOk, VestsOk, OnlyPurses, Give,
           GiveSavings, Held;
      if from !in accounts || to !in accounts || accounts[from].requests >= SAVINGS_LIMIT
         || (s != Dollar && to == treasury)
         || Of(accounts[from].savings, s) < amount || (from, id) in withdrawals {
        return false;
      }
      ok := AdjustSavings(from, s, 0 - amount);
      PutWithdrawal((from, id), Withdrawal(from, to, s, amount, now + SAVINGS_TIME));
    }

    /** Takes such a request back. */
    method CancelTransferFromSavings(from: Name, id: nat) returns (ok: bool)
      requires Valid()
      modifies `accounts, `supplyDollar, `withdrawals
      ensures Valid()
      ensures ok <==> (from, id) in old(withdrawals)
      ensures !ok ==> accounts == old(accounts) && supplyDollar == old(supplyDollar)
      ensures withdrawals == old(withdrawals) - {(from, id)}
      ensures ok ==> var w := old(withdrawals)[(from, id)];
                accounts == Counting(GiveSavings(old(accounts), from, w.symbol, w.amount, now, rate), from, -1)
    {
      hide Total, AccountsOk, RequestsOk, EscrowsOk, ConvertsOk, OrdersOk, VestsOk, OnlyPurses, Give, GiveSavings, Held;
      var k := (from, id);
      if k !in withdrawals {
        return false;
      }
      var w := withdrawals[k];
      SavingsNonneg(accounts, now, w.from, w.symbol);
      ok := AdjustSavings(w.from, w.symbol, w.amount);
      DropWithdrawal(k);
    }

    method CompleteWithdrawal(k: Key)
      requires Valid() && k in withdrawals
      modifies `accounts, `supplyDollar, `withdrawals
      ensures Valid() && withdrawals == old(withdrawals) - {k}
      ensures var w := old(withdrawals)[k];
                accounts == Counting(Give(old(accounts), w.to, w.symbol, w.amount, now, rate), w.from, -1)
    {
      hide Total, AccountsOk, RequestsOk, EscrowsOk, ConvertsOk, OrdersOk, VestsOk, OnlyPurses, Give, GiveSavings, Held;
      var w := withdrawals[k];
      LiquidNonneg(accounts, now, w.to, w.symbol);
      var _ := AdjustBalance(w.to, w.symbol, w.amount);
      DropWithdrawal(k);
    }

    /** Completes every withdrawal whose time has come, and no other. */
    method ProcessSavingsWithdraws()
      requires Valid()
      modifies `accounts, `supplyDollar, `withdrawals
      ensures Valid()
      ensures withdrawals == old(withdrawals) - (set k | k in old(withdrawals) && old(withdrawals)[k].complete <= now)
      ensures AllPaid(old(accounts), accounts, WithdrawalPayments(old(withdrawals), now), now, rate)
    {
      hide Gap, Sane, AllPaid, AccountsOk;
      var todo := set k | k in withdrawals && withdrawals[k].complete <= now;
      ghost var all, due := todo, WithdrawalPayments(withdrawals, now);
      SaneAccounts();
      PaidNone(accounts, due - todo, now, rate);
      while todo != {}
        invariant Valid() && todo <= all <= old(withdrawals).Keys && withdrawals == old(withdrawals) - (all - todo)
        invariant AllPaid(old(accounts), accounts, due - todo, now, rate)
        decreases todo
      {
        var k :| k in todo;
        ghost var middle := accounts;
        SaneWithdrawal(k);
        WithdrawalPays(accounts, withdrawals[k], now, rate);
        CompleteWithdrawal(k);
        DoneNext(due, todo, k);
        PaidNext(old(accounts), middle, accounts, due - todo, k, due[k], now, rate);
        todo := todo - {k};
      }
      assert due - todo == due;
    }

    // ---- Escrow ------------------------------------------------------------------------------

    method PutEscrow(k: Key, e: Escrow)
      requires Sane() && EscrowOk(e, accounts.Keys) && k.0 == e.from
      modifies `escrows
      ensures Sane() && escrows == old(escrows)[k := e]
      ensures forall t :: Gap(t) == old(Gap(t)) - EscrowHolds(e, t) + EscrowHeld(old(escrows), k, t)
    {
      hide Total, AccountsOk, RequestsOk, WithdrawalsOk, ConvertsOk, OrdersOk;
      TotalPut(escrows, InEscrow(Token), k, e);
      TotalPut(escrows, InEscrow(Dollar), k, e);
      escrows := escrows[k := e];
    }

    method DropEscrow(k: Key)
      requires Sane() && k in escrows
      modifies `escrows
      ensures Sane() && escrows == old(escrows) - {k}
      ensures forall t :: Gap(t) == old(Gap(t)) + EscrowHolds(old(escrows)[k], t)
    {
      hide Total, AccountsOk, RequestsOk, WithdrawalsOk, ConvertsOk, OrdersOk;
      TotalDrop(escrows, InEscrow(Token), k);
      TotalDrop(escrows, InEscrow(Dollar), k);
      escrows := escrows - {k};
    }

    /** Takes two amounts and a fee from a balance, or nothing. */
    method TakeAll(from: Name, token: nat, dollar: nat, feeSymbol: Symbol, fee: nat) returns (ok: bool)
      requires Sane() && from in accounts
      modifies `accounts, `supplyDollar
      ensures Sane() && accounts.Keys == old(accounts).Keys
      ensures ok <==> old(CanAdd(from, Token, 0 - Due(token, feeSymbol, fee, Token))) && old(CanAdd(from, Dollar,
          0 - Due(dollar, feeSymbol, fee, Dollar)))
      ensures !ok ==> accounts == old(accounts) && supplyDollar == old(supplyDollar)
      ensures ok ==> accounts == Taken(old(accounts), from, token, dollar, feeSymbol, fee, now, rate)
      ensures ok ==> forall t :: Gap(t) == old(Gap(t)) + Due(if t == Token then token else dollar, feeSymbol, fee, t)
    {
      hide Total, AccountsOk, RequestsOk, EscrowsOk, WithdrawalsOk, ConvertsOk, OrdersOk, OnlyPurses, PurseOk, Held;
      var accounts0, supply0 := accounts, supplyDollar;
      OkAccount(accounts, now, from);
      DollarsApart(accounts[from].liquid, 0 - Due(token, feeSymbol, fee, Token), now, rate);
      ok := AdjustBalance(from, Token, 0 - Due(token, feeSymbol, fee, Token));
      if !ok {
        return;
      }
      ok := AdjustBalance(from, Dollar, 0 - Due(dollar, feeSymbol, fee, Dollar));
      if !ok {
        accounts, supplyDollar := accounts0, supply0;
      }
    }

    /** Gives an account what an escrow holds. */
    method Refund(name: Name, e: Escrow)
      requires Sane() && name in accounts
      modifies `accounts, `supplyDollar
      ensures Sane() && accounts.Keys == old(accounts).Keys
      ensures accounts == Refunded(old(accounts), name, e, now, rate)
      ensures forall t :: Gap(t) == old(Gap(t)) - EscrowHolds(e, t)
    {
      hide Total, AccountsOk, RequestsOk, EscrowsOk, WithdrawalsOk, ConvertsOk, OrdersOk, VestsOk, OnlyPurses, Give,
           GiveSavings, Held;
      PayBoth(name, e.token, e.dollar);
      LiquidNonneg(accounts, now, name, e.feeSymbol);
      var _ := AdjustBalance(name, e.feeSymbol, e.fee);
    }

    /** Puts amounts and a fee for an agent into escrow. */
    method EscrowTransfer(e: Escrow, id: nat) returns (ok: bool)
      requires Valid()
      modifies `accounts, `supplyDollar, `escrows
      ensures Valid()
      ensures ok <==> old(EscrowAllowed(e, id))
      ensures !ok ==> accounts == old(accounts) && supplyDollar == old(supplyDollar) && escrows == old(escrows)
      ensures ok ==> escrows == old(escrows)[(e.from, id) := e]
      ensures ok ==> accounts == Taken(old(accounts), e.from, e.token, e.dollar, e.feeSymbol, e.fee, now, rate)
    {
      hide Total, AccountsOk, RequestsOk, EscrowsOk, WithdrawalsOk, ConvertsOk, OrdersOk, VestsOk, OnlyPurses, Give,
           GiveSavings, Held;
      if e.from !in accounts || e.to !in accounts || e.agent !in accounts || e.from == e.agent || e.to == e.agent
         || (e.token == 0 && e.dollar == 0) || e.ratifyBy >= e.expires || e.ratifyBy <= now || e.expires <= now
         || e.toApproved || e.agentApproved || e.disputed || (e.from, id) in escrows {
        return false;
      }
      ok := TakeAll(e.from, e.token, e.dollar, e.feeSymbol, e.fee);
      if ok {
        PutEscrow((e.from, id), e);
      }
    }

    ghost predicate EscrowAllowed(e: Escrow, id: nat)
      reads `accounts, `escrows, `now
    {
      && e.from in accounts && e.to in accounts && e.agent in accounts && e.from != e.agent && e.to != e.agent
      && (e.token > 0 || e.dollar > 0) && now < e.ratifyBy < e.expires
      && !e.toApproved && !e.agentApproved && !e.disputed && (e.from, id) !in escrows
      && CanAdd(e.from, Token, 0 - Due(e.token, e.feeSymbol, e.fee, Token)) && CanAdd(e.from, Dollar,
          0 - Due(e.dollar, e.feeSymbol, e.fee, Dollar))
    }

    /**
     The receiver or the agent approves or rejects. The second approval pays the agent; a rejection
     refunds everything.
     */
    method EscrowApprove(from: Name, id: nat, to: Name, agent: Name, who: Name, approve: bool) returns (ok: bool)
      requires Valid()
      modifies `accounts, `supplyDollar, `escrows
      ensures Valid()
      ensures ok <==> (from, id) in old(escrows) && ApproveAllowed(old(escrows)[(from, id)], to, agent, who, now)
      ensures !ok ==> accounts == old(accounts) && supplyDollar == old(supplyDollar) && escrows == old(escrows)
      ensures ok && !approve ==> escrows == old(escrows) - {(from, id)}
      ensures ok && !approve ==> accounts == Refunded(old(accounts), from, old(escrows)[(from, id)], now, rate)
      ensures ok && approve ==> escrows == old(escrows)[(from, id) := Approved(old(escrows)[(from, id)], who)]
      ensures ok && approve ==> var e := old(escrows)[(from, id)];
        accounts == if Seconds(e, who) then Give(old(accounts), agent, e.feeSymbol, e.fee, now, rate) else old(accounts)
    {
      hide Total, AccountsOk, RequestsOk, EscrowsOk, WithdrawalsOk, ConvertsOk, OrdersOk, VestsOk, OnlyPurses, Give,
           GiveSavings, Held;
      var k := (from, id);
      if k !in escrows {
        return false;
      }
      EscrowIsOk(escrows, accounts.Keys, k);
      var e := escrows[k];
      if e.to != to || e.agent != agent || e.ratifyBy < now || (who != to && who != agent) {
        return false;
      }
      if (who == to && e.toApproved) || (who == agent && e.agentApproved) {
        return false;
      }
      if !approve {
        ReturnEscrow(k);
      } else {
        Approve(k, who);
      }
      ok := true;
    }

    /** Records an approval; the second one pays the agent. */
    method Approve(k: Key, who: Name)
      requires Valid() && k in escrows && (who == escrows[k].to || who == escrows[k].agent)
      modifies `accounts, `supplyDollar, `escrows
      ensures Valid() && escrows == old(escrows)[k := Approved(old(escrows)[k], who)]
      ensures var e := old(escrows)[k]; accounts == if Seconds(e, who) then Give(old(accounts), e.agent, e.feeSymbol,
          e.fee, now, rate) else old(accounts)
    {
      hide Total, AccountsOk, RequestsOk, EscrowsOk, WithdrawalsOk, ConvertsOk, OrdersOk, VestsOk, OnlyPurses, Give,
           Held;
      EscrowIsOk(escrows, accounts.Keys, k);
      var e := escrows[k];
      if who == e.to {
        e := e.(toApproved := true);
      } else {
        e := e.(agentApproved := true);
      }
      if e.toApproved && e.agentApproved {
        LiquidNonneg(accounts, now, e.agent, e.feeSymbol);
        var _ := AdjustBalance(e.agent, e.feeSymbol, e.fee);
        e := e.(fee := 0);
      }
      PutEscrow(k, e);
    }

    method EscrowDispute(from: Name, id: nat, to: Name, agent: Name) returns (ok: bool)
      requires Valid()
      modifies `escrows
      ensures Valid()
      ensures ok <==> (from, id) in old(escrows) && DisputeAllowed(old(escrows)[(from, id)], to, agent, now)
      ensures !ok ==> escrows == old(escrows)
      ensures ok ==> escrows == old(escrows)[(from, id) := old(escrows)[(from, id)].(disputed := true)]
    {
      hide Total, AccountsOk, RequestsOk, EscrowsOk, WithdrawalsOk, ConvertsOk, OrdersOk, Held;
      var k := (from, id);
      if k !in escrows || now >= escrows[k].expires || !escrows[k].toApproved || !escrows[k].agentApproved
         || escrows[k].disputed
         || escrows[k].to != to || escrows[k].agent != agent {
        return false;
      }
      EscrowIsOk(escrows, accounts.Keys, k);
      PutEscrow(k, escrows[k].(disputed := true));
      ok := true;
    }

    /** Releases amounts to one of the parties; an emptied escrow is removed. */
    method EscrowRelease(from: Name, id: nat, to: Name, agent: Name, who: Name, receiver: Name, token: nat,
        dollar: nat) returns (ok: bool)
      requires Valid()
      modifies `accounts, `supplyDollar, `escrows
      ensures Valid()
      ensures ok <==> (from, id) in old(escrows) && ReleaseAllowed(old(escrows)[(from, id)], to, agent, who, receiver,
          token, dollar, now)
      ensures !ok ==> accounts == old(accounts) && supplyDollar == old(supplyDollar) && escrows == old(escrows)
      ensures ok ==>
        accounts == Give(Give(old(accounts), receiver, Token, token, now, rate), receiver, Dollar, dollar, now, rate)
      ensures ok ==> escrows == Released(old(escrows), (from, id), token, dollar)
    {
      hide Total, AccountsOk, RequestsOk, EscrowsOk, WithdrawalsOk, ConvertsOk, OrdersOk, VestsOk, OnlyPurses, Give,
           GiveSavings, Held;
      var k := (from, id);
      if k !in escrows {
        return false;
      }
      ok := MayRelease(escrows[k], to, agent, who, receiver, token, dollar);
      if ok {
        Release(k, receiver, token, dollar);
      }
    }

    /** The checks of a release, in their order. */
    method MayRelease(e: Escrow, to: Name, agent: Name, who: Name, receiver: Name, token: nat,
        dollar: nat) returns (ok: bool)
      ensures ok <==> ReleaseAllowed(e, to, agent, who, receiver, token, dollar, now)
    {
      if (token == 0 && dollar == 0) || e.token < token || e.dollar < dollar || e.to != to || e.agent != agent
         || (receiver != e.from && receiver != e.to) || !e.toApproved || !e.agentApproved {
        return false;
      }
      if e.disputed {
        if who != e.agent {
          return false;
        }
      } else {
        if who != e.from && who != e.to {
          return false;
        }
        if e.expires > now {
          if who == e.from {
            if receiver != e.to {
              return false;
            }
          } else if receiver != e.from {
            return false;
          }
        }
      }
      ok := true;
    }

    /** Pays amounts out of an approved escrow, and removes it once it is empty. */
    method Release(k: Key, receiver: Name, token: nat, dollar: nat)
      requires Valid() && k in escrows && (receiver == escrows[k].from || receiver == escrows[k].to)
      requires token <= escrows[k].token && dollar <= escrows[k].dollar && escrows[k].toApproved
      requires escrows[k].agentApproved
      modifies `accounts, `supplyDollar, `escrows
      ensures Valid() && escrows == Released(old(escrows), k, token, dollar)
      ensures accounts == Give(Give(old(accounts), receiver, Token, token, now, rate), receiver, Dollar, dollar, now,
          rate)
    {
      hide Total, AccountsOk, RequestsOk, EscrowsOk, WithdrawalsOk, ConvertsOk, OrdersOk, VestsOk, OnlyPurses, Give,
           GiveSavings, Held;
      EscrowIsOk(escrows, accounts.Keys, k);
      PayBoth(receiver, token, dollar);
      var e := escrows[k].(token := escrows[k].token - token, dollar := escrows[k].dollar - dollar);
      PutEscrow(k, e);
      if e.token == 0 && e.dollar == 0 {
        DropEscrow(k);
      }
    }

    /** Gives everything in an escrow back to its sender and removes it. */
    method ReturnEscrow(k: Key)
      requires Valid() && k in escrows
      modifies `accounts, `supplyDollar, `escrows
      ensures Valid() && escrows == old(escrows) - {k}
      ensures accounts == Refunded(old(accounts), old(escrows)[k].from, old(escrows)[k], now, rate)
    {
      hide Total, AccountsOk, RequestsOk, EscrowsOk, WithdrawalsOk, ConvertsOk, OrdersOk, VestsOk, OnlyPurses, Give,
           GiveSavings, Held;
      EscrowIsOk(escrows, accounts.Keys, k);
      Refund(escrows[k].from, escrows[k]);
      DropEscrow(k);
    }

    /** Refunds every escrow that was not ratified in time, and no other. */
    method ExpireEscrowRatification()
      requires Valid()
      modifies `accounts, `supplyDollar, `escrows
      ensures Valid()
      ensures escrows == old(escrows) - (set k | k in old(escrows) && Overdue(old(escrows)[k], now))
      ensures AllPaid(old(accounts), accounts, EscrowPayments(old(escrows), now), now, rate)
    {
      hide Gap, Sane, AllPaid, AccountsOk, OnePaid, Refunded;
      var todo := set k | k in escrows && !(escrows[k].toApproved && escrows[k].agentApproved)
                          && escrows[k].ratifyBy <= now;
      ghost var all, due := todo, EscrowPayments(escrows, now);
      SaneAccounts();
      PaidNone(accounts, due - todo, now, rate);
      while todo != {}
        invariant Valid() && todo <= all <= old(escrows).Keys && escrows == old(escrows) - (all - todo)
        invariant AllPaid(old(accounts), accounts, due - todo, now, rate)
        decreases todo
      {
        var k :| k in todo;
        ghost var middle := accounts;
        SaneEscrow(k);
        RefundPays(accounts, escrows[k], now, rate);
        ReturnEscrow(k);
        DoneNext(due, todo, k);
        PaidNext(old(accounts), middle, accounts, due - todo, k, due[k], now, rate);
        todo := todo - {k};
      }
      assert due - todo == due;
    }

    // ---- Conversions -------------------------------------------------------------------------

    /** Asks for dollars to be turned into tokens later. */
    method RequestConversion(owner: Name, id: nat, amount: nat) returns (ok: bool)
      requires Valid()
      modifies `accounts, `supplyDollar, `converts
      ensures Valid()
      ensures ok <==> old(CanAdd(owner, Dollar, 0 - amount)) && feed.Some? && (owner, id) !in old(converts)
      ensures !ok ==> accounts == old(accounts) && supplyDollar == old(supplyDollar) && converts == old(converts)
      ensures ok ==> accounts == Give(old(accounts), owner, Dollar, 0 - amount, now, rate)
      ensures ok ==> converts == old(converts)[(owner, id) := Convert(owner, amount, now + CONVERSION_DELAY)]
    {
      hide Total, AccountsOk, RequestsOk, EscrowsOk, WithdrawalsOk, ConvertsOk, OrdersOk, VestsOk, OnlyPurses, Give,
           Held;
      var accounts0, supply0 := accounts, supplyDollar;
      ok := AdjustBalance(owner, Dollar, 0 - amount);
      if !ok {
        return;
      }
      if feed.None? || (owner, id) in converts {
        accounts, supplyDollar := accounts0, supply0;
        return false;
      }
      PutConversion((owner, id), Convert(owner, amount, now + CONVERSION_DELAY));
    }

    method PutConversion(k: Key, c: Convert)
      requires Sane() && k !in converts && c.owner in accounts
      modifies `converts
      ensures Sane() && converts == old(converts)[k := c]
      ensures Gap(Token) == old(Gap(Token)) && Gap(Dollar) == old(Gap(Dollar)) - c.amount
    {
      hide Total, AccountsOk, RequestsOk, EscrowsOk, WithdrawalsOk, OrdersOk, VestsOk;
      TotalPut(converts, InConversion(Token), k, c);
      TotalPut(converts, InConversion(Dollar), k, c);
      converts := converts[k := c];
    }

    /** Pays one conversion; the supplies are corrected by the caller. */
    method PayConversion(k: Key, f: Feed) returns (issued: nat)
      requires Sane() && k in converts
      modifies `accounts, `supplyDollar, `converts
      ensures Sane() && converts == old(converts) - {k} && supplyDollar == old(supplyDollar)
      ensures issued == Prices.Exchange(old(converts)[k].amount, f.dollars, f.tokens)
      ensures accounts == Give(old(accounts), old(converts)[k].owner, Token, issued, now, rate)
      ensures Gap(Token) == old(Gap(Token)) - issued && Gap(Dollar) == old(Gap(Dollar)) + old(converts)[k].amount
    {
      hide Total, AccountsOk, RequestsOk, EscrowsOk, WithdrawalsOk, OrdersOk, VestsOk, OnlyPurses, Give,
           Prices.Exchange;
      var c := converts[k];
      issued := Prices.Exchange(c.amount, f.dollars, f.tokens);
      LiquidNonneg(accounts, now, c.owner, Token);
      var _ := AdjustBalance(c.owner, Token, issued);
      TotalDrop(converts, InConversion(Token), k);
      TotalDrop(converts, InConversion(Dollar), k);
      converts := converts - {k};
    }

    /** Pays every conversion whose date has come, and no other. */
    method PayConversions(f: Feed) returns (netDollar: int, netToken: int)
      requires Sane()
      modifies `accounts, `supplyDollar, `converts
      ensures Sane() && converts == old(converts) - (set k | k in old(converts) && old(converts)[k].date <= now)
      ensures AllPaid(old(accounts), accounts, ConversionPayments(old(converts), now, f), now, rate)
      ensures netDollar == Total(DueConverts(old(converts), now), InConversion(Dollar))
      ensures netToken == Total(ConversionPayments(old(converts), now, f), TokenPaid())
      ensures supplyDollar == old(supplyDollar)
      ensures Gap(Token) == old(Gap(Token)) - netToken && Gap(Dollar) == old(Gap(Dollar)) + netDollar
    {
      hide Gap, Sane, Prices.Exchange, AllPaid, AccountsOk, OnePaid, Give, Total;
      var todo := set k | k in converts && converts[k].date <= now;
      ghost var all, due, requests := todo, ConversionPayments(converts, now, f), DueConverts(converts, now);
      SaneAccounts();
      PaidNone(accounts, due - todo, now, rate);
      TotalNone(due - todo, TokenPaid());
      TotalNone(requests - todo, InConversion(Dollar));
      netDollar, netToken := 0, 0;
      while todo != {}
        invariant Sane() && todo <= all <= old(converts).Keys && converts == old(converts) - (all - todo)
        invariant AllPaid(old(accounts), accounts, due - todo, now, rate) && supplyDollar == old(supplyDollar)
        invariant netDollar == Total(requests - todo, InConversion(Dollar))
        invariant netToken == Total(due - todo, TokenPaid())
        invariant Gap(Token) == old(Gap(Token)) - netToken && Gap(Dollar) == old(Gap(Dollar)) + netDollar
        decreases todo
      {
        var k :| k in todo;
        ghost var middle, c := accounts, converts[k];
        SaneConversion(k);
        GivePays(accounts, c.owner, Token, Prices.Exchange(c.amount, f.dollars, f.tokens), now, rate);
        netDollar := netDollar + converts[k].amount;
        var issued := PayConversion(k, f);
        netToken := netToken + issued;
        DoneNext(due, todo, k);
        DoneNext(requests, todo, k);
        PaidNext(old(accounts), middle, accounts, due - todo, k, due[k], now, rate);
        TotalPut(due - todo, TokenPaid(), k, due[k]);
        TotalPut(requests - todo, InConversion(Dollar), k, c);
        todo := todo - {k};
      }
      assert due - todo == due && requests - todo == requests;
    }

    /** The conversions of a block: both supplies are corrected once, after all of them are paid. */
    method ProcessConversions()
      requires Valid()
      modifies `accounts, `supplyDollar, `supplyToken, `converts
      ensures Valid()
      ensures feed.None? ==> converts == old(converts) && accounts == old(accounts)
      ensures feed.None? ==> supplyToken == old(supplyToken) && supplyDollar == old(supplyDollar)
      ensures feed.Some? ==> converts == old(converts) - (set k | k in old(converts) && old(converts)[k].date <= now)
      ensures feed.Some? ==>
        var payments := ConversionPayments(old(converts), now, feed.value);
        && AllPaid(old(accounts), accounts, payments, now, rate)
        && supplyToken == old(supplyToken) + Total(payments, TokenPaid())
        && supplyDollar == old(supplyDollar) - Total(DueConverts(old(converts), now), InConversion(Dollar))
    {
      hide Held, Sane, AllPaid, Total, ConversionPayments, DueConverts;
      if feed.None? {
        return;
      }
      var netDollar, netToken := PayConversions(feed.value);
      supplyToken := supplyToken + netToken;
      supplyDollar := supplyDollar - netDollar;
    }

    // ---- Rewards -----------------------------------------------------------------------------

    /** Moves claimed rewards to the balance, and the tokens behind claimed shares into the vesting fund. */
    method ClaimRewardBalance(name: Name, token: nat, dollar: nat, vests: nat) returns (ok: bool)
      requires Valid()
      modifies `accounts, `supplyDollar, `vestingFund, `pendingToken, `totalShares, `pendingShares
      ensures Valid()
      ensures ok <==> name in old(accounts) && CanClaim(old(accounts)[name], token, dollar, vests)
      ensures !ok ==> accounts == old(accounts) && supplyDollar == old(supplyDollar) && vestingFund == old(vestingFund)
      ensures !ok ==> totalShares == old(totalShares)
      ensures ok ==> totalShares == old(totalShares) + vests
      ensures ok ==> vestingFund == old(vestingFund) + ToMove(old(accounts)[name], vests)
      ensures ok ==> accounts == Give(Give(Claimed(old(accounts), name, token, dollar, vests), name, Token, token, now,
          rate), name, Dollar, dollar, now, rate)
    {
      hide Total, AccountsOk, RequestsOk, EscrowsOk, WithdrawalsOk, ConvertsOk, OrdersOk, VestsOk, OnlyPurses, Give,
           Held, Claimed, ToMove;
      if name !in accounts {
        return false;
      }
      var a := accounts[name];
      if token > a.rewardToken || dollar > a.rewardDollar || vests > a.rewardVests {
        return false;
      }
      TakeRewards(name, token, dollar, vests);
      PayBoth(name, token, dollar);
      ok := true;
    }

    method TakeRewards(name: Name, token: nat, dollar: nat, vests: nat)
      requires Sane() && name in accounts && token <= accounts[name].rewardToken
      requires dollar <= accounts[name].rewardDollar && vests <= accounts[name].rewardVests
      modifies `accounts, `vestingFund, `pendingToken, `totalShares, `pendingShares
      ensures Sane() && accounts == Claimed(old(accounts), name, token, dollar, vests)
      ensures accounts.Keys == old(accounts).Keys
      ensures totalShares == old(totalShares) + vests
      ensures vestingFund == old(vestingFund) + ToMove(old(accounts)[name], vests)
      ensures Gap(Token) == old(Gap(Token)) + token && Gap(Dollar) == old(Gap(Dollar)) + dollar
    {
      hide Total, AccountsOk, RequestsOk, EscrowsOk, WithdrawalsOk, ConvertsOk, OrdersOk, Claimed, ToMove;
      ClaimedOk(accounts, withdrawals, now, name, token, dollar, vests);
      var move := ToMove(accounts[name], vests);
      accounts := Claimed(accounts, name, token, dollar, vests);
      totalShares := totalShares + vests;
      vestingFund := vestingFund + move;
      pendingShares := pendingShares - vests;
      pendingToken := pendingToken - move;
    }

    /** Tokens enter or leave the reward fund and enter the vesting fund. */
    method GrowFunds(content: int, vesting: int)
      requires Sane()
      modifies `rewardFund, `vestingFund
      ensures Sane() && rewardFund == old(rewardFund) + content && vestingFund == old(vestingFund) + vesting
      ensures Gap(Token) == old(Gap(Token)) - content - vesting && Gap(Dollar) == old(Gap(Dollar))
    {
      hide Total, Sane;
      rewardFund := rewardFund + content;
      vestingFund := vestingFund + vesting;
    }

    /** Credits rewards that wait to be claimed. */
    method CreditRewards(name: Name, token: nat, dollar: nat, vestingToken: nat, vests: nat)
      requires Sane() && name in accounts
      modifies `accounts, `pendingToken, `pendingShares
      ensures Sane() && accounts == Rewarded(old(accounts), name, token, dollar, vestingToken, vests)
      ensures accounts.Keys == old(accounts).Keys
      ensures pendingToken == old(pendingToken) + vestingToken && pendingShares == old(pendingShares) + vests
      ensures Gap(Token) == old(Gap(Token)) - token - vestingToken && Gap(Dollar) == old(Gap(Dollar)) - dollar
    {
      hide Total, AccountsOk, RequestsOk, EscrowsOk, WithdrawalsOk, ConvertsOk, OrdersOk, Rewarded;
      RewardedOk(accounts, withdrawals, now, name, token, dollar, vestingToken, vests);
      accounts := Rewarded(accounts, name, token, dollar, vestingToken, vests);
      pendingToken := pendingToken + vestingToken;
      pendingShares := pendingShares + vests;
    }

    /** There is a price at which rewarded shares can be created. */
    ghost predicate SharesPriced()
      reads `vestingFund, `pendingToken
    {
      vestingFund + pendingToken > 0
    }

    /**
     Pays an author, a beneficiary or a curator out of the reward fund: one part in dollars as far as
     they are printed, and in tokens beyond that, the other part in vesting shares.
     */
    method PayReward(name: Name, asDollars: nat, asVesting: nat) returns (ok: bool)
      requires Valid()
      modifies `accounts, `supplyDollar, `supplyToken, `rewardFund, `vestingFund, `pendingToken, `pendingShares
      ensures Valid() && vestingFund == old(vestingFund)
      ensures ok <==> name in old(accounts) && old(SharesPriced())
      ensures !ok ==> accounts == old(accounts) && rewardFund == old(rewardFund) && supplyToken == old(supplyToken)
      ensures ok ==>
        rewardFund == old(rewardFund) - asDollars - asVesting && pendingToken == old(pendingToken) + asVesting
      ensures ok && feed.Some? ==>
        var burned := ToDollars(asDollars, printRate);
        var dollars := Prices.Exchange(burned, feed.value.tokens, feed.value.dollars);
        && supplyToken == old(supplyToken) - burned && supplyDollar == old(supplyDollar) + dollars
        && accounts == Rewarded(old(accounts), name, asDollars - burned, dollars, asVesting,
          VestingFund.RewardShares(asVesting, old(vestingFund + pendingToken), old(totalShares + pendingShares)))
      ensures ok && feed.None? ==>
        && supplyToken == old(supplyToken)
        && accounts == Rewarded(Give(old(accounts), name, Token, asDollars, now, rate), name, 0, 0, asVesting,
          VestingFund.RewardShares(asVesting, old(vestingFund + pendingToken), old(totalShares + pendingShares)))
    {
      hide Gap, Sane, OnlyPurses, Give, Rewarded, Prices.Exchange, ToDollars, VestingFund.RewardShares;
      if name !in accounts || vestingFund + pendingToken <= 0 {
        return false;
      }
      var vests := VestingFund.RewardShares(asVesting, vestingFund + pendingToken, totalShares + pendingShares);
      if feed.Some? {
        var burned: int := ToDollars(asDollars, printRate);
        var dollars := Prices.Exchange(burned, feed.value.tokens, feed.value.dollars);
        CreditRewards(name, asDollars - burned, dollars, asVesting, vests);
        AdjustSupply(0 - burned, dollars);
      } else {
        LiquidStays(name, Token);
        var _ := AdjustBalance(name, Token, asDollars);
        CreditRewards(name, 0, 0, asVesting, vests);
      }
      GrowFunds(0 - asDollars - asVesting, 0);
      ok := true;
    }

    lemma LiquidStays(name: Name, s: Symbol)
      requires Sane() && name in accounts
      ensures Of(accounts[name].liquid, s) >= 0
    {
      LiquidNonneg(accounts, now, name, s);
    }

    /** Both recorded supplies change. */
    method AdjustSupply(token: int, dollar: int)
      modifies `supplyToken, `supplyDollar
      ensures supplyToken == old(supplyToken) + token && supplyDollar == old(supplyDollar) + dollar
      ensures Gap(Token) == old(Gap(Token)) + token && Gap(Dollar) == old(Gap(Dollar)) + dollar
    {
      hide Held;
      supplyToken := supplyToken + token;
      supplyDollar := supplyDollar + dollar;
    }

    /** The treasury as a beneficiary is paid in dollars alone. */
    method PayTreasury(tokens: nat) returns (ok: bool)
      requires Valid()
      modifies `accounts, `supplyDollar, `supplyToken, `rewardFund, `vestingFund
      ensures Valid() && vestingFund == old(vestingFund)
      ensures ok <==> treasury in old(accounts) && feed.Some? && old(SharesPriced())
      ensures !ok ==> accounts == old(accounts) && rewardFund == old(rewardFund) && supplyToken == old(supplyToken)
      ensures ok ==> rewardFund == old(rewardFund) - tokens && supplyToken == old(supplyToken) - tokens
      ensures ok ==> accounts == Give(old(accounts), treasury, Dollar,
        Prices.Exchange(tokens, feed.value.tokens, feed.value.dollars), now, rate)
    {
      hide Total, AccountsOk, RequestsOk, EscrowsOk, WithdrawalsOk, ConvertsOk, OrdersOk, VestsOk, OnlyPurses, Give,
           Held, Prices.Exchange;
      if treasury !in accounts || feed.None? || vestingFund + pendingToken <= 0 {
        return false;
      }
      IssueDollars(tokens, feed.value);
      AdjustSupply(0 - tokens, 0);
      GrowFunds(0 - tokens, 0);
      ok := true;
    }

    /** Gives the treasury new dollars at the median price. */
    method IssueDollars(tokens: nat, f: Feed)
      requires Sane() && treasury in accounts
      modifies `accounts, `supplyDollar
      ensures Sane() && Gap(Token) == old(Gap(Token)) && Gap(Dollar) == old(Gap(Dollar))
      ensures accounts.Keys == old(accounts).Keys
      ensures accounts == Give(old(accounts), treasury, Dollar, Prices.Exchange(tokens, f.tokens, f.dollars), now, rate)
    {
      hide Total, AccountsOk, RequestsOk, EscrowsOk, WithdrawalsOk, ConvertsOk, OrdersOk, VestsOk, OnlyPurses, Give,
           Held, Prices.Exchange;
      var dollars := Prices.Exchange(tokens, f.tokens, f.dollars);
      LiquidNonneg(accounts, now, treasury, Dollar);
      var _ := AdjustBalance(treasury, Dollar, dollars);
      supplyDollar := supplyDollar + dollars;
    }

    /** The accounts once the treasury has its part of the new tokens. */
    ghost function WithProposals(before: Accounts, proposals: nat): Accounts
      reads `feed, `now, `rate
    {
      if proposals == 0 || feed.None? then before
      else Give(before, treasury, Dollar, Prices.Exchange(proposals, feed.value.tokens, feed.value.dollars), now, rate)
    }

    /**
     The new tokens of a block: for content, for everybody who holds shares, for the producer as
     shares, and in dollars for the treasury. A part for the treasury without a price fails the block.
     */
    method ProcessFunds(content: nat, vesting: nat, pay: nat, proposals: nat, producer: Name) returns (ok: bool)
      requires Valid()
      modifies `accounts, `supplyDollar, `supplyToken, `rewardFund, `vestingFund, `totalShares
      ensures Valid()
      ensures ok <==> producer in old(accounts) && (proposals > 0 ==> feed.Some? && treasury in old(accounts))
      ensures !ok ==> accounts == old(accounts) && supplyToken == old(supplyToken) && vestingFund == old(vestingFund)
      ensures ok ==> supplyToken == old(supplyToken) + content + vesting + pay
      ensures ok ==> rewardFund == old(rewardFund) + content && vestingFund == old(vestingFund) + vesting + pay
      ensures ok ==>
        totalShares == old(totalShares) + VestingFund.Minted(pay, old(vestingFund) + vesting, old(totalShares))
      ensures ok ==>
        var minted := VestingFund.Minted(pay, old(vestingFund) + vesting, old(totalShares));
        accounts == Vested(WithProposals(old(accounts), proposals), producer, minted)
      ensures ok && old(totalShares) > 0 ==>
        VestingFund.NotDiluted(old(vestingFund), old(totalShares), vestingFund, totalShares)
    {
      hide Gap, Sane, Give, Vested, VestingFund.Minted, VestingFund.NotDiluted, WithProposals;
      if producer !in accounts || (proposals > 0 && (feed.None? || treasury !in accounts)) {
        return false;
      }
      PayProposals(proposals);
      InflationDilutesNobody(vestingFund, vesting, pay, totalShares);
      GrowFunds(content, vesting);
      AdjustSupply(content + vesting + pay, 0);
      CreateVesting(producer, pay);
      ok := true;
    }

    method PayProposals(proposals: nat)
      requires Sane() && (proposals > 0 ==> feed.Some? && treasury in accounts)
      modifies `accounts, `supplyDollar
      ensures Sane() && Gap(Token) == old(Gap(Token)) && Gap(Dollar) == old(Gap(Dollar))
      ensures accounts.Keys == old(accounts).Keys && accounts == WithProposals(old(accounts), proposals)
    {
      hide Gap, Sane, Give, Prices.Exchange;
      if proposals > 0 {
        IssueDollars(proposals, feed.value);
      }
    }

    /** New shares for tokens that come from nowhere yet. */
    method CreateVesting(to: Name, amount: nat)
      requires Sane() && to in accounts && vestingFund >= 0 && totalShares >= 0
      modifies `accounts, `vestingFund, `totalShares
      ensures Sane() && Gap(Token) == old(Gap(Token)) - amount && Gap(Dollar) == old(Gap(Dollar))
      ensures var minted := VestingFund.Minted(amount, old(vestingFund), old(totalShares));
        && vestingFund == old(vestingFund) + amount && totalShares == old(totalShares) + minted
        && accounts == Vested(old(accounts), to, minted)
    {
      hide Total, AccountsOk, RequestsOk, EscrowsOk, WithdrawalsOk, ConvertsOk, OrdersOk, Vested, VestingFund.Minted;
      var minted := VestingFund.Minted(amount, vestingFund, totalShares);
      VestedOk(accounts, withdrawals, now, to, minted);
      accounts := Vested(accounts, to, minted);
      vestingFund := vestingFund + amount;
      totalShares := totalShares + minted;
    }

    /** Turns tokens into vesting shares at the price of the vesting fund. */
    method TransferToVesting(from: Name, to: Name, amount: nat) returns (ok: bool)
      requires Valid()
      modifies `accounts, `supplyDollar, `vestingFund, `totalShares
      ensures Valid()
      ensures ok <==> to in old(accounts) && to != treasury && old(CanAdd(from, Token, 0 - amount))
      ensures !ok ==> accounts == old(accounts) && vestingFund == old(vestingFund) && totalShares == old(totalShares)
      ensures ok ==> var minted := VestingFund.Minted(amount, old(vestingFund), old(totalShares));
        && vestingFund == old(vestingFund) + amount && totalShares == old(totalShares) + minted
        && accounts == Vested(Give(old(accounts), from, Token, 0 - amount, now, rate), to, minted)
    {
      hide Total, AccountsOk, RequestsOk, EscrowsOk, WithdrawalsOk, ConvertsOk, OrdersOk, OnlyPurses, Give, Vested,
           VestingFund.Minted;
      if to !in accounts || to == treasury {
        return false;
      }
      ok := AdjustBalance(from, Token, 0 - amount);
      if ok {
        CreateVesting(to, amount);
      }
    }

    // ---- Resting orders ----------------------------------------------------------------------

    method PutOrder(k: Key, o: Order)
      requires Sane() && o.seller in accounts && k.0 == o.seller
      modifies `orders
      ensures Sane() && orders == old(orders)[k := o]
      ensures forall t ::
        Gap(t) == old(Gap(t)) - OrderHolds(o, t) + if k in old(orders) then OrderHolds(old(orders)[k], t) else 0
    {
      hide Total, AccountsOk, RequestsOk, EscrowsOk, WithdrawalsOk, ConvertsOk, VestsOk;
      TotalPut(orders, InOrder(Token), k, o);
      TotalPut(orders, InOrder(Dollar), k, o);
      orders := orders[k := o];
    }

    method DropOrder(k: Key)
      requires Sane() && k in orders
      modifies `orders
      ensures Sane() && orders == old(orders) - {k}
      ensures forall t :: Gap(t) == old(Gap(t)) + OrderHolds(old(orders)[k], t)
    {
      hide Total, AccountsOk, RequestsOk, EscrowsOk, WithdrawalsOk, ConvertsOk, VestsOk;
      TotalDrop(orders, InOrder(Token), k);
      TotalDrop(orders, InOrder(Dollar), k);
      orders := orders - {k};
    }

    /** Puts an amount up for sale. */
    method CreateOrder(owner: Name, id: nat, s: Symbol, amount: nat) returns (ok: bool)
      requires Valid()
      modifies `accounts, `supplyDollar, `orders
      ensures Valid()
      ensures ok <==> old(CanAdd(owner, s, 0 - amount)) && (owner, id) !in old(orders)
      ensures !ok ==> accounts == old(accounts) && supplyDollar == old(supplyDollar) && orders == old(orders)
      ensures ok ==> accounts == Give(old(accounts), owner, s, 0 - amount, now, rate)
      ensures ok ==> orders == old(orders)[(owner, id) := Order(owner, s, amount)]
    {
      hide Total, AccountsOk, RequestsOk, EscrowsOk, WithdrawalsOk, ConvertsOk, OrdersOk, VestsOk, OnlyPurses, Give,
           Held, VestsOk;
      if (owner, id) in orders {
        return false;
      }
      ok := AdjustBalance(owner, s, 0 - amount);
      if ok {
        PutOrder((owner, id), Order(owner, s, amount));
      }
    }

    /** Pays part of an order, or all of it, out to somebody. */
    method PayFromOrder(k: Key, to: Name, amount: nat) returns (ok: bool)
      requires Sane()
      modifies `accounts, `supplyDollar, `orders
      ensures Sane() && accounts.Keys == old(accounts).Keys && forall t :: Gap(t) == old(Gap(t))
      ensures ok <==> k in old(orders) && to in old(accounts) && amount <= old(orders)[k].forSale
      ensures !ok ==> accounts == old(accounts) && supplyDollar == old(supplyDollar) && orders == old(orders)
      ensures ok ==> accounts == Give(old(accounts), to, old(orders)[k].symbol, amount, now, rate)
      ensures ok ==> orders == Sold(old(orders), k, amount)
    {
      hide Total, AccountsOk, RequestsOk, EscrowsOk, WithdrawalsOk, ConvertsOk, OnlyPurses, Give, Held, VestsOk;
      if k !in orders || to !in accounts || amount > orders[k].forSale {
        return false;
      }
      var o := orders[k];
      LiquidNonneg(accounts, now, to, o.symbol);
      ok := AdjustBalance(to, o.symbol, amount);
      if amount == o.forSale {
        DropOrder(k);
      } else {
        PutOrder(k, o.(forSale := o.forSale - amount));
      }
    }

    /** Takes an order back: what it still has for sale returns to its owner. */
    method CancelOrder(owner: Name, id: nat) returns (ok: bool)
      requires Valid()
      modifies `accounts, `supplyDollar, `orders
      ensures Valid()
      ensures ok <==> (owner, id) in old(orders)
      ensures orders == old(orders) - {(owner, id)}
      ensures accounts == if ok then Give(old(accounts), owner, old(orders)[(owner, id)].symbol,
          old(orders)[(owner, id)].forSale, now, rate) else old(accounts)
    {
      hide Total, AccountsOk, RequestsOk, EscrowsOk, WithdrawalsOk, ConvertsOk, OnlyPurses, Give, Held, VestsOk;
      if (owner, id) !in orders {
        return false;
      }
      ok := PayFromOrder((owner, id), owner, orders[(owner, id)].forSale);
    }

    /** A trade: each side is paid from the other's order. */
    method Trade(k1: Key, k2: Key, pays1: nat, pays2: nat) returns (ok: bool)
      requires Valid()
      modifies `accounts, `supplyDollar, `orders
      ensures Valid()
      ensures ok <==> k1 != k2 && k1 in old(orders) && k2 in old(orders)
                      && pays1 <= old(orders)[k1].forSale && pays2 <= old(orders)[k2].forSale
      ensures ok ==> orders == Sold(Sold(old(orders), k2, pays2), k1, pays1)
      ensures !ok ==> accounts == old(accounts) && orders == old(orders)
      ensures ok ==> var o1, o2 := old(orders)[k1], old(orders)[k2];
        accounts == Give(Give(old(accounts), o1.seller, o2.symbol, pays2, now, rate), o2.seller, o1.symbol, pays1,
            now, rate)
    {
      hide Total, AccountsOk, RequestsOk, EscrowsOk, WithdrawalsOk, ConvertsOk, OnlyPurses, Give, Held, VestsOk, Sold;
      if k1 == k2 || k1 !in orders || k2 !in orders || pays1 > orders[k1].forSale || pays2 > orders[k2].forSale {
        return false;
      }
      var seller1, seller2 := orders[k1].seller, orders[k2].seller;
      SoldOther(orders, k2, k1, pays2);
      ok := PayFromOrder(k2, seller1, pays2);
      ok := PayFromOrder(k1, seller2, pays1);
    }

    // ---- Runs --------------------------------------------------------------------------------

    method CreateAccount(name: Name) returns (ok: bool)
      requires Valid()
      modifies `accounts
      ensures Valid()
      ensures ok <==> name !in old(accounts)
      ensures accounts == if ok then old(accounts)[name := Fresh()] else old(accounts)
    {
      hide Total, EscrowsOk, ConvertsOk, OrdersOk;
      if name in accounts {
        return false;
      }
      MoreNames(escrows, withdrawals, converts, orders, accounts.Keys, name);
      forall t ensures Total(accounts[name := Fresh()], HeldOf(t)) == Total(accounts, HeldOf(t)) {
        TotalPut(accounts, HeldOf(t), name, Fresh());
      }
      TotalPut(accounts, VestsOf(), name, Fresh());
      TotalPut(accounts, PendingOf(), name, Fresh());
      NoRequests(withdrawals, accounts.Keys, name);
      assert accounts[name := Fresh()].Keys == accounts.Keys + {name};
      accounts := accounts[name := Fresh()];
      ok := true;
    }

    method SetClock(time: nat, interestRate: nat, price: Option<Feed>, printed: Percent)
      requires Valid() && time >= now
      modifies `now, `rate, `feed, `printRate
      ensures Valid() && now == time && rate == interestRate && feed == price && printRate == printed
    {
      hide Held, AccountsOk, RequestsOk, EscrowsOk, WithdrawalsOk, ConvertsOk, OrdersOk, VestsOk;
      TimePasses(time);
      now, rate, feed, printRate := time, interestRate, price, printed;
    }

    /** The start of a block: time moves on and everything that is due happens. */
    method StartBlock(time: nat, interestRate: nat, price: Option<Feed>, printed: Percent)
      requires Valid() && time >= now
      modifies this
      ensures Valid() && now == time && rate == interestRate && feed == price && printRate == printed
      ensures BlockPaid(old(accounts), accounts, old(converts), old(withdrawals), old(escrows), price, now, rate)
      ensures converts == old(converts) - if price.None? then {} else DueConverts(old(converts), now).Keys
      ensures withdrawals == old(withdrawals) - WithdrawalPayments(old(withdrawals), now).Keys
      ensures escrows == old(escrows) - EscrowPayments(old(escrows), now).Keys
    {
      hide Gap, Sane, AllPaid;
      SetClock(time, interestRate, price, printed);
      ProcessConversions();
      ghost var first := accounts;
      ProcessSavingsWithdraws();
      ghost var second := accounts;
      ExpireEscrowRatification();
      assert AllPaid(second, accounts, EscrowPayments(old(escrows), now), now, rate);
    }

    method Execute(op: Operation) returns (ok: bool)
      requires Valid()
      modifies this
      ensures Valid()
    {
      hide Gap, Sane;
      match op {
        case NewAccount(name) => ok := CreateAccount(name);
        case Pay(from, to, s, amount) => ok := Transfer(from, to, s, amount);
        case Save(from, to, s, amount) => ok := TransferToSavings(from, to, s, amount);
        case Unsave(from, to, id, s, amount) => ok := TransferFromSavings(from, to, id, s, amount);
        case CancelUnsave(from, id) => ok := CancelTransferFromSavings(from, id);
        case OpenEscrow(e, id) => ok := EscrowTransfer(e, id);
        case JudgeEscrow(from, id, to, agent, who, approve) => ok := EscrowApprove(from, id, to, agent, who, approve);
        case DisputeEscrow(from, id, to, agent) => ok := EscrowDispute(from, id, to, agent);
        case ReleaseEscrow(from, id, to, agent, who, receiver, token, dollar) => ok := EscrowRelease(from, id, to,
            agent, who, receiver, token, dollar);
        case Exchange(owner, id, amount) => ok := RequestConversion(owner, id, amount);
        case Invest(from, to, amount) => ok := TransferToVesting(from, to, amount);
        case Claim(name, token, dollar, vests) => ok := ClaimRewardBalance(name, token, dollar, vests);
        case Offer(owner, id, s, amount) => ok := CreateOrder(owner, id, s, amount);
        case Withdraw(owner, id) => ok := CancelOrder(owner, id);
        case Fill(k1, k2, pays1, pays2) => ok := Trade(k1, k2, pays1, pays2);
        case Reward(name, asDollars, asVesting) => ok := PayReward(name, asDollars, asVesting);
        case RewardTreasury(tokens) => ok := PayTreasury(tokens);
        case Inflate(content, vesting, pay, proposals, producer) =>
          ok := ProcessFunds(content, vesting, pay, proposals, producer);
        case Block(time, interestRate, price, printed) =>
          ok := time >= now;
          if ok {
            StartBlock(time, interestRate, price, printed);
          }
      }
    }

    /** In every state a run reaches, both recorded supplies are what is held, and so are the vesting totals. */
    method Run(ops: seq<Operation>)
      requires Valid()
      modifies this
      ensures Valid()
      ensures supplyToken == Held(Token) && supplyDollar == Held(Dollar)
    {
      hide Sane, Held;
      var i := 0;
      while i < |ops|
        invariant 0 <= i <= |ops| && Valid()
      {
        var _ := Execute(ops[i]);
        i := i + 1;
      }
    }
  }
}
