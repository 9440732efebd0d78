/**
 Delegation of vesting shares: live delegations, delegations on their way back to the delegator,
 and the two counters every account keeps about them.

 Voting power is not part of the model: what an account may still delegate at the moment of the
 operation is a parameter, as are the minimum amounts derived from the account creation fee.
 */
module Delegation {
  import opened Sums

  type Name = string
  type Pair = (Name, Name)

  datatype Account = Account(delegated: int, received: int)
  datatype Delegation = Delegation(shares: nat, minTime: nat)
  datatype Return = Return(delegator: Name, shares: nat, expiration: nat)

  // ---- What the counters must say ------------------------------------------------------------

  ghost function From(a: Name): (Pair, Delegation) -> int {
    (k: Pair, d: Delegation) => if k.0 == a then d.shares else 0
  }

  ghost function To(a: Name): (Pair, Delegation) -> int {
    (k: Pair, d: Delegation) => if k.1 == a then d.shares else 0
  }

  ghost function BackTo(a: Name): (nat, Return) -> int {
    (_, r: Return) => if r.delegator == a then r.shares else 0
  }

  /** Every counter is the total of the objects it stands for. */
  ghost predicate Counted(accounts: map<Name, Account>, live: map<Pair, Delegation>, back: map<nat, Return>) {
    forall a | a in accounts ::
      && accounts[a].delegated == Total(live, From(a)) + Total(back, BackTo(a))
      && accounts[a].received == Total(live, To(a))
  }

  ghost predicate Known(accounts: map<Name, Account>, live: map<Pair, Delegation>, back: map<nat, Return>, next: nat) {
    && (forall k | k in live :: k.0 in accounts && k.1 in accounts && k.0 != k.1)
    && (forall i | i in back :: i < next && back[i].delegator in accounts)
  }

  lemma NoDebts(live: map<Pair, Delegation>, a: Name)
    ensures forall k | k in live :: From(a)(k, live[k]) >= 0 && To(a)(k, live[k]) >= 0
  {
    forall k | k in live ensures From(a)(k, live[k]) >= 0 && To(a)(k, live[k]) >= 0 {
      var d := live[k];
      assert d.shares >= 0;
    }
  }

  lemma CountersNonneg(accounts: map<Name, Account>, live: map<Pair, Delegation>, back: map<nat, Return>, a: Name)
    requires Counted(accounts, live, back) && a in accounts
    ensures accounts[a].delegated >= 0 && accounts[a].received >= 0
  {
    hide Total;
    NoDebts(live, a);
    TotalNonneg(live, From(a));
    TotalNonneg(live, To(a));
    TotalNonneg(back, BackTo(a));
  }

  /** A live delegation is part of what its delegator has delegated and of what its delegatee has received. */
  lemma DelegationCovered(accounts: map<Name, Account>, live: map<Pair, Delegation>, back: map<nat, Return>, k: Pair)
    requires Counted(accounts, live, back) && k in live && k.0 in accounts && k.1 in accounts
    ensures live[k].shares <= accounts[k.0].delegated && live[k].shares <= accounts[k.1].received
  {
    hide Total;
    NoDebts(live, k.0);
    NoDebts(live, k.1);
    TotalAtLeast(live, From(k.0), k);
    TotalAtLeast(live, To(k.1), k);
    TotalNonneg(back, BackTo(k.0));
  }

  // ---- Totals --------------------------------------------------------------------------------

  ghost function Shares(): (Pair, Delegation) -> int {
    (_, d: Delegation) => d.shares
  }

  ghost function Returning(): (nat, Return) -> int {
    (_, r: Return) => r.shares
  }

  ghost function LentOf(): (Name, Account) -> int {
    (_, x: Account) => x.delegated
  }

  ghost function HeldOf(): (Name, Account) -> int {
    (_, x: Account) => x.received
  }

  ghost function LentBy(accounts: map<Name, Account>): int {
    Total(accounts, LentOf())
  }

  ghost function HeldBy(accounts: map<Name, Account>): int {
    Total(accounts, HeldOf())
  }

  /** Totals by owner add up to the total over all entries. */
  lemma EachOnce<K(!new), V>(names: set<Name>, m: map<K, V>, part: Name -> (K, V) -> int, all: (K, V) -> int,
      owner: (K, V) -> Name, rows: Name -> int)
    requires forall k | k in m :: owner(k, m[k]) in names
    requires forall a, k | a in names && k in m :: part(a)(k, m[k]) == if owner(k, m[k]) == a then all(k, m[k]) else 0
    requires forall a | a in names :: rows(a) == Total(m, part(a))
    ensures Sum(names, rows) == Total(m, all)
  {
    var f := (a: Name) => Entry(m, part(a));
    var g := (k: K) => (a: Name) => Entry(m, part(a))(k);
    forall k | k in m.Keys ensures Entry(m, all)(k) == Sum(names, g(k)) {
      SumSingle(names, g(k), owner(k, m[k]));
    }
    SumSwap(names, m.Keys, f, g, rows, Entry(m, all));
  }

  /** In total, what is lent is what is held by delegatees plus what is on its way back. */
  lemma LentIsHeld(accounts: map<Name, Account>, live: map<Pair, Delegation>, back: map<nat, Return>, next: nat)
    requires Counted(accounts, live, back) && Known(accounts, live, back, next)
    ensures HeldBy(accounts) == Total(live, Shares())
    ensures LentBy(accounts) == HeldBy(accounts) + Total(back, Returning())
  {
    hide Sum, Total;
    var names := accounts.Keys;
    var lent, held := Entry(accounts, LentOf()), Entry(accounts, HeldOf());
    var out, returning := (a: Name) => Total(live, From(a)), (a: Name) => Total(back, BackTo(a));
    EachOnce(names, live, a => From(a), Shares(), (k: Pair, _) => k.0, out);
    EachOnce(names, back, a => BackTo(a), Returning(), (_, r: Return) => r.delegator, returning);
    EachOnce(names, live, a => To(a), Shares(), (k: Pair, _) => k.1, held);
    SumPlus(names, out, returning, lent);
    TotalIs(accounts, LentOf());
    TotalIs(accounts, HeldOf());
  }

  // ---- What a step does to the counters ------------------------------------------------------

  ghost function Lent(accounts: map<Name, Account>, k: Pair, delta: int): map<Name, Account>
    requires k.0 in accounts && k.1 in accounts && k.0 != k.1
  {
    accounts[k.0 := accounts[k.0].(delegated := accounts[k.0].delegated + delta)]
            [k.1 := accounts[k.1].(received := accounts[k.1].received + delta)]
  }

  lemma NothingOf(accounts: map<Name, Account>, live: map<Pair, Delegation>, back: map<nat, Return>, next: nat, a: Name)
    requires Known(accounts, live, back, next) && a !in accounts
    ensures Total(live, From(a)) == Total(live, To(a)) == Total(back, BackTo(a)) == 0
  {
    SumZero(live.Keys, Entry(live, From(a)));
    SumZero(live.Keys, Entry(live, To(a)));
    SumZero(back.Keys, Entry(back, BackTo(a)));
  }

  lemma NobodyYet(accounts: map<Name, Account>, live: map<Pair, Delegation>, back: map<nat, Return>, next: nat, a: Name)
    requires Counted(accounts, live, back) && Known(accounts, live, back, next) && a !in accounts
    ensures Counted(accounts[a := Account(0, 0)], live, back)
  {
    hide Total;
    NothingOf(accounts, live, back, next, a);
  }

  lemma PutTotals(live: map<Pair, Delegation>, k: Pair, d: Delegation, a: Name)
    ensures var delta := d.shares - (if k in live then live[k].shares else 0);
      && Total(live[k := d], From(a)) == Total(live, From(a)) + (if a == k.0 then delta else 0)
      && Total(live[k := d], To(a)) == Total(live, To(a)) + (if a == k.1 then delta else 0)
  {
    hide Total;
    TotalPut(live, From(a), k, d);
    TotalPut(live, To(a), k, d);
  }

  lemma KnownAfterPut(accounts: map<Name, Account>, live: map<Pair, Delegation>, back: map<nat, Return>, next: nat,
      k: Pair, d: Delegation, delta: int)
    requires Known(accounts, live, back, next) && k.0 in accounts && k.1 in accounts && k.0 != k.1
    ensures Known(Lent(accounts, k, delta), live[k := d], back, next)
  {
    assert Lent(accounts, k, delta).Keys == accounts.Keys;
  }

  lemma CountedAfterPut(accounts: map<Name, Account>, live: map<Pair, Delegation>, back: map<nat, Return>, k: Pair,
      d: Delegation, delta: int)
    requires Counted(accounts, live, back) && k.0 in accounts && k.1 in accounts && k.0 != k.1
    requires delta == d.shares - if k in live then live[k].shares else 0
    ensures Counted(Lent(accounts, k, delta), live[k := d], back)
  {
    hide Total, From, To, BackTo;
    var after := Lent(accounts, k, delta);
    forall a | a in after ensures
        && after[a].delegated == Total(live[k := d], From(a)) + Total(back, BackTo(a))
        && after[a].received == Total(live[k := d], To(a)) {
      PutTotals(live, k, d, a);
    }
  }

  lemma CountersAfterPut(accounts: map<Name, Account>, live: map<Pair, Delegation>, back: map<nat, Return>, next: nat,
      k: Pair, d: Delegation)
    requires Counted(accounts, live, back) && Known(accounts, live, back, next) && k.0 in accounts && k.1 in accounts
    requires k.0 != k.1
    ensures var delta := d.shares - (if k in live then live[k].shares else 0);
      Counted(Lent(accounts, k, delta), live[k := d], back) && Known(Lent(accounts, k, delta), live[k := d], back, next)
  {
    hide Known, Counted, Lent;
    var delta := d.shares - (if k in live then live[k].shares else 0);
    KnownAfterPut(accounts, live, back, next, k, d, delta);
    CountedAfterPut(accounts, live, back, k, d, delta);
  }

  /** A lowered delegation moves the difference from live to returning: the delegator's counter stays. */
  lemma CountersAfterReturn(accounts: map<Name, Account>, live: map<Pair, Delegation>, back: map<nat, Return>,
      next: nat, k: Pair, shares: nat, r: Return)
    requires Counted(accounts, live, back) && Known(accounts, live, back, next) && k in live && shares < live[k].shares
    requires r.delegator == k.0 && r.shares == live[k].shares - shares
    ensures k.0 in accounts && k.1 in accounts
    ensures var next' := next + 1; var back' := back[next := r];
      var accounts' := accounts[k.1 := accounts[k.1].(received := accounts[k.1].received - r.shares)];
      var live' := if shares > 0 then live[k := live[k].(shares := shares)] else live - {k};
      Counted(accounts', live', back') && Known(accounts', live', back', next')
  {
    hide Total;
    var live' := if shares > 0 then live[k := live[k].(shares := shares)] else live - {k};
    forall a | a in accounts
      ensures Total(live', From(a)) == Total(live, From(a)) - (if a == k.0 then r.shares else 0)
      ensures Total(live', To(a)) == Total(live, To(a)) - (if a == k.1 then r.shares else 0)
      ensures Total(back[next := r], BackTo(a)) == Total(back, BackTo(a)) + (if a == k.0 then r.shares else 0)
    {
      TotalPut(back, BackTo(a), next, r);
      if shares > 0 {
        TotalPut(live, From(a), k, live[k].(shares := shares));
        TotalPut(live, To(a), k, live[k].(shares := shares));
      } else {
        TotalDrop(live, From(a), k);
        TotalDrop(live, To(a), k);
      }
    }
  }

  lemma CountersAfterExpiry(accounts: map<Name, Account>, live: map<Pair, Delegation>, back: map<nat, Return>,
      next: nat, i: nat)
    requires Counted(accounts, live, back) && Known(accounts, live, back, next) && i in back
    ensures back[i].delegator in accounts
    ensures var a := back[i].delegator;
      var accounts' := accounts[a := accounts[a].(delegated := accounts[a].delegated - back[i].shares)];
      Counted(accounts', live, back - {i}) && Known(accounts', live, back - {i}, next)
  {
    hide Total;
    forall a | a in accounts ensures Total(back - {i}, BackTo(a)) == Total(back,
        BackTo(a)) - (if a == back[i].delegator then back[i].shares else 0) {
      TotalDrop(back, BackTo(a), i);
    }
  }

  /** By how much a change raises what the delegator has delegated; a lowered delegation raises nothing. */
  function Rise(live: map<Pair, Delegation>, k: Pair, shares: nat): nat {
    if k !in live then shares else if shares >= live[k].shares then shares - live[k].shares else 0
  }

  /** Of all counters of delegated shares only the delegator's changed, by that much. */
  ghost predicate Lends(before: map<Name, Account>, after: map<Name, Account>, delegator: Name, rise: nat) {
    && after.Keys == before.Keys
    && forall a | a in before :: after[a].delegated == before[a].delegated + if a == delegator then rise else 0
  }

  /** The outcome of an accepted change: the delegation has the asked amount, and what was taken off it is returning. */
  ghost predicate Settled(live: map<Pair, Delegation>, live': map<Pair, Delegation>, back: map<nat, Return>,
      back': map<nat, Return>, next: nat, k: Pair, shares: nat, now: nat, returnPeriod: nat) {
    && live' - {k} == live - {k}
    && (k in live' ==> live'[k] == Delegation(shares, if k in live then live[k].minTime else now))
    && (k !in live' ==> shares == 0)
    && var lowered := k in live && shares < live[k].shares;
       back' == if lowered then back[next := Return(k.0, live[k].shares - shares,
           Larger(now + returnPeriod, live[k].minTime))] else back
  }

  // ---- The operations ------------------------------------------------------------------------

  function Larger(a: nat, b: nat): (r: nat)
    ensures r >= a && r >= b && (r == a || r == b)
  {
    if a > b then a else b
  }

  datatype Step =
    | NewAccount(name: Name)
    | Change(delegator: Name, delegatee: Name, shares: nat, available: int, downvote: int, minDelegation: nat,
        minUpdate: nat)
    | BlockAt(time: nat)

  class Delegations {
    var accounts: map<Name, Account>
    var live: map<Pair, Delegation>
    var back: map<nat, Return>
    var next: nat
    var now: nat
    var returnPeriod: nat

    ghost predicate Valid()
      reads this
    {
      Known(accounts, live, back, next) && Counted(accounts, live, back)
    }

    /** What is asked of a change of delegation. */
    ghost predicate Allowed(k: Pair, shares: nat, available: int, downvote: int, minDelegation: nat, minUpdate: nat)
      reads this
    {
      && k.0 in accounts && k.1 in accounts && k.0 != k.1
      && if k !in live then available >= shares && downvote >= shares && shares >= minDelegation
         else if shares >= live[k].shares then
           var delta := shares - live[k].shares; delta >= minUpdate && available >= delta && downvote >= delta
         else shares > 0 ==> live[k].shares - shares >= minUpdate && shares >= minDelegation
    }

    /** A chain at its start: nothing is delegated. */
    constructor (names: set<Name>, returnPeriod: nat)
      ensures Valid() && accounts == (map a | a in names :: Account(0, 0)) && live == map[] && back == map[]
      ensures this.returnPeriod == returnPeriod
    {
      this.returnPeriod := returnPeriod;
      accounts, live, back, next, now := map a | a in names :: Account(0, 0), map[], map[], 0, 0;
      new;
    }

    method CreateAccount(a: Name)
      requires Valid() && a !in accounts
      modifies `accounts
      ensures Valid() && accounts == old(accounts)[a := Account(0, 0)]
    {
      accounts := accounts[a := Account(0, 0)];
      NobodyYet(old(accounts), live, back, next, a);
    }

    /** Creates, raises, lowers or removes a delegation. */
    method Delegate(delegator: Name, delegatee: Name, shares: nat, available: int, downvote: int, minDelegation: nat,
        minUpdate: nat) returns (ok: bool)
      requires Valid()
      modifies `accounts, `live, `back, `next
      ensures Valid()
      ensures ok <==> old(Allowed((delegator, delegatee), shares, available, downvote, minDelegation, minUpdate))
      ensures !ok ==> accounts == old(accounts) && live == old(live) && back == old(back) && next == old(next)
      ensures ok ==> Lends(old(accounts), accounts, delegator, Rise(old(live), (delegator, delegatee), shares))
      ensures ok ==>
        Settled(old(live), live, old(back), back, old(next), (delegator, delegatee), shares, now, returnPeriod)
    {
      hide Known, Counted, Total, Lends, Settled;
      if delegator !in accounts || delegatee !in accounts || delegator == delegatee {
        return false;
      }
      var k := (delegator, delegatee);
      if k !in live {
        if available < shares || downvote < shares || shares < minDelegation {
          return false;
        }
        Raise(k, Delegation(shares, now));
      } else if shares >= live[k].shares {
        var delta := shares - live[k].shares;
        if delta < minUpdate || available < delta || downvote < delta {
          return false;
        }
        Raise(k, live[k].(shares := shares));
      } else {
        var delta := live[k].shares - shares;
        if shares > 0 {
          if delta < minUpdate || shares < minDelegation {
            return false;
          }
        } else if live[k].shares == 0 {
          return false;
        }
        Lower(k, shares);
      }
      ok := true;
    }

    /** Lowers or removes a delegation: what is taken off it is on its way back. */
    method Lower(k: Pair, shares: nat)
      requires Valid() && k in live && shares < live[k].shares
      modifies `accounts, `live, `back, `next
      ensures Valid() && Lends(old(accounts), accounts, k.0, 0)
      ensures Settled(old(live), live, old(back), back, old(next), k, shares, now, returnPeriod)
    {
      hide Known, Counted, Total;
      var delegatee, delta := k.1, live[k].shares - shares;
      var r := Return(k.0, delta, Larger(now + returnPeriod, live[k].minTime));
      CountersAfterReturn(accounts, live, back, next, k, shares, r);
      back := back[next := r];
      next := next + 1;
      accounts := accounts[delegatee := accounts[delegatee].(received := accounts[delegatee].received - delta)];
      if shares > 0 {
        live := live[k := live[k].(shares := shares)];
      } else {
        live := live - {k};
      }
    }

    /** Sets a delegation to a higher amount, or creates it. */
    method Raise(k: Pair, d: Delegation)
      requires Valid() && k.0 in accounts && k.1 in accounts && k.0 != k.1
      requires k in live ==> d.shares >= live[k].shares && d.minTime == live[k].minTime
      requires k !in live ==> d.minTime == now
      modifies `accounts, `live
      ensures Valid() && Lends(old(accounts), accounts, k.0, Rise(old(live), k, d.shares))
      ensures Settled(old(live), live, back, back, next, k, d.shares, now, returnPeriod)
    {
      hide Known, Counted, Total;
      CountersAfterPut(accounts, live, back, next, k, d);
      Lend(k, Rise(live, k, d.shares));
      live := live[k := d];
    }

    method Lend(k: Pair, delta: nat)
      requires k.0 in accounts && k.1 in accounts && k.0 != k.1
      modifies `accounts
      ensures accounts == Lent(old(accounts), k, delta)
    {
      var a, b := k.0, k.1;
      accounts := accounts[a := accounts[a].(delegated := accounts[a].delegated + delta)];
      accounts := accounts[b := accounts[b].(received := accounts[b].received + delta)];
    }

    /** The return that expires first. */
    method Earliest() returns (i: nat)
      requires back != map[]
      ensures i in back && forall j | j in back :: back[i].expiration <= back[j].expiration
    {
      var todo := back.Keys;
      i :| i in todo;
      todo := todo - {i};
      while todo != {}
        invariant i in back && todo <= back.Keys
        invariant forall j | j in back && j !in todo :: back[i].expiration <= back[j].expiration
        decreases todo
      {
        var j :| j in todo;
        if back[j].expiration < back[i].expiration {
          i := j;
        }
        todo := todo - {j};
      }
    }

    /** Gives back every return whose time has come, and no other. */
    method ClearExpiredDelegations()
      requires Valid()
      modifies `accounts, `back
      ensures Valid() && accounts.Keys == old(accounts).Keys
      ensures forall a | a in accounts :: accounts[a].delegated <= old(accounts)[a].delegated
      ensures back == map i | i in old(back) && old(back)[i].expiration >= now :: old(back)[i]
      ensures forall a | a in accounts :: accounts[a].received == old(accounts)[a].received
    {
      hide Known, Counted, Total;
      while back != map[]
        invariant Valid() && accounts.Keys == old(accounts).Keys
        invariant forall i | i in back :: i in old(back) && back[i] == old(back)[i]
        invariant forall i | i in old(back) && old(back)[i].expiration >= now :: i in back
        invariant forall a | a in accounts :: accounts[a].received == old(accounts)[a].received
        invariant forall a | a in accounts :: accounts[a].delegated <= old(accounts)[a].delegated
        decreases back.Keys
      {
        var i := Earliest();
        var r := back[i];
        if r.expiration >= now {
          break;
        }
        CountersAfterExpiry(accounts, live, back, next, i);
        var a := r.delegator;
        accounts := accounts[a := accounts[a].(delegated := accounts[a].delegated - r.shares)];
        back := back - {i};
      }
    }

    /** One step of a chain: an account, a change of delegation, or the start of a block. */
    method Execute(step: Step)
      requires Valid()
      modifies this
      ensures Valid()
    {
      match step {
        case NewAccount(a) =>
          if a !in accounts {
            CreateAccount(a);
          }
        case Change(a, b, shares, available, downvote, minDelegation, minUpdate) =>
          var _ := Delegate(a, b, shares, available, downvote, minDelegation, minUpdate);
        case BlockAt(time) =>
          now := time;
          ClearExpiredDelegations();
      }
    }

    /** Over every run the counters say what they must, and what is lent in total is held or returning. */
    method Run(steps: seq<Step>)
      requires Valid()
      modifies this
      ensures Valid()
      ensures LentBy(accounts) == HeldBy(accounts) + Total(back, Returning())
    {
      hide Known, Counted, Total;
      var i := 0;
      while i < |steps|
        invariant 0 <= i <= |steps| && Valid()
      {
        Execute(steps[i]);
        i := i + 1;
      }
      LentIsHeld(accounts, live, back, next);
    }
  }
}
