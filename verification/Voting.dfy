/**
 The voting part of the chain database: witness ballots, proxies, stake changes and declined
 voting rights, with the counters updated incrementally along proxy chains.

 Every public operation keeps `Valid()`, which ties every counter to a sum over the proxy forest,
 so stating the new proxies, stakes and ballots fixes all counters as well. An operation that the
 chain rejects leaves the state as it was, as the undo session of a failed transaction does.
 */
module Voting {
  import opened Sums
  import opened ProxyForest
  import opened VoteTallies
  import opened VoteAdjust
  import opened VoteRehang

  /** The chain above b is short, and a is not on it. */
  ghost predicate ChainFree(g: Graph, a: Name, b: Name) {
    Up(g, b, MAX_DEPTH - 1) == SELF && forall i: nat | i < MAX_DEPTH - 1 :: Up(g, b, i) != a
  }

  ghost predicate ProxyAllowed(acc: Accounts, a: Name, b: Name) {
    && a in acc && b != a && acc[a].proxy != b && acc[a].canVote
    && (b != SELF ==> b in acc && ChainFree(Proxies(acc), a, b))
  }

  ghost predicate VoteAllowed(acc: Accounts, ws: Tallies, votes: Ballots, a: Name, w: Name, approve: bool) {
    && a in acc && acc[a].proxy == SELF && w in ws
    && (approve ==> acc[a].canVote && (a, w) !in votes && acc[a].votedFor < MAX_BALLOTS)
    && (!approve ==> (a, w) in votes)
  }

  /** The stake the deposits bring to the voters of w. */
  ghost function Inflow(acc: Accounts, votes: Ballots, deposits: seq<(Name, nat)>, w: Name): nat {
    if deposits == [] then 0
    else
      var last := deposits[|deposits| - 1];
      Inflow(acc, votes, deposits[..|deposits| - 1], w)
      + if (Reached(acc, last.0, 0).0, w) in votes then last.1 else 0
  }

  ghost function Deposited(deposits: seq<(Name, nat)>): nat {
    if deposits == [] then 0 else Deposited(deposits[..|deposits| - 1]) + deposits[|deposits| - 1].1
  }

  ghost function Credited(v: Stakes, deposits: seq<(Name, nat)>): Stakes
    requires forall i | 0 <= i < |deposits| :: deposits[i].0 in v
    ensures Credited(v, deposits).Keys == v.Keys
  {
    if deposits == [] then v
    else
      var last := deposits[|deposits| - 1];
      var v' := Credited(v, deposits[..|deposits| - 1]);
      v'[last.0 := v'[last.0] + last.1]
  }

  /** While the auto-vested shares are counted twice, every tally still fits under the total. */
  ghost predicate RoomFor(acc: Accounts, ws: Tallies, votes: Ballots, total: int, deposits: seq<(Name, nat)>) {
    forall w | w in ws :: ws[w] + Inflow(acc, votes, deposits, w) <= total
  }

  class Database {
    var accounts: Accounts
    var witnesses: Tallies
    var votes: Ballots
    var totalVests: int

    ghost predicate Valid()
      reads this
    {
      Inv(accounts, witnesses, votes, totalVests)
    }

    constructor ()
      ensures Valid()
      ensures accounts == map[] && witnesses == map[] && votes == {} && totalVests == 0
    {
      accounts, witnesses, votes, totalVests := map[], map[], {}, 0;
    }

    // ---- Counter maintenance -----------------------------------------------------------------

    /** Adds delta to one tally; fails when the tally then exceeds the total. */
    method AdjustWitnessVote(w: Name, delta: int) returns (ok: bool)
      requires w in witnesses
      modifies `witnesses
      ensures witnesses == old(witnesses)[w := old(witnesses)[w] + delta]
      ensures ok <==> old(witnesses)[w] + delta <= totalVests
    {
      witnesses := witnesses[w := witnesses[w] + delta];
      ok := witnesses[w] <= totalVests;
    }

    /** Adds delta to every tally x votes for, one ballot after the other. */
    method AdjustWitnessVotes(x: Name, delta: int) returns (ok: bool)
      requires forall b | b in votes :: b.1 in witnesses
      modifies `witnesses
      ensures witnesses.Keys == old(witnesses).Keys
      ensures ok <==> forall w | w in old(witnesses) && (x, w) in votes :: old(witnesses)[w] + delta <= totalVests
      ensures ok ==> witnesses == Tallied(old(witnesses), votes, x, delta)
    {
      ok := true;
      var pending := BallotOf(votes, x);
      while ok && pending != {}
        invariant witnesses.Keys == old(witnesses).Keys
        invariant pending <= BallotOf(votes, x)
        invariant forall w | w in witnesses && (w !in BallotOf(votes, x) || w in pending) ::
          witnesses[w] == old(witnesses)[w]
        invariant ok ==> forall w | w in BallotOf(votes, x) && w !in pending && w in witnesses ::
                    witnesses[w] == old(witnesses)[w] + delta <= totalVests
        invariant !ok ==>
          exists w :: w in BallotOf(votes, x) && w in witnesses && old(witnesses)[w] + delta > totalVests
        decreases pending
      {
        var w :| w in pending;
        ok := AdjustWitnessVote(w, delta);
        pending := pending - {w};
      }
      forall w ensures w in BallotOf(votes, x) <==> (x, w) in votes { BallotMember(votes, x, w); }
    }

    /** Adds the shifted delta to the counters of one proxy, from the deepest counter down. */
    method BumpProxied(p: Name, delta: seq<int>, depth: nat)
      requires p in accounts && |accounts[p].proxied| == MAX_DEPTH
      requires |delta| == MAX_DEPTH + 1 && depth < MAX_DEPTH
      modifies `accounts
      ensures accounts == old(accounts)[p := old(accounts)[p].(proxied := Bumped(old(accounts)[p].proxied, delta,
          depth))]
    {
      var proxied := accounts[p].proxied;
      var i := MAX_DEPTH - depth - 1;
      while i >= 0
        invariant -1 <= i < MAX_DEPTH - depth
        invariant |proxied| == MAX_DEPTH
        invariant forall s | 0 <= s <= i + depth :: proxied[s] == accounts[p].proxied[s]
        invariant forall s | i + depth < s < MAX_DEPTH ::
          s >= depth && proxied[s] == accounts[p].proxied[s] + delta[s - depth]
      {
        proxied := proxied[i + depth := proxied[i + depth] + delta[i]];
        i := i - 1;
      }
      assert proxied == Bumped(accounts[p].proxied, delta, depth);
      accounts := accounts[p := accounts[p].(proxied := proxied)];
    }

    /** Carries a whole stake vector up the proxy chain of a, and to the ballots at its end. */
    method AdjustProxiedVector(a: Name, delta: seq<int>, depth: nat) returns (ok: bool)
      requires Shape(accounts) && a in accounts
      requires forall b | b in votes :: b.1 in witnesses
      requires VotersVote(accounts, votes)
      requires |delta| == MAX_DEPTH + 1 && depth <= MAX_DEPTH
      modifies `accounts, `witnesses
      ensures accounts == AdjustedAccounts(old(accounts), a, delta, depth)
      ensures witnesses.Keys == old(witnesses).Keys
      ensures var r := Reached(old(accounts), a, depth); var d := Prefix(delta, MAX_DEPTH + 1 - r.1);
              && (ok <==> forall w | w in old(witnesses) && (r.0, w) in votes :: old(witnesses)[w] + d <= totalVests)
              && (ok ==> witnesses == Tallied(old(witnesses), votes, r.0, d))
      decreases MAX_DEPTH - depth
    {
      assert accounts[a].proxy == Proxies(accounts)[a];
      if accounts[a].proxy != SELF {
        if depth >= MAX_DEPTH {
          NobodyVotesAsSelf(accounts, votes);
          assert witnesses == Tallied(witnesses, votes, SELF, Prefix(delta, MAX_DEPTH + 1 - depth));
          return true;
        }
        var p := accounts[a].proxy;
        ghost var before := accounts;
        BumpProxied(p, delta, depth);
        assert Proxies(accounts) == Proxies(before);
        ReachedSame(before, accounts, p, depth + 1);
        forall b | b in votes ensures Voter(accounts, b) { assert Voter(before, b); }
        ok := AdjustProxiedVector(p, delta, depth + 1);
      } else {
        var totalDelta := 0;
        var i := 0;
        while i < MAX_DEPTH + 1 - depth
          invariant 0 <= i <= MAX_DEPTH + 1 - depth
          invariant totalDelta == Prefix(delta, i)
        {
          totalDelta := totalDelta + delta[i];
          i := i + 1;
        }
        ok := AdjustWitnessVotes(a, totalDelta);
      }
    }

    /** The single-stake form of the same walk. */
    method AdjustProxiedVotes(a: Name, delta: int, depth: nat) returns (ok: bool)
      requires Shape(accounts) && a in accounts
      requires forall b | b in votes :: b.1 in witnesses
      requires VotersVote(accounts, votes)
      requires depth <= MAX_DEPTH
      modifies `accounts, `witnesses
      ensures accounts == AdjustedAccounts(old(accounts), a, OwnStake(delta), depth)
      ensures witnesses.Keys == old(witnesses).Keys
      ensures var r := Reached(old(accounts), a, depth);
              && (ok <==>
                    forall w | w in old(witnesses) && (r.0, w) in votes :: old(witnesses)[w] + delta <= totalVests)
              && (ok ==> witnesses == Tallied(old(witnesses), votes, r.0, delta))
      decreases MAX_DEPTH - depth
    {
      assert accounts[a].proxy == Proxies(accounts)[a];
      if accounts[a].proxy != SELF {
        if depth >= MAX_DEPTH {
          NobodyVotesAsSelf(accounts, votes);
          assert witnesses == Tallied(witnesses, votes, SELF, delta);
          return true;
        }
        var p := accounts[a].proxy;
        ghost var before := accounts;
        var proxied := accounts[p].proxied;
        accounts := accounts[p := accounts[p].(proxied := proxied[depth := proxied[depth] + delta])];
        assert accounts[p].proxied == Bumped(before[p].proxied, OwnStake(delta), depth);
        assert Proxies(accounts) == Proxies(before);
        ReachedSame(before, accounts, p, depth + 1);
        forall b | b in votes ensures Voter(accounts, b) { assert Voter(before, b); }
        ok := AdjustProxiedVotes(p, delta, depth + 1);
      } else {
        ok := AdjustWitnessVotes(a, delta);
      }
    }

    /** Removes the ballots of a one by one. */
    method ClearWitnessVotes(a: Name)
      requires a in accounts
      modifies `votes, `accounts
      ensures votes == old(votes) - OwnBallots(old(votes), a)
      ensures accounts == old(accounts)[a := old(accounts)[a].(votedFor := 0)]
    {
      var pending := BallotOf(votes, a);
      while pending != {}
        invariant accounts == old(accounts) && votes <= old(votes)
        invariant forall b | b in old(votes) :: b in votes <==> b.0 != a || b.1 in pending
        decreases pending
      {
        var w :| w in pending;
        votes := votes - {(a, w)};
        pending := pending - {w};
      }
      accounts := accounts[a := accounts[a].(votedFor := 0)];
    }

    // ---- Proxies -----------------------------------------------------------------------------

    /** Walks up from b and rejects a chain that is too long or contains a. */
    method CheckProxyChain(a: Name, b: Name) returns (ok: bool)
      requires Shape(accounts) && Acyclic(Proxies(accounts)) && a in accounts && b in accounts && a != b
      ensures ok <==> ChainFree(Proxies(accounts), a, b)
    {
      ghost var g := Proxies(accounts);
      ghost var n: nat := 0;
      var chain := {a, b};
      var cur := b;
      assert Ends(g, b);
      while accounts[cur].proxy != SELF
        invariant cur == Up(g, b, n) && cur in accounts
        invariant n <= MAX_DEPTH - 2 && |chain| == n + 2 && a in chain
        invariant forall y | y in chain :: y == a || exists i: nat :: i <= n && y == Up(g, b, i)
        invariant forall i: nat | i <= n :: Up(g, b, i) != a
        decreases MAX_DEPTH - n
      {
        var next := accounts[cur].proxy;
        assert next == g[cur];
        UpNext(g, b, n);
        if next in chain {
          if next != a {
            ghost var i: nat :| i <= n && next == Up(g, b, i);
            UniqueDepth(g, b, i, n + 1);
          }
          return false;
        }
        chain := chain + {next};
        cur := next;
        n := n + 1;
        if |chain| > MAX_DEPTH {
          return false;
        }
      }
      UpNext(g, b, n);
      assert g[cur] == SELF;
      forall i: nat | n < i ensures Up(g, b, i) == SELF { UpStays(g, b, n + 1, i); }
      return true;
    }

    /** Sets the proxy of a to b, or clears it when b is empty. */
    method SetProxy(a: Name, b: Name) returns (ok: bool)
      requires Valid()
      modifies this
      ensures Valid()
      ensures ok <==> old(ProxyAllowed(accounts, a, b))
      ensures !ok ==> accounts == old(accounts) && witnesses == old(witnesses) && votes == old(votes)
      ensures ok ==> Proxies(accounts) == old(Proxies(accounts))[a := b]
      ensures ok ==> votes == old(votes) - OwnBallots(old(votes), a)
      ensures StakesOf(accounts) == old(StakesOf(accounts)) && Rights(accounts) == old(Rights(accounts))
      ensures witnesses.Keys == old(witnesses.Keys) && totalVests == old(totalVests)
    {
      hide Inv, Proxies, StakesOf, Rights, CutOff, AdjustedAccounts, Reached, Up, Acyclic, Shape, Closed, BallotsFit,
           ChainFree, Tallied, Negated, Hung, Attachable;
      if b == a || a !in accounts { return false; }
      if accounts[a].proxy == b || !accounts[a].canVote { return false; }
      var accounts0, witnesses0, votes0 := accounts, witnesses, votes;
      var delta := Negated(Carried(accounts[a]));
      RemoveVotes(a);
      CutStep(accounts0, witnesses0, votes0, totalVests, a, true);
      ghost var cut := CutOff(accounts0, a, true);
      if b != SELF {
        ok := b in accounts;
        if ok { ok := CheckProxyChain(a, b); }
        if !ok {
          accounts, witnesses, votes := accounts0, witnesses0, votes0;
          return false;
        }
        ClearWitnessVotes(a);
        BallotsWithout(votes0, a, a);
        FreeChainAttaches(Proxies(accounts0), a, b);
        NegatedTwice(Carried(cut[a]));
        HangBelow(a, b, Negated(delta), cut);
        assert Proxies(accounts0)[a := SELF][a := b] == Proxies(accounts0)[a := b];
      } else {
        NoBallotsBelowProxy(accounts0, witnesses0, votes0, a);
        accounts := accounts[a := accounts[a].(proxy := SELF)];
        assert accounts == cut;
        ok := true;
      }
    }

    /** Takes everything a carries out of the counters above it, or out of the tallies it votes for. */
    method RemoveVotes(a: Name)
      requires Valid() && a in accounts
      modifies `accounts, `witnesses
      ensures accounts == AdjustedAccounts(old(accounts), a, Negated(Carried(old(accounts)[a])), 0)
      ensures witnesses == Tallied(old(witnesses), votes, Reached(old(accounts), a, 0).0, CutWeight(old(accounts), a))
      ensures witnesses.Keys == old(witnesses).Keys
    {
      CutOffInv(accounts, witnesses, votes, totalVests, a, true);
      var ok := AdjustProxiedVector(a, Negated(Carried(accounts[a])), 0);
    }

    /** Names b as the proxy of a, which has been cut off, and adds what a carries to the chain above b. */
    method HangBelow(a: Name, b: Name, delta: seq<int>, ghost cut: Accounts)
      requires a in accounts && accounts[a := accounts[a].(proxy := SELF)] == cut
      requires Inv(cut, witnesses, votes, totalVests) && Attachable(Proxies(cut), a, b)
      requires cut[a].canVote && BallotOf(votes, a) == {} && delta == Carried(cut[a])
      modifies `accounts, `witnesses
      ensures Valid() && accounts == Hung(cut, a, b) && witnesses.Keys == old(witnesses).Keys
      ensures Proxies(accounts) == Proxies(cut)[a := b] && StakesOf(accounts) == StakesOf(cut)
      ensures Rights(accounts) == Rights(cut)
    {
      hide Inv, Proxies, StakesOf, Rights, Reached, AdjustedAccounts, Attachable, Shape, BallotsFit, VotersVote;
      InvShape(cut, witnesses, votes, totalVests);
      accounts := accounts[a := accounts[a].(proxy := b)];
      assert accounts == cut[a := cut[a].(proxy := b)];
      HungSetup(cut, votes, a, b);
      HungInv(cut, witnesses, votes, totalVests, a, b);
      var ok := AdjustProxiedVector(a, delta, 0);
      HungRights(cut, a, b);
    }

    // ---- Ballots -----------------------------------------------------------------------------

    /** Casts or withdraws one ballot. */
    method VoteWitness(a: Name, w: Name, approve: bool) returns (ok: bool)
      requires Valid()
      modifies this
      ensures Valid()
      ensures ok <==> old(VoteAllowed(accounts, witnesses, votes, a, w, approve))
      ensures !ok ==> accounts == old(accounts) && witnesses == old(witnesses) && votes == old(votes)
      ensures ok ==> votes == if approve then old(votes) + {(a, w)} else old(votes) - {(a, w)}
      ensures Proxies(accounts) == old(Proxies(accounts)) && StakesOf(accounts) == old(StakesOf(accounts))
      ensures Rights(accounts) == old(Rights(accounts))
      ensures witnesses.Keys == old(witnesses.Keys) && totalVests == old(totalVests)
    {
      hide Inv, Proxies, StakesOf, Rights, Weight;
      if a !in accounts || accounts[a].proxy != SELF { return false; }
      if approve && !accounts[a].canVote { return false; }
      if w !in witnesses { return false; }
      ghost var accounts0, witnesses0, votes0 := accounts, witnesses, votes;
      var weight := Weight(accounts[a]);
      if (a, w) !in votes {
        if !approve || accounts[a].votedFor >= MAX_BALLOTS { return false; }
        BallotInv(accounts, witnesses, votes, totalVests, a, w, true);
        BallotGround(accounts, witnesses, votes, totalVests, a, true);
        votes := votes + {(a, w)};
        ok := AdjustWitnessVote(w, weight);
        accounts := accounts[a := accounts[a].(votedFor := accounts[a].votedFor + 1)];
      } else {
        if approve { return false; }
        BallotInv(accounts, witnesses, votes, totalVests, a, w, false);
        BallotGround(accounts, witnesses, votes, totalVests, a, false);
        ok := AdjustWitnessVote(w, -weight);
        accounts := accounts[a := accounts[a].(votedFor := accounts[a].votedFor - 1)];
        votes := votes - {(a, w)};
      }
    }

    /** Carries out a due request to decline voting rights. */
    method DeclineVoting(a: Name)
      requires Valid() && a in accounts
      modifies this
      ensures Valid()
      ensures Proxies(accounts) == old(Proxies(accounts))[a := SELF]
      ensures Rights(accounts) == old(Rights(accounts))[a := false]
      ensures votes == old(votes) - OwnBallots(old(votes), a)
      ensures StakesOf(accounts) == old(StakesOf(accounts))
      ensures witnesses.Keys == old(witnesses.Keys) && totalVests == old(totalVests)
    {
      hide Inv, Proxies, StakesOf, Rights, CutOff, AdjustedAccounts, Reached, Acyclic, Shape, Closed, BallotsFit,
           Tallied, Negated;
      ghost var accounts0, witnesses0, votes0 := accounts, witnesses, votes;
      RemoveVotes(a);
      CutStep(accounts0, witnesses0, votes0, totalVests, a, false);
      ClearWitnessVotes(a);
      accounts := accounts[a := accounts[a].(canVote := false, proxy := SELF)];
      assert accounts == CutOff(accounts0, a, false);
    }

    // ---- Stake -------------------------------------------------------------------------------

    /** New vesting shares for a: the total grows first, then the walk. */
    method AddVests(a: Name, amount: nat) returns (ok: bool)
      requires Valid()
      modifies this
      ensures Valid()
      ensures ok <==> a in old(accounts)
      ensures !ok ==> accounts == old(accounts) && witnesses == old(witnesses) && totalVests == old(totalVests)
      ensures ok ==> StakesOf(accounts) == old(StakesOf(accounts))[a := old(accounts)[a].vests + amount]
      ensures ok ==> totalVests == old(totalVests) + amount
      ensures Proxies(accounts) == old(Proxies(accounts)) && Rights(accounts) == old(Rights(accounts))
      ensures votes == old(votes) && witnesses.Keys == old(witnesses.Keys)
    {
      hide Inv, Proxies, StakesOf, Rights, Reached;
      if a !in accounts { return false; }
      StakesNonneg(accounts, witnesses, votes, totalVests);
      ghost var before := totalVests;
      StakeRoom(accounts, witnesses, votes, totalVests, a, amount);
      totalVests := totalVests + amount;
      ok := MoveStake(a, amount, before);
    }

    /** Changes the stake of a by d and walks up with the change; t is the total the counters agree with. */
    method MoveStake(a: Name, d: int, ghost t: int) returns (ok: bool)
      requires Inv(accounts, witnesses, votes, t) && a in accounts && accounts[a].vests + d >= 0
      modifies `accounts, `witnesses
      ensures accounts.Keys == old(accounts).Keys && witnesses.Keys == old(witnesses).Keys
      ensures var r := Reached(old(accounts), a, 0).0;
              && (ok <==> forall w | w in old(witnesses) && (r, w) in votes :: old(witnesses)[w] + d <= totalVests)
              && (ok ==> witnesses == Tallied(old(witnesses), votes, r, d))
      ensures ok ==> Inv(accounts, witnesses, votes, t + d)
      ensures StakesOf(accounts) == old(StakesOf(accounts))[a := old(accounts)[a].vests + d]
      ensures Proxies(accounts) == old(Proxies(accounts)) && Rights(accounts) == old(Rights(accounts))
    {
      hide Inv, Proxies, StakesOf, Rights, Reached, AdjustedAccounts, VotersVote, Shape, BallotsFit;
      ghost var accounts0, witnesses0 := accounts, witnesses;
      InvShape(accounts, witnesses, votes, t);
      StakeSetup(accounts, votes, a, d);
      accounts := accounts[a := accounts[a].(vests := accounts[a].vests + d)];
      assert accounts == WithStake(accounts0, a, d);
      ok := AdjustProxiedVotes(a, d, 0);
      StakeInv(accounts0, witnesses0, votes, t, a, d);
      StakeRights(accounts0, a, d);
    }

    /**
     The stake side of one vesting withdrawal: first each auto-vest destination is credited and
     counted, then the liquid part leaves the total, and last the source account is debited.
     It fails exactly when a tally exceeds the total while the deposits are counted twice.
     */
    method WithdrawVests(from: Name, deposits: seq<(Name, nat)>, liquid: nat) returns (ok: bool)
      requires Valid() && from in accounts
      requires forall i | 0 <= i < |deposits| :: deposits[i].0 in accounts
      requires Deposited(deposits) + liquid <= accounts[from].vests
      modifies this
      ensures Valid()
      ensures ok <==> old(RoomFor(accounts, witnesses, votes, totalVests, deposits))
      ensures !ok ==> accounts == old(accounts) && witnesses == old(witnesses) && totalVests == old(totalVests)
      ensures ok ==> var v := Credited(old(StakesOf(accounts)), deposits);
                     StakesOf(accounts) == v[from := v[from] - Deposited(deposits) - liquid]
      ensures ok ==> totalVests == old(totalVests) - liquid
      ensures Proxies(accounts) == old(Proxies(accounts)) && Rights(accounts) == old(Rights(accounts))
      ensures votes == old(votes) && witnesses.Keys == old(witnesses.Keys)
    {
      hide Inv, Proxies, Rights, Reached, RoomFor, Deposited;
      var accounts0, witnesses0 := accounts, witnesses;
      StakesNonneg(accounts, witnesses, votes, totalVests);
      var amount;
      ok, amount := CreditDeposits(deposits);
      if !ok {
        accounts, witnesses := accounts0, witnesses0;
        return false;
      }
      CreditedGrows(StakesOf(accounts0), deposits, from);
      assert accounts[from].vests == StakesOf(accounts)[from];
      assert accounts0[from].vests == StakesOf(accounts0)[from];
      StakeRoom(accounts, witnesses, votes, totalVests + amount, from, -(amount + liquid));
      totalVests := totalVests - liquid;
      ok := MoveStake(from, -(amount + liquid), totalVests + amount + liquid);
    }

    /** Credits and counts the auto-vest destinations one after the other, the total staying as it is. */
    method CreditDeposits(deposits: seq<(Name, nat)>) returns (ok: bool, amount: nat)
      requires Valid()
      requires forall i | 0 <= i < |deposits| :: deposits[i].0 in accounts
      modifies `accounts, `witnesses
      ensures witnesses.Keys == old(witnesses).Keys && accounts.Keys == old(accounts).Keys
      ensures ok <==> old(RoomFor(accounts, witnesses, votes, totalVests, deposits))
      ensures ok ==> amount == Deposited(deposits)
      ensures ok ==> Inv(accounts, witnesses, votes, totalVests + amount)
      ensures ok ==> StakesOf(accounts) == Credited(old(StakesOf(accounts)), deposits)
      ensures Proxies(accounts) == old(Proxies(accounts)) && Rights(accounts) == old(Rights(accounts))
    {
      hide Inv, Proxies, StakesOf, Rights, Reached, Credited, Deposited, Inflow;
      ghost var accounts0, witnesses0 := accounts, witnesses;
      TalliesUnderTotal(accounts, witnesses, votes, totalVests);
      DomainOf(accounts);
      DepositNone(accounts, votes, deposits);
      ok, amount := true, 0;
      var i := 0;
      while i < |deposits|
        invariant 0 <= i <= |deposits|
        invariant amount == Deposited(deposits[..i])
        invariant Inv(accounts, witnesses, votes, totalVests + amount)
        invariant Proxies(accounts) == Proxies(accounts0) && Rights(accounts) == Rights(accounts0)
        invariant accounts.Keys == accounts0.Keys && witnesses.Keys == witnesses0.Keys
        invariant StakesOf(accounts) == Credited(StakesOf(accounts0), deposits[..i])
        invariant forall w | w in witnesses ::
                    witnesses[w] == witnesses0[w] + Inflow(accounts0, votes, deposits[..i], w) <= totalVests
      {
        DepositStep(accounts0, votes, deposits, i);
        var to, d := deposits[i].0, deposits[i].1;
        ghost var witnesses1 := witnesses;
        ReachedSame(accounts0, accounts, to, 0);
        StakesNonneg(accounts, witnesses, votes, totalVests + amount);
        DomainOf(accounts);
        ok := MoveStake(to, d, totalVests + amount);
        if !ok {
          ghost var w :| w in witnesses1 && (Reached(accounts0, to, 0).0, w) in votes && witnesses1[w] + d > totalVests;
          InflowGrows(accounts0, votes, deposits, i + 1, w);
          return;
        }
        amount := amount + d;
        i := i + 1;
      }
      assert deposits[..|deposits|] == deposits;
    }

    // ---- New objects -------------------------------------------------------------------------

    method CreateAccount(a: Name) returns (ok: bool)
      requires Valid()
      modifies this
      ensures Valid()
      ensures ok <==> a != SELF && a !in old(accounts)
      ensures accounts == if ok then old(accounts)[a := Account(0, SELF, [0, 0, 0, 0], true, 0)] else old(accounts)
      ensures witnesses == old(witnesses) && votes == old(votes) && totalVests == old(totalVests)
    {
      if a == SELF || a in accounts { return false; }
      NewAccountInv(accounts, witnesses, votes, totalVests, a);
      accounts := accounts[a := Account(0, SELF, [0, 0, 0, 0], true, 0)];
      return true;
    }

    method CreateWitness(w: Name) returns (ok: bool)
      requires Valid()
      modifies this
      ensures Valid()
      ensures ok <==> w !in old(witnesses)
      ensures witnesses == if ok then old(witnesses)[w := 0] else old(witnesses)
      ensures accounts == old(accounts) && votes == old(votes) && totalVests == old(totalVests)
    {
      if w in witnesses { return false; }
      NewWitnessInv(accounts, witnesses, votes, totalVests, w);
      witnesses := witnesses[w := 0];
      return true;
    }

    // ---- Runs --------------------------------------------------------------------------------

    /** One chain operation; requests about unknown accounts are rejected like any other failure. */
    method Execute(op: Op)
      requires Valid()
      modifies this
      ensures Valid()
    {
      match op
      case NewAccount(a) => var _ := CreateAccount(a);
      case NewWitness(w) => var _ := CreateWitness(w);
      case Vest(a, n) => var _ := AddVests(a, n);
      case Vote(a, w, approve) => var _ := VoteWitness(a, w, approve);
      case Proxy(a, b) => var _ := SetProxy(a, b);
      case Decline(a) => if a in accounts { DeclineVoting(a); }
      case Withdraw(a, deposits, liquid) =>
        var total := 0;
        var i := 0;
        while i < |deposits|
          invariant 0 <= i <= |deposits| && total == Deposited(deposits[..i])
        {
          assert deposits[..i + 1][..i] == deposits[..i];
          total := total + deposits[i].1;
          i := i + 1;
        }
        assert deposits[..|deposits|] == deposits;
        if a in accounts && total + liquid <= accounts[a].vests
           && forall k | 0 <= k < |deposits| :: deposits[k].0 in accounts {
          var _ := WithdrawVests(a, deposits, liquid);
        }
    }

    /**
     Every state reached from an empty database by any sequence of operations satisfies the
     invariant, counts every vesting share once, and has no tally above the total.
     */
    method Run(ops: seq<Op>)
      requires Valid()
      modifies this
      ensures Valid()
      ensures TotalVotes(accounts) == totalVests
      ensures forall w | w in witnesses :: 0 <= witnesses[w] <= totalVests
    {
      var i := 0;
      while i < |ops|
        invariant 0 <= i <= |ops| && Valid()
      {
        Execute(ops[i]);
        i := i + 1;
      }
      TotalVotesExact(accounts);
      forall w | w in witnesses ensures 0 <= witnesses[w] <= totalVests {
        VotesBounded(accounts, votes, w);
        VotesNonneg(accounts, votes, w);
      }
    }
  }

  datatype Op =
    | NewAccount(a: Name)
    | NewWitness(w: Name)
    | Vest(a: Name, amount: nat)
    | Vote(a: Name, w: Name, approve: bool)
    | Proxy(a: Name, b: Name)
    | Decline(a: Name)
    | Withdraw(a: Name, deposits: seq<(Name, nat)>, liquid: nat)

  // ---- Where auto-vesting does not fit -------------------------------------------------------

  /** A witness that every account votes for holds the whole total. */
  lemma UnanimousTally(acc: Accounts, ws: Tallies, votes: Ballots, total: int, w: Name)
    requires Inv(acc, ws, votes, total) && w in ws
    requires forall x | x in acc :: (x, w) in votes
    ensures ws[w] == total
  {
    forall x | x in acc ensures Backing(acc, votes, w, x) == CountedAt(acc, x) {
      assert Voter(acc, (x, w));
    }
    SumExt(acc.Keys, x => Backing(acc, votes, w, x), x => CountedAt(acc, x));
    TotalVotesExact(acc);
  }

  /** With such a witness no positive amount can be auto-vested to anybody. */
  lemma UnanimousBlocksDeposit(acc: Accounts, ws: Tallies, votes: Ballots, total: int, w: Name, to: Name, d: nat)
    requires Inv(acc, ws, votes, total) && w in ws && to in acc && d > 0
    requires forall x | x in acc :: (x, w) in votes
    ensures !RoomFor(acc, ws, votes, total, [(to, d)])
  {
    UnanimousTally(acc, ws, votes, total, w);
    assert Voter(acc, (to, w));
    assert Reached(acc, to, 0) == (to, 0);
    assert [(to, d)][..0] == [];
    assert Inflow(acc, votes, [(to, d)], w) == d;
  }

  /** Two accounts that vote for one witness; only the first has stake. */
  function TwoVoters(a: Name, b: Name, stake: nat): Accounts {
    map[a := Account(stake, SELF, [0, 0, 0, 0], true, 1), b := Account(0, SELF, [0, 0, 0, 0], true, 1)]
  }

  lemma TwoVotersForest(a: Name, b: Name, stake: nat)
    requires a != b && a != SELF && b != SELF
    ensures Forest(TwoVoters(a, b, stake)) && Vests(TwoVoters(a, b, stake)) == stake
  {
    var acc := TwoVoters(a, b, stake);
    var g, v := Proxies(acc), StakesOf(acc);
    forall x | x in g ensures Ends(g, x) { assert Up(g, x, 1) == Up(g, SELF, 0); }
    forall p, i | p in acc && 0 <= i < MAX_DEPTH ensures acc[p].proxied[i] == Below(g, v, p, i + 1) {
      NothingBelow(g, v, p, i + 1);
    }
    TwoVotersVests(a, b, stake);
  }

  lemma TwoVotersVests(a: Name, b: Name, stake: nat)
    requires a != b
    ensures Vests(TwoVoters(a, b, stake)) == stake
  {
    var acc := TwoVoters(a, b, stake);
    assert acc.Keys == {a, b} && {a, b} - {a} == {b};
    SumRemove({a, b}, x => if x in acc then acc[x].vests else 0, a);
    SumSingle({b}, x => if x in acc then acc[x].vests else 0, b);
  }

  lemma TwoVotersTally(a: Name, b: Name, w: Name, stake: nat)
    requires a != b
    ensures VotesFor(TwoVoters(a, b, stake), {(a, w), (b, w)}, w) == stake
  {
    var acc, votes := TwoVoters(a, b, stake), {(a, w), (b, w)};
    assert acc.Keys == {a, b} && {a, b} - {a} == {b};
    TotalFour([0, 0, 0, 0]);
    SumRemove({a, b}, x => Backing(acc, votes, w, x), a);
    SumSingle({b}, x => Backing(acc, votes, w, x), b);
  }

  lemma TwoVotersFit(a: Name, b: Name, w: Name, stake: nat)
    requires a != b
    ensures BallotsFit(TwoVoters(a, b, stake), map[w := stake as int], {(a, w), (b, w)})
  {
    var acc, votes := TwoVoters(a, b, stake), {(a, w), (b, w)};
    forall x | x in votes ensures Voter(acc, x) {}
    forall x, u ensures u in BallotOf(votes, x) <==> (x, u) in votes { BallotMember(votes, x, u); }
    assert BallotOf(votes, a) == {w} && BallotOf(votes, b) == {w};
  }

  /** A legal state in which routing any part of a's withdrawal to b as vests is rejected. */
  lemma AutoVestRejected(a: Name, b: Name, w: Name, stake: nat, d: nat)
    requires a != b && a != SELF && b != SELF && 0 < d <= stake
    ensures Inv(TwoVoters(a, b, stake), map[w := stake as int], {(a, w), (b, w)}, stake)
    ensures !RoomFor(TwoVoters(a, b, stake), map[w := stake as int], {(a, w), (b, w)}, stake, [(b, d)])
  {
    hide Forest, VotesFor, Vests, BallotsFit, RoomFor;
    TwoVotersForest(a, b, stake);
    TwoVotersTally(a, b, w, stake);
    TwoVotersFit(a, b, w, stake);
    UnanimousBlocksDeposit(TwoVoters(a, b, stake), map[w := stake as int], {(a, w), (b, w)}, stake, w, b, d);
  }

  /** Without proxies nobody is above anybody. */
  lemma NothingBelow(g: Graph, v: Stakes, p: Name, k: nat)
    requires SELF !in g && p in g && k >= 1 && forall x | x in g :: g[x] == SELF
    ensures Below(g, v, p, k) == 0
  {
    forall x | x in g ensures StakeAt(g, v, p, k, x) == 0 {
      assert Up(g, x, 1) == Up(g, SELF, 0);
      UpStays(g, x, 1, k);
    }
    SumZero(g.Keys, x => StakeAt(g, v, p, k, x));
  }

  // ---- Steps of the proofs above -------------------------------------------------------------

  lemma NobodyVotesAsSelf(acc: Accounts, votes: Ballots)
    requires Shape(acc) && VotersVote(acc, votes)
    ensures forall w :: (SELF, w) !in votes
  {
    assert SELF !in Proxies(acc);
    forall w ensures (SELF, w) !in votes {
      assert (SELF, w) in votes ==> Voter(acc, (SELF, w));
    }
  }

  lemma NoBallotsBelowProxy(acc: Accounts, ws: Tallies, votes: Ballots, a: Name)
    requires BallotsFit(acc, ws, votes) && a in acc && acc[a].proxy != SELF
    ensures OwnBallots(votes, a) == {} && acc[a].votedFor == 0
    ensures votes - OwnBallots(votes, a) == votes
  {
    forall b | b in votes ensures b.0 != a { assert Voter(acc, b); }
    assert BallotOf(votes, a) == {};
  }

  lemma FreeChainAttaches(g: Graph, a: Name, b: Name)
    requires Closed(g) && Acyclic(g) && a in g && b in g && ChainFree(g, a, b)
    ensures Attachable(g[a := SELF], a, b)
  {
    forall i: nat ensures Up(g, b, i) != a {
      if i >= MAX_DEPTH - 1 { UpStays(g, b, MAX_DEPTH - 1, i); }
    }
    var g0 := g[a := SELF];
    forall i: nat ensures Up(g0, b, i) == Up(g, b, i) { UpSame(g, a, SELF, b, i); }
    CutOffShape(g, a);
    assert Up(g0, b, MAX_DEPTH - 1) == SELF;
    assert Ends(g0, b);
  }

  /** The walk may start once a, cut off and without ballots, names b as its proxy. */
  lemma HungSetup(acc: Accounts, votes: Ballots, a: Name, b: Name)
    requires Shape(acc) && a in acc && Attachable(Proxies(acc), a, b) && VotersVote(acc, votes)
    requires BallotOf(votes, a) == {}
    ensures Shape(acc[a := acc[a].(proxy := b)])
    ensures VotersVote(acc[a := acc[a].(proxy := b)], votes)
  {
    var acc1 := acc[a := acc[a].(proxy := b)];
    assert Proxies(acc1) == Proxies(acc)[a := b];
    forall x | x in votes ensures Voter(acc1, x) {
      assert Voter(acc, x);
      BallotMember(votes, x.0, x.1);
      assert (x.0, x.1) == x;
    }
  }

  lemma StakeSetup(acc: Accounts, votes: Ballots, a: Name, d: int)
    requires Shape(acc) && a in acc && VotersVote(acc, votes)
    ensures Shape(WithStake(acc, a, d)) && VotersVote(WithStake(acc, a, d), votes)
    ensures Reached(WithStake(acc, a, d), a, 0) == Reached(acc, a, 0)
  {
    var acc1 := WithStake(acc, a, d);
    assert Proxies(acc1) == Proxies(acc);
    ReachedSame(acc, acc1, a, 0);
    forall x | x in votes ensures Voter(acc1, x) { assert Voter(acc, x); }
  }

  lemma StakeRights(acc: Accounts, a: Name, d: int)
    requires Shape(acc) && a in acc
    ensures Rights(AdjustedAccounts(WithStake(acc, a, d), a, OwnStake(d), 0)) == Rights(acc)
  {
    hide AdjustedAccounts;
    var acc1 := WithStake(acc, a, d);
    assert Proxies(acc1) == Proxies(acc);
    AdjustedFrame(acc1, a, OwnStake(d), 0);
    RightsSame(acc, acc1);
    RightsSame(acc1, AdjustedAccounts(acc1, a, OwnStake(d), 0));
  }

  lemma HungRights(acc: Accounts, a: Name, b: Name)
    requires Shape(acc) && a in acc && Attachable(Proxies(acc), a, b)
    ensures Proxies(Hung(acc, a, b)) == Proxies(acc)[a := b]
    ensures StakesOf(Hung(acc, a, b)) == StakesOf(acc) && Rights(Hung(acc, a, b)) == Rights(acc)
  {
    HungFrame(acc, a, b);
  }

  /** The walk and then the change of a's own record make up the cut. */
  lemma CutOffSteps(acc: Accounts, a: Name, keep: bool)
    requires Shape(acc) && Acyclic(Proxies(acc)) && a in acc
    ensures var acc1 := AdjustedAccounts(acc, a, Negated(Carried(acc[a])), 0);
            && acc1.Keys == acc.Keys && Shape(acc1) && Proxies(acc1) == Proxies(acc)
            && a in acc1 && acc1[a] == acc[a]
            && CutOff(acc, a, keep) == acc1[a := acc[a].(proxy := SELF, votedFor := 0, canVote := keep)]
  {
    AdjustedFrame(acc, a, Negated(Carried(acc[a])), 0);
    AdjustedSelf(acc, a, Negated(Carried(acc[a])));
  }

  lemma CutOffGround(acc: Accounts, a: Name, keep: bool)
    requires Shape(acc) && Acyclic(Proxies(acc)) && a in acc
    ensures var cut := CutOff(acc, a, keep);
            && Proxies(cut) == Proxies(acc)[a := SELF] && StakesOf(cut) == StakesOf(acc)
            && Rights(cut) == Rights(acc)[a := keep]
  {
    CutOffFrame(acc, a, keep);
    RightsChanged(acc, CutOff(acc, a, keep), a, keep);
  }

  /** What an operation that cuts a off needs to know. */
  lemma CutStep(acc: Accounts, ws: Tallies, votes: Ballots, total: int, a: Name, keep: bool)
    requires Inv(acc, ws, votes, total) && a in acc
    ensures |acc[a].proxied| == MAX_DEPTH
    ensures var acc1 := AdjustedAccounts(acc, a, Negated(Carried(acc[a])),
        0); var g := Proxies(acc); var cut := CutOff(acc, a, keep);
            && Inv(cut, Tallied(ws, votes, Reached(acc, a, 0).0, CutWeight(acc, a)), votes - OwnBallots(votes, a),
                total)
            && acc1.Keys == acc.Keys && Shape(acc1) && Proxies(acc1) == g && Closed(g) && Acyclic(g) && a in g
            && (forall x :: x in acc <==> x in g)
            && a in acc1 && acc1[a] == acc[a]
            && cut == acc1[a := acc[a].(proxy := SELF, votedFor := 0, canVote := keep)]
            && Proxies(cut) == g[a := SELF] && StakesOf(cut) == StakesOf(acc)
            && Rights(cut) == Rights(acc)[a := keep]
            && (acc[a].canVote == keep ==> Rights(cut) == Rights(acc))
            && BallotsFit(acc, ws, votes)
  {
    hide Inv, Shape, Closed, Acyclic, Rights, Proxies, StakesOf, BallotsFit, AdjustedAccounts, CutOff, Reached;
    InvShape(acc, ws, votes, total);
    RightsKept(acc, a);
    CutOffInv(acc, ws, votes, total, a, keep);
    CutOffSteps(acc, a, keep);
    CutOffGround(acc, a, keep);
  }

  lemma NegatedTwice(s: seq<int>)
    ensures Negated(Negated(s)) == s
  {
  }

  lemma InvShape(acc: Accounts, ws: Tallies, votes: Ballots, total: int)
    requires Inv(acc, ws, votes, total)
    ensures Shape(acc) && Closed(Proxies(acc)) && Acyclic(Proxies(acc)) && Proxies(acc).Keys == acc.Keys
    ensures BallotsFit(acc, ws, votes) && VotersVote(acc, votes) && forall b | b in votes :: b.1 in ws
    ensures forall x | x in acc :: |acc[x].proxied| == MAX_DEPTH
  {
  }

  lemma RightsKept(acc: Accounts, a: Name)
    requires a in acc
    ensures Rights(acc)[a := acc[a].canVote] == Rights(acc)
  {
  }

  lemma DomainOf(acc: Accounts)
    ensures StakesOf(acc).Keys == acc.Keys
    ensures forall x | x in acc :: StakesOf(acc)[x] == acc[x].vests
  {
  }

  lemma StakesNonneg(acc: Accounts, ws: Tallies, votes: Ballots, total: int)
    requires Inv(acc, ws, votes, total)
    ensures forall x | x in acc :: acc[x].vests >= 0
  {
  }

  lemma TalliesUnderTotal(acc: Accounts, ws: Tallies, votes: Ballots, total: int)
    requires Inv(acc, ws, votes, total)
    ensures forall w | w in ws :: ws[w] <= total
  {
    forall w | w in ws ensures ws[w] <= total { VotesBounded(acc, votes, w); }
  }

  /** After a stake change the tallies fit under the changed total. */
  lemma StakeRoom(acc: Accounts, ws: Tallies, votes: Ballots, total: int, a: Name, d: int)
    requires Inv(acc, ws, votes, total) && a in acc && acc[a].vests + d >= 0
    ensures forall w | w in ws && (Reached(acc, a, 0).0, w) in votes :: ws[w] + d <= total + d
  {
    TalliesUnderTotal(acc, ws, votes, total);
  }

  /** A stake change, walked up, keeps the invariant for the changed total. */
  lemma StakeInv(acc: Accounts, ws: Tallies, votes: Ballots, total: int, a: Name, d: int)
    requires Inv(acc, ws, votes, total) && a in acc && acc[a].vests + d >= 0
    ensures var acc' := AdjustedAccounts(WithStake(acc, a, d), a, OwnStake(d), 0);
            && Inv(acc', Tallied(ws, votes, Reached(acc, a, 0).0, d), votes, total + d)
            && acc'.Keys == acc.Keys
            && Proxies(acc') == Proxies(acc)
            && StakesOf(acc') == StakesOf(acc)[a := acc[a].vests + d]
  {
    var acc' := AdjustedAccounts(WithStake(acc, a, d), a, OwnStake(d), 0);
    StakeMoved(acc, a, d);
    VestsMoved(acc, acc', a, d);
    forall x | x in votes ensures Voter(acc', x) { assert Voter(acc, x); }
    forall w | w in ws ensures VotesFor(acc', votes, w) == Tallied(ws, votes, Reached(acc, a, 0).0, d)[w] {
      StakeMovedTallies(acc, votes, a, d, w);
    }
  }

  /** A state that differs only in how many ballots accounts have cast is as much a forest. */
  lemma ForestSame(acc: Accounts, acc': Accounts)
    requires Forest(acc) && acc'.Keys == acc.Keys
    requires forall x | x in acc :: acc'[x] == acc[x].(votedFor := acc'[x].votedFor)
    ensures Forest(acc') && Vests(acc') == Vests(acc)
    ensures Proxies(acc') == Proxies(acc) && StakesOf(acc') == StakesOf(acc) && Rights(acc') == Rights(acc)
  {
    assert Proxies(acc') == Proxies(acc) && StakesOf(acc') == StakesOf(acc);
    VestsSame(acc, acc');
  }

  function WithCount(acc: Accounts, a: Name, approve: bool): Accounts
    requires a in acc && (approve || acc[a].votedFor > 0)
  {
    acc[a := acc[a].(votedFor := if approve then acc[a].votedFor + 1 else acc[a].votedFor - 1)]
  }

  function WithBallot(votes: Ballots, a: Name, w: Name, approve: bool): Ballots {
    if approve then votes + {(a, w)} else votes - {(a, w)}
  }

  function Signed(weight: int, approve: bool): int {
    if approve then weight else -weight
  }

  lemma BallotFits(acc: Accounts, ws: Tallies, ws': Tallies, votes: Ballots, a: Name, w: Name, approve: bool)
    requires BallotsFit(acc, ws, votes) && VoteAllowed(acc, ws, votes, a, w, approve) && ws'.Keys == ws.Keys
    ensures approve || acc[a].votedFor > 0
    ensures BallotsFit(WithCount(acc, a, approve), ws', WithBallot(votes, a, w, approve))
  {
    BallotMember(votes, a, w);
    var acc', votes' := WithCount(acc, a, approve), WithBallot(votes, a, w, approve);
    forall x | x in votes' ensures Voter(acc', x) && x.1 in ws' { assert x in votes ==> Voter(acc, x); }
    forall x | x in acc'
      ensures acc'[x].votedFor == |BallotOf(votes', x)| <= MAX_BALLOTS
      ensures !acc'[x].canVote ==> acc'[x].proxy == SELF && BallotOf(votes', x) == {}
    {
      BallotsChanged(votes, a, w, approve, x);
    }
  }

  lemma BallotTally(acc: Accounts, votes: Ballots, a: Name, w: Name, approve: bool, u: Name)
    requires a in acc && (approve || acc[a].votedFor > 0) && ((a, w) in votes <==> !approve)
    ensures VotesFor(WithCount(acc, a, approve), WithBallot(votes, a, w, approve), u)
         == VotesFor(acc, votes, u) + if u == w then Signed(Weight(acc[a]), approve) else 0
  {
    var acc', votes' := WithCount(acc, a, approve), WithBallot(votes, a, w, approve);
    var f, f' := x => Backing(acc, votes, u, x), x => Backing(acc', votes', u, x);
    SumChangeOne(acc.Keys, f, f', a);
    assert acc'.Keys == acc.Keys;
  }

  lemma BallotWitness(acc: Accounts, ws: Tallies, votes: Ballots, total: int, a: Name, w: Name, approve: bool, u: Name)
    requires Inv(acc, ws, votes, total) && VoteAllowed(acc, ws, votes, a, w, approve) && u in ws
    ensures approve || acc[a].votedFor > 0
    ensures ws[w := ws[w] + Signed(Weight(acc[a]), approve)][u]
         == VotesFor(WithCount(acc, a, approve), WithBallot(votes, a, w, approve), u) <= total
  {
    hide Sum;
    BallotFits(acc, ws, ws, votes, a, w, approve);
    ForestSame(acc, WithCount(acc, a, approve));
    BallotTally(acc, votes, a, w, approve, u);
    VotesBounded(WithCount(acc, a, approve), WithBallot(votes, a, w, approve), u);
  }

  lemma BallotForest(acc: Accounts, a: Name, approve: bool)
    requires Forest(acc) && a in acc && (approve || acc[a].votedFor > 0)
    ensures var acc' := WithCount(acc, a, approve);
            && Forest(acc') && Vests(acc') == Vests(acc)
            && Proxies(acc') == Proxies(acc) && StakesOf(acc') == StakesOf(acc) && Rights(acc') == Rights(acc)
  {
    ForestSame(acc, WithCount(acc, a, approve));
  }

  lemma BallotGround(acc: Accounts, ws: Tallies, votes: Ballots, total: int, a: Name, approve: bool)
    requires Inv(acc, ws, votes, total) && a in acc && (approve || acc[a].votedFor > 0)
    ensures var acc' := WithCount(acc, a, approve);
            Proxies(acc') == Proxies(acc) && StakesOf(acc') == StakesOf(acc) && Rights(acc') == Rights(acc)
  {
    BallotForest(acc, a, approve);
  }

  /** One ballot more or less keeps the invariant. */
  lemma BallotInv(acc: Accounts, ws: Tallies, votes: Ballots, total: int, a: Name, w: Name, approve: bool)
    requires Inv(acc, ws, votes, total) && VoteAllowed(acc, ws, votes, a, w, approve)
    ensures approve || acc[a].votedFor > 0
    ensures var d := Signed(Weight(acc[a]), approve);
            && Inv(WithCount(acc, a, approve), ws[w := ws[w] + d], WithBallot(votes, a, w, approve), total)
            && ws[w] + d <= total
  {
    var ws' := ws[w := ws[w] + Signed(Weight(acc[a]), approve)];
    BallotFits(acc, ws, ws', votes, a, w, approve);
    BallotForest(acc, a, approve);
    forall u | u in ws
      ensures ws'[u] == VotesFor(WithCount(acc, a, approve), WithBallot(votes, a, w, approve), u) <= total
    {
      BallotWitness(acc, ws, votes, total, a, w, approve, u);
    }
  }

  lemma BallotsChanged(votes: Ballots, a: Name, w: Name, approve: bool, x: Name)
    requires (a, w) in votes <==> !approve
    ensures var votes' := if approve then votes + {(a, w)} else votes - {(a, w)};
            && (x != a ==> BallotOf(votes', x) == BallotOf(votes, x))
            && |BallotOf(votes', a)| == |BallotOf(votes, a)| + if approve then 1 else -1
  {
    var votes' := if approve then votes + {(a, w)} else votes - {(a, w)};
    forall y, u ensures u in BallotOf(votes', y) <==> (y, u) in votes' { BallotMember(votes', y, u); }
    forall y, u ensures u in BallotOf(votes, y) <==> (y, u) in votes { BallotMember(votes, y, u); }
    assert approve ==> BallotOf(votes', a) == BallotOf(votes, a) + {w};
    assert !approve ==> BallotOf(votes, a) == BallotOf(votes', a) + {w};
  }

  lemma NewWitnessInv(acc: Accounts, ws: Tallies, votes: Ballots, total: int, w: Name)
    requires Inv(acc, ws, votes, total) && w !in ws
    ensures Inv(acc, ws[w := 0], votes, total)
  {
    forall x | x in acc ensures Backing(acc, votes, w, x) == 0 {
      assert (x, w) in votes ==> (x, w).1 in ws;
    }
    SumZero(acc.Keys, x => Backing(acc, votes, w, x));
  }

  lemma NewAccountTally(acc: Accounts, votes: Ballots, a: Name, w: Name)
    requires VotersVote(acc, votes) && a !in acc
    ensures VotesFor(acc[a := Account(0, SELF, [0, 0, 0, 0], true, 0)], votes, w) == VotesFor(acc, votes, w)
  {
    var acc' := acc[a := Account(0, SELF, [0, 0, 0, 0], true, 0)];
    var f, f' := x => Backing(acc, votes, w, x), x => Backing(acc', votes, w, x);
    assert acc'.Keys == acc.Keys + {a};
    SumInsert(acc.Keys, f', a);
    assert (a, w) in votes ==> Voter(acc, (a, w));
    SumExt(acc.Keys, f, f');
  }

  lemma NewAccountVests(acc: Accounts, a: Name)
    requires a !in acc
    ensures Vests(acc[a := Account(0, SELF, [0, 0, 0, 0], true, 0)]) == Vests(acc)
  {
    var acc' := acc[a := Account(0, SELF, [0, 0, 0, 0], true, 0)];
    var s, s' := x => if x in acc then acc[x].vests else 0, x => if x in acc' then acc'[x].vests else 0;
    assert acc'.Keys == acc.Keys + {a};
    SumInsert(acc.Keys, s', a);
    SumExt(acc.Keys, s, s');
  }

  lemma NewAccountInv(acc: Accounts, ws: Tallies, votes: Ballots, total: int, a: Name)
    requires Inv(acc, ws, votes, total) && a !in acc && a != SELF
    ensures Inv(acc[a := Account(0, SELF, [0, 0, 0, 0], true, 0)], ws, votes, total)
  {
    hide Forest, Sum, Vests, VotesFor;
    var acc' := acc[a := Account(0, SELF, [0, 0, 0, 0], true, 0)];
    NewAccountForest(acc, a);
    NewAccountVests(acc, a);
    forall x | x in votes ensures Voter(acc', x) && x.0 != a { assert Voter(acc, x); }
    assert BallotOf(votes, a) == {};
    forall w | w in ws ensures VotesFor(acc', votes, w) == ws[w] { NewAccountTally(acc, votes, a, w); }
  }

  lemma NewAccountForest(acc: Accounts, a: Name)
    requires Forest(acc) && a !in acc && a != SELF
    ensures Forest(acc[a := Account(0, SELF, [0, 0, 0, 0], true, 0)])
  {
    var acc' := acc[a := Account(0, SELF, [0, 0, 0, 0], true, 0)];
    var g, v := Proxies(acc), StakesOf(acc);
    var g' := g[a := SELF];
    assert Proxies(acc') == g' && StakesOf(acc') == v[a := 0];
    forall x | x in g' ensures Ends(g', x) {
      if x == a {
        assert Up(g', a, 1) == Up(g', SELF, 0) == SELF;
      } else {
        assert Ends(g, x);
        var k: nat :| Up(g, x, k) == SELF;
        UpGrown(g, a, x, k);
      }
    }
    forall p, i | p in acc' && 0 <= i < MAX_DEPTH
      ensures acc'[p].proxied[i] == Below(g', v[a := 0], p, i + 1)
    {
      BelowNew(g, v, a, p, i + 1);
      if p == a {
        NothingBelowStranger(g, v, a, i + 1);
      } else {
        assert acc[p].proxied[i] == Below(g, v, p, i + 1);
      }
    }
  }

  lemma NothingBelowStranger(g: Graph, v: Stakes, a: Name, k: nat)
    requires Closed(g) && a !in g && a != SELF
    ensures Below(g, v, a, k) == 0
  {
    forall x | x in g ensures StakeAt(g, v, a, k, x) == 0 { UpIn(g, x, k); }
    SumZero(g.Keys, x => StakeAt(g, v, a, k, x));
  }

  lemma VotesNonneg(acc: Accounts, votes: Ballots, w: Name)
    requires Forest(acc)
    ensures VotesFor(acc, votes, w) >= 0
  {
    forall x | x in acc ensures Backing(acc, votes, w, x) >= 0 {
      forall i | 0 <= i < MAX_DEPTH ensures acc[x].proxied[i] >= 0 {
        BelowNonneg(Proxies(acc), StakesOf(acc), x, i + 1);
      }
      TotalFour(acc[x].proxied);
    }
    SumMono(acc.Keys, x => 0, x => Backing(acc, votes, w, x));
    SumZero(acc.Keys, (x: Name) => 0);
  }

  lemma DepositNone(acc: Accounts, votes: Ballots, deposits: seq<(Name, nat)>)
    ensures Deposited(deposits[..0]) == 0 && Credited(StakesOf(acc), deposits[..0]) == StakesOf(acc)
    ensures forall w :: Inflow(acc, votes, deposits[..0], w) == 0
  {
  }

  lemma DepositStep(acc: Accounts, votes: Ballots, deposits: seq<(Name, nat)>, i: nat)
    requires i < |deposits| && forall k | 0 <= k < |deposits| :: deposits[k].0 in acc
    ensures Deposited(deposits[..i + 1]) == Deposited(deposits[..i]) + deposits[i].1
    ensures forall w :: Inflow(acc, votes, deposits[..i + 1], w)
              == Inflow(acc, votes, deposits[..i], w) + if (Reached(acc, deposits[i].0, 0).0,
                  w) in votes then deposits[i].1 else 0
    ensures var v := Credited(StakesOf(acc), deposits[..i]); var to := deposits[i].0;
            to in v && Credited(StakesOf(acc), deposits[..i + 1]) == v[to := v[to] + deposits[i].1]
  {
    assert deposits[..i + 1][..i] == deposits[..i];
    DomainOf(acc);
  }

  lemma {:induction false} InflowGrows(acc: Accounts, votes: Ballots, deposits: seq<(Name, nat)>, i: nat, w: Name)
    requires i <= |deposits|
    ensures Inflow(acc, votes, deposits[..i], w) <= Inflow(acc, votes, deposits, w)
    decreases |deposits|
  {
    if i == |deposits| {
      assert deposits[..i] == deposits;
    } else {
      var shorter := deposits[..|deposits| - 1];
      assert shorter[..i] == deposits[..i];
      InflowGrows(acc, votes, shorter, i, w);
    }
  }

  lemma {:induction false} CreditedGrows(v: Stakes, deposits: seq<(Name, nat)>, x: Name)
    requires forall i | 0 <= i < |deposits| :: deposits[i].0 in v
    requires x in v
    ensures Credited(v, deposits)[x] >= v[x]
    decreases |deposits|
  {
    if deposits != [] {
      CreditedGrows(v, deposits[..|deposits| - 1], x);
    }
  }
}
