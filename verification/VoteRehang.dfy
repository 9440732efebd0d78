/**
 Cutting an account off from its proxy (or from its own ballots) and hanging it below a new proxy:
 the negative and the positive walk with the whole stake vector the account carries.
 */
module VoteRehang {
  import opened Sums
  import opened ProxyForest
  import opened VoteTallies
  import opened VoteAdjust

  /** delta lists the stake 0, 1, .. MAX_DEPTH hops below a. */
  ghost predicate Carries(g: Graph, v: Stakes, a: Name, delta: seq<int>) {
    |delta| == MAX_DEPTH + 1 && forall j: nat | j <= MAX_DEPTH :: delta[j] == Below(g, v, a, j)
  }

  lemma CarriedExact(acc: Accounts, a: Name)
    requires Forest(acc) && a in acc
    ensures Carries(Proxies(acc), StakesOf(acc), a, Carried(acc[a]))
  {
    var g, v := Proxies(acc), StakesOf(acc);
    BelowZeroHops(g, v, a);
    forall j: nat | 1 <= j <= MAX_DEPTH ensures Carried(acc[a])[j] == Below(g, v, a, j) {
      assert acc[a].proxied[j - 1] == Below(g, v, a, (j - 1) + 1);
    }
  }

  /** Below a itself the edge out of a makes no difference. */
  lemma BelowOwn(g: Graph, v: Stakes, a: Name, j: nat)
    requires Closed(g) && Acyclic(g) && a in g
    ensures Below(g[a := SELF], v, a, j) == Below(g, v, a, j)
  {
    if g[a] == SELF {
      assert g[a := SELF] == g;
    } else {
      Detached(g, a);
      BelowAttachedOff(g[a := SELF], v, a, g[a], a, j);
    }
  }

  /** Walking up from a with what it carries adds to each counter what the edge out of a contributes. */
  lemma EdgeGain(g: Graph, v: Stakes, a: Name, delta: seq<int>, p: Name, i: nat)
    requires Closed(g) && Acyclic(g) && a in g && g[a] != SELF && p in g && i < MAX_DEPTH
    requires Carries(g, v, a, delta)
    ensures Gain(g, a, delta, 0, p, i) == Below(g, v, p, i + 1) - Below(g[a := SELF], v, p, i + 1)
  {
    var g0, b := g[a := SELF], g[a];
    Detached(g, a);
    if e: nat :| e >= 1 && Up(g, a, e) == p {
      assert Up(g, a, e) == Up(g, b, e - 1) == Up(g0, b, e - 1);
      GainOn(g, a, delta, 0, p, i, e);
      if e - 1 < i + 1 {
        BelowAttachedOn(g0, v, a, b, p, e - 1, i + 1);
        BelowOwn(g, v, a, i - (e - 1));
      } else {
        forall d: nat | d < i + 1 ensures Up(g0, b, d) != p {
          if Up(g0, b, d) == p { UniqueDepth(g0, b, d, e - 1); }
        }
        BelowAttachedOff(g0, v, a, b, p, i + 1);
      }
    } else {
      GainOff(g, a, delta, 0, p, i);
      forall d: nat | d < i + 1 ensures Up(g0, b, d) != p {
        assert Up(g, a, d + 1) == Up(g, b, d);
      }
      BelowAttachedOff(g0, v, a, b, p, i + 1);
    }
  }

  lemma {:induction false} GainNegated(g: Graph, a: Name, delta: seq<int>, depth: nat, p: Name, s: nat)
    requires |delta| == MAX_DEPTH + 1 && s < MAX_DEPTH
    ensures Gain(g, a, Negated(delta), depth, p, s) == -Gain(g, a, delta, depth, p, s)
    decreases MAX_DEPTH - depth
  {
    if a in g && g[a] != SELF && depth < MAX_DEPTH {
      GainNegated(g, g[a], delta, depth + 1, p, s);
    }
  }

  // ---- Ballots of one account ----------------------------------------------------------------

  function OwnBallots(votes: Ballots, a: Name): Ballots {
    set b | b in votes && b.0 == a
  }

  lemma BallotsWithout(votes: Ballots, a: Name, x: Name)
    ensures BallotOf(votes - OwnBallots(votes, a), x) == if x == a then {} else BallotOf(votes, x)
  {
    var rest := votes - OwnBallots(votes, a);
    if x != a {
      forall w | w in BallotOf(votes, x) ensures w in BallotOf(rest, x) {
        assert (x, w) in rest;
      }
    }
  }

  lemma BallotMember(votes: Ballots, x: Name, w: Name)
    ensures w in BallotOf(votes, x) <==> (x, w) in votes
  {
    if (x, w) in votes { assert (x, w).1 in BallotOf(votes, x); }
  }

  // ---- Cutting off ---------------------------------------------------------------------------

  /** The accounts after a has been cut off; `keep` says whether it may still vote. */
  function CutOff(acc: Accounts, a: Name, keep: bool): Accounts
    requires a in acc && |acc[a].proxied| == MAX_DEPTH
  {
    var acc' := AdjustedAccounts(acc, a, Negated(Carried(acc[a])), 0);
    if a in acc' then acc'[a := acc'[a].(proxy := SELF, votedFor := 0, canVote := keep)] else acc'
  }

  /** What the walk adds to the tallies of the voter reached from a. */
  function CutWeight(acc: Accounts, a: Name): int
    requires a in acc && |acc[a].proxied| == MAX_DEPTH
  {
    Prefix(Negated(Carried(acc[a])), MAX_DEPTH + 1 - Reached(acc, a, 0).1)
  }

  lemma CutOffFrame(acc: Accounts, a: Name, keep: bool)
    requires Shape(acc) && Acyclic(Proxies(acc)) && a in acc
    ensures var acc' := CutOff(acc, a, keep);
            && acc'.Keys == acc.Keys && Shape(acc')
            && Proxies(acc') == Proxies(acc)[a := SELF]
            && StakesOf(acc') == StakesOf(acc)
            && acc'[a] == acc[a].(proxy := SELF, votedFor := 0, canVote := keep)
            && forall x | x in acc && x != a :: acc'[x] == acc[x].(proxied := acc'[x].proxied)
  {
    AdjustedFrame(acc, a, Negated(Carried(acc[a])), 0);
    AdjustedSelf(acc, a, Negated(Carried(acc[a])));
    CutOffShape(Proxies(acc), a);
    assert Proxies(CutOff(acc, a, keep)) == Proxies(acc)[a := SELF];
  }

  lemma CutOffCounter(acc: Accounts, a: Name, keep: bool, p: Name, i: nat)
    requires Forest(acc) && a in acc && p in acc && i < MAX_DEPTH
    ensures p in CutOff(acc, a, keep) && |CutOff(acc, a, keep)[p].proxied| == MAX_DEPTH
    ensures CutOff(acc, a, keep)[p].proxied[i] == Below(Proxies(acc)[a := SELF], StakesOf(acc), p, i + 1)
  {
    var g, v := Proxies(acc), StakesOf(acc);
    var delta := Carried(acc[a]);
    hide AdjustedAccounts, Gain, Below;
    AdjustedFrame(acc, a, Negated(delta), 0);
    AdjustedAt(acc, a, Negated(delta), 0, p);
    CarriedExact(acc, a);
    CutOffGain(g, v, a, delta, p, i);
    assert acc[p].proxied[i] == Below(g, v, p, i + 1);
  }

  lemma CutOffAccounts(acc: Accounts, a: Name, keep: bool)
    requires Forest(acc) && a in acc
    ensures var acc' := CutOff(acc, a, keep);
            && acc'.Keys == acc.Keys && Forest(acc')
            && StakesOf(acc') == StakesOf(acc)
            && acc'[a] == acc[a].(proxy := SELF, votedFor := 0, canVote := keep)
            && forall x | x in acc && x != a :: acc'[x] == acc[x].(proxied := acc'[x].proxied)
  {
    var acc' := CutOff(acc, a, keep);
    CutOffFrame(acc, a, keep);
    CutOffShape(Proxies(acc), a);
    forall p, i | p in acc' && 0 <= i < MAX_DEPTH
      ensures acc'[p].proxied[i] == Below(Proxies(acc'), StakesOf(acc'), p, i + 1)
    {
      CutOffCounter(acc, a, keep, p, i);
    }
  }

  lemma CutOffShape(g: Graph, a: Name)
    requires Closed(g) && Acyclic(g) && a in g
    ensures Closed(g[a := SELF]) && Acyclic(g[a := SELF])
  {
    if g[a] == SELF {
      assert g[a := SELF] == g;
    } else {
      Detached(g, a);
    }
  }

  lemma CutOffGain(g: Graph, v: Stakes, a: Name, delta: seq<int>, p: Name, i: nat)
    requires Closed(g) && Acyclic(g) && a in g && p in g && i < MAX_DEPTH
    requires Carries(g, v, a, delta)
    ensures Gain(g, a, Negated(delta), 0, p, i) == Below(g[a := SELF], v, p, i + 1) - Below(g, v, p, i + 1)
  {
    if g[a] == SELF {
      assert g[a := SELF] == g;
    } else {
      EdgeGain(g, v, a, delta, p, i);
      GainNegated(g, a, delta, 0, p, i);
    }
  }

  /** The tallies after the cut: the voter reached loses what a carried to it, a loses its ballots. */
  lemma CutOffTally(acc: Accounts, votes: Ballots, a: Name, keep: bool, w: Name)
    requires Forest(acc) && a in acc && VotersVote(acc, votes)
    ensures VotesFor(CutOff(acc, a, keep), votes - OwnBallots(votes, a), w)
         == VotesFor(acc, votes, w) + if (Reached(acc, a, 0).0, w) in votes then CutWeight(acc, a) else 0
  {
    hide ProxiedExact, Acyclic, CutOff, CutWeight, Backing, Reached;
    KeysOfCut(acc, a, keep);
    NobodyIsSelf(acc);
    var acc' := CutOff(acc, a, keep);
    var votes' := votes - OwnBallots(votes, a);
    var r := Reached(acc, a, 0);
    var f, f' := x => Backing(acc, votes, w, x), x => Backing(acc', votes', w, x);
    forall x | x in acc ensures f'(x) == f(x) + if x == r.0 && (x, w) in votes then CutWeight(acc, a) else 0 {
      CutOffBacking(acc, votes, a, keep, w, x);
    }
    if r.0 in acc {
      SumChangeOne(acc.Keys, f, f', r.0);
    } else {
      SumExt(acc.Keys, f, f');
    }
    assert (r.0, w) in votes ==> Voter(acc, (r.0, w));
  }

  lemma KeysOfCut(acc: Accounts, a: Name, keep: bool)
    requires Forest(acc) && a in acc
    ensures CutOff(acc, a, keep).Keys == acc.Keys
  {
    CutOffAccounts(acc, a, keep);
  }

  lemma NobodyIsSelf(acc: Accounts)
    requires Forest(acc)
    ensures SELF !in acc
  {
    assert SELF !in Proxies(acc);
  }

  lemma CutOffBacking(acc: Accounts, votes: Ballots, a: Name, keep: bool, w: Name, x: Name)
    requires Forest(acc) && a in acc && x in acc && VotersVote(acc, votes)
    ensures Backing(CutOff(acc, a, keep), votes - OwnBallots(votes, a), w, x)
         == Backing(acc, votes, w, x) + if x == Reached(acc, a, 0).0 && (x, w) in votes then CutWeight(acc, a) else 0
  {
    var r := Reached(acc, a, 0);
    CutOffAccounts(acc, a, keep);
    if (x, w) in votes {
      assert Voter(acc, (x, w));
      if x == a {
        TotalFour(acc[a].proxied);
        PrefixFive(Negated(Carried(acc[a])));
        assert (x, w) in OwnBallots(votes, a);
      } else {
        WeightsAdjusted(acc, a, Negated(Carried(acc[a])), x);
        assert (x, w) !in OwnBallots(votes, a);
      }
    }
  }

  lemma CutOffWitness(acc: Accounts, ws: Tallies, votes: Ballots, total: int, a: Name, keep: bool, w: Name)
    requires Inv(acc, ws, votes, total) && a in acc && w in ws
    ensures Tallied(ws, votes, Reached(acc, a, 0).0, CutWeight(acc, a))[w]
         == VotesFor(CutOff(acc, a, keep), votes - OwnBallots(votes, a), w) <= total
  {
    var acc', votes' := CutOff(acc, a, keep), votes - OwnBallots(votes, a);
    CutOffTally(acc, votes, a, keep, w);
    CutOffAccounts(acc, a, keep);
    VestsSame(acc, acc');
    CutOffBallots(acc, ws, votes, a, acc');
    VotesBounded(acc', votes', w);
  }

  lemma CutOffForest(acc: Accounts, a: Name, keep: bool)
    requires Forest(acc) && a in acc
    ensures Forest(CutOff(acc, a, keep)) && Vests(CutOff(acc, a, keep)) == Vests(acc)
  {
    CutOffAccounts(acc, a, keep);
    VestsSame(acc, CutOff(acc, a, keep));
  }

  lemma CutOffFits(acc: Accounts, ws: Tallies, ws': Tallies, votes: Ballots, a: Name, keep: bool)
    requires Forest(acc) && BallotsFit(acc, ws, votes) && a in acc && ws'.Keys == ws.Keys
    ensures BallotsFit(CutOff(acc, a, keep), ws', votes - OwnBallots(votes, a))
  {
    CutOffAccounts(acc, a, keep);
    CutOffBallots(acc, ws, votes, a, CutOff(acc, a, keep));
  }

  /** Cutting a off keeps the invariant and never pushes a tally over the total. */
  lemma CutOffInv(acc: Accounts, ws: Tallies, votes: Ballots, total: int, a: Name, keep: bool)
    requires Inv(acc, ws, votes, total) && a in acc
    ensures var r := Reached(acc, a, 0);
            && Inv(CutOff(acc, a, keep), Tallied(ws, votes, r.0, CutWeight(acc, a)), votes - OwnBallots(votes, a),
                total)
            && forall w | w in ws && (r.0, w) in votes :: ws[w] + CutWeight(acc, a) <= total
  {
    var ws' := Tallied(ws, votes, Reached(acc, a, 0).0, CutWeight(acc, a));
    forall w | w in ws
      ensures ws'[w] == VotesFor(CutOff(acc, a, keep), votes - OwnBallots(votes, a), w) <= total
    {
      CutOffWitness(acc, ws, votes, total, a, keep, w);
    }
    CutOffForest(acc, a, keep);
    CutOffFits(acc, ws, ws', votes, a, keep);
  }

  lemma CutOffBallots(acc: Accounts, ws: Tallies, votes: Ballots, a: Name, acc': Accounts)
    requires BallotsFit(acc, ws, votes) && a in acc && acc'.Keys == acc.Keys
    requires acc'[a].proxy == SELF && acc'[a].votedFor == 0
    requires forall x | x in acc && x != a :: acc'[x] == acc[x].(proxied := acc'[x].proxied)
    ensures BallotsFit(acc', ws, votes - OwnBallots(votes, a))
  {
    var votes' := votes - OwnBallots(votes, a);
    forall b | b in votes' ensures Voter(acc', b) && b.1 in ws {
      assert Voter(acc, b);
    }
    forall x | x in acc'
      ensures acc'[x].votedFor == |BallotOf(votes', x)| <= MAX_BALLOTS
      ensures !acc'[x].canVote ==> acc'[x].proxy == SELF && BallotOf(votes', x) == {}
    {
      BallotsWithout(votes, a, x);
    }
  }

  // ---- Hanging below a new proxy -------------------------------------------------------------

  /** The accounts after a root a with no ballots starts proxying to b. */
  function Hung(acc: Accounts, a: Name, b: Name): Accounts
    requires a in acc && |acc[a].proxied| == MAX_DEPTH
  {
    AdjustedAccounts(acc[a := acc[a].(proxy := b)], a, Carried(acc[a]), 0)
  }

  function HungReached(acc: Accounts, a: Name, b: Name): (Name, nat)
    requires a in acc
  {
    Reached(acc[a := acc[a].(proxy := b)], a, 0)
  }

  function HungWeight(acc: Accounts, a: Name, b: Name): int
    requires a in acc && |acc[a].proxied| == MAX_DEPTH
  {
    Prefix(Carried(acc[a]), MAX_DEPTH + 1 - HungReached(acc, a, b).1)
  }

  lemma HungFrame(acc: Accounts, a: Name, b: Name)
    requires Shape(acc) && a in acc && Attachable(Proxies(acc), a, b)
    ensures var acc' := Hung(acc, a, b);
            && acc'.Keys == acc.Keys && Shape(acc')
            && Proxies(acc') == Proxies(acc)[a := b]
            && StakesOf(acc') == StakesOf(acc)
            && forall x | x in acc ::
                 acc'[x] == acc[x].(proxied := acc'[x].proxied, proxy := if x == a then b else acc[x].proxy)
  {
    var acc1 := acc[a := acc[a].(proxy := b)];
    assert Proxies(acc1) == Proxies(acc)[a := b] && StakesOf(acc1) == StakesOf(acc);
    AdjustedFrame(acc1, a, Carried(acc[a]), 0);
  }

  lemma HungCounter(acc: Accounts, a: Name, b: Name, p: Name, i: nat)
    requires Forest(acc) && a in acc && Attachable(Proxies(acc), a, b) && p in acc && i < MAX_DEPTH
    ensures p in Hung(acc, a, b) && |Hung(acc, a, b)[p].proxied| == MAX_DEPTH
    ensures Hung(acc, a, b)[p].proxied[i] == Below(Proxies(acc)[a := b], StakesOf(acc), p, i + 1)
  {
    var g0, v := Proxies(acc), StakesOf(acc);
    var g := g0[a := b];
    var acc1 := acc[a := acc[a].(proxy := b)];
    var delta := Carried(acc[a]);
    AttachedAcyclic(g0, a, b);
    assert Proxies(acc1) == g;
    assert g[a := SELF] == g0;
    CarriedExact(acc, a);
    forall j: nat | j <= MAX_DEPTH ensures delta[j] == Below(g, v, a, j) { BelowOwn(g, v, a, j); }
    EdgeGain(g, v, a, delta, p, i);
    AdjustedAt(acc1, a, delta, 0, p);
    assert acc[p].proxied[i] == Below(g0, v, p, i + 1);
  }

  lemma HungAccounts(acc: Accounts, a: Name, b: Name)
    requires Forest(acc) && a in acc && Attachable(Proxies(acc), a, b)
    ensures var acc' := Hung(acc, a, b);
            && acc'.Keys == acc.Keys && Forest(acc')
            && StakesOf(acc') == StakesOf(acc)
            && forall x | x in acc ::
                 acc'[x] == acc[x].(proxied := acc'[x].proxied, proxy := if x == a then b else acc[x].proxy)
  {
    var acc' := Hung(acc, a, b);
    HungFrame(acc, a, b);
    AttachedAcyclic(Proxies(acc), a, b);
    forall p, i | p in acc' && 0 <= i < MAX_DEPTH
      ensures acc'[p].proxied[i] == Below(Proxies(acc'), StakesOf(acc'), p, i + 1)
    {
      HungCounter(acc, a, b, p, i);
    }
  }

  lemma HungTally(acc: Accounts, votes: Ballots, a: Name, b: Name, w: Name)
    requires Forest(acc) && a in acc && Attachable(Proxies(acc), a, b) && VotersVote(acc, votes)
    requires BallotOf(votes, a) == {}
    ensures VotesFor(Hung(acc, a, b), votes, w)
         == VotesFor(acc, votes, w) + if (HungReached(acc, a, b).0, w) in votes then HungWeight(acc, a, b) else 0
  {
    var acc' := Hung(acc, a, b);
    var r := HungReached(acc, a, b);
    HungAccounts(acc, a, b);
    forall x | x in acc && (x, w) in votes
      ensures Weight(acc'[x]) == Weight(acc[x]) + if x == r.0 then HungWeight(acc, a, b) else 0
    {
      assert Voter(acc, (x, w));
      BallotMember(votes, x, w);
      HungVoter(acc, a, b, x);
    }
    TalliesFollow(acc, acc', votes, r.0, HungWeight(acc, a, b), w);
    assert (r.0, w) in votes ==> Voter(acc, (r.0, w));
  }

  lemma HungVoter(acc: Accounts, a: Name, b: Name, x: Name)
    requires Forest(acc) && a in acc && Attachable(Proxies(acc), a, b)
    requires x in acc && x != a && acc[x].proxy == SELF
    ensures var r := HungReached(acc, a, b);
            && x in Hung(acc, a, b)
            && Weight(Hung(acc, a, b)[x]) == Weight(acc[x]) + if x == r.0 then HungWeight(acc, a, b) else 0
  {
    var acc1 := acc[a := acc[a].(proxy := b)];
    AttachedAcyclic(Proxies(acc), a, b);
    assert Proxies(acc1) == Proxies(acc)[a := b];
    WeightsAdjusted(acc1, a, Carried(acc[a]), x);
  }

  lemma HungForest(acc: Accounts, a: Name, b: Name)
    requires Forest(acc) && a in acc && Attachable(Proxies(acc), a, b)
    ensures Forest(Hung(acc, a, b)) && Vests(Hung(acc, a, b)) == Vests(acc)
  {
    HungAccounts(acc, a, b);
    VestsSame(acc, Hung(acc, a, b));
  }

  lemma HungFits(acc: Accounts, ws: Tallies, ws': Tallies, votes: Ballots, a: Name, b: Name)
    requires Forest(acc) && a in acc && Attachable(Proxies(acc), a, b)
    requires BallotsFit(acc, ws, votes) && ws'.Keys == ws.Keys && acc[a].canVote && BallotOf(votes, a) == {}
    ensures BallotsFit(Hung(acc, a, b), ws', votes)
  {
    hide ProxiedExact, Acyclic, Hung, Attachable;
    var acc' := Hung(acc, a, b);
    HungAccounts(acc, a, b);
    forall x | x in votes ensures Voter(acc', x) {
      assert Voter(acc, x);
      BallotMember(votes, x.0, x.1);
      assert (x.0, x.1) == x;
    }
  }

  lemma HungWitness(acc: Accounts, ws: Tallies, votes: Ballots, total: int, a: Name, b: Name, w: Name)
    requires Inv(acc, ws, votes, total) && a in acc && Attachable(Proxies(acc), a, b) && w in ws
    requires acc[a].canVote && BallotOf(votes, a) == {}
    ensures Tallied(ws, votes, HungReached(acc, a, b).0, HungWeight(acc, a, b))[w]
         == VotesFor(Hung(acc, a, b), votes, w) <= total
  {
    hide ProxiedExact, Acyclic, Hung, Attachable, VotesFor, Vests, HungReached, HungWeight;
    HungForest(acc, a, b);
    HungFits(acc, ws, ws, votes, a, b);
    HungTally(acc, votes, a, b, w);
    VotesBounded(Hung(acc, a, b), votes, w);
  }

  lemma HungInv(acc: Accounts, ws: Tallies, votes: Ballots, total: int, a: Name, b: Name)
    requires Inv(acc, ws, votes, total) && a in acc && Attachable(Proxies(acc), a, b)
    requires acc[a].canVote && BallotOf(votes, a) == {}
    ensures var r := HungReached(acc, a, b);
            && Inv(Hung(acc, a, b), Tallied(ws, votes, r.0, HungWeight(acc, a, b)), votes, total)
            && forall w | w in ws && (r.0, w) in votes :: ws[w] + HungWeight(acc, a, b) <= total
  {
    hide ProxiedExact, Acyclic, Hung, Attachable, VotesFor, Vests, HungReached, HungWeight, BallotsFit;
    var ws' := Tallied(ws, votes, HungReached(acc, a, b).0, HungWeight(acc, a, b));
    forall w | w in ws ensures ws'[w] == VotesFor(Hung(acc, a, b), votes, w) <= total {
      HungWitness(acc, ws, votes, total, a, b, w);
    }
    HungForest(acc, a, b);
    HungFits(acc, ws, ws', votes, a, b);
  }
}
