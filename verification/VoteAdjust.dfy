/**
 The effect of adjust_proxied_witness_votes on the account counters and witness tallies, and the
 proof that it restores the voting invariant after a stake moves, after an account is cut off
 from its proxy, and after an account is hung below a new one.
 */
module VoteAdjust {
  import opened Sums
  import opened ProxyForest
  import opened VoteTallies

  /** Counter s of a proxy `depth` hops into the walk receives delta[s - depth]. */
  function Bumped(p: seq<int>, delta: seq<int>, depth: nat): (r: seq<int>)
    requires |p| == MAX_DEPTH && |delta| == MAX_DEPTH + 1 && depth < MAX_DEPTH
    ensures |r| == MAX_DEPTH
  {
    seq(MAX_DEPTH, s requires 0 <= s < MAX_DEPTH => if s >= depth then p[s] + delta[s - depth] else p[s])
  }

  /** The accounts after the walk up from a. */
  function AdjustedAccounts(acc: Accounts, a: Name, delta: seq<int>, depth: nat): Accounts
    requires |delta| == MAX_DEPTH + 1
    decreases MAX_DEPTH - depth, |delta|
  {
    if a !in acc || acc[a].proxy == SELF || depth >= MAX_DEPTH then acc
    else
      var p := acc[a].proxy;
      if p !in acc || |acc[p].proxied| != MAX_DEPTH then acc
      else AdjustedAccounts(acc[p := acc[p].(proxied := Bumped(acc[p].proxied, delta, depth))], p, delta, depth + 1)
  }

  /** The account where the walk up from a ends at a voter, and how deep; SELF when it is cut short. */
  function Reached(acc: Accounts, a: Name, depth: nat): (r: (Name, nat))
    requires depth <= MAX_DEPTH
    ensures depth <= r.1 <= MAX_DEPTH
    decreases MAX_DEPTH - depth, |acc|
  {
    if a !in acc then (SELF, depth)
    else if acc[a].proxy == SELF then (a, depth)
    else if depth >= MAX_DEPTH then (SELF, depth)
    else Reached(acc, acc[a].proxy, depth + 1)
  }

  /** The witness tallies after adding d to everything x votes for. */
  function Tallied(ws: Tallies, votes: Ballots, x: Name, d: int): Tallies {
    map w | w in ws :: if (x, w) in votes then ws[w] + d else ws[w]
  }

  /** The stake vector an account hands up: its own stake, then its counters. */
  function Carried(a: Account): (r: seq<int>)
    ensures |r| == |a.proxied| + 1
  {
    [a.vests] + a.proxied
  }

  function Negated(s: seq<int>): (r: seq<int>)
    ensures |r| == |s|
  {
    seq(|s|, i requires 0 <= i < |s| => -s[i])
  }

  /** A change of own stake only. */
  function OwnStake(d: int): (r: seq<int>)
    ensures |r| == MAX_DEPTH + 1
  {
    [d, 0, 0, 0, 0]
  }

  // ---- What the walk adds to one counter -----------------------------------------------------

  ghost function Gain(g: Graph, a: Name, delta: seq<int>, depth: nat, p: Name, s: nat): int
    requires |delta| == MAX_DEPTH + 1 && s < MAX_DEPTH
    decreases MAX_DEPTH - depth, |delta|
  {
    if a !in g || g[a] == SELF || depth >= MAX_DEPTH then 0
    else (if g[a] == p && s >= depth then delta[s - depth] else 0) + Gain(g, g[a], delta, depth + 1, p, s)
  }

  lemma CountersFrame(acc: Accounts, p: Name, counters: seq<int>)
    requires Shape(acc) && p in acc && |counters| == MAX_DEPTH
    ensures var acc' := acc[p := acc[p].(proxied := counters)];
            acc'.Keys == acc.Keys && Shape(acc') && Proxies(acc') == Proxies(acc) && StakesOf(acc') == StakesOf(acc)
  {
    var acc' := acc[p := acc[p].(proxied := counters)];
    assert Proxies(acc') == Proxies(acc);
  }

  /** The walk changes nothing but counters. */
  lemma {:induction false} AdjustedFrame(acc: Accounts, a: Name, delta: seq<int>, depth: nat)
    requires Shape(acc) && a in acc && |delta| == MAX_DEPTH + 1
    ensures var acc' := AdjustedAccounts(acc, a, delta, depth);
            && acc'.Keys == acc.Keys && Shape(acc')
            && Proxies(acc') == Proxies(acc) && StakesOf(acc') == StakesOf(acc)
            && forall p | p in acc :: acc'[p] == acc[p].(proxied := acc'[p].proxied)
    decreases MAX_DEPTH - depth
  {
    if acc[a].proxy != SELF && depth < MAX_DEPTH {
      var p := acc[a].proxy;
      assert p == Proxies(acc)[a];
      var counters := Bumped(acc[p].proxied, delta, depth);
      CountersFrame(acc, p, counters);
      AdjustedFrame(acc[p := acc[p].(proxied := counters)], p, delta, depth + 1);
    }
  }

  /** Each counter of p changes by its gain. */
  lemma {:induction false} AdjustedAt(acc: Accounts, a: Name, delta: seq<int>, depth: nat, p: Name)
    requires Shape(acc) && a in acc && |delta| == MAX_DEPTH + 1 && p in acc
    ensures var acc' := AdjustedAccounts(acc, a, delta, depth);
            && p in acc' && |acc'[p].proxied| == MAX_DEPTH
            && forall s: nat | s < MAX_DEPTH ::
                 acc'[p].proxied[s] == acc[p].proxied[s] + Gain(Proxies(acc), a, delta, depth, p, s)
    decreases MAX_DEPTH - depth
  {
    var g := Proxies(acc);
    if acc[a].proxy != SELF && depth < MAX_DEPTH {
      var b := acc[a].proxy;
      assert b == g[a] && b in g;
      var acc1 := acc[b := acc[b].(proxied := Bumped(acc[b].proxied, delta, depth))];
      assert Proxies(acc1) == g;
      AdjustedAt(acc1, b, delta, depth + 1, p);
    }
  }

  /** The walk does not touch the account it starts from. */
  lemma AdjustedSelf(acc: Accounts, a: Name, delta: seq<int>)
    requires Shape(acc) && Acyclic(Proxies(acc)) && a in acc && |delta| == MAX_DEPTH + 1
    ensures a in AdjustedAccounts(acc, a, delta, 0) && AdjustedAccounts(acc, a, delta, 0)[a] == acc[a]
  {
    AdjustedFrame(acc, a, delta, 0);
    AdjustedAt(acc, a, delta, 0, a);
    forall s: nat | s < MAX_DEPTH ensures Gain(Proxies(acc), a, delta, 0, a, s) == 0 {
      GainSelf(Proxies(acc), a, delta, s);
    }
    assert AdjustedAccounts(acc, a, delta, 0)[a].proxied == acc[a].proxied;
  }

  /** p does not lie strictly above a. */
  ghost predicate NotAbove(g: Graph, a: Name, p: Name) {
    forall d: nat | d >= 1 :: Up(g, a, d) != p
  }

  /** Off the chain above a nothing is added. */
  lemma {:induction false} GainOff(g: Graph, a: Name, delta: seq<int>, depth: nat, p: Name, s: nat)
    requires |delta| == MAX_DEPTH + 1 && s < MAX_DEPTH
    requires NotAbove(g, a, p)
    ensures Gain(g, a, delta, depth, p, s) == 0
    decreases MAX_DEPTH - depth
  {
    if a in g && g[a] != SELF && depth < MAX_DEPTH {
      assert Up(g, a, 1) == Up(g, g[a], 0);
      forall d: nat | d >= 1 ensures Up(g, g[a], d) != p {
        assert Up(g, a, d + 1) == Up(g, g[a], d);
      }
      GainOff(g, g[a], delta, depth + 1, p, s);
    }
  }

  /** d hops above a, the walk adds the delta shifted by its depth there. */
  lemma {:induction false} GainOn(g: Graph, a: Name, delta: seq<int>, depth: nat, p: Name, s: nat, d: nat)
    requires Closed(g) && Acyclic(g) && a in g
    requires |delta| == MAX_DEPTH + 1 && s < MAX_DEPTH
    requires p != SELF && d >= 1 && Up(g, a, d) == p
    ensures Gain(g, a, delta, depth, p, s) == if s >= depth + d - 1 then delta[s - depth - d + 1] else 0
    decreases d
  {
    assert Up(g, a, d) == Up(g, g[a], d - 1);
    UpSelf(g, d - 1);
    if depth < MAX_DEPTH {
      if d == 1 {
        NotAboveItself(g, p);
        GainOff(g, p, delta, depth + 1, p, s);
      } else {
        if g[a] == p {
          NoLoop(g, p, d - 1);
        }
        GainOn(g, g[a], delta, depth + 1, p, s, d - 1);
      }
    }
  }

  lemma NotAboveItself(g: Graph, p: Name)
    requires SELF !in g && Acyclic(g) && p in g
    ensures NotAbove(g, p, p)
  {
    forall d: nat | d >= 1 ensures Up(g, p, d) != p { NoLoop(g, p, d); }
  }

  lemma GainSelf(g: Graph, a: Name, delta: seq<int>, s: nat)
    requires Closed(g) && Acyclic(g) && a in g
    requires |delta| == MAX_DEPTH + 1 && s < MAX_DEPTH
    ensures Gain(g, a, delta, 0, a, s) == 0
  {
    NotAboveItself(g, a);
    GainOff(g, a, delta, 0, a, s);
  }

  // ---- What the walk adds to the weight of a voter -------------------------------------------

  /** Reached, in terms of the forest. */
  lemma {:induction false} ReachedUp(acc: Accounts, a: Name, depth: nat)
    requires Shape(acc) && a in acc && depth <= MAX_DEPTH
    ensures var r := Reached(acc, a, depth); var g := Proxies(acc);
            if r.0 == SELF
            then forall k: nat | depth + k <= MAX_DEPTH :: Up(g, a, k) in g && g[Up(g, a, k)] != SELF
            else r.0 in g && g[r.0] == SELF && r.0 == Up(g, a, r.1 - depth)
    decreases MAX_DEPTH - depth
  {
    var g := Proxies(acc);
    if acc[a].proxy != SELF {
      var b := acc[a].proxy;
      assert b == g[a];
      if depth < MAX_DEPTH {
        ReachedUp(acc, b, depth + 1);
        var r := Reached(acc, a, depth);
        if r.0 == SELF {
          forall k: nat | depth + k <= MAX_DEPTH ensures Up(g, a, k) in g && g[Up(g, a, k)] != SELF {
            if k > 0 { assert Up(g, a, k) == Up(g, b, k - 1); }
          }
        } else {
          assert Up(g, a, r.1 - depth) == Up(g, b, r.1 - depth - 1);
        }
      }
    }
  }

  lemma PrefixFive(s: seq<int>)
    requires |s| == 5
    ensures Prefix(s, 1) == s[0]
    ensures Prefix(s, 2) == s[0] + s[1]
    ensures Prefix(s, 3) == s[0] + s[1] + s[2]
    ensures Prefix(s, 4) == s[0] + s[1] + s[2] + s[3]
    ensures Prefix(s, 5) == s[0] + s[1] + s[2] + s[3] + s[4]
  {
    assert Prefix(s, 1) == s[0];
    assert Prefix(s, 2) == s[0] + s[1];
    assert Prefix(s, 3) == s[0] + s[1] + s[2];
    assert Prefix(s, 4) == s[0] + s[1] + s[2] + s[3];
  }

  /** Among the accounts that vote themselves only the one reached gains weight, by the whole delta that fits. */
  lemma WeightsAdjusted(acc: Accounts, a: Name, delta: seq<int>, x: Name)
    requires Shape(acc) && Acyclic(Proxies(acc)) && a in acc && |delta| == MAX_DEPTH + 1
    requires x in acc && acc[x].proxy == SELF
    ensures var acc' := AdjustedAccounts(acc, a, delta, 0); var r := Reached(acc, a, 0);
            && x in acc'
            && Weight(acc'[x]) == Weight(acc[x])
               + if x == r.0 && r.1 > 0 then Prefix(delta, MAX_DEPTH + 1 - r.1) else 0
  {
    var g := Proxies(acc);
    var acc' := AdjustedAccounts(acc, a, delta, 0);
    var r := Reached(acc, a, 0);
    AdjustedFrame(acc, a, delta, 0);
    AdjustedAt(acc, a, delta, 0, x);
    ReachedUp(acc, a, 0);
    TotalFour(acc[x].proxied);
    TotalFour(acc'[x].proxied);
    PrefixFive(delta);
    if x == r.0 {
      if r.1 > 0 {
        forall s: nat | s < MAX_DEPTH
          ensures Gain(g, a, delta, 0, x, s) == if s >= r.1 - 1 then delta[s - (r.1 - 1)] else 0
        {
          GainOn(g, a, delta, 0, x, s, r.1);
        }
      } else {
        forall s: nat | s < MAX_DEPTH ensures Gain(g, a, delta, 0, x, s) == 0 { GainSelf(g, a, delta, s); }
      }
    } else {
      forall s: nat | s < MAX_DEPTH ensures Gain(g, a, delta, 0, x, s) == 0 {
        UnreachedGain(acc, a, delta, x, s);
      }
    }
  }

  /** A voter other than the one reached is off the chain, or too far up it. */
  lemma UnreachedGain(acc: Accounts, a: Name, delta: seq<int>, x: Name, s: nat)
    requires Shape(acc) && Acyclic(Proxies(acc)) && a in acc && |delta| == MAX_DEPTH + 1
    requires x in acc && acc[x].proxy == SELF && s < MAX_DEPTH && x != Reached(acc, a, 0).0
    ensures Gain(Proxies(acc), a, delta, 0, x, s) == 0
  {
    var g := Proxies(acc);
    var r := Reached(acc, a, 0);
    ReachedUp(acc, a, 0);
    if d: nat :| d >= 1 && Up(g, a, d) == x {
      GainOn(g, a, delta, 0, x, s, d);
      UpNext(g, a, d);
      if s >= d - 1 && r.0 != SELF {
        UpNext(g, a, r.1);
        if d < r.1 { UpStays(g, a, d + 1, r.1); }
        if r.1 < d { UpStays(g, a, r.1 + 1, d); }
      }
    } else {
      GainOff(g, a, delta, 0, x, s);
    }
  }

  // ---- Tallies -------------------------------------------------------------------------------

  /** If only r's weight changes, by d, then each tally changes by d where r votes. */
  lemma TalliesFollow(acc: Accounts, acc': Accounts, votes: Ballots, r: Name, d: int, w: Name)
    requires acc.Keys == acc'.Keys
    requires forall x | x in acc && (x, w) in votes :: Weight(acc'[x]) == Weight(acc[x]) + if x == r then d else 0
    ensures VotesFor(acc', votes, w) == VotesFor(acc, votes, w) + if r in acc && (r, w) in votes then d else 0
  {
    var f, f' := x => Backing(acc, votes, w, x), x => Backing(acc', votes, w, x);
    if r in acc {
      SumChangeOne(acc.Keys, f, f', r);
    } else {
      SumExt(acc.Keys, f, f');
    }
  }

  // ---- A stake moves -------------------------------------------------------------------------

  function WithStake(acc: Accounts, a: Name, d: int): Accounts
    requires a in acc
  {
    acc[a := acc[a].(vests := acc[a].vests + d)]
  }

  /** Changing a's stake and walking up with that change gives exact counters again. */
  lemma StakeMoved(acc: Accounts, a: Name, d: int)
    requires Forest(acc) && a in acc && acc[a].vests + d >= 0
    ensures var acc' := AdjustedAccounts(WithStake(acc, a, d), a, OwnStake(d), 0);
            && Forest(acc') && acc'.Keys == acc.Keys
            && Proxies(acc') == Proxies(acc)
            && StakesOf(acc') == StakesOf(acc)[a := acc[a].vests + d]
            && forall x | x in acc :: acc'[x] == acc[x].(vests := acc'[x].vests, proxied := acc'[x].proxied)
  {
    hide Below, AdjustedAccounts, Acyclic, Closed, Sum, Reached;
    var acc1 := WithStake(acc, a, d);
    var acc' := AdjustedAccounts(acc1, a, OwnStake(d), 0);
    assert Proxies(acc1) == Proxies(acc) && StakesOf(acc1) == StakesOf(acc)[a := acc[a].vests + d];
    AdjustedFrame(acc1, a, OwnStake(d), 0);
    forall p, i | p in acc' && 0 <= i < MAX_DEPTH
      ensures acc'[p].proxied[i] == Below(Proxies(acc'), StakesOf(acc'), p, i + 1)
    {
      StakeMovedCounter(acc, a, d, p, i);
    }
    forall x | x in acc' ensures acc'[x].vests >= 0 {
      assert acc'[x].vests == StakesOf(acc')[x];
    }
  }

  lemma StakeMovedCounter(acc: Accounts, a: Name, d: int, p: Name, i: nat)
    requires Forest(acc) && a in acc && p in acc && i < MAX_DEPTH
    ensures var acc' := AdjustedAccounts(WithStake(acc, a, d), a, OwnStake(d), 0);
            && p in acc' && |acc'[p].proxied| == MAX_DEPTH
            && acc'[p].proxied[i] == Below(Proxies(acc), StakesOf(acc)[a := acc[a].vests + d], p, i + 1)
  {
    hide AdjustedAccounts, Gain, Below;
    var acc1 := WithStake(acc, a, d);
    assert Proxies(acc1) == Proxies(acc);
    AdjustedAt(acc1, a, OwnStake(d), 0, p);
    StakeGain(Proxies(acc), StakesOf(acc), a, d, p, i);
    assert acc[p].proxied[i] == Below(Proxies(acc), StakesOf(acc), p, i + 1);
  }

  /** Counter i of p gains exactly what the stake i + 1 hops below p gains. */
  lemma StakeGain(g: Graph, v: Stakes, a: Name, d: int, p: Name, i: nat)
    requires Closed(g) && Acyclic(g) && a in g && a in v && p in g && i < MAX_DEPTH
    ensures Gain(g, a, OwnStake(d), 0, p, i)
         == Below(g, v[a := v[a] + d], p, i + 1) - Below(g, v, p, i + 1)
  {
    BelowStake(g, v, a, d, p, i + 1);
    if e: nat :| e >= 1 && Up(g, a, e) == p {
      GainOn(g, a, OwnStake(d), 0, p, i, e);
      if Up(g, a, i + 1) == p { UniqueDepth(g, a, e, i + 1); }
    } else {
      GainOff(g, a, OwnStake(d), 0, p, i);
    }
  }

  /** The voter reached from a is the only one whose weight moves. */
  lemma StakeMovedWeight(acc: Accounts, a: Name, d: int, x: Name)
    requires Shape(acc) && Acyclic(Proxies(acc)) && a in acc && x in acc && acc[x].proxy == SELF
    ensures var acc' := AdjustedAccounts(WithStake(acc, a, d), a, OwnStake(d), 0);
            && x in acc'
            && Weight(acc'[x]) == Weight(acc[x]) + if x == Reached(acc, a, 0).0 then d else 0
  {
    hide AdjustedAccounts, Acyclic;
    var acc1 := WithStake(acc, a, d);
    assert Proxies(acc1) == Proxies(acc);
    ReachedSame(acc, acc1, a, 0);
    ReachedUp(acc, a, 0);
    PrefixFive(OwnStake(d));
    WeightsAdjusted(acc1, a, OwnStake(d), x);
  }

  /** ... so the tallies move by d exactly where the account reached votes. */
  lemma StakeMovedTallies(acc: Accounts, votes: Ballots, a: Name, d: int, w: Name)
    requires Shape(acc) && Acyclic(Proxies(acc)) && a in acc
    requires VotersVote(acc, votes)
    ensures VotesFor(AdjustedAccounts(WithStake(acc, a, d), a, OwnStake(d), 0), votes, w)
         == VotesFor(acc, votes, w) + if (Reached(acc, a, 0).0, w) in votes then d else 0
  {
    var acc' := AdjustedAccounts(WithStake(acc, a, d), a, OwnStake(d), 0);
    StakeMovedFrame(acc, a, d);
    forall x | x in acc && (x, w) in votes
      ensures Weight(acc'[x]) == Weight(acc[x]) + if x == Reached(acc, a, 0).0 then d else 0
    {
      assert Voter(acc, (x, w));
      StakeMovedWeight(acc, a, d, x);
    }
    TalliesFollow(acc, acc', votes, Reached(acc, a, 0).0, d, w);
    assert (Reached(acc, a, 0).0, w) in votes ==> Voter(acc, (Reached(acc, a, 0).0, w));
  }

  lemma StakeMovedFrame(acc: Accounts, a: Name, d: int)
    requires Shape(acc) && a in acc
    ensures AdjustedAccounts(WithStake(acc, a, d), a, OwnStake(d), 0).Keys == acc.Keys
  {
    hide AdjustedAccounts;
    assert Proxies(WithStake(acc, a, d)) == Proxies(acc);
    AdjustedFrame(WithStake(acc, a, d), a, OwnStake(d), 0);
  }

  lemma {:induction false} ReachedSame(acc: Accounts, acc': Accounts, a: Name, depth: nat)
    requires Proxies(acc) == Proxies(acc') && depth <= MAX_DEPTH
    ensures Reached(acc, a, depth) == Reached(acc', a, depth)
    decreases MAX_DEPTH - depth
  {
    var g, g' := Proxies(acc), Proxies(acc');
    assert a in acc <==> a in g;
    assert a in acc' <==> a in g';
    if a in acc {
      assert acc[a].proxy == g[a] == g'[a] == acc'[a].proxy;
      if acc[a].proxy != SELF && depth < MAX_DEPTH {
        ReachedSame(acc, acc', acc[a].proxy, depth + 1);
      }
    }
  }

  lemma VestsMoved(acc: Accounts, acc': Accounts, a: Name, d: int)
    requires a in acc && acc'.Keys == acc.Keys
    requires StakesOf(acc') == StakesOf(acc)[a := acc[a].vests + d]
    ensures Vests(acc') == Vests(acc) + d
  {
    forall x | x in acc ensures acc'[x].vests == if x == a then acc[x].vests + d else acc[x].vests {
      assert acc'[x].vests == StakesOf(acc')[x];
    }
    SumChangeOne(acc.Keys, x => if x in acc then acc[x].vests else 0, x => if x in acc' then acc'[x].vests else 0, a);
  }

  lemma VestsSame(acc: Accounts, acc': Accounts)
    requires StakesOf(acc') == StakesOf(acc)
    ensures Vests(acc') == Vests(acc)
  {
    assert acc'.Keys == StakesOf(acc').Keys == StakesOf(acc).Keys == acc.Keys;
    forall x | x in acc ensures acc'[x].vests == acc[x].vests {
      assert acc'[x].vests == StakesOf(acc')[x];
    }
    SumExt(acc.Keys, x => if x in acc then acc[x].vests else 0, x => if x in acc' then acc'[x].vests else 0);
  }
}
