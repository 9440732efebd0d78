/**
 What the voting counters mean.

 An account object carries MAX_DEPTH counters proxied[i]; a witness object carries one tally.
 `Inv` says that every counter equals a sum over the proxy forest that never mentions counters; the
 lemmas draw from it that all stake is counted once and that no tally exceeds the stake there is.
 How the adjustment recursions move the counters is in module VoteAdjust.
 */
module VoteTallies {
  import opened Sums
  import opened ProxyForest

  const MAX_DEPTH: nat := 4
  const MAX_BALLOTS: nat := 30

  datatype Account = Account(vests: int, proxy: Name, proxied: seq<int>, canVote: bool, votedFor: nat)

  type Accounts = map<Name, Account>
  type Tallies = map<Name, int>
  type Ballots = set<(Name, Name)>

  function Total(s: seq<int>): int {
    if s == [] then 0 else s[0] + Total(s[1..])
  }

  /** Sum of the first n entries. */
  function Prefix(s: seq<int>, n: nat): int
    requires n <= |s|
  {
    if n == 0 then 0 else Prefix(s, n - 1) + s[n - 1]
  }

  /** The vote weight of an account: its own stake and everything its counters say. */
  function Weight(a: Account): int {
    a.vests + Total(a.proxied)
  }

  ghost function Proxies(acc: Accounts): Graph {
    map x | x in acc :: acc[x].proxy
  }

  ghost function StakesOf(acc: Accounts): Stakes {
    map x | x in acc :: acc[x].vests
  }

  ghost function Rights(acc: Accounts): map<Name, bool> {
    map x | x in acc :: acc[x].canVote
  }

  lemma RightsSame(acc: Accounts, acc': Accounts)
    requires acc'.Keys == acc.Keys && forall x | x in acc :: acc'[x].canVote == acc[x].canVote
    ensures Rights(acc') == Rights(acc)
  {
  }

  lemma RightsChanged(acc: Accounts, acc': Accounts, a: Name, keep: bool)
    requires acc'.Keys == acc.Keys && a in acc && acc'[a].canVote == keep
    requires forall x | x in acc && x != a :: acc'[x].canVote == acc[x].canVote
    ensures Rights(acc') == Rights(acc)[a := keep]
  {
  }

  function BallotOf(votes: Ballots, x: Name): set<Name> {
    set b | b in votes && b.0 == x :: b.1
  }

  // ---- The invariant -------------------------------------------------------------------------

  ghost predicate Shape(acc: Accounts) {
    && Closed(Proxies(acc))
    && forall x | x in acc :: |acc[x].proxied| == MAX_DEPTH
  }

  /** Counter i of p is the stake of the accounts exactly i + 1 hops below p. */
  ghost predicate ProxiedExact(acc: Accounts)
    requires Shape(acc)
  {
    forall p, i | p in acc && 0 <= i < MAX_DEPTH ::
      acc[p].proxied[i] == Below(Proxies(acc), StakesOf(acc), p, i + 1)
  }

  ghost function Backing(acc: Accounts, votes: Ballots, w: Name, x: Name): int {
    if x in acc && (x, w) in votes then Weight(acc[x]) else 0
  }

  /** The weight of all accounts that vote for w. */
  ghost function VotesFor(acc: Accounts, votes: Ballots, w: Name): int {
    Sum(acc.Keys, x => Backing(acc, votes, w, x))
  }

  ghost predicate Voter(acc: Accounts, b: (Name, Name)) {
    b.0 in acc && acc[b.0].proxy == SELF
  }

  /** Only accounts that vote themselves have ballots. */
  ghost predicate VotersVote(acc: Accounts, votes: Ballots) {
    forall b {:trigger Voter(acc, b)} | b in votes :: Voter(acc, b)
  }

  /** ... and declining leaves an account with none. */
  ghost predicate BallotsFit(acc: Accounts, ws: Tallies, votes: Ballots) {
    && VotersVote(acc, votes)
    && (forall b | b in votes :: b.1 in ws)
    && (forall x | x in acc :: acc[x].votedFor == |BallotOf(votes, x)| <= MAX_BALLOTS)
    && (forall x | x in acc && !acc[x].canVote :: acc[x].proxy == SELF && BallotOf(votes, x) == {})
  }

  ghost function Vests(acc: Accounts): int {
    Sum(acc.Keys, x => if x in acc then acc[x].vests else 0)
  }

  ghost predicate Forest(acc: Accounts) {
    && Shape(acc)
    && Acyclic(Proxies(acc))
    && (forall x | x in acc :: acc[x].vests >= 0)
    && ProxiedExact(acc)
  }

  ghost predicate Inv(acc: Accounts, ws: Tallies, votes: Ballots, total: int) {
    && Forest(acc)
    && BallotsFit(acc, ws, votes)
    && (forall w | w in ws :: ws[w] == VotesFor(acc, votes, w))
    && total == Vests(acc)
  }

  // ---- Every share is counted once -----------------------------------------------------------

  /** What an account adds to the total that validate_invariants computes. */
  ghost function Counted(a: Account): int
    requires |a.proxied| == MAX_DEPTH
  {
    if a.proxy == SELF then Weight(a) else a.proxied[MAX_DEPTH - 1]
  }

  ghost function CountedAt(acc: Accounts, p: Name): int {
    if p in acc && |acc[p].proxied| == MAX_DEPTH then Counted(acc[p]) else 0
  }

  ghost function TotalVotes(acc: Accounts): int {
    Sum(acc.Keys, p => CountedAt(acc, p))
  }

  /** The part of x's stake that is counted at p. */
  ghost function Share(g: Graph, v: Stakes, p: Name, x: Name): int {
    if p in g && g[p] == SELF
    then StakeAt(g, v, p, 0, x) + StakeAt(g, v, p, 1, x) + StakeAt(g, v, p, 2, x)
         + StakeAt(g, v, p, 3, x) + StakeAt(g, v, p, 4, x)
    else StakeAt(g, v, p, 4, x)
  }

  lemma TotalFour(s: seq<int>)
    requires |s| == 4
    ensures Total(s) == s[0] + s[1] + s[2] + s[3]
  {
    assert s[1..][1..] == s[2..] && s[2..][1..] == s[3..] && s[3..][1..] == [];
    assert Total(s[3..]) == s[3];
    assert Total(s[2..]) == s[2] + s[3];
  }

  lemma CountedIsShares(acc: Accounts, p: Name)
    requires Forest(acc) && p in acc
    ensures var g, v := Proxies(acc), StakesOf(acc);
            Counted(acc[p]) == Sum(acc.Keys, x => Share(g, v, p, x))
  {
    hide Sum, Acyclic, StakeAt;
    var g, v := Proxies(acc), StakesOf(acc);
    assert g.Keys == acc.Keys;
    assert acc[p].proxied[3] == Below(g, v, p, 4);
    if acc[p].proxy == SELF {
      TotalFour(acc[p].proxied);
      BelowZeroHops(g, v, p);
      assert acc[p].proxied[0] == Below(g, v, p, 1);
      assert acc[p].proxied[1] == Below(g, v, p, 2);
      assert acc[p].proxied[2] == Below(g, v, p, 3);
      FiveBelow(g, v, p);
    } else {
      SumExt(g.Keys, x => StakeAt(g, v, p, 4, x), x => Share(g, v, p, x));
    }
  }

  lemma FiveBelow(g: Graph, v: Stakes, p: Name)
    requires p in g && g[p] == SELF
    ensures Sum(g.Keys, x => Share(g, v, p, x))
         == Below(g, v, p, 0) + Below(g, v, p, 1) + Below(g, v, p, 2) + Below(g, v, p, 3) + Below(g, v, p, 4)
  {
    hide Sum, StakeAt;
    var f0, f1 := x => StakeAt(g, v, p, 0, x), x => StakeAt(g, v, p, 1, x);
    var f2, f3 := x => StakeAt(g, v, p, 2, x), x => StakeAt(g, v, p, 3, x);
    var f4 := x => StakeAt(g, v, p, 4, x);
    var f01 := x => f0(x) + f1(x);
    var f012 := x => f01(x) + f2(x);
    var f0123 := x => f012(x) + f3(x);
    var share := x => Share(g, v, p, x);
    SumPlus(g.Keys, f0, f1, f01);
    SumPlus(g.Keys, f01, f2, f012);
    SumPlus(g.Keys, f012, f3, f0123);
    SumPlus(g.Keys, f0123, f4, share);
    SumExt(g.Keys, f0, x => StakeAt(g, v, p, 0, x));
    SumExt(g.Keys, f1, x => StakeAt(g, v, p, 1, x));
    SumExt(g.Keys, f2, x => StakeAt(g, v, p, 2, x));
    SumExt(g.Keys, f3, x => StakeAt(g, v, p, 3, x));
    SumExt(g.Keys, f4, x => StakeAt(g, v, p, 4, x));
    SumExt(g.Keys, share, x => Share(g, v, p, x));
  }

  /** Where x's stake is counted: at its root when that is near enough, else four hops up. */
  lemma {:induction false} HomeOf(g: Graph, x: Name, k: nat) returns (p: Name, d: nat)
    requires Closed(g) && x in g
    ensures d <= k && p == Up(g, x, d) && p in g
    ensures g[p] == SELF || d == k
    decreases k
  {
    if k == 0 || g[x] == SELF {
      p, d := x, 0;
    } else {
      p, d := HomeOf(g, g[x], k - 1);
      d := d + 1;
    }
  }

  lemma SharedOnce(g: Graph, v: Stakes, x: Name)
    requires Closed(g) && x in g && x in v
    ensures Sum(g.Keys, p => Share(g, v, p, x)) == v[x]
  {
    var h, d := HomeOf(g, x, 4);
    if g[h] == SELF {
      UpNext(g, x, d);
      forall k: nat | d < k ensures Up(g, x, k) == SELF { UpStays(g, x, d + 1, k); }
      forall k: nat | k < d ensures Up(g, x, k) != h {
        if Up(g, x, k) == h { UpNext(g, x, k); UpStays(g, x, k + 1, d); }
      }
    }
    forall p | p in g ensures Share(g, v, p, x) == if p == h then v[x] else 0 {
      if p != h && g[p] == SELF {
        forall k: nat | k <= 4 ensures Up(g, x, k) != p {
          if Up(g, x, k) == p {
            UpNext(g, x, k);
            if k < d { UpStays(g, x, k + 1, d); }
          }
        }
      } else if p == h && g[p] != SELF {
      }
    }
    SumSingle(g.Keys, p => Share(g, v, p, x), h);
  }

  /** The sum validate_invariants compares with the total vesting shares is that total. */
  lemma TotalVotesExact(acc: Accounts)
    requires Forest(acc)
    ensures TotalVotes(acc) == Vests(acc)
  {
    var g, v := Proxies(acc), StakesOf(acc);
    var byHome := p => x => Share(g, v, p, x);
    var byOwner := x => p => Share(g, v, p, x);
    var stake := x => if x in acc then acc[x].vests else 0;
    assert g.Keys == acc.Keys;
    forall p | p in acc ensures CountedAt(acc, p) == Sum(g.Keys, byHome(p)) {
      CountedIsShares(acc, p);
      SumExt(g.Keys, x => Share(g, v, p, x), byHome(p));
    }
    forall x | x in acc ensures stake(x) == Sum(g.Keys, byOwner(x)) {
      SharedOnce(g, v, x);
      SumExt(g.Keys, p => Share(g, v, p, x), byOwner(x));
    }
    SumSwap(g.Keys, g.Keys, byHome, byOwner, p => CountedAt(acc, p), stake);
  }

  /** No witness can have more votes than there are vesting shares. */
  lemma VotesBounded(acc: Accounts, votes: Ballots, w: Name)
    requires Forest(acc)
    requires VotersVote(acc, votes)
    ensures VotesFor(acc, votes, w) <= Vests(acc)
  {
    forall x | x in acc ensures Backing(acc, votes, w, x) <= CountedAt(acc, x) {
      forall i | 0 <= i < MAX_DEPTH ensures acc[x].proxied[i] >= 0 {
        BelowNonneg(Proxies(acc), StakesOf(acc), x, i + 1);
      }
      TotalFour(acc[x].proxied);
      if (x, w) in votes { assert Voter(acc, (x, w)); }
    }
    SumMono(acc.Keys, x => Backing(acc, votes, w, x), x => CountedAt(acc, x));
    TotalVotesExact(acc);
  }
}
