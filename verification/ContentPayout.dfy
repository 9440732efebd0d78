/**
 Votes on a piece of content and the split of its payout among curators, beneficiaries and author.

 What the voter's manabars hold at the moment of a vote and the reward computed for the content are
 parameters, and so is the curation curve, of which only monotonicity is used.
 */
module ContentPayout {
  import opened Sums
  import opened Prices

  type Name = string

  const MAX_VOTE_CHANGES: nat := 5
  const BENEFICIARY_LIMIT: nat := 128
  const DUST: nat := 50_000_000
  const LOCKOUT: nat := 43_200
  const VOTE_INTERVAL: nat := 3
  const DAY: nat := 86_400
  const REGENERATION: nat := 432_000

  datatype Vote = Vote(rshares: int, percent: int, weight: nat, changes: nat)
  datatype Beneficiary = Beneficiary(account: Name, weight: nat)

  /** A payment in tokens, part of it to be turned into dollars and the rest into vesting. */
  datatype Payment = Payment(dollars: nat, vesting: nat)

  datatype Receipt = Receipt(claims: map<Name, nat>, beneficiaries: seq<Payment>, author: Payment, claimed: nat)

  // ---- What a vote is worth ------------------------------------------------------------------

  /** What a voter's two manabars hold. */
  datatype Mana = Mana(voting: int, downvote: nat)

  /**
   A vote as it is cast, by a voter with or without voting rights: delta is the time left until the
   payout, age the age of the content, pause the time since the voter's last vote.
   */
  datatype Ballot = Ballot(voter: Name, percent: int, mana: Mana, delta: nat, age: nat, pause: nat, canVote: bool)

  /** How votes are rated: the downvote pool, and how many full votes per period the mana is for. */
  datatype Rating = Rating(downvotePool: nat, votesPerPeriod: nat)

  function FromPool(m: Mana, pool: nat): nat
    requires pool > 0
  {
    m.downvote * FULL / pool
  }

  /** The mana a vote takes a part of. */
  function Base(b: Ballot, rating: Rating): nat
    requires b.mana.voting >= 0
  {
    if rating.downvotePool > 0 && b.percent < 0 && FromPool(b.mana, rating.downvotePool) > b.mana.voting
    then FromPool(b.mana, rating.downvotePool) else b.mana.voting
  }

  /** The mana a vote takes, rounded up. */
  function Used(b: Ballot, rating: Rating): nat
    requires b.mana.voting >= 0 && rating.votesPerPeriod > 0
  {
    RoundedUp(Base(b, rating) * Abs(b.percent) * DAY / FULL, rating.votesPerPeriod * REGENERATION)
  }

  function RoundedUp(a: nat, b: nat): (r: nat)
    requires b > 0
    ensures r * b >= a > (r - 1) * b
  {
    DivBounds(a + b - 1, b);
    var r := (a + b - 1) / b;
    assert (r - 1) * b == r * b - b && (r + 1) * b == r * b + b;
    r
  }

  predicate Affordable(b: Ballot, rating: Rating)
    requires b.mana.voting >= 0 && rating.votesPerPeriod > 0
  {
    if rating.downvotePool > 0 && b.percent < 0 then b.mana.voting + b.mana.downvote > Used(b, rating)
    else b.mana.voting >= Used(b, rating)
  }

  /** The reward shares of a vote: dust does not count, and votes shortly before the payout count less. */
  function Shares(used: nat, delta: nat): (r: nat)
    ensures r <= used
    ensures r == 0 <==> used <= DUST || (delta < LOCKOUT && (used - DUST) * delta < LOCKOUT)
    ensures used > DUST && delta >= LOCKOUT ==> r == used - DUST
    ensures used > DUST && delta < LOCKOUT ==> r * LOCKOUT <= (used - DUST) * delta < (r + 1) * LOCKOUT
  {
    var some: nat := if used > DUST then used - DUST else 0;
    if delta < LOCKOUT then
      DivBounds(some * delta, LOCKOUT);
      MulMono(some, delta, LOCKOUT);
      DivAtMost(some * delta, LOCKOUT, some);
      some * delta / LOCKOUT
    else some
  }

  /** x is no more than what the voter has, in voting mana or, for a downvote, in the pool for those. */
  ghost predicate Has(b: Ballot, rating: Rating, x: nat) {
    || x <= b.mana.voting
    || (rating.downvotePool > 0 && b.percent < 0 && x * rating.downvotePool <= b.mana.downvote * FULL)
  }

  /** A vote takes no less than its part of all the voter has, in whichever manabar, but for rounding. */
  lemma UsedNoLess(b: Ballot, rating: Rating, x: nat)
    requires b.mana.voting >= 0 && rating.votesPerPeriod > 0 && Has(b, rating, x)
    ensures x * Abs(b.percent) * DAY < (Used(b, rating) * (rating.votesPerPeriod * REGENERATION) + 1) * FULL
  {
    var base := Base(b, rating);
    if x > b.mana.voting {
      DivBounds(b.mana.downvote * FULL, rating.downvotePool);
      MulCancelAbove(x, FromPool(b.mana, rating.downvotePool) + 1, rating.downvotePool);
    }
    MulMono(Abs(b.percent), x, base);
    MulMono(DAY, x * Abs(b.percent), base * Abs(b.percent));
    DivBounds(base * Abs(b.percent) * DAY, FULL);
  }

  /** Nor does it take more than its part of something the voter has, but for rounding. */
  lemma UsedNoMore(b: Ballot, rating: Rating) returns (x: nat)
    requires b.mana.voting >= 0 && rating.votesPerPeriod > 0 && Used(b, rating) > 0
    ensures Has(b, rating, x)
    ensures (Used(b, rating) - 1) * (rating.votesPerPeriod * REGENERATION) * FULL < x * Abs(b.percent) * DAY
  {
    x := Base(b, rating);
    if x > b.mana.voting {
      DivBounds(b.mana.downvote * FULL, rating.downvotePool);
    }
    DivBounds(x * Abs(b.percent) * DAY, FULL);
  }

  lemma MulCancelAbove(x: nat, y: nat, c: nat)
    requires x * c < y * c
    ensures x < y
  {
    if x >= y { MulMono(c, y, x); }
  }

  /** Whoever has mana can afford an upvote: it never takes more than there is. */
  lemma UpvoteAffordable(b: Ballot, rating: Rating)
    requires b.mana.voting >= 0 && 0 <= b.percent <= FULL && rating.votesPerPeriod > 0
    ensures Affordable(b, rating)
  {
    hide Used, FromPool;
    MulMono(b.mana.voting, DAY, rating.votesPerPeriod * REGENERATION);
    UsedUpTo(b, rating, b.mana.voting);
  }

  /**
   With something in both manabars a downvote can be afforded, if full downvotes for all of the regeneration
   time take no more than the whole pool; with nothing in either it cannot.
   */
  lemma DownvoteAffordable(b: Ballot, rating: Rating)
    requires b.mana.voting >= 0 && b.percent < 0 <= b.percent + FULL
    requires rating.votesPerPeriod > 0 && rating.downvotePool > 0
    ensures b.mana.voting > 0 && b.mana.downvote > 0
            && FULL * DAY <= rating.downvotePool * (rating.votesPerPeriod * REGENERATION) ==>
      Affordable(b, rating)
    ensures b.mana.voting == 0 && b.mana.downvote == 0 ==> !Affordable(b, rating)
  {
    hide Used, FromPool;
    var m, base, den := b.mana.voting, Base(b, rating), rating.votesPerPeriod * REGENERATION;
    var pool, dv := rating.downvotePool, b.mana.downvote;
    if m > 0 && dv > 0 && FULL * DAY <= pool * den {
      if base == m {
        MulMono(m, DAY, den);
        UsedUpTo(b, rating, m);
      } else {
        FromPoolIs(b.mana, pool);
        PoolSuffices(base, pool, dv, den);
        UsedUpTo(b, rating, dv);
      }
    } else if m == 0 && dv == 0 {
      FromPoolIs(b.mana, pool);
      UsedUpTo(b, rating, 0);
    }
  }

  lemma FromPoolIs(m: Mana, pool: nat)
    requires pool > 0
    ensures FromPool(m, pool) * pool <= m.downvote * FULL && (m.downvote == 0 ==> FromPool(m, pool) == 0)
  {
    DivBounds(m.downvote * FULL, pool);
    if FromPool(m, pool) > 0 { MulMono(pool, 1, FromPool(m, pool)); }
  }

  lemma UsedUpTo(b: Ballot, rating: Rating, m: nat)
    requires b.mana.voting >= 0 && rating.votesPerPeriod > 0 && Abs(b.percent) <= FULL
    requires Base(b, rating) * DAY <= m * (rating.votesPerPeriod * REGENERATION)
    ensures Used(b, rating) <= m
  {
    hide Base, RoundedUp;
    PartOfADay(Base(b, rating), Abs(b.percent));
    UpToMultiple(Base(b, rating) * Abs(b.percent) * DAY / FULL, rating.votesPerPeriod * REGENERATION, m);
  }

  lemma PoolSuffices(base: nat, pool: nat, dv: nat, den: nat)
    requires pool > 0 && base * pool <= dv * FULL && FULL * DAY <= pool * den
    ensures base * DAY <= dv * den
  {
    calc {
      pool * (base * DAY);
      DAY * (base * pool);
    <= { MulMono(DAY, base * pool, dv * FULL); }
      DAY * (dv * FULL);
      dv * (FULL * DAY);
    <= { MulMono(dv, FULL * DAY, pool * den); }
      dv * (pool * den);
      pool * (dv * den);
    }
    MulCancel(pool, base * DAY, dv * den);
  }

  lemma PartOfADay(m: nat, percent: nat)
    requires percent <= FULL
    ensures m * percent * DAY / FULL <= m * DAY
  {
    MulMono(m, percent, FULL);
    MulMono(DAY, m * percent, m * FULL);
    assert DAY * (m * FULL) == (m * DAY) * FULL;
    DivAtMost(m * percent * DAY, FULL, m * DAY);
  }

  lemma UpToMultiple(a: nat, d: nat, m: nat)
    requires d > 0 && a <= m * d
    ensures RoundedUp(a, d) <= m
  {
    if RoundedUp(a, d) > m { MulMono(d, m, RoundedUp(a, d) - 1); }
  }

  /** Who may vote at all, and whether the content may be voted for. */
  predicate Admitted(b: Ballot, allowVotes: bool) {
    Abs(b.percent) <= FULL && b.canVote && (b.percent > 0 ==> allowVotes)
  }

  /** A vote that may be cast on unpaid content: in time, not too soon after the last one, and affordable. */
  predicate Castable(b: Ballot, rating: Rating, allowVotes: bool)
    requires rating.votesPerPeriod > 0
  {
    && Admitted(b, allowVotes) && b.delta > 0 && b.pause >= VOTE_INTERVAL
    && b.mana.voting >= 0 && Affordable(b, rating)
  }

  /** The rule for votes on unpaid content, written out. */
  ghost predicate MayVote(b: Ballot, rating: Rating, allowVotes: bool)
    requires rating.votesPerPeriod > 0
  {
    && Abs(b.percent) <= FULL && b.canVote && (b.percent > 0 ==> allowVotes) && b.delta > 0
    && b.pause >= VOTE_INTERVAL && b.mana.voting >= 0
    && if rating.downvotePool > 0 && b.percent < 0 then b.mana.voting + b.mana.downvote > Used(b, rating)
       else b.mana.voting >= Used(b, rating)
  }

  function SharesOf(b: Ballot, rating: Rating): nat
    requires rating.votesPerPeriod > 0 && b.mana.voting >= 0
  {
    Shares(Used(b, rating), b.delta)
  }

  // ---- Whose first votes counted for nothing -------------------------------------------------

  /** Who has a vote after these ballots. */
  ghost function Voters(voters: set<Name>, ballots: seq<Ballot>, rating: Rating, allowVotes: bool): set<Name>
    requires rating.votesPerPeriod > 0
  {
    if ballots == [] then voters else
      var b, before := ballots[|ballots| - 1], Voters(voters, ballots[..|ballots| - 1], rating, allowVotes);
      if MayVote(b, rating, allowVotes) && b.percent != 0 then before + {b.voter} else before
  }

  /** How many of these ballots are first votes that leave no reward shares. */
  ghost function EmptyFirsts(voters: set<Name>, ballots: seq<Ballot>, rating: Rating, allowVotes: bool): nat
    requires rating.votesPerPeriod > 0
  {
    if ballots == [] then 0 else
      var b, front := ballots[|ballots| - 1], ballots[..|ballots| - 1];
      EmptyFirsts(voters, front, rating, allowVotes)
        + if MayVote(b, rating, allowVotes) && b.percent != 0 && b.voter !in Voters(voters, front, rating, allowVotes)
             && SharesOf(b, rating) == 0 then 1 else 0
  }

  // ---- Tallies -------------------------------------------------------------------------------

  ghost function WeightOf(): (Name, Vote) -> int {
    (_, v: Vote) => v.weight
  }

  ghost function RsharesOf(): (Name, Vote) -> int {
    (_, v: Vote) => v.rshares
  }

  function Sign(x: int): int {
    if x > 0 then 1 else if x < 0 then -1 else 0
  }

  ghost function SignOf(): (Name, Vote) -> int {
    (_, v: Vote) => Sign(v.rshares)
  }

  ghost predicate Monotone(f: nat -> nat) {
    forall x: nat, y: nat | x <= y :: f(x) <= f(y)
  }

  function Abs(x: int): nat {
    if x < 0 then -x else x
  }

  function Min(a: nat, b: nat): nat {
    if a < b then a else b
  }

  /** What a vote gets of a weight when it comes early in the reverse auction. */
  function Discounted(weight: nat, age: nat, auction: nat): (r: nat)
    requires auction > 0
    ensures r <= weight && r * auction <= weight * Min(age, auction) < (r + 1) * auction
  {
    var t := Min(age, auction);
    MulMono(weight, t, auction);
    DivAtMost(weight * t, auction, weight);
    DivBounds(weight * t, auction);
    weight * t / auction
  }

  lemma DivAtMost(a: nat, c: nat, b: nat)
    requires c > 0 && a <= b * c
    ensures a / c <= b
  {
    DivBounds(a, c);
    if a / c > b { MulMono(c, b + 1, a / c); }
  }

  // ---- Curators ------------------------------------------------------------------------------

  function Claim(rewards: nat, weight: nat, total: nat): (r: nat)
    requires total > 0
    ensures r * total <= rewards * weight < (r + 1) * total
  {
    DivBounds(rewards * weight, total);
    rewards * weight / total
  }

  ghost function ClaimOf(rewards: nat, total: nat): (Name, Vote) -> int
    requires total > 0
  {
    (_, v: Vote) => Claim(rewards, v.weight, total)
  }

  /** Curators together claim no more than there is, because the total weight covers their weights. */
  lemma ClaimsFit(votes: map<Name, Vote>, rewards: nat, total: nat)
    requires total > 0 && Total(votes, WeightOf()) <= total
    ensures Sum(votes.Keys, Entry(votes, ClaimOf(rewards, total))) <= rewards
  {
    hide Sum, Claim;
    var claim, weight := Entry(votes, ClaimOf(rewards, total)), Entry(votes, WeightOf());
    TotalIs(votes, WeightOf());
    SumScaled(votes.Keys, claim, weight, total, rewards);
    MulMono(rewards, Sum(votes.Keys, weight), total);
    MulCancel(total, Sum(votes.Keys, claim), rewards);
  }

  lemma ClaimsNonneg(votes: map<Name, Vote>, left: set<Name>, rewards: nat, total: nat)
    requires total > 0
    ensures Sum(left, Entry(votes, ClaimOf(rewards, total))) >= 0
  {
    hide Claim;
    SumZero(left, _ => 0);
    SumMono(left, _ => 0, Entry(votes, ClaimOf(rewards, total)));
  }

  ghost function Amount(): (Name, nat) -> int {
    (_, n: nat) => n
  }

  // ---- Beneficiaries and the author ----------------------------------------------------------

  function Weights(bs: seq<Beneficiary>): nat {
    if bs == [] then 0 else Weights(bs[..|bs| - 1]) + bs[|bs| - 1].weight
  }

  function Tokens(p: Payment): nat {
    p.dollars + p.vesting
  }

  function Paid(ps: seq<Payment>): nat {
    if ps == [] then 0 else Paid(ps[..|ps| - 1]) + Tokens(ps[|ps| - 1])
  }

  lemma WeightsUpTo(bs: seq<Beneficiary>, k: nat)
    requires k < |bs|
    ensures Weights(bs[..k + 1]) == Weights(bs[..k]) + bs[k].weight
  {
    assert bs[..k + 1][..k] == bs[..k];
  }

  lemma {:induction false} WeightsGrow(bs: seq<Beneficiary>, k: nat)
    requires k <= |bs|
    ensures Weights(bs[..k]) <= Weights(bs)
    decreases |bs|
  {
    if k < |bs| {
      WeightsGrow(bs[..|bs| - 1], k);
      assert bs[..|bs| - 1][..k] == bs[..k];
    } else {
      assert bs[..k] == bs;
    }
  }

  lemma NoWeights(bs: seq<Beneficiary>)
    ensures Weights(bs[..0]) == 0
  {
  }

  /** Splits tokens: at most half of them become dollars. */
  function Split(tokens: nat, percentDollars: nat): (p: Payment)
    requires percentDollars <= FULL
    ensures Tokens(p) == tokens && 2 * p.dollars <= tokens
    ensures p.dollars * (2 * FULL) <= tokens * percentDollars < (p.dollars + 1) * (2 * FULL)
  {
    var dollars := tokens * percentDollars / (2 * FULL);
    HalfAtMost(tokens, percentDollars);
    DivBounds(tokens * percentDollars, 2 * FULL);
    Payment(dollars, tokens - dollars)
  }

  /** A beneficiary's payment: the treasury is paid in dollars alone. */
  function PaymentTo(b: Beneficiary, author: nat, percentDollars: nat, treasury: Name): (p: Payment)
    requires percentDollars <= FULL
    ensures Tokens(p) == Part(author, b.weight)
    ensures b.account == treasury ==> p.vesting == 0
    ensures b.account != treasury ==>
      p.dollars * (2 * FULL) <= Tokens(p) * percentDollars < (p.dollars + 1) * (2 * FULL)
  {
    var tokens := Part(author, b.weight);
    if b.account == treasury then Payment(tokens, 0) else Split(tokens, percentDollars)
  }

  lemma HalfAtMost(tokens: nat, percent: nat)
    requires percent <= FULL
    ensures 0 <= tokens * percent / (2 * FULL) && 2 * (tokens * percent / (2 * FULL)) <= tokens
  {
    MulMono(tokens, percent, FULL);
    DivBounds(tokens * percent, 2 * FULL);
  }

  /** What every accepted list of beneficiaries satisfies. */
  ghost predicate WellFormed(bs: seq<Beneficiary>, less: (Name, Name) -> bool) {
    && 0 < |bs| < BENEFICIARY_LIMIT && Weights(bs) <= FULL
    && forall i | 0 < i < |bs| :: less(bs[i - 1].account, bs[i].account)
  }

  /** The check of a list of beneficiaries; the sum is compared after every addition. */
  method ValidateBeneficiaries(bs: seq<Beneficiary>, less: (Name, Name) -> bool) returns (ok: bool)
    ensures ok <==> WellFormed(bs, less)
  {
    if |bs| == 0 || |bs| >= BENEFICIARY_LIMIT {
      return false;
    }
    assert bs[..0] == [];
    WeightsUpTo(bs, 0);
    WeightsGrow(bs, 1);
    var sum := bs[0].weight;
    if bs[0].weight > FULL || sum > FULL {
      return false;
    }
    var i := 1;
    while i < |bs|
      invariant 1 <= i <= |bs| && sum == Weights(bs[..i]) <= FULL
      invariant forall k | 0 < k < i :: less(bs[k - 1].account, bs[k].account)
    {
      WeightsUpTo(bs, i);
      WeightsGrow(bs, i + 1);
      if bs[i].weight > FULL {
        return false;
      }
      sum := sum + bs[i].weight;
      if sum > FULL || !less(bs[i - 1].account, bs[i].account) {
        return false;
      }
      i := i + 1;
    }
    assert bs[..i] == bs;
    ok := true;
  }

  /**
   What of the curation part goes to nobody: all of it without curation, else what is neither claimed
   nor forwarded.
   */
  function Withheld(curation: nat, claimed: int, forward: bool, allowCuration: bool): int {
    if !allowCuration then curation else if forward then 0 else curation - claimed
  }

  // ---- Content -------------------------------------------------------------------------------

  /** On a monotone curve the weight given out and what changed votes gave up are what the curve gained. */
  ghost predicate OnCurve(curve: nat -> nat, total: nat, forfeited: nat, rshares: nat, curated: bool) {
    Monotone(curve) ==>
      && total <= curve(rshares)
      && (curated ==> total + forfeited == curve(rshares) - curve(0))
  }

  lemma CurveGains(curve: nat -> nat, total: nat, forfeited: nat, rshares: nat, more: nat, curated: bool, gain: nat)
    requires OnCurve(curve, total, forfeited, rshares, curated)
    requires gain ==
      if curated && curve(rshares + more) > curve(rshares) then curve(rshares + more) - curve(rshares) else 0
    ensures OnCurve(curve, total + gain, forfeited, rshares + more, curated)
  {
    assert Monotone(curve) ==> curve(rshares) <= curve(rshares + more);
  }

  lemma CurveGivenUp(curve: nat -> nat, total: nat, forfeited: nat, rshares: nat, curated: bool, weight: nat)
    requires OnCurve(curve, total, forfeited, rshares, curated) && weight <= total
    ensures OnCurve(curve, total - weight, forfeited + weight, rshares, curated)
  {
  }

  /** No vote was changed. */
  ghost predicate FirstVotes(votes: map<Name, Vote>) {
    forall v | v in votes :: votes[v].changes == 0
  }

  lemma FirstVotesPut(votes: map<Name, Vote>, voter: Name, v: Vote)
    ensures voter !in votes && FirstVotes(votes[voter := v]) ==> FirstVotes(votes)
    ensures v.changes != 0 ==> !FirstVotes(votes[voter := v])
  {
    var after := votes[voter := v];
    assert after[voter] == v;
    if voter !in votes && FirstVotes(after) {
      forall w | w in votes ensures votes[w].changes == 0 { assert after[w] == votes[w]; }
    }
  }

  /** What the counters of unpaid content say about its votes. */
  ghost predicate Tallied(votes: map<Name, Vote>, totalWeight: nat, netRshares: int) {
    Total(votes, WeightOf()) <= totalWeight && netRshares == Total(votes, RsharesOf())
  }

  /** The vote a voter had, or one of nothing. */
  function Was(votes: map<Name, Vote>, voter: Name): Vote {
    if voter in votes then votes[voter] else Vote(0, 0, 0, 0)
  }

  lemma WeightCovered(votes: map<Name, Vote>, totalWeight: nat, netRshares: int, voter: Name)
    requires Tallied(votes, totalWeight, netRshares)
    ensures Was(votes, voter).weight <= totalWeight
  {
    hide Total;
    if voter in votes {
      TotalAtLeast(votes, WeightOf(), voter);
    }
  }

  lemma TalliedPut(votes: map<Name, Vote>, totalWeight: nat, netRshares: int, voter: Name, v: Vote, weight: nat)
    requires Tallied(votes, totalWeight, netRshares) && weight >= totalWeight - Was(votes, voter).weight + v.weight
    ensures Tallied(votes[voter := v], weight, netRshares - Was(votes, voter).rshares + v.rshares)
    ensures Total(votes[voter := v], SignOf()) ==
      Total(votes, SignOf()) - Sign(Was(votes, voter).rshares) + Sign(v.rshares)
  {
    hide Total;
    TotalPut(votes, WeightOf(), voter, v);
    TotalPut(votes, RsharesOf(), voter, v);
    TotalPut(votes, SignOf(), voter, v);
  }

  lemma NothingTallied(votes: map<Name, Vote>)
    requires votes == map[]
    ensures Tallied(votes, 0, 0) && Total(votes, SignOf()) == 0
  {
    TotalNone(votes, WeightOf());
    TotalNone(votes, RsharesOf());
    TotalNone(votes, SignOf());
  }

  class Content {
    const curve: nat -> nat
    const curationPercent: nat
    const treasury: Name
    const rating: Rating
    const auction: nat
    const allowVotes: bool
    var votes: map<Name, Vote>
    var totalWeight: nat
    var voteRshares: nat
    var netRshares: int
    var absRshares: nat
    var netVotes: int
    var paidOut: bool
    var allowCuration: bool
    var percentDollars: nat
    var beneficiaries: seq<Beneficiary>
    /** The weight that changed votes gave up. */
    ghost var forfeited: nat

    ghost predicate Valid()
      reads this
    {
      && rating.votesPerPeriod > 0 && auction > 0
      && curationPercent <= FULL && percentDollars <= FULL && Weights(beneficiaries) <= FULL
      && (!paidOut ==> Tallied(votes, totalWeight, netRshares))
      && (!paidOut ==> OnCurve(curve, totalWeight, forfeited, voteRshares, allowCuration && curationPercent > 0))
      && (!paidOut && FirstVotes(votes) ==> forfeited == 0)
    }

    /** How far the count of votes has drifted from upvotes minus downvotes. */
    ghost function Drift(): int
      reads this
    {
      netVotes - Total(votes, SignOf())
    }

    /** The curation weight that a vote of these shares adds. */
    function Gain(rshares: int): nat
      reads this
    {
      if rshares > 0 && allowCuration && curationPercent > 0 && curve(voteRshares + rshares) > curve(voteRshares)
      then curve(voteRshares + rshares) - curve(voteRshares) else 0
    }

    /** What is asked of a vote on unpaid content. */
    ghost predicate VoteAllowed(b: Ballot)
      requires rating.votesPerPeriod > 0
      reads this
    {
      && MayVote(b, rating, allowVotes)
      && if b.voter !in votes then b.percent != 0
         else votes[b.voter].changes < MAX_VOTE_CHANGES && votes[b.voter].percent != b.percent
    }

    /** Content nobody has voted on. */
    constructor (curve: nat -> nat, curationPercent: nat, treasury: Name, rating: Rating, auction: nat,
        allowVotes: bool, allowCuration: bool, percentDollars: nat, beneficiaries: seq<Beneficiary>)
      requires curationPercent <= FULL && percentDollars <= FULL && Weights(beneficiaries) <= FULL
      requires rating.votesPerPeriod > 0 && auction > 0
      ensures Valid() && !paidOut && votes == map[] && Drift() == 0 && this.rating == rating
      ensures totalWeight == voteRshares == forfeited == 0
    {
      this.curve, this.curationPercent, this.treasury := curve, curationPercent, treasury;
      this.rating, this.auction, this.allowVotes := rating, auction, allowVotes;
      this.allowCuration, this.percentDollars, this.beneficiaries := allowCuration, percentDollars, beneficiaries;
      votes, totalWeight, voteRshares, netRshares, absRshares, netVotes, paidOut := map[], 0, 0, 0, 0, 0, false;
      forfeited := 0;
      new;
      NothingTallied(votes);
    }

    /** A first vote. */
    method NewVote(voter: Name, percent: int, rshares: int, age: nat)
      requires Valid() && !paidOut && voter !in votes
      modifies `votes, `totalWeight, `voteRshares, `netRshares, `absRshares, `netVotes
      ensures Valid()
      ensures totalWeight == old(totalWeight) + old(Gain(rshares))
      ensures voteRshares == old(voteRshares) + (if rshares > 0 then rshares else 0)
      ensures absRshares == old(absRshares) + Abs(rshares)
      ensures votes == old(votes)[voter := Vote(rshares, percent, Discounted(old(Gain(rshares)), age, auction), 0)]
      ensures Drift() == old(Drift()) - (if rshares == 0 then 1 else 0)
    {
      hide Total, Tallied, Discounted, Weights, FirstVotes, OnCurve;
      var gain := Gain(rshares);
      var v := Vote(rshares, percent, Discounted(gain, age, auction), 0);
      TalliedPut(votes, totalWeight, netRshares, voter, v, totalWeight + gain);
      FirstVotesPut(votes, voter, v);
      netRshares := netRshares + rshares;
      absRshares := absRshares + Abs(rshares);
      CurveGains(curve, totalWeight, forfeited, voteRshares, if rshares > 0 then rshares else 0,
                 allowCuration && curationPercent > 0, gain);
      if rshares > 0 {
        voteRshares := voteRshares + rshares;
      }
      netVotes := if rshares > 0 then netVotes + 1 else netVotes - 1;
      votes := votes[voter := v];
      totalWeight := totalWeight + gain;
    }

    /** A changed vote. */
    method ChangeVote(voter: Name, percent: int, rshares: int)
      requires Valid() && !paidOut && voter in votes
      modifies `votes, `totalWeight, `netRshares, `absRshares, `netVotes, `forfeited
      ensures Valid()
      ensures totalWeight == old(totalWeight) - old(votes)[voter].weight
      ensures forfeited == old(forfeited) + old(votes)[voter].weight
      ensures absRshares == old(absRshares) + Abs(rshares)
      ensures votes == old(votes)[voter := Vote(rshares, percent, 0, old(votes)[voter].changes + 1)]
      ensures Drift() == old(Drift())
    {
      hide Total, Tallied, Weights, FirstVotes, OnCurve;
      var was := votes[voter];
      var v := Vote(rshares, percent, 0, was.changes + 1);
      WeightCovered(votes, totalWeight, netRshares, voter);
      CurveGivenUp(curve, totalWeight, forfeited, voteRshares, allowCuration && curationPercent > 0, was.weight);
      TalliedPut(votes, totalWeight, netRshares, voter, v, totalWeight - was.weight);
      FirstVotesPut(votes, voter, v);
      netRshares := netRshares - was.rshares + rshares;
      absRshares := absRshares + Abs(rshares);
      if rshares > 0 && was.rshares < 0 {
        netVotes := netVotes + 2;
      } else if rshares > 0 && was.rshares == 0 {
        netVotes := netVotes + 1;
      } else if rshares == 0 && was.rshares < 0 {
        netVotes := netVotes + 1;
      } else if rshares == 0 && was.rshares > 0 {
        netVotes := netVotes - 1;
      } else if rshares < 0 && was.rshares == 0 {
        netVotes := netVotes - 1;
      } else if rshares < 0 && was.rshares > 0 {
        netVotes := netVotes - 2;
      }
      totalWeight := totalWeight - was.weight;
      forfeited := forfeited + was.weight;
      votes := votes[voter := v];
    }

    /**
     A vote, or a changed vote. The weight of a changed vote is gone for good; a first vote of so
     little mana that no shares are left counts as a downvote in `netVotes`. A vote on content that
     was paid out is recorded and counts for nothing.
     */
    method CastVote(b: Ballot) returns (ok: bool)
      requires Valid()
      modifies `votes, `totalWeight, `voteRshares, `netRshares, `absRshares, `netVotes, `forfeited
      ensures Valid()
      ensures paidOut ==> (ok <==> Abs(b.percent) <= FULL && b.canVote && (b.percent > 0 ==> allowVotes))
      ensures !paidOut ==> (ok <==> old(VoteAllowed(b)))
      ensures !ok || paidOut ==> totalWeight == old(totalWeight) && netRshares == old(netRshares)
      ensures !ok || paidOut ==> voteRshares == old(voteRshares) && netVotes == old(netVotes)
      ensures !ok ==> votes == old(votes)
      ensures ok ==> b.voter in votes && votes[b.voter].percent == b.percent
      ensures ok ==> votes - {b.voter} == old(votes) - {b.voter} && votes.Keys == old(votes.Keys) + {b.voter}
      ensures ok && paidOut ==> votes[b.voter] == Was(old(votes), b.voter).(percent := b.percent)
      ensures ok && !paidOut ==>
        votes[b.voter].rshares == if b.percent < 0 then 0 - SharesOf(b, rating) else SharesOf(b, rating)
      ensures ok && !paidOut ==>
        Drift() == old(Drift()) - if b.voter !in old(votes) && SharesOf(b, rating) == 0 then 1 else 0
    {
      hide Total, Tallied, Weights, Discounted, Used, Shares;
      if !Admitted(b, allowVotes) {
        return false;
      }
      if paidOut {
        votes := votes[b.voter := Was(votes, b.voter).(percent := b.percent)];
        return true;
      }
      if !Castable(b, rating, allowVotes) {
        return false;
      }
      var shares: int := SharesOf(b, rating);
      var rshares: int := if b.percent < 0 then 0 - shares else shares;
      if b.voter !in votes {
        if b.percent == 0 {
          return false;
        }
        NewVote(b.voter, b.percent, rshares, b.age);
      } else {
        if votes[b.voter].changes >= MAX_VOTE_CHANGES || votes[b.voter].percent == b.percent {
          return false;
        }
        ChangeVote(b.voter, b.percent, rshares);
      }
      ok := true;
    }

    /**
     Over every run of votes and changed votes the weights and shares stay tallied, and the count of
     votes falls behind upvotes minus downvotes by one for each first vote that left no shares. The
     weights of a run in which no vote was changed are together what the curve gained.
     */
    method Run(ballots: seq<Ballot>)
      requires Valid() && !paidOut
      modifies `votes, `totalWeight, `voteRshares, `netRshares, `absRshares, `netVotes, `forfeited
      ensures Valid()
      ensures Monotone(curve) && allowCuration && curationPercent > 0 && FirstVotes(votes) ==>
        totalWeight == curve(voteRshares) - curve(0)
      ensures votes.Keys == Voters(old(votes.Keys), ballots, rating, allowVotes)
      ensures Drift() == old(Drift()) - EmptyFirsts(old(votes.Keys), ballots, rating, allowVotes)
      ensures netRshares == Total(votes, RsharesOf())
    {
      hide Total, Weights, MayVote, SharesOf, Monotone;
      var i := 0;
      ghost var voters := votes.Keys;
      while i < |ballots|
        invariant 0 <= i <= |ballots| && Valid()
        invariant votes.Keys == Voters(voters, ballots[..i], rating, allowVotes)
        invariant Drift() == old(Drift()) - EmptyFirsts(voters, ballots[..i], rating, allowVotes)
      {
        assert ballots[..i + 1][..i] == ballots[..i];
        var _ := CastVote(ballots[i]);
        i := i + 1;
      }
      assert ballots[..i] == ballots;
    }

    /** Pays the curators; says what they got and what nobody claimed. */
    method PayCurators(rewards: nat) returns (claims: map<Name, nat>, paid: nat, unclaimed: nat)
      requires Valid() && !paidOut
      ensures paid == Total(claims, Amount())
      ensures if allowCuration then paid + unclaimed == rewards else paid == 0 == unclaimed
      ensures forall v | v in claims ::
                v in votes && totalWeight > 0 && claims[v] == Claim(rewards, votes[v].weight, totalWeight) > 0
      ensures allowCuration && totalWeight > 0 ==>
        forall v | v in votes && v !in claims :: Claim(rewards, votes[v].weight, totalWeight) == 0
    {
      hide Sum, Total, Claim, Weights, Monotone;
      claims, unclaimed := map[], rewards;
      TotalNone(claims, Amount());
      if !allowCuration {
        return claims, 0, 0;
      }
      if totalWeight > 0 {
        ClaimsFit(votes, rewards, totalWeight);
        ghost var claim := Entry(votes, ClaimOf(rewards, totalWeight));
        var left := votes.Keys;
        while left != {}
          invariant left <= votes.Keys && unclaimed == rewards - Sum(votes.Keys, claim) + Sum(left, claim)
          invariant Total(claims, Amount()) + unclaimed == rewards && claims.Keys !! left
          invariant forall v | v in claims ::
            v in votes && claims[v] == Claim(rewards, votes[v].weight, totalWeight) > 0
          invariant forall v | v in votes && v !in left && v !in claims ::
            Claim(rewards, votes[v].weight, totalWeight) == 0
          decreases left
        {
          var v :| v in left;
          SumRemove(left, claim, v);
          ClaimsNonneg(votes, left - {v}, rewards, totalWeight);
          var c := Claim(rewards, votes[v].weight, totalWeight);
          if c > 0 {
            TotalPut(claims, Amount(), v, c);
            unclaimed := unclaimed - c;
            claims := claims[v := c];
          }
          left := left - {v};
        }
      }
      TotalNonneg(claims, Amount());
      paid := rewards - unclaimed;
    }

    /** Pays the beneficiaries their parts of the author's tokens. */
    method PayBeneficiaries(author: nat) returns (payments: seq<Payment>, total: nat)
      requires Weights(beneficiaries) <= FULL && percentDollars <= FULL
      ensures total == Paid(payments) <= author && |payments| == |beneficiaries|
      ensures forall i | 0 <= i < |payments| :: Tokens(payments[i]) == Part(author, beneficiaries[i].weight)
      ensures forall i | 0 <= i < |payments| ::
        payments[i] == PaymentTo(beneficiaries[i], author, percentDollars, treasury)
    {
      hide Part, PaymentTo, Weights, Tokens;
      payments, total := [], 0;
      NoWeights(beneficiaries);
      var i := 0;
      while i < |beneficiaries|
        invariant 0 <= i <= |beneficiaries| == |beneficiaries| && |payments| == i && total == Paid(payments)
        invariant total * FULL <= author * Weights(beneficiaries[..i])
        invariant forall k | 0 <= k < i :: payments[k] == PaymentTo(beneficiaries[k], author, percentDollars, treasury)
      {
        var b := beneficiaries[i];
        var tokens := Part(author, b.weight);
        var p := PaymentTo(b, author, percentDollars, treasury);
        assert (payments + [p])[..|payments|] == payments;
        WeightsUpTo(beneficiaries, i);
        Distribute(author, Weights(beneficiaries[..i]), b.weight);
        payments := payments + [p];
        total := total + tokens;
        i := i + 1;
      }
      assert beneficiaries[..i] == beneficiaries;
      MulMono(author, Weights(beneficiaries), FULL);
    }

    /**
     What each side gets of a reward: curators in proportion to their weights, beneficiaries in
     proportion to theirs of the author's tokens, the author the rest. Together that is what is
     claimed: the reward less the part of it that nobody may have.
     */
    ghost predicate IsSplit(r: Receipt, reward: nat, forward: bool)
      reads this
    {
      var curation := Part(reward, curationPercent);
      var claimed := Total(r.claims, Amount());
      && percentDollars <= FULL
      && r.claimed == claimed + Paid(r.beneficiaries) + Tokens(r.author)
      && 0 <= claimed <= curation && claimed <= r.claimed == reward - Withheld(curation, claimed, forward,
          allowCuration) <= reward
      && (forall v | v in r.claims ::
           v in votes && totalWeight > 0 && r.claims[v] == Claim(curation, votes[v].weight, totalWeight))
      && |r.beneficiaries| == |beneficiaries|
      && (forall i | 0 <= i < |beneficiaries| ::
            r.beneficiaries[i] == PaymentTo(beneficiaries[i], r.claimed - claimed, percentDollars, treasury))
      && r.author == Split(Tokens(r.author), percentDollars)
    }

    method SplitReward(reward: nat, forward: bool) returns (r: Receipt)
      requires Valid() && !paidOut
      ensures IsSplit(r, reward, forward)
    {
      hide Total, Part, Weights, Claim, Monotone, Tallied, Paid;
      PartAtMost(reward, curationPercent);
      var curation := Part(reward, curationPercent);
      var author := reward - curation;
      var claims, paid, remainder := PayCurators(curation);
      if forward {
        author := author + remainder;
      }
      var claimed := author + paid;
      var payments, total := PayBeneficiaries(author);
      author := author - total;
      r := Receipt(claims, payments, Split(author, percentDollars), claimed);
    }

    /** Pays the content out, if more votes are for it than against it, and closes it. */
    method CashOut(reward: nat, forward: bool) returns (r: Receipt)
      requires Valid() && !paidOut
      modifies `totalWeight, `voteRshares, `netRshares, `absRshares, `paidOut
      ensures Valid() && paidOut && votes == old(votes)
      ensures if old(netRshares) > 0 then old(IsSplit(r, reward, forward))
              else r == Receipt(map[], [], Payment(0, 0), 0)
      ensures netRshares == if old(netRshares) > 0 then 0 else old(netRshares)
    {
      hide IsSplit, Tallied, Weights, Monotone;
      r := Receipt(map[], [], Payment(0, 0), 0);
      if netRshares > 0 {
        r := SplitReward(reward, forward);
        netRshares := 0;
      }
      totalWeight, voteRshares, absRshares, paidOut := 0, 0, 0, true;
    }
  }
}
