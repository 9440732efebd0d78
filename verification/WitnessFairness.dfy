/**
 Fairness of the virtual clock. A witness that is voted for is reached again after a bounded number
 of rounds, and after every restart of virtual time it is reached before the next one. A witness
 without a single vote may never be reached. Votes stay as they are along the runs looked at here.
 */
module WitnessFairness {
  import opened WitnessSchedule
  import Sums

  // ---- Nobody waits forever ------------------------------------------------------------------

  /** Votes small enough that a lap takes time. */
  ghost predicate LapsTakeTime(ws: Table) {
    forall w | w in ws :: ws[w].votes < LAP
  }

  /** How many more laps a witness can start no later than time s. */
  ghost function LapsUntil(v: Witness, s: int): nat {
    var lap := LapEnd(0, v.votes);
    if v.scheduled > s || lap <= 0 then 0 else DivNonneg(s - v.scheduled, lap); (s - v.scheduled) / lap + 1
  }

  ghost function LapsOf(s: int): (Name, Witness) -> int {
    (_, v: Witness) => LapsUntil(v, s)
  }

  /** How many laps all witnesses together can start before w, at most, is reached. */
  ghost function Waiting(ws: Table, w: Name): int
    requires w in ws
  {
    Sums.Total(ws, LapsOf(ws[w].scheduled))
  }

  lemma LapPositive(votes: nat)
    requires votes < LAP
    ensures LapEnd(0, votes) > 0
  {
    var q := LAP / (votes + 1);
    assert LAP == q * (votes + 1) + LAP % (votes + 1);
    if q <= 0 { AtLeastOnce(q, votes + 1); }
  }

  lemma DivLess(a: int, b: int, lap: int)
    requires 0 <= a <= b - lap && lap > 0
    ensures a / lap < b / lap
  {
    var p, q := a / lap, b / lap;
    assert a == p * lap + a % lap && b == q * lap + b % lap;
    assert p >= q ==> (p - q) * lap >= 0;
    assert p * lap - q * lap == (p - q) * lap;
  }

  /** Starting a new lap at time t uses one up. */
  lemma LapUsed(v: Witness, t: int, s: int)
    requires v.votes < LAP && v.scheduled <= t <= s
    ensures LapsUntil(Lapped(v, t), s) < LapsUntil(v, s)
  {
    LapPositive(v.votes);
    var lap := LapEnd(0, v.votes);
    assert Lapped(v, t).scheduled == t + lap && Lapped(v, t).votes == v.votes;
    if t + lap <= s {
      DivLess(s - t - lap, s - v.scheduled, lap);
    }
  }

  /**
   While no votes change and virtual time does not start over, every round that moves the clock
   shortens the wait of a witness it does not reach.
   */
  lemma WaitShrinks(ws: Table, c: Choice, queue: seq<Name>, maxVoted: nat, maxMiner: nat, now: int, w: Name)
    requires OnTime(ws, now) && IsRound(c, maxVoted, maxMiner, queue, ws, now) && LapsTakeTime(ws)
    requires w in ws && w !in c.passed && c.passed != [] && !Overflows(ws, Members(c.passed), c.time)
    ensures var next := NextTable(ws, c, queue);
      w in next && next[w].scheduled == ws[w].scheduled && Waiting(next, w) < Waiting(ws, w)
  {
    hide LapsUntil, NextTable, IsRound, Overflows, OnTime;
    var next, s := NextTable(ws, c, queue), ws[w].scheduled;
    var f, g := Sums.Entry(ws, LapsOf(s)), Sums.Entry(next, LapsOf(s));
    ClockBefore(ws, c, queue, maxVoted, maxMiner, now, w);
    NextKeys(ws, c, queue);
    NextOf(ws, c, queue, w);
    forall x | x in ws ensures g(x) <= f(x) && (x in c.passed ==> g(x) < f(x)) {
      LapsNext(ws, c, queue, x, s);
    }
    var y := c.passed[0];
    assert y in Members(c.passed);
    Sums.SumRemove(ws.Keys, f, y);
    Sums.SumRemove(ws.Keys, g, y);
    Sums.SumMono(ws.Keys - {y}, g, f);
  }

  lemma NextKeys(ws: Table, c: Choice, queue: seq<Name>)
    ensures NextTable(ws, c, queue).Keys == ws.Keys
  {
  }

  lemma LapsNext(ws: Table, c: Choice, queue: seq<Name>, x: Name, s: int)
    requires x in ws && LapsTakeTime(ws) && !Overflows(ws, Members(c.passed), c.time) && c.time <= s
    requires x in c.passed ==> ws[x].scheduled <= c.time
    ensures x in NextTable(ws, c, queue)
    ensures LapsUntil(NextTable(ws, c, queue)[x], s) <= LapsUntil(ws[x], s)
    ensures x in c.passed ==> LapsUntil(NextTable(ws, c, queue)[x], s) < LapsUntil(ws[x], s)
  {
    hide LapsUntil, NextTable, Overflows, Lapped;
    NextOf(ws, c, queue, x);
    if x in c.passed {
      LapUsed(ws[x], c.time, s);
    }
  }

  /** The clock does not get past a witness it does not pass. */
  lemma ClockBefore(ws: Table, c: Choice, queue: seq<Name>, maxVoted: nat, maxMiner: nat, now: int, w: Name)
    requires IsRound(c, maxVoted, maxMiner, queue, ws, now) && w in ws && w !in c.passed && c.passed != []
    ensures c.time <= ws[w].scheduled
    ensures forall x | x in c.passed :: x in ws && ws[x].scheduled <= c.time
  {
    assert c.passed[0] in Members(c.passed);
    var x :| x in Members(c.passed) && x in ws && ws[x].scheduled == c.time;
    forall y | y in c.passed ensures y in ws && ws[y].scheduled <= c.time {
      assert y in Members(c.passed);
    }
  }

  lemma NextOf(ws: Table, c: Choice, queue: seq<Name>, x: Name)
    requires x in ws && !Overflows(ws, Members(c.passed), c.time)
    ensures x in NextTable(ws, c, queue)
    ensures forall s ::
      LapsUntil(NextTable(ws, c, queue)[x], s) == LapsUntil(if x in c.passed then Lapped(ws[x], c.time) else ws[x], s)
    ensures x !in c.passed ==> NextTable(ws, c, queue)[x].scheduled == ws[x].scheduled
  {
  }

  /** A round with room for it passes somebody, so the clock of a waiting witness is always running. */
  lemma RoundMoves(c: Choice, maxVoted: nat, maxMiner: nat, queue: seq<Name>, ws: Table, now: int)
    requires IsRound(c, maxVoted, maxMiner, queue, ws, now) && maxVoted + maxMiner < MAX_WITNESSES
    requires |Keyed(ws)| >= MAX_WITNESSES
    ensures c.passed != []
  {
    RoundSize(c.round, c.elected + c.miners, Members(c.passed), ws);
    if c.passed == [] {
      assert Members(c.round) <= Members(c.elected + c.miners);
      DistinctSize(c.round);
      MembersAtMost(c.elected + c.miners);
      SubsetSize(Members(c.round), Members(c.elected + c.miners));
    }
  }

  lemma {:induction false} MembersAtMost(s: seq<Name>)
    ensures |Members(s)| <= |s|
    decreases |s|
  {
    if s != [] {
      var t := s[..|s| - 1];
      MembersAtMost(t);
      assert Members(s) == Members(t) + {s[|s| - 1]};
    }
  }

  // ---- Runs of rounds ------------------------------------------------------------------------

  /** One round of a run: the table and time it starts from, the mining queue, and what is chosen. */
  datatype Turn = Turn(ws: Table, now: int, queue: seq<Name>, c: Choice)

  /** A round that moves the clock and leaves w waiting. */
  ghost predicate LeavesWaiting(r: Turn, maxVoted: nat, maxMiner: nat, w: Name) {
    && OnTime(r.ws, r.now) && IsRound(r.c, maxVoted, maxMiner, r.queue, r.ws, r.now)
    && w in r.ws && w !in r.c.passed && r.c.passed != []
  }

  ghost predicate AllLeaveWaiting(run: seq<Turn>, maxVoted: nat, maxMiner: nat, w: Name) {
    forall i | 0 <= i < |run| :: LeavesWaiting(run[i], maxVoted, maxMiner, w)
  }

  /** Virtual time starts over at the end of this round. */
  ghost predicate Resets(r: Turn) {
    Overflows(r.ws, Members(r.c.passed), r.c.time)
  }

  ghost predicate NoResets(run: seq<Turn>) {
    forall i | 0 <= i < |run| :: !Resets(run[i])
  }

  /** Each round starts from where the one before it ended. */
  ghost predicate Consecutive(run: seq<Turn>) {
    forall i | 0 < i < |run| :: Follows(run[i - 1], run[i])
  }

  ghost predicate Follows(r: Turn, next: Turn) {
    next.ws == NextTable(r.ws, r.c, r.queue) && next.now == NextTime(r.ws, r.c)
  }

  lemma Rest(run: seq<Turn>, maxVoted: nat, maxMiner: nat, w: Name)
    requires |run| > 1 && Consecutive(run) && AllLeaveWaiting(run, maxVoted, maxMiner, w)
    ensures Consecutive(run[1..]) && AllLeaveWaiting(run[1..], maxVoted, maxMiner, w)
    ensures Follows(run[0], run[1..][0]) && run[1..][0] == run[1]
    ensures NoResets(run) ==> NoResets(run[1..])
    ensures NoResets(run[1..]) && !Resets(run[0]) ==> NoResets(run)
  {
    hide Follows, LeavesWaiting, Resets;
    var rest := run[1..];
    forall i | 0 < i < |rest| ensures Follows(rest[i - 1], rest[i]) {
      assert rest[i] == run[i + 1] && rest[i - 1] == run[i];
    }
    forall i | 0 <= i < |rest| ensures LeavesWaiting(rest[i], maxVoted, maxMiner, w) {
      assert rest[i] == run[i + 1];
    }
    if NoResets(rest) && !Resets(run[0]) {
      forall i | 0 <= i < |run| ensures !Resets(run[i]) {
        assert i > 0 ==> run[i] == rest[i - 1];
      }
    }
  }

  /** As long as virtual time does not start over, a witness waits no longer than its wait says. */
  lemma {:induction false} WaitIsBounded(run: seq<Turn>, maxVoted: nat, maxMiner: nat, w: Name)
    requires run != [] && Consecutive(run) && LapsTakeTime(run[0].ws) && w in run[0].ws
    requires AllLeaveWaiting(run, maxVoted, maxMiner, w) && NoResets(run)
    ensures |run| <= Waiting(run[0].ws, w)
    decreases |run|
  {
    hide IsRound, NextTable, OnTime, Waiting, Overflows, Consecutive;
    var r := run[0];
    assert LeavesWaiting(r, maxVoted, maxMiner, w) && !Resets(r);
    WaitShrinks(r.ws, r.c, r.queue, maxVoted, maxMiner, r.now, w);
    WaitNonneg(NextTable(r.ws, r.c, r.queue), w);
    if |run| > 1 {
      Rest(run, maxVoted, maxMiner, w);
      VotesStay(r.ws, r.c, r.queue);
      WaitIsBounded(run[1..], maxVoted, maxMiner, w);
    }
  }

  lemma WaitNonneg(ws: Table, w: Name)
    requires w in ws
    ensures Waiting(ws, w) >= 0
  {
    Sums.TotalNonneg(ws, LapsOf(ws[w].scheduled));
  }

  lemma VotesStay(ws: Table, c: Choice, queue: seq<Name>)
    requires LapsTakeTime(ws)
    ensures LapsTakeTime(NextTable(ws, c, queue))
  {
  }

  // ---- Across restarts -----------------------------------------------------------------------

  /** Nobody is due before a whole lap of its own. */
  ghost predicate Paced(ws: Table) {
    forall w | w in ws :: LapEnd(0, ws[w].votes) <= ws[w].scheduled
  }

  /** A table as a restart of virtual time leaves it. */
  ghost predicate JustRestarted(ws: Table) {
    forall w | w in ws :: ws[w].position == 0 && ws[w].lastUpdate == 0 && ws[w].scheduled == LapEnd(0, ws[w].votes)
  }

  lemma RestartedIsPaced(ws: Table)
    ensures JustRestarted(AllRestarted(ws))
  {
  }

  /** With a vote, a lap takes half of all time at most. */
  lemma HalfALap(votes: nat)
    requires votes >= 1
    ensures 2 * LapEnd(0, votes) <= LAP
  {
    var q := LAP / (votes + 1);
    DivNonneg(LAP, votes + 1);
    TwiceFits(q, votes + 1, LAP);
  }

  lemma TwiceFits(q: nat, n: nat, total: int)
    requires n >= 2 && q * n <= total
    ensures 2 * q <= total
  {
    assert q * n == 2 * q + q * (n - 2);
  }

  /** While somebody due in the first half of time waits, nobody's next lap reaches beyond its end. */
  lemma NoResetYet(r: Turn, maxVoted: nat, maxMiner: nat, w: Name)
    requires LeavesWaiting(r, maxVoted, maxMiner, w) && Paced(r.ws) && 2 * r.ws[w].scheduled <= LAP
    ensures !Resets(r)
    ensures var next := NextTable(r.ws, r.c, r.queue);
      Paced(next) && w in next && next[w].scheduled == r.ws[w].scheduled
  {
    hide IsRound, NextTable, LapEnd, Paced, LapsUntil;
    ClockBefore(r.ws, r.c, r.queue, maxVoted, maxMiner, r.now, w);
    forall x | x in Members(r.c.passed) && x in r.ws ensures LapEnd(r.c.time, r.ws[x].votes) < U128 {
      assert x in r.c.passed;
      LapAt(r.c.time, r.ws[x].votes);
      PacedAt(r.ws, x);
    }
    assert r.c.passed[0] in r.c.passed && r.ws[r.c.passed[0]].scheduled >= 0;
    NextKeys(r.ws, r.c, r.queue);
    StaysPaced(r.ws, r.c, r.queue);
    NextOf(r.ws, r.c, r.queue, w);
  }

  lemma LapAt(t: int, votes: nat)
    ensures LapEnd(t, votes) == t + LapEnd(0, votes)
  {
  }

  lemma PacedAt(ws: Table, x: Name)
    requires Paced(ws) && x in ws
    ensures LapEnd(0, ws[x].votes) <= ws[x].scheduled
  {
  }

  lemma StaysPaced(ws: Table, c: Choice, queue: seq<Name>)
    requires Paced(ws) && c.time >= 0 && !Overflows(ws, Members(c.passed), c.time)
    ensures Paced(NextTable(ws, c, queue))
  {
    hide LapEnd, Overflows;
    var next := NextTable(ws, c, queue);
    forall x | x in next ensures LapEnd(0, next[x].votes) <= next[x].scheduled {
      LapAt(c.time, ws[x].votes);
    }
  }

  /** Until somebody due in the first half of time is reached, virtual time does not start over. */
  lemma {:induction false} PacedRun(run: seq<Turn>, maxVoted: nat, maxMiner: nat, w: Name)
    requires run != [] && Consecutive(run) && w in run[0].ws && AllLeaveWaiting(run, maxVoted, maxMiner, w)
    requires Paced(run[0].ws) && 2 * run[0].ws[w].scheduled <= LAP
    ensures NoResets(run)
    decreases |run|
  {
    hide LeavesWaiting, NextTable, Paced, Consecutive, Resets;
    assert LeavesWaiting(run[0], maxVoted, maxMiner, w);
    NoResetYet(run[0], maxVoted, maxMiner, w);
    if |run| > 1 {
      Rest(run, maxVoted, maxMiner, w);
      PacedRun(run[1..], maxVoted, maxMiner, w);
    }
  }

  /**
   From a restart of virtual time on, whoever has a vote is reached before the next restart, and
   within a number of rounds that the votes alone determine.
   */
  lemma ReachedBeforeReset(run: seq<Turn>, maxVoted: nat, maxMiner: nat, w: Name)
    requires run != [] && Consecutive(run) && JustRestarted(run[0].ws) && LapsTakeTime(run[0].ws)
    requires w in run[0].ws && run[0].ws[w].votes >= 1 && AllLeaveWaiting(run, maxVoted, maxMiner, w)
    ensures NoResets(run) && |run| <= Waiting(run[0].ws, w)
  {
    hide LeavesWaiting, Consecutive, Waiting, Resets;
    HalfALap(run[0].ws[w].votes);
    PacedRun(run, maxVoted, maxMiner, w);
    WaitIsBounded(run, maxVoted, maxMiner, w);
  }

  lemma RestartWaits(a: Table, b: Table, w: Name)
    requires a.Keys == b.Keys && w in a && forall x | x in a :: a[x].votes == b[x].votes
    ensures Waiting(AllRestarted(a), w) == Waiting(AllRestarted(b), w)
  {
    hide Sums.Sum, LapsUntil, Restarted, LapEnd;
    var ra, rb := AllRestarted(a), AllRestarted(b);
    var f, g := Sums.Entry(ra, LapsOf(ra[w].scheduled)), Sums.Entry(rb, LapsOf(rb[w].scheduled));
    assert ra.Keys == a.Keys == rb.Keys;
    SameRestart(a[w], b[w]);
    forall x | x in a ensures f(x) == g(x) {
      SameRestart(a[x], b[x]);
      SameLaps(ra[x], rb[x], ra[w].scheduled);
    }
    Sums.SumMono(a.Keys, f, g);
    Sums.SumMono(a.Keys, g, f);
  }

  lemma SameRestart(v: Witness, u: Witness)
    requires v.votes == u.votes
    ensures Restarted(v).scheduled == Restarted(u).scheduled
    ensures Restarted(v).votes == Restarted(u).votes
  {
  }

  lemma SameLaps(v: Witness, u: Witness, s: int)
    requires v.votes == u.votes && v.scheduled == u.scheduled
    ensures LapsUntil(v, s) == LapsUntil(u, s)
  {
  }

  lemma NextVotes(ws: Table, c: Choice, queue: seq<Name>)
    ensures NextTable(ws, c, queue).Keys == ws.Keys
    ensures forall x | x in ws :: NextTable(ws, c, queue)[x].votes == ws[x].votes
  {
  }

  lemma AfterReset(r: Turn, w: Name)
    requires Resets(r) && w in r.ws && LapsTakeTime(r.ws)
    ensures var next := NextTable(r.ws, r.c, r.queue);
      && JustRestarted(next) && LapsTakeTime(next) && w in next && next[w].votes == r.ws[w].votes
      && Waiting(next, w) == Waiting(AllRestarted(r.ws), w)
  {
    hide Waiting;
    var marked := Marked(r.ws, r.c, r.queue);
    RestartedIsPaced(marked);
    RestartWaits(r.ws, marked, w);
  }

  /**
   Nobody with a vote starves: no run of consecutive rounds, restarts of virtual time included,
   leaves such a witness waiting for longer than its wait now and its wait after a restart together.
   */
  lemma {:induction false} NoStarvation(run: seq<Turn>, maxVoted: nat, maxMiner: nat, w: Name)
    requires run != [] && Consecutive(run) && LapsTakeTime(run[0].ws) && w in run[0].ws && run[0].ws[w].votes >= 1
    requires AllLeaveWaiting(run, maxVoted, maxMiner, w)
    ensures |run| <= Waiting(run[0].ws, w) + 1 + Waiting(AllRestarted(run[0].ws), w)
    decreases |run|
  {
    hide IsRound, NextTable, OnTime, Waiting, Overflows, Consecutive, JustRestarted;
    var r := run[0];
    var next := NextTable(r.ws, r.c, r.queue);
    WaitNonneg(r.ws, w);
    WaitNonneg(AllRestarted(r.ws), w);
    assert LeavesWaiting(r, maxVoted, maxMiner, w);
    if |run| > 1 {
      Rest(run, maxVoted, maxMiner, w);
      if Resets(r) {
        AfterReset(r, w);
        ReachedBeforeReset(run[1..], maxVoted, maxMiner, w);
      } else {
        WaitShrinks(r.ws, r.c, r.queue, maxVoted, maxMiner, r.now, w);
        VotesStay(r.ws, r.c, r.queue);
        NextVotes(r.ws, r.c, r.queue);
        RestartWaits(r.ws, next, w);
        NoStarvation(run[1..], maxVoted, maxMiner, w);
      }
    }
  }

  // ---- A witness that starves ----------------------------------------------------------------

  /** Twenty witnesses with nine votes each, told apart by the lengths of their names. */
  function Leaders(): (r: seq<Name>)
    ensures |r| == 20
  {
    seq(20, i requires 0 <= i < 20 => Leader(i))
  }

  function Leader(i: nat): (r: Name)
    ensures |r| == i + 2 && r[0] == 'w'
  {
    seq(i + 2, _ => 'w')
  }

  /** A lap with one vote, and a lap with nine. */
  const HALF: int := 0x7FFF_FFFF_FFFF_FFFF_FFFF_FFFF_FFFF_FFFF
  const TENTH: int := 0x1999_9999_9999_9999_9999_9999_9999_9999

  lemma Laps(t: int)
    ensures LapEnd(t, 0) == t + LAP && LapEnd(t, 1) == t + HALF && LapEnd(t, 9) == t + TENTH
  {
  }

  /** One witness with a vote and one without; virtual time stands at the start or half way. */
  function Cast(x: Name, t: int): Witness {
    if x == "b" then Witness(0, 0, 0, LAP, true, 0, Idle)
    else if x == "a" then Witness(1, 0, t, t + HALF, true, 0, Timeshare)
    else Witness(9, 0, t, t + TENTH, true, 0, Elected)
  }

  ghost function Stage(halfWay: bool): Table {
    map x | x in Members(Leaders() + ["a", "b"]) :: Cast(x, if halfWay then HALF else 0)
  }

  ghost function StageTurn(halfWay: bool): Turn {
    var t := if halfWay then HALF else 0;
    Turn(Stage(halfWay), t, [], Choice(Leaders(), [], 0, Leaders() + ["a"], Leaders() + ["a"], t + HALF))
  }

  ghost function StarvingRun(n: nat): seq<Turn> {
    seq(n, i requires 0 <= i < n => StageTurn(i % 2 == 1))
  }

  lemma LeadersDistinct()
    ensures Distinct(Leaders() + ["a"]) && "b" !in Leaders() + ["a"]
    ensures Distinct(Leaders()) && "a" !in Leaders()
  {
    var runners := Leaders() + ["a"];
    forall i, j | 0 <= i < j < |runners| ensures runners[i] != runners[j] {
      assert |runners[i]| == i + 2;
      assert |runners[j]| == if j < 20 then j + 2 else 1;
    }
    forall x | x in Leaders() ensures |x| >= 2 {
      var i :| 0 <= i < 20 && Leaders()[i] == x;
      assert x == Leader(i);
    }
  }

  lemma StageHas(halfWay: bool)
    ensures var ws := Stage(halfWay);
      ws.Keys == Members(Leaders()) + {"a", "b"} && Keyed(ws) == ws.Keys && Queued(ws) == {}
    ensures forall x | x in Stage(halfWay) :: Stage(halfWay)[x] == Cast(x, if halfWay then HALF else 0)
    ensures Members(Leaders() + ["a"]) == Members(Leaders()) + {"a"}
    ensures Leaders() + [] == Leaders()
  {
    hide Leaders;
    var all := Leaders() + ["a", "b"];
    assert all[20] == "a" && all[21] == "b";
    forall x ensures x in all <==> x in Leaders() || x in {"a", "b"} {
    }
    var ws := Stage(halfWay);
    forall x | x in ws ensures ws[x].hasKey && ws[x].pow == 0 {
    }
    var some := Leaders() + ["a"];
    assert some[20] == "a";
  }

  /** Both stages are rounds of 20 elected witnesses and one from the virtual clock, and b waits. */
  lemma StageIsRound(halfWay: bool)
    ensures LeavesWaiting(StageTurn(halfWay), 20, 0, "b")
    ensures "b" in Keyed(Stage(halfWay)) && "b" !in StageTurn(halfWay).c.round
  {
    hide Stage, Leaders, Keyed, Members, Distinct;
    LeadersDistinct();
    StageHas(halfWay);
    var r := StageTurn(halfWay);
    assert OnTime(r.ws, r.now);
    assert TopVoted(r.c.elected, 20, r.ws) by { hide Leaders; StageElected(halfWay); }
    assert FirstMiners([], 0, [], 0, r.c.elected, r.ws) by { StageMiners(halfWay); }
    StageNext(halfWay);
  }

  lemma StageElected(halfWay: bool)
    ensures TopVoted(Leaders(), 20, Stage(halfWay))
  {
    hide Stage, Leaders;
    LeadersDistinct();
    StageHas(halfWay);
  }

  lemma StageMiners(halfWay: bool)
    ensures FirstMiners([], 0, [], 0, Leaders(), Stage(halfWay))
  {
  }

  lemma StageNext(halfWay: bool)
    ensures var r := StageTurn(halfWay);
      && EarliestNext(r.c.round, r.c.elected + r.c.miners, Members(r.c.passed), r.ws)
      && ClockAt(r.c.time, r.now, Members(r.c.passed), r.ws) && Distinct(r.c.passed)
  {
    hide Stage, Leaders;
    LeadersDistinct();
    StageHas(halfWay);
    var r := StageTurn(halfWay);
    assert "a" in Members(r.c.passed) && "a" in r.ws && r.ws["a"].scheduled == r.c.time;
    assert r.c.elected + r.c.miners == Leaders();
    assert Leaders() <= r.c.round;
  }

  /** The lap of the witness with a vote fits once, and not twice. */
  lemma StageResets(halfWay: bool)
    ensures Resets(StageTurn(halfWay)) <==> halfWay
  {
    hide Stage, Leaders, LapEnd;
    StageHas(halfWay);
    LeadersDistinct();
    var r := StageTurn(halfWay);
    Laps(r.c.time);
    assert "a" in Members(r.c.passed) && "a" in r.ws;
  }

  lemma StageFollows(halfWay: bool)
    ensures Follows(StageTurn(halfWay), StageTurn(!halfWay))
  {
    hide Stage, Leaders, Overflows, AllRestarted, Advanced, Marked;
    StageResets(halfWay);
    StageHas(halfWay);
    StageHas(!halfWay);
    StageMarked(halfWay);
    var r := StageTurn(halfWay);
    var next := NextTable(r.ws, r.c, []);
    forall x | x in r.ws ensures x in next && next[x] == Cast(x, if halfWay then 0 else HALF) {
      StageNextOf(halfWay, x);
    }
    assert next.Keys == r.ws.Keys by { NextKeys(r.ws, r.c, []); }
    assert next == Stage(!halfWay);
  }

  /** The kinds of the last round are those of the next one. */
  lemma StageMarked(halfWay: bool)
    ensures var r := StageTurn(halfWay); Marked(r.ws, r.c, []) == r.ws
  {
    hide Stage, Leaders;
    LeadersDistinct();
    StageHas(halfWay);
    var r := StageTurn(halfWay);
    forall x | x in r.ws ensures Mark(r.ws[x], x, r.c, []) == r.ws[x] {
    }
    var nobody: seq<Name> := [];
    assert nobody[..0] == nobody;
    assert Marked(r.ws, r.c, []) == r.ws;
  }

  lemma StageNextOf(halfWay: bool, x: Name)
    requires x in Stage(halfWay)
    ensures var ws := Stage(halfWay);
      if halfWay then x in AllRestarted(ws) && AllRestarted(ws)[x] == Cast(x, 0)
      else x in Advanced(ws, Members(Leaders() + ["a"]), HALF)
           && Advanced(ws, Members(Leaders() + ["a"]), HALF)[x] == Cast(x, HALF)
  {
    hide Stage, Leaders, LapEnd, Restarted;
    StageHas(halfWay);
    LeadersDistinct();
    Laps(0);
    Laps(HALF);
    RestartIsLap(Stage(halfWay)[x]);
  }

  lemma RestartIsLap(w: Witness)
    ensures Restarted(w).scheduled == LapEnd(0, w.votes)
  {
  }

  /**
   Who can sign but has no vote may starve: with 20 elected witnesses and one that has a vote, virtual
   time starts over every second round, and the witness without a vote is in no round, however long
   the chain goes on.
   */
  lemma Starvation(n: nat)
    ensures var run := StarvingRun(n);
      && Consecutive(run) && AllLeaveWaiting(run, 20, 0, "b")
      && forall i | 0 <= i < n :: "b" in Keyed(run[i].ws) && "b" !in run[i].c.round
  {
    hide LeavesWaiting, Follows, Stage, Leaders;
    var run := StarvingRun(n);
    forall i | 0 <= i < n ensures
        LeavesWaiting(run[i], 20, 0, "b") && "b" in Keyed(run[i].ws) && "b" !in run[i].c.round {
      StageIsRound(i % 2 == 1);
      assert run[i].ws == Stage(i % 2 == 1);
    }
    forall i | 0 < i < n ensures Follows(run[i - 1], run[i]) {
      StageFollows((i - 1) % 2 == 1);
    }
  }
  // ---- Who starves ---------------------------------------------------------------------------

  /** A run of n rounds from this table that leave w waiting. */
  ghost predicate WaitsThrough(run: seq<Turn>, ws: Table, maxVoted: nat, maxMiner: nat, w: Name, n: nat) {
    && |run| == n && (n > 0 ==> run[0].ws == ws)
    && Consecutive(run) && AllLeaveWaiting(run, maxVoted, maxMiner, w)
  }

  ghost predicate MayWait(ws: Table, maxVoted: nat, maxMiner: nat, w: Name, n: nat) {
    exists run :: WaitsThrough(run, ws, maxVoted, maxMiner, w, n)
  }

  /** From this table on, w may be left waiting for any number of rounds. */
  ghost predicate MayStarve(ws: Table, maxVoted: nat, maxMiner: nat, w: Name) {
    w in ws && LapsTakeTime(ws) && forall n: nat :: MayWait(ws, maxVoted, maxMiner, w, n)
  }

  lemma VotedForIsReached(ws: Table, maxVoted: nat, maxMiner: nat, w: Name)
    requires w in ws && ws[w].votes >= 1
    ensures !MayStarve(ws, maxVoted, maxMiner, w)
  {
    hide Consecutive, AllLeaveWaiting, Waiting, LapsTakeTime;
    if MayStarve(ws, maxVoted, maxMiner, w) {
      WaitNonneg(ws, w);
      WaitNonneg(AllRestarted(ws), w);
      var n: nat := Waiting(ws, w) + 2 + Waiting(AllRestarted(ws), w);
      assert MayWait(ws, maxVoted, maxMiner, w, n);
      var run :| WaitsThrough(run, ws, maxVoted, maxMiner, w, n);
      NoStarvation(run, maxVoted, maxMiner, w);
    }
  }

  /** A witness with this many votes may starve on some chain if and only if it has none. */
  lemma WhoMayStarve(votes: nat)
    ensures (exists ws: Table, w: Name :: w in ws && ws[w].votes == votes && MayStarve(ws, 20, 0, w)) <==> votes == 0
  {
    hide MayStarve;
    if votes == 0 {
      StageStarves();
    } else {
      forall ws: Table, w: Name | w in ws && ws[w].votes == votes ensures !MayStarve(ws, 20, 0, w) {
        VotedForIsReached(ws, 20, 0, w);
      }
    }
  }

  lemma StageStarves()
    ensures var ws := Stage(false); "b" in ws && ws["b"].votes == 0 && MayStarve(ws, 20, 0, "b")
  {
    hide Stage, Leaders, Consecutive, AllLeaveWaiting;
    StageHas(false);
    forall n: nat ensures MayWait(Stage(false), 20, 0, "b", n) {
      Starvation(n);
      assert WaitsThrough(StarvingRun(n), Stage(false), 20, 0, "b", n);
    }
  }
}
