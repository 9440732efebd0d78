/**
 The witness scheduler: choosing the witnesses of a round from the vote ranking, the mining queue
 and the virtual-time queue, advancing virtual time with 128-bit wrap-around, and shuffling the
 round in place.

 The three rankings are the ordered indexes of the witness table. They are given to the scheduler
 as sequences that list the table's witnesses in index order.
 */
module WitnessSchedule {
  import Sums

  type Name = string

  const MAX_WITNESSES: nat := 21
  const U128: int := 0x1_0000_0000_0000_0000_0000_0000_0000_0000
  const LAP: int := U128 - 1

  datatype Kind = Idle | Elected | Miner | Timeshare

  datatype Witness = Witness(votes: nat, position: int, lastUpdate: int, scheduled: int, hasKey: bool, pow: nat,
      kind: Kind)

  type Table = map<Name, Witness>

  function Wrap(x: int): (r: int)
    ensures 0 <= r < U128 && (0 <= x < U128 ==> r == x)
  {
    x % 0x1_0000_0000_0000_0000_0000_0000_0000_0000
  }

  // ---- Virtual time --------------------------------------------------------------------------

  predicate InRange(x: int) {
    0 <= x < U128
  }

  /** No witness is scheduled in the past, and every time fits 128 bits. */
  ghost predicate OnTime(ws: Table, now: int) {
    && InRange(now)
    && forall w | w in ws :: InRange(ws[w].position) && InRange(ws[w].lastUpdate) && now <= ws[w].scheduled < U128
  }

  /** One lap from time t for a witness with the given votes, without regard to overflow. */
  function LapEnd(t: int, votes: nat): (r: int)
    ensures r >= t
  {
    DivNonneg(LAP, votes + 1);
    t + LAP / (votes + 1)
  }

  lemma DivNonneg(a: int, b: int)
    requires a >= 0 && b > 0
    ensures 0 <= a / b <= a
  {
    var q := a / b;
    assert a == q * b + a % b;
    AtLeastOnce(q, b);
  }

  lemma AtLeastOnce(q: int, b: int)
    requires b > 0
    ensures q >= 0 ==> q * b >= q
    ensures q < 0 ==> q * b <= -b
  {
    if q >= 0 {
      assert q * (b - 1) >= 0;
    } else {
      assert (-1 - q) * b >= 0;
    }
  }

  /** A change of votes re-schedules the witness from how far it has come in its lap. */
  function Adjusted(w: Witness, now: int, delta: int): (r: Witness)
    requires InRange(now) && InRange(w.position) && InRange(w.lastUpdate) && w.votes + delta >= 0
    ensures InRange(r.position) && r.lastUpdate == now && now <= r.scheduled < U128
    ensures r.votes == w.votes + delta && r.hasKey == w.hasKey && r.pow == w.pow && r.kind == w.kind
  {
    var position := Wrap(w.position + Wrap(w.votes * Wrap(now - w.lastUpdate)));
    var votes: nat := w.votes + delta;
    DivNonneg(LAP - position, votes + 1);
    var scheduled := Wrap(now + (LAP - position) / (votes + 1));
    w.(position := position, lastUpdate := now, votes := votes, scheduled := if scheduled < now then LAP else scheduled)
  }

  /** Whole turns of the 128-bit counter make no difference. */
  lemma WholeTurns(x: int, k: int)
    ensures Wrap(x + k * U128) == Wrap(x)
  {
  }

  lemma WrapSum(a: int, b: int)
    ensures Wrap(a + Wrap(b)) == Wrap(a + b)
  {
    assert a + Wrap(b) == a + b + (-(b / U128)) * U128;
    WholeTurns(a + b, -(b / U128));
  }

  lemma WrapTimes(v: int, x: int)
    ensures Wrap(v * Wrap(x)) == Wrap(v * x)
  {
    var k := x / U128;
    calc {
      v * Wrap(x);
      v * (x - k * U128);
      v * x - v * (k * U128);
      v * x + (-(v * k)) * U128;
    }
    WholeTurns(v * x, -(v * k));
  }

  /**
   However often the arithmetic wraps around, the new position is the old one advanced by the votes
   from before the change for all the time gone by: what the votes become has no part in it.
   */
  lemma PositionAdvances(w: Witness, now: int, delta: int)
    requires InRange(now) && InRange(w.position) && InRange(w.lastUpdate) && w.votes + delta >= 0
    ensures Adjusted(w, now, delta).position == Wrap(w.position + w.votes * (now - w.lastUpdate))
    ensures Adjusted(w, now, delta).position == Adjusted(w, now, 0).position
  {
    hide Wrap;
    WrapSum(w.position, w.votes * Wrap(now - w.lastUpdate));
    WrapTimes(w.votes, now - w.lastUpdate);
    WrapSum(w.position, w.votes * (now - w.lastUpdate));
  }

  /** Changes at one time add up: their order and number make no difference. */
  lemma ChangesCompose(w: Witness, now: int, d1: int, d2: int)
    requires InRange(now) && InRange(w.position) && InRange(w.lastUpdate)
    requires w.votes + d1 >= 0 && w.votes + d1 + d2 >= 0
    ensures Adjusted(Adjusted(w, now, d1), now, d2) == Adjusted(w, now, d1 + d2)
  {
    hide Wrap;
    var u := Adjusted(w, now, d1);
    PositionAdvances(u, now, d2);
    PositionAdvances(w, now, d1 + d2);
    PositionAdvances(w, now, d1);
  }

  /**
   Between two changes a witness moves at the speed of its votes at the time, so a change by nothing
   on the way leaves no trace in the position.
   */
  lemma PositionAddsUp(w: Witness, t: int, now: int, d1: int, d2: int)
    requires InRange(t) && InRange(now) && InRange(w.position) && InRange(w.lastUpdate)
    requires w.votes + d1 >= 0 && w.votes + d1 + d2 >= 0
    ensures Adjusted(Adjusted(w, t, d1), now, d2).position
         == Wrap(w.position + w.votes * (t - w.lastUpdate) + (w.votes + d1) * (now - t))
    ensures d1 == 0 ==> Adjusted(Adjusted(w, t, d1), now, d2).position == Adjusted(w, now, d2).position
  {
    hide Wrap, Adjusted;
    var first, second := w.position + w.votes * (t - w.lastUpdate), (w.votes + d1) * (now - t);
    PositionAdvances(w, t, d1);
    PositionAdvances(Adjusted(w, t, d1), now, d2);
    WrapSum(second, first);
    if d1 == 0 {
      PositionAdvances(w, now, d2);
      assert w.votes * (t - w.lastUpdate) + w.votes * (now - t) == w.votes * (now - w.lastUpdate);
    }
  }

  /**
   The new time is when the rest of the lap will have been covered at one more than the new votes;
   a time that does not fit 128 bits is replaced by the latest that does.
   */
  lemma LapCompletes(w: Witness, now: int, delta: int)
    requires InRange(now) && InRange(w.position) && InRange(w.lastUpdate) && w.votes + delta >= 0
    ensures var u := Adjusted(w, now, delta); var rest, speed := LAP - u.position, u.votes + 1;
      || (u.scheduled - now) * speed <= rest < (u.scheduled - now + 1) * speed
      || (u.scheduled == LAP && (U128 - now) * speed <= rest)
  {
    hide Wrap;
    var u := Adjusted(w, now, delta);
    var q := Laps(LAP - u.position, u.votes + 1, U128 - now);
    assert u.scheduled == var s := Wrap(now + q); if s < now then LAP else s;
    if now + q >= U128 {
      WrapOnce(now + q);
    }
  }

  /** The whole times b goes into a; c is any bound. */
  lemma Laps(a: int, b: int, c: int) returns (q: int)
    requires a >= 0 && b > 0
    ensures q == a / b && 0 <= q <= a && q * b <= a < (q + 1) * b && (c <= q ==> c * b <= a)
  {
    q := a / b;
    DivNonneg(a, b);
    assert a == q * b + a % b;
    if c <= q {
      assert (q - c) * b >= 0;
    }
  }

  /** The whole lap is ahead when nothing has been covered of it. */
  lemma AdjustedFresh(w: Witness, now: int, delta: int)
    requires InRange(now) && w.position == 0 && w.lastUpdate == now && w.votes + delta >= 0
    ensures Adjusted(w, now, delta).scheduled ==
      if LapEnd(now, w.votes + delta) < U128 then LapEnd(now, w.votes + delta) else LAP
  {
    var lap := LAP / (w.votes + delta + 1);
    DivNonneg(LAP, w.votes + delta + 1);
    assert Wrap(w.votes * Wrap(0)) == 0;
    if now + lap >= U128 {
      assert Wrap(now + lap) == now + lap - U128 by { WrapOnce(now + lap); }
    }
  }

  /**
   A change by nothing never brings a witness forward: without wrap-around its new time is that of
   the time it was scheduled from, delayed by the time gone by divided by its speed.
   */
  lemma NullChangeDelays(w: Witness, now: int)
    requires InRange(now) && InRange(w.position) && 0 <= w.lastUpdate <= now
    requires w.position + w.votes * (now - w.lastUpdate) <= LAP
    requires now + (LAP - w.position) / (w.votes + 1) < U128
    ensures Adjusted(w, now, 0).position == w.position + w.votes * (now - w.lastUpdate)
    ensures Adjusted(w, now, 0).scheduled == w.lastUpdate + (LAP - w.position + now - w.lastUpdate) / (w.votes + 1)
    ensures Adjusted(w, now, 0).scheduled >= w.lastUpdate + (LAP - w.position) / (w.votes + 1)
  {
    hide Adjusted, Wrap;
    var dt, v, left := now - w.lastUpdate, w.votes + 1, LAP - w.position;
    Pace(left, w.votes, dt);
    Unwrapped(w, now);
  }

  lemma Pace(left: int, votes: nat, dt: nat)
    requires votes * dt <= left
    ensures dt + (left - votes * dt) / (votes + 1) == (left + dt) / (votes + 1) >= left / (votes + 1)
    ensures 0 <= (left - votes * dt) / (votes + 1) <= left / (votes + 1)
  {
    var v := votes + 1;
    assert left - votes * dt + v * dt == left + dt;
    AddMultiple(left - votes * dt, dt, v);
    DivGrows(left, left + dt, v);
    DivGrows(left - votes * dt, left, v);
    DivNonneg(left - votes * dt, v);
  }

  /** The new time without wrap-around. */
  lemma Unwrapped(w: Witness, now: int)
    requires InRange(now) && InRange(w.position) && 0 <= w.lastUpdate <= now
    requires w.position + w.votes * (now - w.lastUpdate) <= LAP
    requires var rest := (LAP - w.position - w.votes * (now - w.lastUpdate)) / (w.votes + 1);
      0 <= rest && now + rest < U128
    ensures Adjusted(w, now, 0).position == w.position + w.votes * (now - w.lastUpdate)
    ensures Adjusted(w, now, 0).scheduled == now + (LAP - w.position - w.votes * (now - w.lastUpdate)) / (w.votes + 1)
  {
    hide Wrap;
    var gone := w.votes * (now - w.lastUpdate);
    assert Wrap(now - w.lastUpdate) == now - w.lastUpdate;
    assert gone >= 0;
    assert Wrap(gone) == gone && Wrap(w.position + gone) == w.position + gone;
  }

  lemma AddMultiple(a: int, k: int, b: int)
    requires b > 0
    ensures (a + b * k) / b == a / b + k
  {
    var p, q := a / b, (a + b * k) / b;
    assert a == p * b + a % b && a + b * k == q * b + (a + b * k) % b;
    assert b * k == k * b;
    assert (q - p - k) * b == q * b - p * b - k * b;
    AtLeastOnce(q - p - k, b);
  }

  lemma DivGrows(a: int, c: int, b: int)
    requires a <= c && b > 0
    ensures a / b <= c / b
  {
    var p, q := a / b, c / b;
    assert a == p * b + a % b && c == q * b + c % b;
    assert (q - p) * b == q * b - p * b;
    AtLeastOnce(q - p, b);
  }

  lemma WrapOnce(x: int)
    requires U128 <= x < 2 * U128
    ensures Wrap(x) == x - U128
  {
  }

  /** A witness that starts a new lap at time t. */
  function Lapped(w: Witness, t: int): Witness {
    w.(position := 0, lastUpdate := t, scheduled := LapEnd(t, w.votes))
  }

  /** A witness after its entry in the mining queue was looked at and it was chosen, or not. */
  function Mined(w: Witness, looked: bool, chosen: bool): Witness {
    var u := if chosen then w.(kind := Miner) else w;
    if looked then u.(pow := 0) else u
  }

  function Restarted(w: Witness): (r: Witness)
    ensures r == w.(position := 0, lastUpdate := 0, scheduled := r.scheduled) && 0 <= r.scheduled < U128
  {
    DivNonneg(LAP, w.votes + 1);
    w.(position := 0, lastUpdate := 0, scheduled := LAP / (w.votes + 1))
  }

  // ---- Rankings ------------------------------------------------------------------------------

  ghost predicate Distinct(s: seq<Name>) {
    forall i, j | 0 <= i < j < |s| :: s[i] != s[j]
  }

  ghost function Members(s: seq<Name>): set<Name> {
    set x | x in s
  }

  ghost predicate Lists(s: seq<Name>, ws: set<Name>) {
    Distinct(s) && Members(s) == ws
  }

  ghost predicate ByVotes(s: seq<Name>, ws: Table) {
    Lists(s, ws.Keys) && forall i, j | 0 <= i < j < |s| :: s[i] in ws && s[j] in ws && ws[s[i]].votes >= ws[s[j]].votes
  }

  ghost predicate ByTime(s: seq<Name>, ws: Table) {
    && Lists(s, ws.Keys)
    && forall i, j | 0 <= i < j < |s| :: s[i] in ws && s[j] in ws && ws[s[i]].scheduled <= ws[s[j]].scheduled
  }

  /** The mining queue: the witnesses with work, in order. */
  ghost predicate ByPow(s: seq<Name>, ws: Table) {
    Lists(s, Queued(ws)) && forall i, j | 0 <= i < j < |s| :: WorkedBefore(s[i], s[j], ws)
  }

  ghost predicate WorkedBefore(x: Name, y: Name, ws: Table) {
    x in ws && y in ws && ws[x].pow <= ws[y].pow
  }

  function Queued(ws: Table): set<Name> {
    set w | w in ws && ws[w].pow > 0
  }

  /** Witnesses that can sign blocks. */
  ghost function Keyed(ws: Table): set<Name> {
    set w | w in ws && ws[w].hasKey
  }

  lemma {:induction false} DistinctSize(s: seq<Name>)
    requires Distinct(s)
    ensures |Members(s)| == |s|
    decreases |s|
  {
    if s != [] {
      var t := s[..|s| - 1];
      DistinctSize(t);
      assert Members(s) == Members(t) + {s[|s| - 1]};
    }
  }

  lemma SubsetSize(a: set<Name>, b: set<Name>)
    requires a <= b
    ensures |a| <= |b| && (|a| == |b| ==> a == b)
  {
    assert a + (b - a) == b;
    if |a| == |b| {
      assert b - a == {};
    }
  }

  lemma DistinctSnoc(s: seq<Name>, x: Name)
    requires Distinct(s) && x !in s
    ensures Distinct(s + [x]) && Members(s + [x]) == Members(s) + {x}
  {
  }

  lemma DistinctJoin(s: seq<Name>, t: seq<Name>)
    requires Distinct(s) && Distinct(t) && Members(s) !! Members(t)
    ensures Distinct(s + t) && Members(s + t) == Members(s) + Members(t)
  {
    forall i, j | 0 <= i < j < |s + t| ensures (s + t)[i] != (s + t)[j] {
      if i < |s| <= j {
        assert s[i] in Members(s) && t[j - |s|] in Members(t);
      }
    }
  }

  /** The first i of the vote ranking have been read: who of them can sign is elected. */
  ghost predicate VotesRead(byVote: seq<Name>, i: nat, elected: seq<Name>, ws: Table) {
    && i <= |byVote| && Distinct(elected)
    && (forall x | x in elected :: x in byVote[..i] && x in Keyed(ws))
    && (forall x | x in byVote[..i] && x in Keyed(ws) :: x in elected)
  }

  lemma VotesReadNone(byVote: seq<Name>, ws: Table)
    ensures VotesRead(byVote, 0, [], ws)
  {
  }

  lemma VotesReadOn(byVote: seq<Name>, i: nat, elected: seq<Name>, ws: Table)
    requires ByVotes(byVote, ws) && VotesRead(byVote, i, elected, ws) && i < |byVote|
    ensures byVote[i] in ws
    ensures VotesRead(byVote, i + 1, if ws[byVote[i]].hasKey then elected + [byVote[i]] else elected, ws)
  {
    var w := byVote[i];
    assert w in Members(byVote);
    PrefixSnoc(byVote, i);
    if ws[w].hasKey {
      DistinctSnoc(elected, w);
    }
  }

  /** Taking from the vote ranking in order takes the top voted. */
  lemma VotesTaken(byVote: seq<Name>, i: nat, elected: seq<Name>, k: nat, ws: Table)
    requires ByVotes(byVote, ws) && VotesRead(byVote, i, elected, ws) && |elected| <= k
    requires (i < |byVote| ==> |elected| == k)
    ensures TopVoted(elected, k, ws)
  {
    if |elected| < k {
      assert byVote[..i] == byVote;
      forall x | x in Keyed(ws) ensures x in elected { assert x in Members(byVote); }
    }
    forall x, y | x in elected && y in Keyed(ws) && y !in elected ensures x in ws && ws[x].votes >= ws[y].votes {
      assert y in Members(byVote) && y !in byVote[..i];
      var j :| 0 <= j < |byVote| && byVote[j] == y;
      var h :| 0 <= h < |byVote[..i]| && byVote[..i][h] == x;
      assert byVote[h] == x;
    }
  }

  /** The first i of the queue have been read: who of them can sign and is not elected is a miner. */
  ghost predicate QueueRead(queue: seq<Name>, i: nat, miners: seq<Name>, elected: seq<Name>, ws: Table) {
    && i <= |queue| && Distinct(miners)
    && (forall x | x in miners :: x in queue[..i] && x in Keyed(ws) && x !in elected)
    && (forall x | x in queue[..i] && x in Keyed(ws) && x !in elected :: x in miners)
  }

  lemma QueueReadNone(queue: seq<Name>, elected: seq<Name>, ws: Table)
    requires ByPow(queue, ws)
    ensures QueueRead(queue, 0, [], elected, ws) && |Queued(ws)| == |queue|
    ensures MinersSet(ws, ws, Members(queue[..0]), Members([]))
  {
    DistinctSize(queue);
  }

  lemma QueueReadOn(queue: seq<Name>, i: nat, miners: seq<Name>, elected: seq<Name>, ws: Table)
    requires ByPow(queue, ws) && QueueRead(queue, i, miners, elected, ws) && i < |queue|
    ensures queue[i] in ws
    ensures QueueRead(queue, i + 1,
      if ws[queue[i]].hasKey && queue[i] !in elected then miners + [queue[i]] else miners, elected, ws)
  {
    var w := queue[i];
    assert w in Members(queue);
    PrefixSnoc(queue, i);
    if ws[w].hasKey && w !in elected {
      DistinctSnoc(miners, w);
    }
  }

  lemma QueueTaken(queue: seq<Name>, i: nat, miners: seq<Name>, k: nat, elected: seq<Name>, ws: Table)
    requires QueueRead(queue, i, miners, elected, ws) && |miners| <= k && (i < |queue| ==> |miners| == k)
    ensures FirstMiners(miners, k, queue, i, elected, ws)
  {
  }

  /** Reading the first i entries of the queue leaves the others queued. */
  lemma QueueLeft(queue: seq<Name>, i: nat, miners: seq<Name>, before: Table, after: Table)
    requires ByPow(queue, before) && i <= |queue| && MinersSet(before, after, Members(queue[..i]), Members(miners))
    ensures |Queued(after)| == |queue| - i
  {
    assert queue == queue[..i] + queue[i..];
    assert Queued(after) == Members(queue[i..]) by {
      forall w ensures w in Queued(after) <==> w in queue[i..] {
        assert w in queue <==> w in queue[..i] || w in queue[i..];
        assert w in Members(queue) <==> w in Queued(before);
      }
    }
    DistinctSize(queue[i..]);
  }

  /** The first i of the time ranking have been read: who of them can sign is in the round. */
  ghost predicate TimesRead(byTime: seq<Name>, i: nat, round: seq<Name>, chosen: seq<Name>, ws: Table) {
    && i <= |byTime| && chosen <= round && Distinct(round)
    && (forall x | x in round && x !in chosen :: x in byTime[..i] && x in Keyed(ws))
    && (forall x | x in byTime[..i] && x in Keyed(ws) :: x in round)
  }

  lemma TimesReadNone(byTime: seq<Name>, chosen: seq<Name>, ws: Table)
    requires Distinct(chosen)
    ensures TimesRead(byTime, 0, chosen, chosen, ws)
  {
  }

  lemma TimesReadOn(byTime: seq<Name>, i: nat, round: seq<Name>, chosen: seq<Name>, ws: Table)
    requires ByTime(byTime, ws) && TimesRead(byTime, i, round, chosen, ws) && i < |byTime|
    ensures byTime[i] in ws
    ensures TimesRead(byTime, i + 1,
      if ws[byTime[i]].hasKey && byTime[i] !in chosen then round + [byTime[i]] else round, chosen, ws)
  {
    var w := byTime[i];
    assert w in Members(byTime);
    PrefixSnoc(byTime, i);
    if ws[w].hasKey && w !in chosen {
      DistinctSnoc(round, w);
    }
  }

  lemma Ranked(byTime: seq<Name>, i: nat, ws: Table)
    requires ByTime(byTime, ws) && i < |byTime|
    ensures byTime[i] in ws
  {
    assert byTime[i] in Members(byTime);
  }

  lemma PassedDistinct(byTime: seq<Name>, i: nat, ws: Table)
    requires ByTime(byTime, ws) && i <= |byTime|
    ensures Distinct(byTime[..i])
  {
  }

  /** Reading the time ranking in order takes the earliest scheduled. */
  lemma TimesTaken(byTime: seq<Name>, i: nat, round: seq<Name>, chosen: seq<Name>, ws: Table)
    requires ByTime(byTime, ws) && TimesRead(byTime, i, round, chosen, ws) && |round| <= MAX_WITNESSES
    requires Members(chosen) <= Keyed(ws) && (i < |byTime| ==> |round| == MAX_WITNESSES)
    ensures EarliestNext(round, chosen, Members(byTime[..i]), ws)
  {
    forall x | x in round ensures x in Keyed(ws) {
      if x in chosen { assert x in Members(chosen); }
    }
    if |round| < MAX_WITNESSES {
      assert byTime[..i] == byTime;
      forall x | x in Keyed(ws) ensures x in round { assert x in Members(byTime); }
    }
    forall x | x in byTime[..i] ensures x in ws { assert x in Members(byTime); }
    forall x, y | x in Members(byTime[..i]) && y in ws && y !in Members(byTime[..i]) ensures
        x in ws && ws[x].scheduled <= ws[y].scheduled {
      assert y in Members(byTime) && y !in byTime[..i];
      var j :| 0 <= j < |byTime| && byTime[j] == y;
      var h :| 0 <= h < |byTime[..i]| && byTime[..i][h] == x;
      assert byTime[h] == x;
    }
  }

  lemma TimeReached(byTime: seq<Name>, i: nat, t: int, now: int, ws: Table)
    requires ByTime(byTime, ws) && i <= |byTime|
    requires i == 0 ==> t == now
    requires i > 0 ==> byTime[i - 1] in ws && t == ws[byTime[i - 1]].scheduled
    ensures ClockAt(t, now, Members(byTime[..i]), ws)
  {
    if i > 0 {
      assert byTime[..i][i - 1] == byTime[i - 1];
      assert byTime[i - 1] in Members(byTime[..i]);
      forall w | w in Members(byTime[..i]) ensures w in ws && ws[w].scheduled <= t {
        var h :| 0 <= h < |byTime[..i]| && byTime[..i][h] == w;
        assert byTime[h] == w && w in Members(byTime);
      }
    }
  }

  /** One more entry of a ranking has been looked at. */
  lemma PrefixSnoc(s: seq<Name>, i: nat)
    requires Distinct(s) && i < |s|
    ensures s[..i + 1] == s[..i] + [s[i]] && s[i] !in s[..i]
  {
  }

  // ---- What a round must be ------------------------------------------------------------------

  /** Those of `who` got the kind k; nothing else changed. */
  ghost predicate KindsSet(before: Table, after: Table, who: set<Name>, k: Kind) {
    && after.Keys == before.Keys && who <= before.Keys
    && forall w | w in before :: after[w] == if w in who then before[w].(kind := k) else before[w]
  }

  /** Those looked at left the queue and those chosen became miners; nothing else changed. */
  ghost predicate MinersSet(before: Table, after: Table, looked: set<Name>, chosen: set<Name>) {
    && after.Keys == before.Keys
    && forall w | w in before :: after[w] == Mined(before[w], w in looked, w in chosen)
  }

  lemma MinersOnly(before: Table, after: Table, looked: set<Name>, chosen: set<Name>, w: Name)
    requires MinersSet(before, after, looked, chosen) && w in before
    ensures w in after && after[w] == before[w].(kind := after[w].kind, pow := after[w].pow)
  {
  }

  lemma MinersSetOn(before: Table, after: Table, looked: set<Name>, chosen: set<Name>, w: Name)
    requires MinersSet(before, after, looked, chosen) && w in before
    ensures w in after && MinersSet(before, after[w := after[w].(pow := 0)], looked + {w}, chosen)
    ensures MinersSet(before, after[w := after[w].(kind := Miner)][w := after[w].(kind := Miner, pow := 0)],
        looked + {w}, chosen + {w})
  {
  }

  lemma KindsSetNone(ws: Table, who: set<Name>, k: Kind)
    requires who == {}
    ensures KindsSet(ws, ws, who, k)
  {
  }

  lemma KindsSetOn(before: Table, after: Table, who: set<Name>, k: Kind, w: Name)
    requires KindsSet(before, after, who, k) && w in before
    ensures w in after && KindsSet(before, after[w := after[w].(kind := k)], who + {w}, k)
  {
  }

  lemma KindsOnly(before: Table, after: Table, who: set<Name>, k: Kind, w: Name)
    requires KindsSet(before, after, who, k) && w in before
    ensures w in after && after[w] == before[w].(kind := after[w].kind)
  {
  }

  /** The chosen are the k best voted witnesses that can sign, or all of those when they are fewer. */
  ghost predicate TopVoted(chosen: seq<Name>, k: nat, ws: Table) {
    && Distinct(chosen) && Members(chosen) <= Keyed(ws) && |chosen| <= k
    && (|chosen| < k ==> Members(chosen) == Keyed(ws))
    && forall x, y | x in chosen && y in Keyed(ws) && y !in chosen :: x in ws && ws[x].votes >= ws[y].votes
  }

  /**
   The miners are the first of the queue who can sign and are not elected; the first `served` entries
   are consumed.
   */
  ghost predicate FirstMiners(miners: seq<Name>, k: nat, queue: seq<Name>, served: nat, elected: seq<Name>, ws: Table) {
    && Distinct(miners) && Members(miners) <= Keyed(ws) - Members(elected) && |miners| <= k
    && served <= |queue| && Members(miners) <= Members(queue[..served])
    && (forall x | x in queue[..served] && x in Keyed(ws) && x !in elected :: x in miners)
    && (served < |queue| ==> |miners| == k)
  }

  /** The round continues `chosen` with the earliest scheduled of the other witnesses that can sign. */
  ghost predicate EarliestNext(round: seq<Name>, chosen: seq<Name>, passed: set<Name>, ws: Table) {
    && chosen <= round && Distinct(round) && Members(round) <= Keyed(ws) && |round| <= MAX_WITNESSES
    && (|round| < MAX_WITNESSES ==> Members(round) == Keyed(ws))
    && Members(round) - Members(chosen) <= passed <= ws.Keys
    && (forall x | x in passed && x in Keyed(ws) :: x in round)
    && forall x, y | x in passed && y in ws && y !in passed :: x in ws && ws[x].scheduled <= ws[y].scheduled
  }

  /** A round has as many witnesses as there are witnesses able to sign, up to the limit. */
  lemma RoundSize(round: seq<Name>, chosen: seq<Name>, passed: set<Name>, ws: Table)
    requires EarliestNext(round, chosen, passed, ws)
    ensures |round| == if |Keyed(ws)| < MAX_WITNESSES then |Keyed(ws)| else MAX_WITNESSES
  {
    DistinctSize(round);
    SubsetSize(Members(round), Keyed(ws));
  }

  /** Nobody who can sign and waits was due before somebody the virtual clock brought in. */
  lemma NobodyOvertaken(round: seq<Name>, chosen: seq<Name>, passed: set<Name>, ws: Table, x: Name, y: Name)
    requires EarliestNext(round, chosen, passed, ws)
    requires x in round && x !in chosen && y in Keyed(ws) && y !in round
    ensures x in ws && ws[x].scheduled <= ws[y].scheduled
  {
    assert x in Members(round) - Members(chosen);
  }

  /** The table after the witnesses the clock passed start a new lap at time t. */
  ghost function Advanced(ws: Table, passed: set<Name>, t: int): Table {
    map w | w in ws :: if w in passed then Lapped(ws[w], t) else ws[w]
  }

  ghost function AllRestarted(ws: Table): Table {
    map w | w in ws :: Restarted(ws[w])
  }

  ghost predicate Overflows(ws: Table, passed: set<Name>, t: int) {
    exists w | w in passed :: w in ws && LapEnd(t, ws[w].votes) >= U128
  }

  /** Where the clock stops: at the last witness it passed. */
  ghost predicate ClockAt(t: int, now: int, passed: set<Name>, ws: Table) {
    && (passed == {} ==> t == now)
    && (passed != {} ==> exists w | w in passed :: w in ws && ws[w].scheduled == t)
    && forall w | w in passed :: w in ws && ws[w].scheduled <= t
  }

  /** Moving the clock to the last witness it passed leaves nobody scheduled in the past. */
  lemma AdvancedOnTime(ws: Table, now: int, round: seq<Name>, chosen: seq<Name>, passed: set<Name>, t: int)
    requires OnTime(ws, now) && EarliestNext(round, chosen, passed, ws) && ClockAt(t, now, passed, ws)
    requires !Overflows(ws, passed, t)
    ensures now <= t && OnTime(Advanced(ws, passed, t), t)
  {
    if passed != {} {
      var w :| w in passed && w in ws && ws[w].scheduled == t;
    }
  }

  lemma RestartedOnTime(ws: Table)
    ensures OnTime(AllRestarted(ws), 0)
  {
  }

  // ---- A whole round -------------------------------------------------------------------------

  /** What a round chose: how many queue entries it served, and whom the clock passed until which time. */
  datatype Choice = Choice(elected: seq<Name>, miners: seq<Name>, served: nat, round: seq<Name>, passed: seq<Name>,
      time: int)

  ghost predicate IsRound(c: Choice, maxVoted: nat, maxMiner: nat, queue: seq<Name>, ws: Table, now: int) {
    && TopVoted(c.elected, maxVoted, ws)
    && FirstMiners(c.miners, maxMiner, queue, c.served, c.elected, ws)
    && EarliestNext(c.round, c.elected + c.miners, Members(c.passed), ws)
    && ClockAt(c.time, now, Members(c.passed), ws) && Distinct(c.passed)
  }

  /** A witness after the choice: its new kind, and its place in the queue gone if it was served. */
  ghost function Mark(w: Witness, name: Name, c: Choice, served: seq<Name>): Witness {
    var kind :=
      if name in c.round && name !in c.elected && name !in c.miners then Timeshare
      else if name in c.miners then Miner
      else if name in c.elected then Elected
      else w.kind;
    w.(kind := kind, pow := if name in served then 0 else w.pow)
  }

  ghost function Marked(ws: Table, c: Choice, queue: seq<Name>): Table {
    map w | w in ws :: Mark(ws[w], w, c, if c.served <= |queue| then queue[..c.served] else queue)
  }

  /** The table and the time after a round. */
  ghost function NextTable(ws: Table, c: Choice, queue: seq<Name>): Table {
    if Overflows(ws, Members(c.passed), c.time) then AllRestarted(Marked(ws, c, queue))
    else Advanced(Marked(ws, c, queue), Members(c.passed), c.time)
  }

  ghost function NextTime(ws: Table, c: Choice): int {
    if Overflows(ws, Members(c.passed), c.time) then 0 else c.time
  }

  predicate EnoughSigners(ws: Table) {
    |set w | w in ws && ws[w].hasKey| >= Min(MAX_WITNESSES, |ws|)
  }

  function Min(a: nat, b: nat): nat {
    if a < b then a else b
  }

  function Max(a: nat, b: nat): nat {
    if a > b then a else b
  }

  /** Two tables in which the race stands the same: they differ in kinds and queue places only. */
  ghost predicate SameRace(a: Table, b: Table) {
    && a.Keys == b.Keys
    && forall w | w in a :: b[w] == a[w].(kind := b[w].kind, pow := b[w].pow)
  }

  lemma RaceKeepsKeyed(a: Table, b: Table)
    requires SameRace(a, b)
    ensures Keyed(a) == Keyed(b)
  {
  }

  lemma RaceKeepsTime(a: Table, b: Table, byTime: seq<Name>)
    requires SameRace(a, b) && ByTime(byTime, a)
    ensures ByTime(byTime, b)
  {
  }

  lemma RaceKeepsNext(a: Table, b: Table, round: seq<Name>, chosen: seq<Name>, passed: set<Name>)
    requires SameRace(a, b) && EarliestNext(round, chosen, passed, b)
    ensures EarliestNext(round, chosen, passed, a)
  {
    RaceKeepsKeyed(a, b);
  }

  lemma RaceKeepsClock(a: Table, b: Table, t: int, now: int, passed: set<Name>)
    requires SameRace(a, b) && ClockAt(t, now, passed, b)
    ensures ClockAt(t, now, passed, a)
  {
    if passed != {} {
      var w :| w in passed && w in b && b[w].scheduled == t;
      assert w in a && a[w].scheduled == t;
    }
  }

  lemma RaceKeepsOverflow(a: Table, b: Table, passed: set<Name>, t: int)
    requires SameRace(a, b)
    ensures Overflows(a, passed, t) <==> Overflows(b, passed, t)
  {
  }

  lemma KindsKeepRace(a: Table, b: Table, who: set<Name>, k: Kind, queue: seq<Name>, byTime: seq<Name>)
    requires KindsSet(a, b, who, k) && ByPow(queue, a) && ByTime(byTime, a)
    ensures SameRace(a, b) && ByPow(queue, b) && ByTime(byTime, b) && Queued(a) == Queued(b)
  {
    RaceKeepsTime(a, b, byTime) by { hide ByTime; }
    KindsKeepQueue(a, b, who, k);
    forall i, j | 0 <= i < j < |queue| ensures WorkedBefore(queue[i], queue[j], b) {
      assert WorkedBefore(queue[i], queue[j], a);
    }
  }

  lemma KindsKeepQueue(a: Table, b: Table, who: set<Name>, k: Kind)
    requires KindsSet(a, b, who, k)
    ensures Queued(a) == Queued(b)
  {
  }

  /** The miners chosen beside the elected are distinct from them and fit with them in a round. */
  lemma MiningKeepsRace(ws0: Table, ws1: Table, ws2: Table, miners: seq<Name>, served: nat, elected: seq<Name>,
      queue: seq<Name>, byTime: seq<Name>, maxVoted: nat, maxMiner: nat)
    requires SameRace(ws0, ws1) && ByTime(byTime, ws1) && served <= |queue|
    requires MinersSet(ws1, ws2, Members(queue[..served]), Members(miners))
    requires TopVoted(elected, maxVoted, ws0) && FirstMiners(miners, maxMiner, queue, served, elected, ws1)
    requires maxVoted + maxMiner <= MAX_WITNESSES
    ensures SameRace(ws0, ws2) && ByTime(byTime, ws2)
    ensures Distinct(elected + miners) && Members(elected + miners) <= Keyed(ws2) && |elected + miners| <= MAX_WITNESSES
  {
    hide ByTime;
    MinersKeepRace(ws1, ws2, Members(queue[..served]), Members(miners));
    RaceTrans(ws0, ws1, ws2);
    RaceKeepsTime(ws1, ws2, byTime);
    RaceKeepsKeyed(ws0, ws1);
    RaceKeepsKeyed(ws1, ws2);
    DistinctJoin(elected, miners);
  }

  lemma MinersKeepRace(a: Table, b: Table, looked: set<Name>, chosen: set<Name>)
    requires MinersSet(a, b, looked, chosen)
    ensures SameRace(a, b)
  {
  }

  lemma RaceTrans(a: Table, b: Table, c: Table)
    requires SameRace(a, b) && SameRace(b, c)
    ensures SameRace(a, c)
  {
  }

  lemma RoundChosen(c: Choice, maxVoted: nat, maxMiner: nat, queue: seq<Name>, ws0: Table, ws1: Table, ws2: Table,
      ws3: Table, now: int)
    requires TopVoted(c.elected, maxVoted, ws0) && KindsSet(ws0, ws1, Members(c.elected), Elected) && SameRace(ws0, ws1)
    requires SameRace(ws0, ws2)
    requires FirstMiners(c.miners, maxMiner, queue, c.served, c.elected, ws1)
    requires c.served <= |queue| && MinersSet(ws1, ws2, Members(queue[..c.served]), Members(c.miners))
    requires EarliestNext(c.round, c.elected + c.miners, Members(c.passed), ws2)
    requires ClockAt(c.time, now, Members(c.passed), ws2) && Distinct(c.passed)
    requires KindsSet(ws2, ws3, Members(c.round) - Members(c.elected + c.miners), Timeshare)
    ensures IsRound(c, maxVoted, maxMiner, queue, ws0, now)
    ensures ws3 == Marked(ws0, c, queue)
  {
    assert IsRound(c, maxVoted, maxMiner, queue, ws0, now) by {
      hide TopVoted, EarliestNext, ClockAt, KindsSet, MinersSet, SameRace;
      RaceKeepsNext(ws0, ws2, c.round, c.elected + c.miners, Members(c.passed));
      RaceKeepsClock(ws0, ws2, c.time, now, Members(c.passed));
      RaceKeepsKeyed(ws0, ws1);
    }
    MarksMade(c, queue, ws0, ws1, ws2, ws3);
  }

  lemma MarksMade(c: Choice, queue: seq<Name>, ws0: Table, ws1: Table, ws2: Table, ws3: Table)
    requires KindsSet(ws0, ws1, Members(c.elected), Elected)
    requires c.served <= |queue| && MinersSet(ws1, ws2, Members(queue[..c.served]), Members(c.miners))
    requires KindsSet(ws2, ws3, Members(c.round) - Members(c.elected + c.miners), Timeshare)
    ensures ws3 == Marked(ws0, c, queue)
  {
    forall w | w in ws0 ensures w in ws3 && ws3[w] == Mark(ws0[w], w, c, queue[..c.served]) {
    }
  }

  lemma MarkedKeepsRace(ws: Table, c: Choice, queue: seq<Name>)
    ensures SameRace(ws, Marked(ws, c, queue))
  {
  }

  lemma RoundFits(c: Choice, maxVoted: nat, maxMiner: nat, queue: seq<Name>, ws: Table, now: int)
    requires IsRound(c, maxVoted, maxMiner, queue, ws, now)
    ensures |c.round| == Min(|Keyed(ws)|, MAX_WITNESSES) && Members(c.passed) <= ws.Keys && Distinct(c.passed)
    ensures Distinct(c.round)
  {
    RoundSize(c.round, c.elected + c.miners, Members(c.passed), ws);
  }

  /** The round has the expected size exactly when enough witnesses can sign. */
  lemma RaceKeepsSize(ws: Table, c: Choice, queue: seq<Name>, now: int)
    requires |c.round| == Min(|Keyed(ws)|, MAX_WITNESSES) && SameRace(ws, Marked(ws, c, queue))
    ensures |Marked(ws, c, queue)| == |ws|
    ensures |c.round| == Min(MAX_WITNESSES, |ws|) <==> EnoughSigners(ws)
  {
    assert Keyed(ws) == set w | w in ws && ws[w].hasKey;
    SubsetSize(Keyed(ws), ws.Keys);
    assert |ws.Keys| == |ws|;
    assert |Marked(ws, c, queue).Keys| == |Marked(ws, c, queue)|;
  }

  /** Whether or not virtual time starts over, nobody is scheduled in the past afterwards. */
  lemma NextOnTime(ws: Table, c: Choice, queue: seq<Name>, maxVoted: nat, maxMiner: nat, now: int)
    requires OnTime(ws, now) && IsRound(c, maxVoted, maxMiner, queue, ws, now)
    ensures OnTime(NextTable(ws, c, queue), NextTime(ws, c))
    ensures Overflows(Marked(ws, c, queue), Members(c.passed), c.time) <==> Overflows(ws, Members(c.passed), c.time)
    ensures NextTime(ws, c) >= now || Overflows(ws, Members(c.passed), c.time)
  {
    hide EarliestNext, ClockAt, Overflows, Marked, Advanced, AllRestarted, SameRace, OnTime, TopVoted, FirstMiners;
    var marked := Marked(ws, c, queue);
    MarkedKeepsRace(ws, c, queue);
    RaceKeepsOverflow(ws, marked, Members(c.passed), c.time);
    if Overflows(ws, Members(c.passed), c.time) {
      RestartedOnTime(marked);
    } else {
      RaceBack(ws, marked);
      RaceKeepsNext(marked, ws, c.round, c.elected + c.miners, Members(c.passed));
      RaceKeepsClock(marked, ws, c.time, now, Members(c.passed));
      RaceKeepsOnTime(ws, marked, now);
      AdvancedOnTime(marked, now, c.round, c.elected + c.miners, Members(c.passed), c.time);
    }
  }

  lemma RaceBack(a: Table, b: Table)
    requires SameRace(a, b)
    ensures SameRace(b, a)
  {
  }

  lemma RaceKeepsOnTime(a: Table, b: Table, now: int)
    requires SameRace(a, b) && OnTime(a, now)
    ensures OnTime(b, now)
  {
  }

  lemma SameQueue(ws: Table, c: Choice)
    ensures Queued(AllRestarted(ws)) == Queued(ws) && Queued(Advanced(ws, Members(c.passed), c.time)) == Queued(ws)
  {
  }

  // ---- The shuffle ---------------------------------------------------------------------------

  /** The pseudo-random word of position i. */
  function Mix(nowHi: bv64, i: bv64): bv64 {
    var k0 := nowHi + i * 2685821657736338717;
    var k1 := k0 ^ (k0 >> 12);
    var k2 := k1 ^ (k1 << 25);
    var k3 := k2 ^ (k2 >> 27);
    k3 * 2685821657736338717
  }

  function Word(nowHi: bv64, i: nat): nat
    requires i < MAX_WITNESSES
  {
    Mix(nowHi, i as bv64) as nat
  }

  /** Which of the remaining positions i, i+1, ..., n-1 is swapped into position i. */
  function Draw(nowHi: bv64, i: nat, n: nat): (j: nat)
    requires i < n <= MAX_WITNESSES
    ensures i <= j < n
  {
    i + Word(nowHi, i) % (n - i)
  }

  /** Whole rounds over the remaining positions make no difference: any of them is drawn by some word. */
  lemma DrawCounts(nowHi: bv64, i: nat, n: nat, k: nat, m: nat)
    requires i < n <= MAX_WITNESSES && m < n - i && Word(nowHi, i) == k * (n - i) + m
    ensures Draw(nowHi, i, n) == i + m
  {
    hide Word;
    Remainder(k, n - i, m);
  }

  lemma Remainder(k: nat, d: nat, m: nat)
    requires m < d
    ensures (k * d + m) % d == m
  {
    var x := k * d + m;
    var q, r := x / d, x % d;
    assert x == q * d + r;
    assert (q - k) * d == q * d - k * d == m - r;
    AtLeastOnce(q - k, d);
    AtLeastOnce(k - q, d);
    assert (k - q) * d == k * d - q * d;
  }

  function Swapped(s: seq<Name>, i: nat, j: nat): (r: seq<Name>)
    requires i < |s| && j < |s|
    ensures |r| == |s| && multiset(r) == multiset(s)
  {
    SwapKeepsAll(s, i, j);
    s[i := s[j]][j := s[i]]
  }

  lemma SwapKeepsAll(s: seq<Name>, i: nat, j: nat)
    requires i < |s| && j < |s|
    ensures multiset(s[i := s[j]][j := s[i]]) == multiset(s)
  {
  }

  lemma SwapWithin(s: seq<Name>, i: nat, j: nat, n: nat)
    requires i <= j < n <= |s|
    ensures var t := Swapped(s, i, j); multiset(t[..n]) == multiset(s[..n]) && t[n..] == s[n..] && t[..i] == s[..i]
  {
    var t := Swapped(s, i, j);
    assert t[..n] == s[..n][i := s[j]][j := s[i]];
    SwapKeepsAll(s[..n], i, j);
  }

  lemma ShorterPrefix(r: seq<Name>, t: seq<Name>, i: nat)
    requires i < |r| && i < |t| && r[..i + 1] == t[..i + 1]
    ensures r[..i] == t[..i]
  {
    assert r[..i] == r[..i + 1][..i];
  }

  /** The shuffle as a function: positions i, i+1, ..., n-1 are drawn in turn. */
  function ShuffledFrom(s: seq<Name>, nowHi: bv64, i: nat, n: nat): (r: seq<Name>)
    requires i <= n <= |s| && n <= MAX_WITNESSES
    ensures |r| == |s|
    decreases n - i
  {
    if i == n then s else ShuffledFrom(Swapped(s, i, Draw(nowHi, i, n)), nowHi, i + 1, n)
  }

  lemma SwappedIs(s: seq<Name>, i: nat, j: nat, r: seq<Name>)
    requires i < |s| && j < |s| == |r| && r[i] == s[j] && r[j] == s[i]
    requires forall k | 0 <= k < |s| && k != i && k != j :: r[k] == s[k]
    ensures r == Swapped(s, i, j)
  {
  }

  lemma ShuffledStep(s: seq<Name>, nowHi: bv64, i: nat, n: nat)
    requires i < n <= |s| && n <= MAX_WITNESSES
    ensures ShuffledFrom(s, nowHi, i, n) == ShuffledFrom(Swapped(s, i, Draw(nowHi, i, n)), nowHi, i + 1, n)
  {
    hide Draw, Swapped;
  }

  lemma ShuffledNothing(s: seq<Name>, nowHi: bv64, n: nat)
    requires n <= |s| && n <= MAX_WITNESSES
    ensures ShuffledFrom(s, nowHi, n, n) == s
  {
  }

  /** A shuffle permutes the first n entries and leaves the others and what is already drawn alone. */
  lemma {:induction false} ShufflePermutes(s: seq<Name>, nowHi: bv64, i: nat, n: nat)
    requires i <= n <= |s| && n <= MAX_WITNESSES
    ensures var r := ShuffledFrom(s, nowHi, i, n);
      multiset(r[..n]) == multiset(s[..n]) && r[n..] == s[n..] && r[..i] == s[..i]
    decreases n - i
  {
    hide Draw, Swapped;
    if i < n {
      var j := Draw(nowHi, i, n);
      var t := Swapped(s, i, j);
      SwapWithin(s, i, j, n);
      ShufflePermutes(t, nowHi, i + 1, n);
      ShorterPrefix(ShuffledFrom(s, nowHi, i, n), t, i);
    }
  }

  function Padded(round: seq<Name>): (r: seq<Name>)
    requires |round| <= MAX_WITNESSES
    ensures |r| == MAX_WITNESSES && r[..|round|] == round
  {
    round + seq(MAX_WITNESSES - |round|, _ => "")
  }

  /** The buffer holds exactly the round, in some order, each witness once, and blanks behind it. */
  ghost predicate Scheduled(buffer: seq<Name>, round: seq<Name>) {
    && |buffer| == MAX_WITNESSES && |round| <= MAX_WITNESSES
    && Distinct(buffer[..|round|]) && Members(buffer[..|round|]) == Members(round)
    && forall i | |round| <= i < |buffer| :: buffer[i] == ""
  }

  lemma InstalledRound(round: seq<Name>, nowHi: bv64)
    requires |round| <= MAX_WITNESSES && Distinct(round)
    ensures Scheduled(ShuffledFrom(Padded(round), nowHi, 0, Max(|round|, 1)), round)
  {
    hide ShuffledFrom;
    var n := Max(|round|, 1);
    var p := Padded(round);
    var r := ShuffledFrom(p, nowHi, 0, n);
    ShufflePermutes(p, nowHi, 0, n);
    forall i | n <= i < |r| ensures r[i] == "" {
      assert r[n..][i - n] == p[n..][i - n];
    }
    if |round| > 0 {
      PermutedDistinct(r[..n], round);
    } else {
      assert p[..1] == [""];
      assert r[..1] == [r[0]];
      assert r[0] in multiset(p[..1]);
      assert Members(r[..0]) == Members(round);
    }
  }

  /** A permutation of distinct names is distinct and has the same members. */
  lemma PermutedDistinct(r: seq<Name>, s: seq<Name>)
    requires Distinct(s) && multiset(r) == multiset(s)
    ensures Distinct(r) && Members(r) == Members(s)
  {
    forall x ensures x in r <==> x in s {
      assert x in r <==> x in multiset(r);
      assert x in s <==> x in multiset(s);
    }
    forall i, j | 0 <= i < j < |r| ensures r[i] != r[j] {
      if r[i] == r[j] {
        TwiceCounted(r, i, j);
        assert r[i] in multiset(s);
        DistinctOnce(s, r[i]);
      }
    }
  }

  lemma TwiceCounted(r: seq<Name>, i: nat, j: nat)
    requires i < j < |r| && r[i] == r[j]
    ensures multiset(r)[r[i]] >= 2
  {
    assert r == r[..i] + [r[i]] + r[i + 1..j] + [r[j]] + r[j + 1..];
  }

  lemma {:induction false} DistinctOnce(s: seq<Name>, x: Name)
    requires Distinct(s)
    ensures multiset(s)[x] <= 1
    decreases |s|
  {
    if s != [] {
      var t := s[..|s| - 1];
      DistinctOnce(t, x);
      assert s == t + [s[|s| - 1]];
      if x == s[|s| - 1] {
        assert x !in t;
        assert x !in multiset(t);
      }
    }
  }

  /** The first n seats of the buffer are taken by different names, unless there is nobody; the rest are blank. */
  ghost predicate SeatsTaken(buffer: seq<Name>, n: nat) {
    && 1 <= n <= |buffer| && Distinct(buffer[..n]) && forall i | n <= i < |buffer| :: buffer[i] == ""
  }

  lemma RoundSeated(buffer: seq<Name>, round: seq<Name>)
    requires Scheduled(buffer, round)
    ensures SeatsTaken(buffer, Max(|round|, 1))
  {
  }

  // ---- Indexes -------------------------------------------------------------------------------

  function VoteKey(w: Witness): int {
    0 - w.votes
  }

  function PowKey(w: Witness): int {
    w.pow
  }

  function TimeKey(w: Witness): int {
    w.scheduled
  }

  /** Who is listed comes before who is left. */
  ghost predicate ListedFirst(s: seq<Name>, left: set<Name>, ws: Table, key: Witness -> int) {
    forall x, y | x in s && y in left :: x in ws && y in ws && key(ws[x]) <= key(ws[y])
  }

  lemma ListedOn(s: seq<Name>, left: set<Name>, ws: Table, key: Witness -> int, w: Name)
    requires InOrder(s, ws, key) && ListedFirst(s, left, ws, key) && left <= ws.Keys
    requires w in left && forall x | x in left :: key(ws[w]) <= key(ws[x])
    ensures InOrder(s + [w], ws, key) && ListedFirst(s + [w], left - {w}, ws, key)
  {
    var t := s + [w];
    forall i, j | 0 <= i < j < |t| ensures t[i] in ws && t[j] in ws && key(ws[t[i]]) <= key(ws[t[j]]) {
      assert i < |s| && t[i] == s[i] && s[i] in s;
    }
  }

  lemma NothingListed(left: set<Name>, ws: Table, key: Witness -> int)
    ensures InOrder([], ws, key) && ListedFirst([], left, ws, key)
  {
  }

  /** No place in the mining queue was given twice. */
  ghost predicate PlacesGiven(ws: Table, totalPow: nat) {
    forall w | w in ws :: ws[w].pow <= totalPow
  }

  lemma PlacesKept(ws: Table, c: Choice, queue: seq<Name>, totalPow: nat)
    requires PlacesGiven(ws, totalPow)
    ensures PlacesGiven(NextTable(ws, c, queue), totalPow)
  {
    hide Overflows;
  }

  ghost predicate InOrder(s: seq<Name>, ws: Table, key: Witness -> int) {
    forall i, j | 0 <= i < j < |s| :: s[i] in ws && s[j] in ws && key(ws[s[i]]) <= key(ws[s[j]])
  }

  lemma RankedByKeys(byVote: seq<Name>, queue: seq<Name>, byTime: seq<Name>, ws: Table)
    requires Lists(byVote, ws.Keys) && InOrder(byVote, ws, VoteKey)
    requires Lists(queue, Queued(ws)) && InOrder(queue, ws, PowKey)
    requires Lists(byTime, ws.Keys) && InOrder(byTime, ws, TimeKey)
    ensures ByVotes(byVote, ws) && ByPow(queue, ws) && ByTime(byTime, ws)
  {
  }

  // ---- The scheduler -------------------------------------------------------------------------

  datatype Step =
    | Update(w: Name, hasKey: bool)
    | Vote(w: Name, delta: int)
    | Work(w: Name)
    | Round(seconds: bv32)

  class Scheduler {
    var witnesses: Table
    var now: int
    var maxVoted: nat
    var maxMiner: nat
    var numPow: nat
    var numScheduled: nat
    var totalPow: nat
    var shuffled: array<Name>

    ghost predicate Valid()
      reads this
    {
      && OnTime(witnesses, now) && maxVoted + maxMiner <= MAX_WITNESSES && shuffled.Length == MAX_WITNESSES
      && numPow == |Queued(witnesses)| && PlacesGiven(witnesses, totalPow)
    }

    /** The buffer holds distinct names, as many as are scheduled. */
    ghost predicate Seated()
      reads `shuffled, `numScheduled, shuffled
    {
      SeatsTaken(shuffled[..], numScheduled)
    }

    /** A chain at its start: one witness, which mines, and nobody voted for. */
    constructor (miner: Name, maxVoted: nat, maxMiner: nat)
      requires maxVoted + maxMiner <= MAX_WITNESSES
      ensures Valid() && Seated() && fresh(shuffled) && now == 0
      ensures witnesses == map[miner := Witness(0, 0, 0, LAP, true, 0, Miner)]
    {
      this.maxVoted, this.maxMiner := maxVoted, maxMiner;
      witnesses := map[miner := Witness(0, 0, 0, LAP, true, 0, Miner)];
      now, numPow, numScheduled, totalPow := 0, 0, 1, 0;
      shuffled := new Name[MAX_WITNESSES](i => "");
      new;
      shuffled[0] := miner;
      assert Queued(witnesses) == {};
    }

    /** Proof of work puts a witness at the end of the mining queue, once. */
    method AddWork(w: Name) returns (ok: bool)
      requires Valid()
      modifies `witnesses, `numPow, `totalPow
      ensures Valid()
      ensures ok <==> (w in old(witnesses) ==> old(witnesses)[w].pow == 0)
      ensures !ok ==> witnesses == old(witnesses) && numPow == old(numPow) && totalPow == old(totalPow)
      ensures ok ==> numPow == old(numPow) + 1 && w in witnesses && witnesses - {w} == old(witnesses) - {w}
      ensures ok ==>
        witnesses[w] == (if w in old(witnesses) then old(witnesses)[w] else Witness(0, 0, 0, LAP, true, 0, Idle)).(
          pow := totalPow)
      ensures ok ==> forall x | x in witnesses && x != w :: witnesses[x].pow < witnesses[w].pow
    {
      if w in witnesses && witnesses[w].pow != 0 {
        return false;
      }
      totalPow := totalPow + 1;
      numPow := numPow + 1;
      if w in witnesses {
        witnesses := witnesses[w := witnesses[w].(pow := totalPow)];
      } else {
        witnesses := witnesses[w := Witness(0, 0, 0, LAP, true, totalPow, Idle)];
      }
      assert Queued(witnesses) == Queued(old(witnesses)) + {w};
      ok := true;
    }

    /** Sets the signing key of a witness; a new witness has no lap yet: its time is as late as can be. */
    method UpdateWitness(w: Name, hasKey: bool)
      requires Valid()
      modifies `witnesses
      ensures Valid()
      ensures w in old(witnesses) ==> witnesses == old(witnesses)[w := old(witnesses)[w].(hasKey := hasKey)]
      ensures w !in old(witnesses) ==> witnesses == old(witnesses)[w := Witness(0, 0, 0, LAP, hasKey, 0, Idle)]
    {
      if w in witnesses {
        witnesses := witnesses[w := witnesses[w].(hasKey := hasKey)];
      } else {
        witnesses := witnesses[w := Witness(0, 0, 0, LAP, hasKey, 0, Idle)];
      }
      assert Queued(witnesses) == Queued(old(witnesses));
    }

    /** Re-schedules one witness after a change of its votes. */
    method AdjustWitnessVote(w: Name, delta: int)
      requires Valid() && w in witnesses && witnesses[w].votes + delta >= 0
      modifies `witnesses
      ensures Valid() && witnesses == old(witnesses)[w := Adjusted(old(witnesses)[w], now, delta)]
      ensures var (was, became) := (old(witnesses)[w], witnesses[w]);
        && became.position == Wrap(was.position + was.votes * (now - was.lastUpdate))
        && became.votes == was.votes + delta && became.lastUpdate == now <= became.scheduled
    {
      PositionAdvances(witnesses[w], now, delta);
      witnesses := witnesses[w := Adjusted(witnesses[w], now, delta)];
      assert Queued(witnesses) == Queued(old(witnesses));
    }

    /** Starts virtual time over. */
    method ResetVirtualScheduleTime()
      modifies `witnesses, `now
      ensures now == 0 && witnesses == AllRestarted(old(witnesses))
    {
      now := 0;
      var todo := witnesses.Keys;
      while todo != {}
        invariant now == 0 && todo <= witnesses.Keys && witnesses.Keys == old(witnesses).Keys
        invariant forall w | w in witnesses ::
          witnesses[w] == if w in todo then old(witnesses)[w] else Restarted(old(witnesses)[w])
        decreases todo
      {
        var w :| w in todo;
        witnesses := witnesses[w := Restarted(witnesses[w])];
        todo := todo - {w};
      }
    }

    // ---- Choosing a round --------------------------------------------------------------------

    /** The top voted witnesses that can sign. */
    method SelectElected(byVote: seq<Name>) returns (elected: seq<Name>)
      requires ByVotes(byVote, witnesses)
      modifies `witnesses
      ensures TopVoted(elected, maxVoted, old(witnesses))
      ensures KindsSet(old(witnesses), witnesses, Members(elected), Elected)
    {
      hide KindsSet, VotesRead, TopVoted;
      elected := [];
      var i := 0;
      VotesReadNone(byVote, witnesses);
      KindsSetNone(witnesses, Members(elected), Elected);
      while i < |byVote| && |elected| < maxVoted
        invariant 0 <= i <= |byVote| && |elected| <= maxVoted
        invariant KindsSet(old(witnesses), witnesses, Members(elected), Elected)
        invariant VotesRead(byVote, i, elected, old(witnesses))
      {
        var w := byVote[i];
        VotesReadOn(byVote, i, elected, old(witnesses));
        KindsOnly(old(witnesses), witnesses, Members(elected), Elected, w);
        i := i + 1;
        if !witnesses[w].hasKey {
          continue;
        }
        KindsSetOn(old(witnesses), witnesses, Members(elected), Elected, w);
        assert Members(elected + [w]) == Members(elected) + {w};
        elected := elected + [w];
        witnesses := witnesses[w := witnesses[w].(kind := Elected)];
      }
      VotesTaken(byVote, i, elected, maxVoted, old(witnesses));
    }

    /** The next miners of the queue; everybody looked at leaves the queue. */
    method SelectMiners(queue: seq<Name>, elected: seq<Name>) returns (miners: seq<Name>, served: nat)
      requires ByPow(queue, witnesses) && numPow == |Queued(witnesses)|
      modifies `witnesses, `numPow
      ensures FirstMiners(miners, maxMiner, queue, served, elected, old(witnesses))
      ensures served <= |queue| && MinersSet(old(witnesses), witnesses, Members(queue[..served]), Members(miners))
      ensures numPow == |Queued(witnesses)|
    {
      hide FirstMiners, QueueRead, MinersSet, ByPow, Distinct;
      miners := [];
      var i := 0;
      QueueReadNone(queue, elected, witnesses);
      while i < |queue| && |miners| < maxMiner
        invariant 0 <= i <= |queue| && |miners| <= maxMiner && numPow == |queue| - i
        invariant MinersSet(old(witnesses), witnesses, Members(queue[..i]), Members(miners))
        invariant QueueRead(queue, i, miners, elected, old(witnesses))
      {
        var w := queue[i];
        QueueReadOn(queue, i, miners, elected, old(witnesses));
        MinersOnly(old(witnesses), witnesses, Members(queue[..i]), Members(miners), w);
        MinersSetOn(old(witnesses), witnesses, Members(queue[..i]), Members(miners), w);
        assert Members(queue[..i + 1]) == Members(queue[..i]) + {w} by { assert queue[..i + 1] == queue[..i] + [w]; }
        if w !in elected {
          if witnesses[w].hasKey {
            assert Members(miners + [w]) == Members(miners) + {w};
            miners := miners + [w];
            witnesses := witnesses[w := witnesses[w].(kind := Miner)];
          }
        }
        i := i + 1;
        witnesses := witnesses[w := witnesses[w].(pow := 0)];
        numPow := numPow - 1;
      }
      served := i;
      QueueTaken(queue, i, miners, maxMiner, elected, old(witnesses));
      QueueLeft(queue, i, miners, old(witnesses), witnesses);
    }

    /**
     The witnesses the virtual clock reaches next. Returns the round, how far the ranking was read and
     the new time.
     */
    method SelectTimeshare(byTime: seq<Name>, chosen: seq<Name>)
      returns (round: seq<Name>, passed: seq<Name>, time: int)
      requires ByTime(byTime, witnesses)
      requires Distinct(chosen) && Members(chosen) <= Keyed(witnesses) && |chosen| <= MAX_WITNESSES
      modifies `witnesses
      ensures EarliestNext(round, chosen, Members(passed), old(witnesses)) && Distinct(passed)
      ensures ClockAt(time, now, Members(passed), old(witnesses))
      ensures KindsSet(old(witnesses), witnesses, Members(round) - Members(chosen), Timeshare)
    {
      hide EarliestNext, ClockAt, TimesRead, KindsSet, ByTime, Distinct;
      TimesReadNone(byTime, chosen, witnesses);
      assert KindsSet(witnesses, witnesses, Members(chosen) - Members(chosen), Timeshare) by { KindsSetNone(witnesses,
          Members(chosen) - Members(chosen), Timeshare); }
      round := chosen;
      time := now;
      var i := 0;
      while i < |byTime| && |round| < MAX_WITNESSES
        invariant 0 <= i <= |byTime| && |round| <= MAX_WITNESSES
        invariant KindsSet(old(witnesses), witnesses, Members(round) - Members(chosen), Timeshare)
        invariant time ==
          if i == 0 then now else if byTime[i - 1] in old(witnesses) then old(witnesses)[byTime[i - 1]].scheduled else 0
        invariant TimesRead(byTime, i, round, chosen, old(witnesses))
      {
        var w := byTime[i];
        Ranked(byTime, i, old(witnesses));
        KindsOnly(old(witnesses), witnesses, Members(round) - Members(chosen), Timeshare, w);
        TimesReadOn(byTime, i, round, chosen, old(witnesses));
        time := witnesses[w].scheduled;
        i := i + 1;
        if !witnesses[w].hasKey {
          continue;
        }
        if w !in chosen {
          KindsSetOn(old(witnesses), witnesses, Members(round) - Members(chosen), Timeshare, w);
          assert Members(round + [w]) - Members(chosen) == Members(round) - Members(chosen) + {w};
          round := round + [w];
          witnesses := witnesses[w := witnesses[w].(kind := Timeshare)];
        }
      }
      passed := byTime[..i];
      TimesTaken(byTime, i, round, chosen, old(witnesses));
      TimeReached(byTime, i, time, now, old(witnesses));
      assert Distinct(passed) by { PassedDistinct(byTime, i, old(witnesses)); }
    }

    /** The witnesses the clock passed start a new lap, unless a lap would not fit: then time starts over. */
    method UpdateVirtualSchedule(passed: seq<Name>, time: int) returns (newTime: int, reset: bool)
      requires Members(passed) <= witnesses.Keys && Distinct(passed)
      modifies `witnesses, `now
      ensures reset <==> Overflows(old(witnesses), Members(passed), time)
      ensures Overflows(old(witnesses), Members(passed), time) ==> newTime == 0 == now
      ensures Overflows(old(witnesses), Members(passed), time) ==> witnesses == AllRestarted(old(witnesses))
      ensures !Overflows(old(witnesses), Members(passed), time) ==> newTime == time && now == old(now)
      ensures !Overflows(old(witnesses), Members(passed), time) ==>
        witnesses == Advanced(old(witnesses), Members(passed), time)
    {
      var i := 0;
      while i < |passed|
        invariant 0 <= i <= |passed| && now == old(now) && witnesses.Keys == old(witnesses).Keys
        invariant forall w | w in witnesses ::
                    witnesses[w] == if w in passed[..i] then Lapped(old(witnesses)[w], time) else old(witnesses)[w]
        invariant forall w | w in passed[..i] :: LapEnd(time, old(witnesses)[w].votes) < U128
      {
        var w := passed[i];
        assert w in Members(passed);
        PrefixSnoc(passed, i);
        if LapEnd(time, witnesses[w].votes) >= U128 {
          ghost var half := witnesses;
          ResetVirtualScheduleTime();
          assert forall x | x in half :: Restarted(half[x]) == Restarted(old(witnesses)[x]);
          return 0, true;
        }
        witnesses := witnesses[w := Lapped(witnesses[w], time)];
        i := i + 1;
      }
      assert passed[..i] == passed;
      newTime, reset := time, false;
    }

    /** Chooses a round: the elected, then the miners, then those the virtual clock reaches. */
    method ChooseRound(byVote: seq<Name>, queue: seq<Name>, byTime: seq<Name>) returns (c: Choice)
      requires Valid() && ByVotes(byVote, witnesses) && ByPow(queue, witnesses) && ByTime(byTime, witnesses)
      modifies `witnesses, `numPow
      ensures IsRound(c, maxVoted, maxMiner, queue, old(witnesses), now)
      ensures witnesses == Marked(old(witnesses), c, queue) && numPow == |Queued(witnesses)|
    {
      hide TopVoted, FirstMiners, EarliestNext, ClockAt, ByVotes, ByPow, ByTime, KindsSet, MinersSet, Marked,
           IsRound, SameRace, OnTime, Distinct, Queued;
      ghost var ws0 := witnesses;
      var elected := SelectElected(byVote);
      ghost var ws1 := witnesses;
      KindsKeepRace(ws0, ws1, Members(elected), Elected, queue, byTime);
      var miners, served := SelectMiners(queue, elected);
      ghost var ws2 := witnesses;
      MiningKeepsRace(ws0, ws1, ws2, miners, served, elected, queue, byTime, maxVoted, maxMiner);
      var round, passed, time := SelectTimeshare(byTime, elected + miners);
      KindsKeepQueue(ws2, witnesses, Members(round) - Members(elected + miners), Timeshare);
      c := Choice(elected, miners, served, round, passed, time);
      RoundChosen(c, maxVoted, maxMiner, queue, ws0, ws1, ws2, witnesses, now);
    }

    /** Writes the round into the shuffle buffer, blanks behind it, and shuffles. */
    method Install(round: seq<Name>, seconds: bv32)
      requires shuffled.Length == MAX_WITNESSES && |round| <= MAX_WITNESSES
      modifies `numScheduled, shuffled
      ensures numScheduled == Max(|round|, 1)
      ensures shuffled[..] == ShuffledFrom(Padded(round), seconds as bv64 << 32, 0, numScheduled)
    {
      hide Draw;
      var i := 0;
      while i < |round|
        invariant 0 <= i <= |round| && shuffled[..i] == round[..i]
      {
        shuffled[i] := round[i];
        i := i + 1;
      }
      while i < MAX_WITNESSES
        invariant |round| <= i <= MAX_WITNESSES && shuffled[..|round|] == round
        invariant forall k | |round| <= k < i :: shuffled[k] == ""
      {
        shuffled[i] := "";
        i := i + 1;
      }
      assert shuffled[..] == Padded(round);
      numScheduled := Max(|round|, 1);
      Shuffle(seconds as bv64 << 32);
    }

    /** The in-place shuffle. */
    method Shuffle(nowHi: bv64)
      requires numScheduled <= shuffled.Length == MAX_WITNESSES
      modifies shuffled
      ensures shuffled[..] == ShuffledFrom(old(shuffled[..]), nowHi, 0, numScheduled)
    {
      hide Draw, Swapped, ShuffledFrom;
      var i := 0;
      while i < numScheduled
        invariant 0 <= i <= numScheduled
        invariant ShuffledFrom(shuffled[..], nowHi, i, numScheduled) ==
          ShuffledFrom(old(shuffled[..]), nowHi, 0, numScheduled)
      {
        var j := Draw(nowHi, i, numScheduled);
        ghost var was := shuffled[..];
        shuffled[i], shuffled[j] := shuffled[j], shuffled[i];
        SwappedIs(was, i, j, shuffled[..]);
        ShuffledStep(was, nowHi, i, numScheduled);
        i := i + 1;
      }
      ShuffledNothing(shuffled[..], nowHi, numScheduled);
    }

    /**
     The next round. It fails exactly when fewer witnesses can sign than the round needs; a failed
     round fails the block, whose session restores the table.
     */
    method UpdateWitnessSchedule(byVote: seq<Name>, queue: seq<Name>, byTime: seq<Name>,
        seconds: bv32) returns (ok: bool, reset: bool, c: Choice)
      requires Valid() && ByVotes(byVote, witnesses) && ByPow(queue, witnesses) && ByTime(byTime, witnesses)
      modifies `witnesses, `now, `numPow, `numScheduled, shuffled
      ensures Valid()
      ensures ok <==> EnoughSigners(old(witnesses))
      ensures !ok ==> witnesses == old(witnesses) && now == old(now) && shuffled[..] == old(shuffled[..])
      ensures !ok ==> numScheduled == old(numScheduled)
      ensures IsRound(c, maxVoted, maxMiner, queue, old(witnesses), old(now))
      ensures ok ==> witnesses == NextTable(old(witnesses), c, queue) && now == NextTime(old(witnesses), c)
      ensures ok ==> (reset <==> Overflows(old(witnesses), Members(c.passed), c.time)) && (!reset ==> now >= old(now))
      ensures ok ==> numScheduled == Max(|c.round|, 1) && Scheduled(shuffled[..], c.round)
    {
      hide IsRound, ByVotes, ByPow, ByTime, OnTime, Marked, Advanced, AllRestarted, Overflows, EnoughSigners, Queued,
           Scheduled, ShuffledFrom, Padded, Distinct, SameRace, PlacesGiven;
      ghost var ws0 := witnesses;
      var table, pow := witnesses, numPow;
      c := ChooseRound(byVote, queue, byTime);
      RoundFits(c, maxVoted, maxMiner, queue, ws0, now);
      MarkedKeepsRace(ws0, c, queue);
      RaceKeepsSize(ws0, c, queue, now);
      var expected := Min(MAX_WITNESSES, |witnesses|);
      var time, oldNow := c.time, now;
      ghost var ws1 := witnesses;
      time, reset := UpdateVirtualSchedule(c.passed, time);
      NextOnTime(ws0, c, queue, maxVoted, maxMiner, oldNow);
      SameQueue(ws1, c);
      PlacesKept(ws0, c, queue, totalPow);
      ok := |c.round| == expected;
      if !ok {
        witnesses, numPow, now := table, pow, oldNow;
        return;
      }
      now := time;
      Install(c.round, seconds);
      InstalledRound(c.round, seconds as bv64 << 32);
    }

    // ---- Whole runs --------------------------------------------------------------------------

    /** The names in order of a key, as an ordered index lists them. Names of equal keys come in any order. */
    method Rank(names: set<Name>, key: Witness -> int) returns (s: seq<Name>)
      requires names <= witnesses.Keys
      ensures Lists(s, names)
      ensures InOrder(s, witnesses, key)
    {
      hide InOrder, ListedFirst;
      s := [];
      var left := names;
      assert InOrder(s, witnesses, key) && ListedFirst(s, left, witnesses, key) by {
        NothingListed(left, witnesses, key);
      }
      while left != {}
        invariant left <= names && Distinct(s) && Members(s) == names - left
        invariant InOrder(s, witnesses, key)
        invariant ListedFirst(s, left, witnesses, key)
        decreases left
      {
        var w := First(left, key);
        DistinctSnoc(s, w);
        ListedOn(s, left, witnesses, key, w);
        s := s + [w];
        left := left - {w};
      }
    }

    method First(names: set<Name>, key: Witness -> int) returns (w: Name)
      requires names != {} && names <= witnesses.Keys
      ensures w in names && forall x | x in names :: key(witnesses[w]) <= key(witnesses[x])
    {
      w :| w in names;
      var left := names - {w};
      while left != {}
        invariant left <= names && w in names
        invariant forall x | x in names - left :: key(witnesses[w]) <= key(witnesses[x])
        decreases left
      {
        var x :| x in left;
        if key(witnesses[x]) < key(witnesses[w]) {
          w := x;
        }
        left := left - {x};
      }
    }

    /** The next round, from the table's own indexes. */
    method NextRound(seconds: bv32) returns (ok: bool, reset: bool, c: Choice)
      requires Valid() && Seated()
      modifies `witnesses, `now, `numPow, `numScheduled, shuffled
      ensures Valid() && Seated()
      ensures ok <==> EnoughSigners(old(witnesses))
      ensures !ok ==> witnesses == old(witnesses) && now == old(now) && shuffled[..] == old(shuffled[..])
      ensures ok ==> Scheduled(shuffled[..], c.round)
      ensures !reset ==> now >= old(now)
    {
      hide OnTime, IsRound, NextTable, NextTime, Scheduled, EnoughSigners, ByVotes, ByPow, ByTime, Overflows, Lists,
           InOrder, PlacesGiven;
      var byVote := Rank(witnesses.Keys, VoteKey);
      var queue := Rank(Queued(witnesses), PowKey);
      var byTime := Rank(witnesses.Keys, TimeKey);
      RankedByKeys(byVote, queue, byTime, witnesses);
      ok, reset, c := UpdateWitnessSchedule(byVote, queue, byTime, seconds);
      if ok {
        RoundSeated(shuffled[..], c.round);
      } else {
        reset := false;
      }
    }

    /** One step of a chain. An operation that is not allowed changes nothing. */
    method Execute(step: Step) returns (reset: bool)
      requires Valid() && Seated()
      modifies `witnesses, `now, `numPow, `numScheduled, `totalPow, shuffled
      ensures Valid() && Seated()
      ensures !reset ==> now >= old(now)
    {
      hide OnTime, Queued, PlacesGiven;
      reset := false;
      match step {
        case Update(w, hasKey) =>
          UpdateWitness(w, hasKey);
        case Vote(w, delta) =>
          if w in witnesses && witnesses[w].votes + delta >= 0 {
            AdjustWitnessVote(w, delta);
          }
        case Work(w) =>
          var _ := AddWork(w);
        case Round(seconds) =>
          var ok, c;
          ok, reset, c := NextRound(seconds);
      }
    }

    /**
     Over every run nobody is scheduled in the past, the count of the mining queue is right, the
     buffer holds distinct names, and virtual time never goes back except to start over.
     */
    method Run(steps: seq<Step>) returns (resets: nat)
      requires Valid() && Seated()
      modifies `witnesses, `now, `numPow, `numScheduled, `totalPow, shuffled
      ensures Valid() && Seated()
      ensures resets == 0 ==> now >= old(now)
    {
      hide OnTime, Queued, PlacesGiven;
      resets := 0;
      var i := 0;
      while i < |steps|
        invariant 0 <= i <= |steps| && Valid() && Seated()
        invariant resets == 0 ==> now >= old(now)
      {
        var reset := Execute(steps[i]);
        resets := resets + if reset then 1 else 0;
        i := i + 1;
      }
    }
  }
}
