/**
 How the last irreversible block number is advanced: by distance in the first month of the chain,
 afterwards to the highest block that three quarters of the scheduled witnesses have built upon; and
 chain states stepped by it, which are what the chain database asks of its machine.
 */
module Irreversible {
  import opened Blocks
  import ChainDatabase

  type Name = string

  const MAX_WITNESSES: nat := 21
  const START_MINER_VOTING_BLOCK: nat := 28800 * 30
  const PERCENT_100: nat := 10000
  const IRREVERSIBLE_THRESHOLD: nat := 7500

  /** How many entries are at least v. */
  function AtLeast(s: seq<nat>, v: nat): (n: nat)
    ensures n <= |s|
  {
    if s == [] then 0 else (if s[0] >= v then 1 else 0) + AtLeast(s[1..], v)
  }

  /** v is what stands at index k once s is in ascending order. */
  ghost predicate IsNth(s: seq<nat>, k: nat, v: nat) {
    v in s && AtLeast(s, v) >= |s| - k > AtLeast(s, v + 1)
  }

  lemma {:induction false} AtLeastFewer(s: seq<nat>, u: nat, v: nat)
    requires u <= v
    ensures AtLeast(s, v) <= AtLeast(s, u)
  {
    if s != [] {
      AtLeastFewer(s[1..], u, v);
    }
  }

  lemma {:induction false} AtLeastZero(s: seq<nat>)
    ensures AtLeast(s, 0) == |s|
  {
    if s != [] {
      AtLeastZero(s[1..]);
    }
  }

  /** The rank condition has at most one solution. */
  lemma NthUnique(s: seq<nat>, k: nat, u: nat, v: nat)
    requires IsNth(s, k, u) && IsNth(s, k, v)
    ensures u == v
  {
    if u < v {
      AtLeastFewer(s, u + 1, v);
    } else if v < u {
      AtLeastFewer(s, v + 1, u);
    }
  }

  /** Lowering a bound to the next entry that occurs does not change the count. */
  lemma {:induction false} AtLeastGap(s: seq<nat>, v: nat)
    requires v !in s
    ensures AtLeast(s, v) == AtLeast(s, v + 1)
  {
    if s != [] {
      assert s[0] in s;
      forall x | x in s[1..] ensures x in s {}
      AtLeastGap(s[1..], v);
    }
  }

  lemma {:induction false} AtLeastNone(s: seq<nat>, v: nat)
    requires forall x | x in s :: x < v
    ensures AtLeast(s, v) == 0
  {
    if s != [] {
      assert s[0] in s;
      forall x | x in s[1..] ensures x < v { assert x in s; }
      AtLeastNone(s[1..], v);
    }
  }

  /** The element that partial sorting puts at index k. */
  method NthElement(s: seq<nat>, k: nat) returns (v: nat)
    requires k < |s|
    ensures IsNth(s, k, v)
  {
    var top := s[0];
    for i := 0 to |s|
      invariant forall j | 0 <= j < i :: s[j] <= top
    {
      if s[i] > top { top := s[i]; }
    }
    v := top + 1;
    AtLeastNone(s, v);
    AtLeastFewer(s, v, v + 1);
    AtLeastZero(s);
    while v > 0 && AtLeast(s, v) < |s| - k
      invariant AtLeast(s, v) < |s| - k ==> v > 0
      invariant AtLeast(s, v + 1) < |s| - k
      decreases v
    {
      AtLeastFewer(s, v - 1, v);
      v := v - 1;
    }
    if v !in s {
      AtLeastGap(s, v);
    }
  }

  /** The same by definition: the first value from the top that enough entries reach. */
  function Nth(s: seq<nat>, k: nat): (v: nat)
    requires k < |s|
    ensures IsNth(s, k, v)
  {
    AtLeastNone(s, Top(s) + 1);
    AtLeastZero(s);
    NthDown(s, k, Top(s))
  }

  function NthDown(s: seq<nat>, k: nat, v: nat): (r: nat)
    requires k < |s| && AtLeast(s, v + 1) < |s| - k <= AtLeast(s, 0)
    ensures IsNth(s, k, r)
    decreases v
  {
    if AtLeast(s, v) >= |s| - k then if v !in s then AtLeastGap(s, v); v else v
    else NthDown(s, k, v - 1)
  }

  function Top(s: seq<nat>): (r: nat)
    ensures forall x | x in s :: x <= r
  {
    if s == [] then 0 else
      assert forall x | x in s :: x == s[0] || x in s[1..];
      var t := Top(s[1..]); if s[0] > t then s[0] else t
  }

  function Offset(n: nat): nat {
    (PERCENT_100 - IRREVERSIBLE_THRESHOLD) * n / PERCENT_100
  }

  /** The number after a block at height `head`, given the last block each scheduled witness signed. */
  function NextLib(head: nat, lib: nat, confirmed: seq<nat>): nat
    requires head >= START_MINER_VOTING_BLOCK ==> confirmed != []
  {
    if head < START_MINER_VOTING_BLOCK then if head > MAX_WITNESSES then head - MAX_WITNESSES else lib
    else
      var v := Nth(confirmed, Offset(|confirmed|));
      if v > lib then v else lib
  }

  method UpdateLastIrreversibleBlock(head: nat, lib: nat, confirmed: seq<nat>) returns (r: nat)
    requires head >= START_MINER_VOTING_BLOCK ==> confirmed != []
    ensures r == NextLib(head, lib, confirmed)
    ensures head < START_MINER_VOTING_BLOCK ==> r == if head > MAX_WITNESSES then head - MAX_WITNESSES else lib
    ensures head >= START_MINER_VOTING_BLOCK ==>
              var offset := Offset(|confirmed|);
              r >= lib && (r == lib || IsNth(confirmed, offset, r))
              && forall v: nat | IsNth(confirmed, offset, v) :: v <= r
  {
    hide IsNth;
    r := lib;
    if head < START_MINER_VOTING_BLOCK {
      if head > MAX_WITNESSES {
        r := head - MAX_WITNESSES;
      }
    } else {
      var offset := Offset(|confirmed|);
      var next := NthElement(confirmed, offset);
      forall v: nat | IsNth(confirmed, offset, v) ensures v == next { NthUnique(confirmed, offset, v, next); }
      assert Nth(confirmed, offset) == next;
      if next > lib {
        r := next;
      }
    }
  }

  /** The block chosen by vote is the highest that three quarters of the witnesses have reached. */
  lemma ThreeQuarters(confirmed: seq<nat>, v: nat, u: nat)
    requires confirmed != []
    requires IsNth(confirmed, Offset(|confirmed|), v)
    ensures AtLeast(confirmed, v) * PERCENT_100 >= IRREVERSIBLE_THRESHOLD * |confirmed|
    ensures u > v ==> AtLeast(confirmed, u) * PERCENT_100 < IRREVERSIBLE_THRESHOLD * |confirmed|
  {
    if u > v {
      AtLeastFewer(confirmed, v + 1, u);
    }
  }

  /** The height of the distance rule once a chain has run through it from the start. */
  function ByDistance(head: nat): nat {
    if head > MAX_WITNESSES then head - MAX_WITNESSES else 0
  }

  /** With two or more scheduled witnesses, of which only one signed the head, the head is not irreversible yet. */
  lemma BelowHead(head: nat, confirmed: seq<nat>, v: nat)
    requires |confirmed| >= 2 && AtLeast(confirmed, head) <= 1
    requires IsNth(confirmed, Offset(|confirmed|), v)
    ensures v < head
  {
    if v >= head {
      AtLeastFewer(confirmed, head, v);
    }
  }
  /** With a single scheduled witness every block is irreversible as soon as it is applied. */
  lemma OneWitness(head: nat, lib: nat)
    requires head >= START_MINER_VOTING_BLOCK && lib <= head
    ensures NextLib(head, lib, [head]) == head
  {
    assert AtLeast([head], head) == 1 && AtLeast([head], head + 1) == 0;
    assert IsNth([head], Offset(1), head);
    NthUnique([head], Offset(1), Nth([head], Offset(1)), head);
  }

  // ---- Chain states --------------------------------------------------------------------------

  /**
   Whether a block is valid on its chain, who signed it, and who is scheduled from the next block on.
   A block stands for its whole chain.
   */
  datatype Rules = Rules(valid: Block -> bool, signer: Block -> Name, schedule: Block -> seq<Name>)

  ghost predicate Distinct(s: seq<Name>) {
    forall i, j | 0 <= i < j < |s| :: s[i] != s[j]
  }

  /** Different witnesses, at least two of them when the block above height n is decided by vote. */
  ghost predicate Crew(scheduled: seq<Name>, n: nat) {
    && scheduled != [] && Distinct(scheduled)
    && (n + 1 >= START_MINER_VOTING_BLOCK ==> |scheduled| >= 2)
  }

  /** Somebody is always scheduled, and at least two witnesses from the block on where voting starts. */
  ghost predicate Manned(r: Rules) {
    forall b :: Crew(r.schedule(b), Num(b))
  }

  /** The part of the chain state that decides what is irreversible. */
  datatype Heights = Heights(head: Block, lib: nat, confirmed: map<Name, nat>, scheduled: seq<Name>)

  /** The last block a witness signed. */
  function Confirmed(c: map<Name, nat>, w: Name): nat {
    if w in c then c[w] else 0
  }

  ghost predicate InOrder(s: Heights) {
    && Crew(s.scheduled, Num(s.head))
    && (s.head == Genesis ==> s.lib == 0) && (s.head != Genesis ==> s.lib < Num(s.head))
    && (Num(s.head) < START_MINER_VOTING_BLOCK ==> s.lib == ByDistance(Num(s.head)))
    && forall w | w in s.confirmed :: s.confirmed[w] <= Num(s.head)
  }

  type State = s: Heights | InOrder(s) ghost witness Heights(Genesis, 0, map[], ["a"])

  function Reached(c: map<Name, nat>, scheduled: seq<Name>): (r: seq<nat>)
    ensures |r| == |scheduled|
  {
    seq(|scheduled|, i requires 0 <= i < |scheduled| => Confirmed(c, scheduled[i]))
  }

  /** A block on top of the head: its signer has reached it, the number moves on, and the next round may begin. */
  function Applied(r: Rules, s: State, b: Block): Heights
    requires b != Genesis
  {
    var c := s.confirmed[r.signer(b) := Num(b)];
    Heights(b, NextLib(Num(b), s.lib, Reached(c, s.scheduled)), c, r.schedule(b))
  }

  /** Only the signer has reached the new head. */
  lemma {:induction false} OneReached(c: map<Name, nat>, scheduled: seq<Name>, w: Name, n: nat)
    requires Distinct(scheduled) && n > 0 && forall x | x in c :: c[x] < n
    ensures AtLeast(Reached(c[w := n], scheduled), n) <= 1
    ensures w !in scheduled ==> AtLeast(Reached(c[w := n], scheduled), n) == 0
  {
    if scheduled != [] {
      var rest := scheduled[1..];
      OneReached(c, rest, w, n);
      assert Reached(c[w := n], scheduled)[1..] == Reached(c[w := n], rest);
      if scheduled[0] == w {
        assert w !in rest;
      }
    }
  }

  /** The number never moves back, under either rule and across the change of rules, and stays below the head. */
  lemma AppliedInOrder(r: Rules, s: State, b: Block)
    requires Manned(r) && b != Genesis && b.previous == s.head
    ensures InOrder(Applied(r, s, b)) && s.lib <= Applied(r, s, b).lib < Num(b)
  {
    hide AtLeast, IsNth, Reached;
    var n, c := Num(b), s.confirmed[r.signer(b) := Num(b)];
    var reached := Reached(c, s.scheduled);
    assert n == Num(s.head) + 1;
    if n >= START_MINER_VOTING_BLOCK {
      OneReached(s.confirmed, s.scheduled, r.signer(b), n);
      BelowHead(n, reached, Nth(reached, Offset(|reached|)));
    }
  }

  function Step(r: Rules, s: State, b: Block): Option<State>
    requires Manned(r)
  {
    if b == Genesis || b.previous != s.head || !r.valid(b) then None
    else AppliedInOrder(r, s, b); Some(Applied(r, s, b))
  }

  /** The machine of a chain with these rules. */
  function MachineOf(r: Rules): ChainDatabase.Machine<State>
    requires Manned(r)
  {
    ChainDatabase.Machine((s, b) => Step(r, s, b), (s: State) => s.head, (s: State) => s.lib)
  }

  /** The rules of irreversibility give the chain database what it asks for. */
  lemma MachineSound(r: Rules)
    requires Manned(r)
    ensures ChainDatabase.Sound(MachineOf(r))
  {
    var m := MachineOf(r);
    forall s: State, b | m.step(s, b).Some? ensures
        var t := m.step(s, b).value;
        b != Genesis && m.head(s) == b.previous && m.head(t) == b && m.lib(s) <= m.lib(t) < Num(b) {
      AppliedInOrder(r, s, b);
    }
  }

  /**
   Along every chain the number never moves back; it is the distance rule's as long as that is in
   force, and at no time is the head itself irreversible. Chains from the very first block, with the
   one witness they start with, are included.
   */
  lemma LibNeverMovesBack(r: Rules, hist: seq<State>, i: nat, k: nat)
    requires Manned(r) && ChainDatabase.Chain(MachineOf(r), hist) && i <= k < |hist|
    ensures hist[i].lib <= hist[k].lib && Num(hist[k].head) == Num(hist[i].head) + k - i
    ensures Num(hist[k].head) < START_MINER_VOTING_BLOCK ==> hist[k].lib == ByDistance(Num(hist[k].head))
    ensures hist[k].head != Genesis ==> hist[k].lib < Num(hist[k].head)
  {
    MachineSound(r);
    ChainDatabase.ChainAncestors(MachineOf(r), hist, i, k);
  }
}
