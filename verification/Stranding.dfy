/**
 A fork switch after which the chain is on neither branch. Two witnesses are scheduled. One of them
 signs both blocks of the old branch; both have built on the new branch when its third block turns
 out to be invalid, so a block of the new branch is irreversible by then and cannot be undone.
 */
module Stranding {
  import opened Blocks
  import opened ForkDatabase
  import opened ChainDatabase
  import opened Irreversible

  const CREW: seq<Name> := ["a", "b"]

  /** Blocks with an even body are signed by b, the others by a; a block with body 13 is invalid. */
  function Pair(): (r: Rules)
    ensures Manned(r)
  {
    Rules((b: Block) => b == Genesis || b.body != 13,
          (b: Block) => if b == Genesis || b.body % 2 == 1 then "a" else "b",
          (b: Block) => CREW)
  }

  /** The chain is at a block that a signed, above one that b signed. */
  function Start(base: Block): State
    requires Num(base) >= START_MINER_VOTING_BLOCK
  {
    Heights(base, Num(base) - 1, map["a" := Num(base), "b" := Num(base) - 1], CREW)
  }

  /** Of two witnesses the one that lags behind decides. */
  lemma LaterOfTwo(a: nat, b: nat)
    ensures Nth([a, b], Offset(2)) == if a < b then a else b
  {
    var v := if a < b then a else b;
    assert [a, b][1..] == [b];
    assert AtLeast([b], v) == 1 && AtLeast([a, b], v) == 2;
    assert AtLeast([b], v + 1) + (if a >= v + 1 then 1 else 0) == AtLeast([a, b], v + 1);
    NthUnique([a, b], Offset(2), Nth([a, b], Offset(2)), v);
  }

  lemma ReachedByTwo(c: map<Name, nat>, a: nat, b: nat)
    requires "a" in c && "b" in c && c["a"] == a && c["b"] == b
    ensures Reached(c, CREW) == [a, b]
  {
  }

  /** What a block does to a state with these two witnesses. */
  lemma {:induction false} OneStep(s: State, b: Block, x: nat, y: nat)
    requires b != Genesis && b.previous == s.head && b.body != 13 && Num(b) >= START_MINER_VOTING_BLOCK
    requires s.scheduled == CREW && s.confirmed == map["a" := x, "b" := y]
    ensures var a' := if b.body % 2 == 1 then Num(b) else x; var b' := if b.body % 2 == 1 then y else Num(b);
      var least := if a' < b' then a' else b'; var lib := if least > s.lib then least else s.lib;
      MachineOf(Pair()).step(s, b) == Some(Heights(b, lib, map["a" := a', "b" := b'], CREW))
  {
    hide Nth, Reached;
    var a', b' := if b.body % 2 == 1 then Num(b) else x, if b.body % 2 == 1 then y else Num(b);
    var c := s.confirmed[Pair().signer(b) := Num(b)];
    assert c == map["a" := a', "b" := b'];
    ReachedByTwo(c, a', b');
    LaterOfTwo(a', b');
  }

  /** The new branch replays up to its second block, by when its first one is irreversible, and no further. */
  lemma {:induction false} NewBranch(base: Block)
    requires Num(base) >= START_MINER_VOTING_BLOCK
    ensures var m, s, y2, y3, y4 := MachineOf(Pair()), Start(base), Block(base, 3), Block(Block(base, 3), 2),
        Block(Block(Block(base, 3), 2), 13);
      && ReplayTo(m, s, y4, Num(base) + 3).None? && ReplayTo(m, s, y4, Num(base) + 2).Some?
      && ReplayTo(m, s, y4, Num(base) + 2).value.lib == Num(base) + 1
      && !LibStays(m, s, y4, Num(base)) && LibStays(m, s, y4, Num(base) + 1)
  {
    hide Nth, Reached, Applied, At, Step, ReplayTo, InOrder, LibStays, Sound, Manned;
    var n, m, s := Num(base), MachineOf(Pair()), Start(base);
    var y2 := Block(base, 3);
    var y3 := Block(y2, 2);
    var y4 := Block(y3, 13);
    OneStep(s, y2, n, n - 1);
    var t2 := m.step(s, y2).value;
    OneStep(t2, y3, n + 1, n - 1);
    var t3 := m.step(t2, y3).value;
    Ancestors(base, y2, y3, y4);
    ReplayNone(m, s, y4);
    ReplayNext(m, s, y4, n, s);
    ReplayNext(m, s, y4, n + 1, t2);
    ReplayNext(m, s, y4, n + 2, t3);
    Invalid(t3, y4);
    MachineSound(Pair());
    LibStaysWhen(m, s, y4, n + 2, t3);
  }

  lemma Invalid(s: State, b: Block)
    requires b != Genesis && b.body == 13
    ensures MachineOf(Pair()).step(s, b) == None
  {
  }

  lemma ReplayNone<S(!new)>(m: Machine<S>, s: S, tip: Block)
    ensures ReplayTo(m, s, tip, Num(m.head(s))) == Some(s)
  {
  }

  lemma {:induction false} Ancestors(b1: Block, b2: Block, b3: Block, b4: Block)
    requires b2 != Genesis && b3 != Genesis && b4 != Genesis
    requires b2.previous == b1 && b3.previous == b2 && b4.previous == b3
    ensures var n := Num(b1); Num(b4) == n + 3 && At(b4, n + 3) == b4 && At(b4, n + 2) == b3 && At(b4, n + 1) == b2
    ensures At(b3, Num(b1) + 2) == b3 && At(b3, Num(b1) + 1) == b2
  {
    hide At, Num, IsAncestor;
    var n := Num(b1);
    NotItsParent(b2);
    NotItsParent(b3);
    NotItsParent(b4);
    AtParent(b4, n + 1);
    AtParent(b4, n + 2);
    AtParent(b3, n + 1);
    SelfAncestor(b4);
    SelfAncestor(b3);
    SelfAncestor(b2);
  }

  lemma {:induction false} Numbers(base: Block)
    ensures var x2, y2 := Block(base, 1), Block(base, 3); var n := Num(base);
      && Num(x2) == n + 1 && Num(Block(x2, 1)) == n + 2
      && Num(y2) == n + 1 && Num(Block(y2, 2)) == n + 2 && Num(Block(Block(y2, 2), 13)) == n + 3
  {
    hide Num;
    NotItsParent(Block(base, 1));
    NotItsParent(Block(Block(base, 1), 1));
    NotItsParent(Block(base, 3));
    NotItsParent(Block(Block(base, 3), 2));
    NotItsParent(Block(Block(Block(base, 3), 2), 13));
  }

  lemma AtParent(b: Block, n: nat)
    requires n < Num(b)
    ensures b != Genesis && At(b, n) == At(b.previous, n)
  {
  }

  /** The chain is on the old branch, which starts at base. */
  ghost predicate OnOldBranch(db: Database<State>, base: Block)
    requires Num(base) >= START_MINER_VOTING_BLOCK
    reads db, db.fork
  {
    && db.Valid() && db.machine == MachineOf(Pair()) && db.fork.root == base
    && db.Head() == Block(Block(base, 1), 1) == db.fork.head
    && |db.log| == Num(base) && |db.hist| > 0 && db.hist[0] == Start(base) && db.fork.maxSize == 4
  }

  method OldBranch(base: Block) returns (db: Database<State>)
    requires Num(base) >= START_MINER_VOTING_BLOCK
    ensures fresh(db) && fresh(db.fork) && OnOldBranch(db, base)
  {
    hide Nth, Reached, Applied, At, ReplayTo, Ancestry, Consistent, KeptIn, BothWalk, ForkState, Step, LibStays,
         InOrder, IsAncestor;
    var r, s, n := Pair(), Start(base), Num(base);
    MachineSound(r);
    NumZero(base);
    db := new Database<State>(MachineOf(r), s);
    var x2 := Block(base, 1);
    OneStep(s, x2, n, n - 1);
    Extend(db, x2);
    var x3 := Block(x2, 1);
    OneStep(db.state, x3, n + 1, n - 1);
    Extend(db, x3);
  }

  /** A valid block on top of a chain whose fork database is at the same head. */
  method Extend(db: Database<State>, b: Block)
    requires db.Valid() && b != Genesis && b.previous == db.Head() == db.fork.head
    requires db.machine.step(db.state, b).Some?
    modifies db, db.fork
    ensures db.Valid() && db.machine.step(old(db.state), b) == Some(db.state)
    ensures |old(db.hist)| > 0 && db.hist == old(db.hist) + [db.state] && db.fork.head == b
    ensures var lib := db.machine.lib(db.state); |db.log| == if lib > |old(db.log)| then lib else |old(db.log)|
    ensures db.machine.lib(db.state) <= Num(b) && db.fork.maxSize == Num(b) - db.machine.lib(db.state) + 1
  {
    hide At, Consistent, KeptIn, ReplayTo, Ancestry, IsAncestor, Sound;
    HeadKept(db);
    NotItsParent(b);
    ConsistentBounds(db.machine, db.fork.root, db.state, db.undo, db.log, db.hist);
    LibBelow(db.machine, db.state, b);
    var outcome := db.PushBlock(b);
  }

  lemma LibBelow(m: Machine<State>, s: State, b: Block)
    requires Sound(m) && m.step(s, b).Some?
    ensures m.head(m.step(s, b).value) == b && m.lib(m.step(s, b).value) <= Num(b)
  {
  }

  lemma HeadKept(db: Database<State>)
    requires db.Valid()
    ensures db.Head() in db.fork.index
  {
    ConsistentBounds(db.machine, db.fork.root, db.state, db.undo, db.log, db.hist);
    TopKept(db.fork.index, db.Head(), |db.log|);
  }
  /** A block on a branch that is not longer is remembered. */
  method Remember(db: Database<State>, b: Block, base: Block)
    requires Num(base) >= START_MINER_VOTING_BLOCK && OnOldBranch(db, base)
    requires b != Genesis && b.previous in db.fork.index && Num(base) < Num(b) <= Num(base) + 2
    modifies db, db.fork
    ensures OnOldBranch(db, base) && db.fork.index == old(db.fork.index) + {b}
  {
    hide At, Consistent, KeptIn, ReplayTo, Ancestry, IsAncestor, Start, Pair, MachineOf, Num;
    Numbers(base);
    var outcome := db.PushBlock(b);
  }

  lemma {:induction false} OldBranchKept(db: Database<State>, base: Block)
    requires Num(base) >= START_MINER_VOTING_BLOCK && OnOldBranch(db, base)
    ensures {base, Block(base, 1), Block(Block(base, 1), 1)} <= db.fork.index
  {
    hide Consistent, At, Start, Pair, MachineOf;
    var x2 := Block(base, 1);
    var x3 := Block(x2, 1);
    var n := Num(base);
    Ancestors(base, x2, x3, Block(x3, 1));
    assert At(x3, n) == base by { AtBase(base); }
    assert At(x3, n) in db.fork.index && At(x3, n + 1) in db.fork.index && At(x3, n + 2) in db.fork.index;
  }

  lemma {:induction false} AtBase(base: Block)
    ensures At(Block(Block(base, 1), 1), Num(base)) == base
  {
    var x2 := Block(base, 1);
    assert At(x2, Num(base)) == At(base, Num(base)) == base;
  }

  /** Both branches can be walked down to base, where they part. */
  lemma {:induction false} BranchesWalk(index: set<Block>, base: Block)
    requires Num(base) > 0
    requires var x2, y2 := Block(base, 1), Block(base, 3); {base, x2, Block(x2, 1), y2, Block(y2, 2)} <= index
    ensures var x3, y4 := Block(Block(base, 1), 1), Block(Block(Block(base, 3), 2), 13);
      ForkPoint(y4, x3) == base && BothWalk(index + {y4}, y4, base, y4, x3)
  {
    hide At;
    var x2, y2 := Block(base, 1), Block(base, 3);
    var x3, y3 := Block(x2, 1), Block(y2, 2);
    var y4 := Block(y3, 13);
    assert ForkPoint(y4, x3) == ForkPoint(y3, x3) == ForkPoint(y2, x2) == base;
    Ancestors(base, y2, y3, y4);
    Ancestors(base, x2, x3, Block(x3, 1));
    NumZero(base);
    forall m: nat | Num(base) + 1 < m <= Num(y4) ensures Lock(index + {y4}, y4, base, At(y4, m)).Some? {
      assert m == Num(base) + 2 || m == Num(base) + 3;
    }
    forall m: nat | Num(base) + 1 < m <= Num(x3) ensures Lock(index + {y4}, y4, base, At(x3, m)).Some? {
      assert m == Num(base) + 2;
    }
  }

  /** What the last block of the new branch meets. */
  lemma {:induction false} NotYet(db: Database<State>, base: Block)
    requires Num(base) >= START_MINER_VOTING_BLOCK && OnOldBranch(db, base)
    requires Block(Block(base, 3), 2) in db.fork.index
    ensures var y4 := Block(Block(Block(base, 3), 2), 13);
      db.Longer(y4) && db.HeadAfter(y4) == y4 && Num(y4) == Num(base) + 3
  {
    hide Start, Pair, MachineOf, Consistent, KeptIn, Num;
    Numbers(base);
  }

  /**
   On a chain with any past the invalid block leaves the node on the new branch, at the block that
   became irreversible: neither where it was nor where it was going.
   */
  method SwitchStrands(base: Block) returns (outcome: Outcome, before: Block, after: Block)
    requires Num(base) >= START_MINER_VOTING_BLOCK
    ensures outcome == Broken && before == Block(Block(base, 1), 1) && after == Block(base, 3)
  {
    hide Num, Consistent, KeptIn, Pair, MachineOf, Start;
    var db := OldBranch(base);
    before := db.Head();
    OldBranchKept(db, base);
    Numbers(base);
    Remember(db, Block(base, 3), base);
    Remember(db, Block(Block(base, 3), 2), base);
    outcome := LastBlock(db, base);
    after := db.Head();
  }

  method LastBlock(db: Database<State>, base: Block) returns (outcome: Outcome)
    requires Num(base) >= START_MINER_VOTING_BLOCK && OnOldBranch(db, base)
    requires {Block(base, 3), Block(Block(base, 3), 2)} <= db.fork.index
    modifies db, db.fork
    ensures outcome == Broken && db.Head() == Block(base, 3)
  {
    hide At, Consistent, KeptIn, ReplayTo, Ancestry, IsAncestor, LibStays, ForkPoint, BothWalk, Pair, MachineOf, Start,
         InOrder, Num;
    var y2 := Block(base, 3);
    var y3 := Block(y2, 2);
    var y4 := Block(y3, 13);
    Numbers(base);
    OldBranchKept(db, base);
    BranchesWalk(db.fork.index, base);
    NewBranch(base);
    NotYet(db, base);
    ghost var m, s, n := db.machine, Start(base), Num(base);
    assert db.AtFork(y4) == s;
    outcome := db.PushBlock(y4);
    assert !LibStays(m, s, y4, n) && LibStays(m, s, y4, n + 1);
    Ancestors(base, y2, y3, y4);
    TopOf(db.Head(), y4);
  }
}
