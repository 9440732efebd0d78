/**
 The chain database around the fork database: applying blocks, undoing them, switching forks with
 rollback, advancing the irreversible block, writing it to the block log and pruning.

 Applying a block is an abstract deterministic partial function on chain states. Undo is a stack
 of exact snapshots, one for every block above the last committed one.
 */
module ChainDatabase {
  import opened Blocks
  import opened ForkDatabase

  /** What a block does to the chain state, which block a state is at, and what is irreversible in it. */
  datatype Machine<!S> = Machine(step: (S, Block) -> Option<S>, head: S -> Block, lib: S -> nat)

  /** A block applies only on top of its parent; the irreversible block never moves back and stays below the head. */
  ghost predicate Sound<S(!new)>(m: Machine<S>) {
    forall s, b {:trigger m.step(s, b)} ::
      m.step(s, b).Some? ==>
        var t := m.step(s, b).value;
        b != Genesis && m.head(s) == b.previous && m.head(t) == b && m.lib(s) <= m.lib(t) < Num(b)
  }

  /** State k follows from the one before it. */
  ghost predicate Follows<S(!new)>(m: Machine<S>, hist: seq<S>, k: nat)
    requires 1 <= k < |hist|
  {
    m.step(hist[k - 1], m.head(hist[k])) == Some(hist[k])
  }

  /** Consecutive states of one chain. */
  ghost predicate Chain<S(!new)>(m: Machine<S>, hist: seq<S>) {
    |hist| > 0 && forall k: nat | 1 <= k < |hist| :: Follows(m, hist, k)
  }

  /** The state after replaying, from s, the blocks of tip's ancestry up to height n. */
  ghost function ReplayTo<S(!new)>(m: Machine<S>, s: S, tip: Block, n: nat): Option<S> {
    if n <= Num(m.head(s)) then Some(s)
    else
      match ReplayTo(m, s, tip, n - 1)
      case None => None
      case Some(t) => m.step(t, At(tip, n))
  }

  /** The irreversible block does not get past height n while tip's branch is replayed from s. */
  ghost predicate LibStays<S(!new)>(m: Machine<S>, s: S, tip: Block, n: nat) {
    forall k: nat | k <= Num(tip) && ReplayTo(m, s, tip, k).Some? :: m.lib(ReplayTo(m, s, tip, k).value) <= n
  }

  /** The recent blocks of h's chain, from height low up, are all kept. */
  ghost predicate KeptIn(index: set<Block>, h: Block, low: nat) {
    forall n: nat | low <= n <= Num(h) :: At(h, n) in index
  }

  /** Snapshots of consecutive heights. */
  ghost predicate Numbered<S(!new)>(m: Machine<S>, undo: seq<S>) {
    forall i: nat | i < |undo| :: Num(m.head(undo[i])) == Num(m.head(undo[0])) + i
  }

  /** s is the last of a chain of states that starts at the block the node was opened with. */
  ghost predicate History<S(!new)>(m: Machine<S>, root: Block, s: S, hist: seq<S>) {
    Sound(m) && Chain(m, hist) && m.head(hist[0]) == root && s == hist[|hist| - 1]
  }

  /** The log is the ancestry of the head, up to the last irreversible block written. */
  ghost predicate Logged<S(!new)>(m: Machine<S>, root: Block, s: S, log: seq<Block>) {
    Num(root) <= |log| <= Num(m.head(s)) && log == Ancestry(m.head(s))[..|log|] && m.lib(s) <= |log|
  }

  /** There is one snapshot for every block above height n. */
  ghost predicate Snapshots<S(!new)>(root: Block, n: nat, undo: seq<S>, hist: seq<S>) {
    0 <= n - Num(root) < |hist| && undo == hist[n - Num(root)..|hist| - 1]
  }

  ghost predicate Consistent<S(!new)>(m: Machine<S>, root: Block, s: S, undo: seq<S>, log: seq<Block>, hist: seq<S>) {
    History(m, root, s, hist) && Logged(m, root, s, log) && Snapshots(root, |log|, undo, hist)
  }

  datatype Outcome = Extended | Switched | Ignored | Rejected | Broken

  // ---- Chains of states ----------------------------------------------------------------------

  lemma {:induction false} ChainHeads<S(!new)>(m: Machine<S>, hist: seq<S>, k: nat)
    requires Sound(m) && Chain(m, hist) && k < |hist|
    ensures Num(m.head(hist[k])) == Num(m.head(hist[0])) + k
    ensures m.lib(hist[0]) <= m.lib(hist[k])
    decreases k
  {
    if k > 0 {
      assert Follows(m, hist, k);
      ChainHeads(m, hist, k - 1);
    }
  }

  lemma {:induction false} ChainAncestors<S(!new)>(m: Machine<S>, hist: seq<S>, i: nat, k: nat)
    requires Sound(m) && Chain(m, hist) && i <= k < |hist|
    ensures IsAncestor(m.head(hist[i]), m.head(hist[k]))
    ensures Num(m.head(hist[k])) == Num(m.head(hist[i])) + k - i
    ensures m.lib(hist[i]) <= m.lib(hist[k])
    decreases k
  {
    if i < k {
      ChainAncestors(m, hist, i, k - 1);
      assert Follows(m, hist, k);
      assert m.head(hist[k]).previous == m.head(hist[k - 1]);
    }
  }

  lemma ChainPrefix<S(!new)>(m: Machine<S>, hist: seq<S>, n: nat)
    requires Chain(m, hist) && 0 < n <= |hist|
    ensures Chain(m, hist[..n])
  {
    forall k: nat | 1 <= k < n ensures Follows(m, hist[..n], k) { assert Follows(m, hist, k); }
  }

  lemma ChainExtend<S(!new)>(m: Machine<S>, hist: seq<S>, t: S)
    requires Chain(m, hist) && m.step(hist[|hist| - 1], m.head(t)) == Some(t)
    ensures Chain(m, hist + [t])
  {
    forall k: nat | 1 <= k <= |hist| ensures Follows(m, hist + [t], k) {
      if k < |hist| { assert Follows(m, hist, k); }
    }
  }

  /** Each state of a chain is the replay of its head's ancestry from any earlier state. */
  lemma {:induction false} ChainReplays<S(!new)>(m: Machine<S>, hist: seq<S>, i: nat, k: nat, tip: Block)
    requires Sound(m) && Chain(m, hist) && i <= k < |hist| && IsAncestor(m.head(hist[k]), tip)
    ensures ReplayTo(m, hist[i], tip, Num(m.head(hist[k]))) == Some(hist[k])
    decreases k
  {
    if i < k {
      ChainAncestors(m, hist, i, k);
      ChainAncestors(m, hist, k - 1, k);
      AncestorTrans(m.head(hist[k - 1]), m.head(hist[k]), tip);
      ChainReplays(m, hist, i, k - 1, tip);
      assert Follows(m, hist, k);
      ReplayStep(m, hist[i], tip, hist[k - 1], hist[k]);
    }
  }

  lemma ReplayStep<S(!new)>(m: Machine<S>, s: S, tip: Block, t: S, u: S)
    requires Sound(m) && Num(m.head(t)) >= Num(m.head(s)) && IsAncestor(m.head(u), tip)
    requires ReplayTo(m, s, tip, Num(m.head(t))) == Some(t) && m.step(t, m.head(u)) == Some(u)
    ensures ReplayTo(m, s, tip, Num(m.head(u))) == Some(u)
  {
    hide At;
    assert Num(m.head(u)) == Num(m.head(t)) + 1;
    assert At(tip, Num(m.head(u))) == m.head(u);
  }

  lemma KeptPrevious(index: set<Block>, h: Block, low: nat)
    requires KeptIn(index, h, low) && h != Genesis && low < Num(h)
    ensures KeptIn(index, h.previous, low)
  {
    forall n: nat | low <= n <= Num(h.previous) ensures At(h.previous, n) in index {
      assert At(h, n) == At(h.previous, n);
    }
  }

  lemma KeptNext(index: set<Block>, h: Block, low: nat)
    requires h != Genesis && h in index && KeptIn(index, h.previous, low)
    ensures KeptIn(index, h, low)
  {
    forall n: nat | low <= n <= Num(h) ensures At(h, n) in index {
      if n < Num(h) { assert At(h, n) == At(h.previous, n); }
    }
  }

  /** What keeps recent blocks can be walked: from a head that shares its parent with h, down to height n. */
  lemma KeptWalks(index: set<Block>, root: Block, head: Block, h: Block, low: nat, n: nat)
    requires head != Genesis && h != Genesis && head.previous == h.previous && root != Genesis
    requires KeptIn(index, h.previous, low) && Num(root) <= low < n < Num(h)
    ensures At(head, n) == At(h, n) && At(head, n) in index
    ensures Linked(index, head, root, head, At(head, n))
    ensures Lock(index, head, root, At(head, n + 1)).Some?
  {
    assert At(head, n) == At(head.previous, n) == At(h, n);
    forall k: nat | n < k <= Num(head) ensures Lock(index, head, root, At(head, k)).Some? {
      AtPrevious(head, k - 1);
      assert At(head, k - 1) == At(h.previous, k - 1);
      assert At(head, k) != root;
    }
  }

  // ---- The database --------------------------------------------------------------------------

  class Database<S(!new)> {
    const machine: Machine<S>
    const fork: ForkDb
    var state: S
    var undo: seq<S>
    var log: seq<Block>
    ghost var hist: seq<S>

    function Head(): Block
      reads this
    {
      machine.head(state)
    }

    ghost predicate Valid()
      reads this, fork
    {
      && fork.Valid()
      && Consistent(machine, fork.root, state, undo, log, hist)
      && KeptIn(fork.index, Head(), |log|)
    }

    /** Opening a node: the state is at the head of the block log, which starts the fork database. */
    constructor (m: Machine<S>, s: S)
      requires Sound(m) && m.head(s) != Genesis && m.lib(s) <= Num(m.head(s))
      ensures Valid() && fresh(fork) && machine == m && state == s && hist == [s] && log == Ancestry(m.head(s))
      ensures fork.head == fork.root == m.head(s) && fork.index == {m.head(s)} && fork.maxSize == DEFAULT_MAX_SIZE
    {
      machine, state, undo, hist := m, s, [], [s];
      log := Ancestry(m.head(s));
      fork := new ForkDb(m.head(s));
      new;
      assert Ancestry(m.head(s))[..|log|] == log;
      assert [s][0..0] == [];
    }

    /** Drops the snapshots of irreversible blocks, oldest first. */
    method Commit(n: nat)
      requires undo != [] && Numbered(machine, undo) && n <= Num(machine.head(undo[0])) + |undo|
      modifies `undo
      ensures var first := Num(machine.head(old(undo)[0]));
              undo == old(undo)[if n > first then n - first else 0..]
    {
      ghost var first, k := Num(machine.head(undo[0])), 0;
      while undo != [] && Num(machine.head(undo[0])) + 1 <= n
        invariant 0 <= k <= |old(undo)| && undo == old(undo)[k..]
        invariant k > 0 ==> n >= first + k
        decreases |undo|
      {
        undo := undo[1..];
        k := k + 1;
      }
    }

    /**
     Writes the newly irreversible blocks to the log, prunes the fork database and drops the
     undo state of irreversible blocks. Called with the fork database's head at the height of the
     chain's head and on the same parent; then no block it looks for can be missing.
     */
    method MigrateIrreversibleState() returns (ok: bool)
      requires fork.Valid() && Head() != Genesis
      requires fork.head.previous == Head().previous
      requires machine.lib(state) < Num(Head())
      requires Num(fork.root) <= |log| < Num(Head()) && log == Ancestry(Head())[..|log|]
      requires KeptIn(fork.index, Head().previous, |log|)
      requires undo != [] && Numbered(machine, undo)
      requires Num(machine.head(undo[0])) == |log| && |undo| == Num(Head()) - |log|
      modifies `log, `undo, fork`index, fork`maxSize
      ensures ok && fork.Valid()
      ensures var n := if machine.lib(state) > |old(log)| then machine.lib(state) else |old(log)|;
              log == Ancestry(Head())[..n] && undo == old(undo)[n - |old(log)|..]
      ensures fork.index == Pruned(old(fork.index), fork.head, Num(Head()) - machine.lib(state) + 1)
      ensures fork.maxSize == Num(Head()) - machine.lib(state) + 1
    {
      hide Num, At, Ancestry, KeptIn, Numbered, Pruned;
      SiblingNum(fork.head, Head());
      var headNum, lib := Num(Head()), machine.lib(state);
      if Num(fork.head) != headNum {
        return false;
      }
      if |log| < lib {
        var toWrite;
        ok, toWrite := CollectBlocks(lib);
        if !ok {
          return;
        }
        log := log + toWrite;
      }
      fork.SetMaxSize(headNum - lib + 1);
      Commit(lib);
      return true;
    }

    /** The blocks of the main branch above the log, up to height lib; none is written unless all exist. */
    method CollectBlocks(lib: nat) returns (ok: bool, blocks: seq<Block>)
      requires fork.Valid() && Head() != Genesis && fork.head.previous == Head().previous
      requires Num(fork.root) <= |log| < lib < Num(Head())
      requires KeptIn(fork.index, Head().previous, |log|)
      ensures ok && blocks == Ancestry(Head())[|log|..lib]
    {
      hide Num, At, Ancestry, KeptIn, Lock, Linked, Walk;
      blocks := [];
      var n := |log|;
      while n < lib
        invariant |log| <= n <= lib
        invariant blocks == Ancestry(Head())[|log|..n]
      {
        KeptWalks(fork.index, fork.root, fork.head, Head(), |log|, n + 1);
        SiblingNum(fork.head, Head());
        var b := fork.FetchBlockOnMainBranchByNumber(n + 1);
        if b.None? {
          return false, [];
        }
        AncestryAt(Head(), n);
        blocks := blocks + [b.value];
        n := n + 1;
      }
      return true, blocks;
    }

    /** Applies one block on top of the current state, as a unit: it takes full effect or none. */
    method ApplyBlock(b: Block) returns (ok: bool)
      requires Valid() && b in fork.index
      requires fork.head.previous == Head()
      modifies this, fork`index, fork`maxSize
      ensures Valid() && |hist| >= |old(hist)| > 0 && hist[0] == old(hist)[0]
      ensures ok <==> old(machine.step(state, b)).Some?
      ensures !ok ==> state == old(state) && undo == old(undo) && log == old(log) && hist == old(hist)
      ensures !ok ==> fork.index == old(fork.index) && fork.maxSize == old(fork.maxSize)
      ensures ok ==> Some(state) == old(machine.step(state, b)) && Head() == b && hist == old(hist) + [state]
      ensures ok ==> |log| == if machine.lib(state) > |old(log)| then machine.lib(state) else |old(log)|
      ensures ok ==> fork.index == Pruned(old(fork.index), fork.head, Num(b) - machine.lib(state) + 1)
      ensures ok ==> fork.maxSize == Num(b) - machine.lib(state) + 1
      ensures old(log) <= log
    {
      hide Consistent, Ancestry, KeptIn, Pruned, Num, At;
      ConsistentBounds(machine, fork.root, state, undo, log, hist);
      match machine.step(state, b) {
        case None => return false;
        case Some(t) =>
          ghost var index0, log0, undo0 := fork.index, log, undo;
          ApplyFacts(machine, fork.root, state, undo, log, hist, b, t);
          ApplyDone(machine, fork.root, state, undo, log, hist, b, t);
          KeptNext(fork.index, b, |log|);
          undo := undo + [state];
          state := t;
          ok := MigrateIrreversibleState();
          hist := hist + [t];
          SiblingNum(fork.head, b);
          KeptPruned(index0, b, fork.head, |log0|, |log|, machine.lib(t));
      }
    }

    /**
     Undoes the newest block. It fails when the fork database cannot step back. Without a snapshot left
     only the fork database steps back: undoing with an empty stack does nothing.
     */
    method PopBlock() returns (ok: bool)
      requires Valid()
      modifies `state, `undo, `hist, fork`head
      ensures Valid()
      ensures ok <==> Lock(fork.index, old(fork.head), fork.root, old(fork.head)).Some?
      ensures ok ==> fork.head == old(fork.head).previous
      ensures ok && old(undo) != [] ==> |old(hist)| > 1 && hist == old(hist)[..|old(hist)| - 1]
      ensures ok && old(undo) != [] ==> old(Head()) != Genesis && Head() == old(Head()).previous
      ensures !ok || old(undo) == [] ==> hist == old(hist) && state == old(state) && undo == old(undo)
    {
      hide Consistent, Ancestry, At;
      TopKept(fork.index, Head(), |log|);
      ConsistentBounds(machine, fork.root, state, undo, log, hist);
      if Head() !in fork.index && Head() !in log {
        return false;
      }
      ok := fork.PopBlock();
      if !ok || undo == [] {
        return;
      }
      PopDone(machine, fork.root, state, undo, log, hist);
      KeptPrevious(fork.index, Head(), |log|);
      state, undo := undo[|undo| - 1], undo[..|undo| - 1];
      hist := hist[..|hist| - 1];
    }

    // ---- Switching forks ---------------------------------------------------------------------

    /** As far down as the chain can be undone on the way to f. */
    ghost function Floor(f: Block): nat
      reads `log
    {
      if |log| <= Num(f) then Num(f) else |log|
    }

    /**
     Undoes blocks until f is the head. If f is below the log the chain gets no further than the end
     of the log, and the fork database steps back until it cannot.
     */
    method PopTo(f: Block) returns (ok: bool)
      requires Valid() && IsAncestor(f, Head())
      requires Num(fork.head) >= Num(Head()) - Num(f)
      modifies `state, `undo, `hist, fork`head
      ensures Valid() && |hist| > 0 && hist <= old(hist)
      ensures ok ==> Head() == f && |log| <= Num(f)
      ensures ok ==> 0 <= Num(f) - Num(fork.root) < |old(hist)| && hist == old(hist)[..Num(f) - Num(fork.root) + 1]
      ensures Steps(fork.index, fork.root, old(fork.head), old(ForkLow(f))) ==>
        Num(Head()) == Floor(f) && (ok <==> |log| <= Num(f))
    {
      hide At, Consistent, KeptIn;
      ghost var h0, x0 := Head(), fork.head;
      ghost var low := ForkLow(f);
      SelfAncestor(h0);
      SelfAncestor(x0);
      ConsistentBounds(machine, fork.root, state, undo, log, hist);
      while Head() != f
        invariant Valid() && IsAncestor(f, Head()) && Num(Head()) <= Num(h0)
        invariant log == old(log) && fork.index == old(fork.index)
        invariant IsAncestor(fork.head, x0)
        invariant Num(Head()) > Floor(f) ==> Num(fork.head) == Num(x0) - (Num(h0) - Num(Head()))
        invariant Num(Head()) == Num(fork.root) + |hist| - 1 && |undo| == Num(Head()) - |log|
        invariant hist <= old(hist)
        decreases Num(fork.head)
      {
        ProperAncestor(f, Head());
        if Num(Head()) > Floor(f) {
          StepDown(fork.index, fork.root, x0, fork.head, low);
        }
        ParentBelow(fork.head, x0);
        ok := PopBlock();
        ConsistentBounds(machine, fork.root, state, undo, log, hist);
        if !ok {
          return;
        }
      }
      return true;
    }

    /** Where the fork database's head is by then. */
    ghost function ForkLow(f: Block): int
      reads this, fork
    {
      Num(fork.head) - (Num(Head()) - Floor(f))
    }

    /**
     Applies a branch, given newest block first, from its oldest block up; stops at the first
     block that does not apply and returns its index, or -1.
     */
    method ApplyBranch(ghost tip: Block, branch: seq<Block>) returns (failed: int)
      requires Valid() && 0 < |branch| <= Num(tip) && branch == Path(tip, |branch|)
      requires Head() == At(tip, Num(tip) - |branch|)
      requires forall i | 0 <= i < |branch| :: branch[i] in fork.index
      modifies this, fork
      ensures Valid() && -1 <= failed < |branch| && |hist| > 0 && |old(hist)| > 0 && hist[0] == old(hist)[0]
      ensures old(log) <= log && |log| == if machine.lib(state) > |old(log)| then machine.lib(state) else |old(log)|
      ensures KeepsFrom(old(fork.index), fork.index, machine.lib(state))
      ensures failed == -1 <==> ReplayTo(machine, old(state), tip, Num(tip)).Some?
      ensures failed == -1 ==> Some(state) == ReplayTo(machine, old(state), tip, Num(tip)) && Head() == tip == fork.head
      ensures failed >= 0 ==>
                var x := branch[failed];
                && fork.head == x && x != Genesis && Head() == x.previous
                && Num(Head()) >= Num(old(Head()))
                && ReplayTo(machine, old(state), tip, Num(x)).None?
                && ReplayTo(machine, old(state), tip, Num(x) - 1) == Some(state)
    {
      hide At, Consistent, KeptIn, KeepsFrom, Pruned, ReplayTo, Num, Path, Sound, IsAncestor;
      ghost var s0 := state;
      KeepsAll(fork.index, machine.lib(state));
      var i := |branch| - 1;
      ConsistentBounds(machine, fork.root, state, undo, log, hist);
      BranchStart(machine, s0, tip, |branch|);
      while i >= 0
        invariant -1 <= i < |branch|
        invariant Valid() && Num(Head()) == Num(tip) - 1 - i && Head() == At(tip, Num(tip) - 1 - i)
        invariant |hist| > 0 && |old(hist)| > 0 && hist[0] == old(hist)[0]
        invariant old(log) <= log && |log| == if machine.lib(state) > |old(log)| then machine.lib(state) else |old(log)|
        invariant KeepsFrom(old(fork.index), fork.index, machine.lib(state))
        invariant Some(state) == ReplayTo(machine, s0, tip, Num(tip) - 1 - i)
        invariant machine.lib(state) <= Num(tip) - 1 - i
        invariant i < |branch| - 1 ==> fork.head == Head()
        decreases i
      {
        ConsistentBounds(machine, fork.root, state, undo, log, hist);
        BranchStep(machine, s0, tip, |branch|, i, state);
        PathAt(tip, |branch|, i);
        ghost var index1, s1 := fork.index, state;
        fork.SetHead(branch[i]);
        StillKept(old(fork.index), fork.index, machine.lib(state), branch[i]);
        var ok := ApplyBlock(branch[i]);
        if !ok {
          BranchFails(machine, s0, tip, Num(tip) - i);
          return i;
        }
        KeepsPruned(old(fork.index), index1, fork.head, machine.lib(s1), machine.lib(state));
        i := i - 1;
      }
      SelfAncestor(tip);
      return -1;
    }

    /** Forgets the first n blocks of a branch. */
    method RemoveBranch(branch: seq<Block>, n: nat)
      requires fork.Valid() && n <= |branch|
      modifies fork`index
      ensures fork.Valid() && fork.index == old(fork.index) - set i | 0 <= i < n :: branch[i]
    {
      var i := n;
      while i > 0
        invariant 0 <= i <= n && fork.Valid()
        invariant fork.index == old(fork.index) - set j | i <= j < n :: branch[j]
      {
        i := i - 1;
        fork.Remove(branch[i]);
      }
    }

    /**
     Moves the chain to the branch that ends in `tip`, the fork database's head. Blocks are undone
     down to the fork point and the new branch is applied; if one of its blocks fails, it and its
     successors are forgotten and the old branch is put back. What was committed in between cannot be
     undone: then the chain stays on the failed branch, at the end of its log.
     */
    method SwitchFork(tip: Block) returns (outcome: Outcome)
      requires Valid() && fork.head == tip && Num(tip) > Num(Head())
      modifies this, fork
      ensures Valid() && |hist| > 0 && |old(hist)| > 0 && hist[0] == old(hist)[0] && old(log) <= log
      ensures outcome in {Switched, Rejected, Broken}
      ensures outcome == Rejected ==> state == old(state) && hist == old(hist)
      ensures !old(Reachable(tip)) ==> outcome == Rejected && ChainAsBefore(old(state), old(undo), old(log), old(hist))
                                       && fork.index == old(fork.index) && fork.head == old(fork.head)
      ensures old(Reachable(tip)) && !old(Undoable(tip)) ==>
                outcome == Broken && log == old(log) && hist <= old(hist) && Num(Head()) == |log|
      ensures old(Reachable(tip)) && old(Undoable(tip)) ==>
                SwitchDone(outcome, old(fork.index), old(AtFork(tip)), tip, ForkPoint(tip, old(Head())))
    {
      hide Consistent, At, KeptIn, ReplayTo, ForkPoint, Num, Path, Linked, LibStays, Ancestry, Sound, Chain,
           ForgotOnly, Lock, Steps, IsAncestor, ForkState, KeepsFrom, SwitchDone;
      ghost var h0 := Head();
      ConsistentBounds(machine, fork.root, state, undo, log, hist);
      var branches := fork.FetchBranchFrom(tip, Head());
      if branches.None? {
        return Rejected;
      }
      var first, second := branches.value.0, branches.value.1;
      ghost var log0, hist0, state0, undo0 := log, hist, state, undo;
      BranchEnds(tip, h0);
      BranchSteps(fork.index, fork.root, tip, h0);
      ghost var f := ForkPoint(tip, h0);
      StepsFewer(fork.index, fork.root, tip, Num(tip) - (Num(h0) - Num(f)), ForkLow(f));
      var ok := PopTo(second[|second| - 1].previous);
      if !ok {
        return Broken;
      }
      StateAtFork(machine, fork.root, state0, undo0, log0, hist0, state, undo, log, hist, tip);
      outcome := TryBranch(tip, first, second, state0, undo0, log0, hist0);
    }

    /** Applies the new branch from the fork point on, and rolls back if one of its blocks fails. */
    method TryBranch(ghost tip: Block, first: seq<Block>, second: seq<Block>, ghost s0: S, ghost undo0: seq<S>,
        ghost log0: seq<Block>, ghost hist0: seq<S>) returns (outcome: Outcome)
      requires Valid() && |hist| > 0 && hist0 != [] && hist[0] == hist0[0] && log == log0
      requires Consistent(machine, fork.root, s0, undo0, log0, hist0)
      requires var h0 := machine.head(s0); var f := ForkPoint(tip, h0);
               && Num(tip) > Num(h0) > Num(f) && |log0| <= Num(f) && Head() == f
               && 0 <= Num(f) - Num(fork.root) < |hist0| && state == hist0[Num(f) - Num(fork.root)]
               && first == Path(tip, Num(tip) - Num(f)) && second == Path(h0, Num(h0) - Num(f))
               && Steps(fork.index, fork.root, tip, Num(f) + 1) && KeptIn(fork.index, h0, |log0|)
      requires forall b | b in first :: b in fork.index
      modifies this, fork
      ensures Valid() && |hist| > 0 && hist[0] == hist0[0] && old(log) <= log
      ensures outcome in {Switched, Rejected, Broken} && (outcome == Rejected ==> state == s0 && hist == hist0)
      ensures SwitchDone(outcome, old(fork.index), old(state), tip, ForkPoint(tip, machine.head(s0)))
    {
      hide Consistent, At, KeptIn, ReplayTo, ForkPoint, Num, Path, Linked, LibStays, Ancestry, Sound, Chain,
           ForgotOnly, Lock, Steps, IsAncestor, ForkState, KeepsFrom, FailedPartGone;
      ghost var h0, s, index0 := machine.head(s0), state, fork.index;
      ConsistentBounds(machine, fork.root, state, undo, log, hist);
      NumZero(h0);
      BranchEnds(tip, h0);
      var failed := ApplyBranch(tip, first);
      if failed < 0 {
        return Switched;
      }
      BranchBlock(tip, h0, failed);
      NotAll(machine, s, tip, Num(first[failed]));
      var ok := RollBack(tip, first, second, failed, index0, s, s0, undo0, log0, hist0);
      if !ok {
        return Broken;
      }
      PartGone(index0, fork.index, s, tip, ForkPoint(tip, h0), Num(first[failed]));
      return Rejected;
    }

    /**
     How a switch ends that could be started from state s at the fork point f: on the new branch
     exactly when that replays; else as before exactly when nothing above f was committed meanwhile;
     else at the highest block of the new branch that was.
     */
    ghost predicate SwitchDone(outcome: Outcome, before: set<Block>, s: S, tip: Block, f: Block)
      reads this, fork
    {
      var goal := ReplayTo(machine, s, tip, Num(tip));
      && (outcome == Switched <==> goal.Some?)
      && (outcome == Switched ==> Some(state) == goal && Head() == tip == fork.head)
      && (outcome == Rejected <==> goal.None? && LibStays(machine, s, tip, Num(f)))
      && (outcome == Rejected ==> fork.head == Head() && FailedPartGone(before, fork.index, s, tip, f))
      && (outcome == Broken <==> goal.None? && !LibStays(machine, s, tip, Num(f)))
      && (outcome == Broken ==> Num(f) < Num(Head()) == |log| && IsAncestor(Head(), tip))
      && (outcome == Broken ==> Some(state) == ReplayTo(machine, s, tip, Num(Head())))
      && (outcome == Broken ==> forall n: nat :: LibStays(machine, s, tip, n) <==> |log| <= n)
    }

    lemma PartGone(before: set<Block>, after: set<Block>, s: S, tip: Block, f: Block, n: nat)
      requires Num(f) < n <= Num(tip) && ForgotOnly(before, after, tip, n, Num(f))
      requires ReplayTo(machine, s, tip, n).None? && ReplayTo(machine, s, tip, n - 1).Some?
      ensures FailedPartGone(before, after, s, tip, f)
    {
    }

    /** The chain stands below a block of the branch that did not apply, and the fork database at it. */
    ghost predicate Stuck(tip: Block, first: seq<Block>, failed: nat, index0: set<Block>, s: S, s0: S, undo0: seq<S>,
        log0: seq<Block>, hist0: seq<S>)
      reads this, fork
    {
      var h0 := machine.head(s0); var f := ForkPoint(tip, h0);
      && Valid() && Consistent(machine, fork.root, s0, undo0, log0, hist0)
      && |hist| > 0 && hist0 != [] && hist[0] == hist0[0]
      && Num(tip) > Num(h0) > Num(f) && |log0| <= Num(f)
      && 0 <= Num(f) - Num(fork.root) < |hist0| && s == hist0[Num(f) - Num(fork.root)]
      && first == Path(tip, Num(tip) - Num(f)) && Steps(index0, fork.root, tip, Num(f) + 1)
      && failed < |first| && fork.head == first[failed] && first[failed] != Genesis && Head() == first[failed].previous
      && Num(first[failed]) > 0 && ReplayTo(machine, s, tip, Num(first[failed])).None?
      && ReplayTo(machine, s, tip, Num(first[failed]) - 1) == Some(state)
      && KeepsFrom(index0, fork.index, machine.lib(state))
      && |log| == if machine.lib(state) > |log0| then machine.lib(state) else |log0|
    }

    /** Forgets the failed part of a branch, undoes the rest of it and puts the old branch back. */
    method RollBack(ghost tip: Block, first: seq<Block>, second: seq<Block>, failed: nat, ghost index0: set<Block>,
                    ghost s: S, ghost s0: S, ghost undo0: seq<S>, ghost log0: seq<Block>, ghost hist0: seq<S>)
      returns (ok: bool)
      requires Stuck(tip, first, failed, index0, s, s0, undo0, log0, hist0)
      requires var h0 := machine.head(s0);
               second == Path(h0, Num(h0) - Num(ForkPoint(tip, h0))) && KeptIn(index0, h0, |log0|)
      modifies this, fork
      ensures Valid() && |hist| > 0 && hist[0] == hist0[0] && old(log) <= log
      ensures ok <==> LibStays(machine, s, tip, Num(ForkPoint(tip, machine.head(s0))))
      ensures ok ==> state == s0 && hist == hist0 && fork.head == Head()
      ensures ok ==> ForgotOnly(index0, fork.index, tip, Num(tip) - failed, Num(ForkPoint(tip, machine.head(s0))))
      ensures !ok ==> Num(ForkPoint(tip, machine.head(s0))) < Num(Head()) == |log| && IsAncestor(Head(), tip)
      ensures !ok ==> Some(state) == ReplayTo(machine, s, tip, Num(Head()))
      ensures !ok ==> forall n: nat :: LibStays(machine, s, tip, n) <==> |log| <= n
    {
      hide Consistent, At, KeptIn, ReplayTo, ForkPoint, Num, Path, Linked, LibStays, Ancestry, Sound, Chain,
           ForgotOnly, Lock, Steps, IsAncestor, ForkState, KeepsFrom;
      ghost var h0, f := machine.head(s0), ForkPoint(tip, machine.head(s0));
      ghost var index1, lib := fork.index, machine.lib(state);
      ConsistentBounds(machine, fork.root, s0, undo0, log0, hist0);
      NumZero(h0);
      BranchEnds(tip, h0);
      ok := BackOff(tip, first, second[|second| - 1].previous, failed, index0, s, s0, undo0, log0, hist0);
      if !ok {
        return;
      }
      ConsistentBounds(machine, fork.root, state, undo, log, hist);
      ForkStateSame(machine, fork.root, s0, undo0, log0, hist0, state, undo, log, hist, tip);
      RestoreReplays(machine, fork.root, s0, undo0, log0, hist0, tip, s);
      ghost var index2 := fork.index;
      RestoreKept(machine, index0, index1, index2, tip, h0, s, failed, |log0|, lib);
      PutBack(second, tip, s0, undo0, log0, hist0);
      ForgottenBranch(index0, index1, index2, fork.index, tip, h0, failed, lib, machine.lib(state));
    }

    /** Forgets the failed part of a branch and undoes the rest of it, down to the fork point if that can be reached. */
    method BackOff(ghost tip: Block, first: seq<Block>, f: Block, failed: nat, ghost index0: set<Block>,
                   ghost s: S, ghost s0: S, ghost undo0: seq<S>, ghost log0: seq<Block>, ghost hist0: seq<S>)
      returns (ok: bool)
      requires Stuck(tip, first, failed, index0, s, s0, undo0, log0, hist0) && f == ForkPoint(tip, machine.head(s0))
      modifies `state, `undo, `hist, fork
      ensures Valid() && |hist| > 0 && hist[0] == hist0[0]
      ensures ok <==> LibStays(machine, s, tip, Num(f))
      ensures ok ==> Head() == f && old(machine.lib(state)) <= Num(f)
      ensures ok ==> fork.index == old(fork.index) - set i | 0 <= i < failed + 1 :: first[i]
      ensures !ok ==> Num(f) < Num(Head()) == |log| && IsAncestor(Head(), tip)
      ensures !ok ==> Some(state) == ReplayTo(machine, s, tip, Num(Head()))
      ensures !ok ==> forall n: nat :: LibStays(machine, s, tip, n) <==> |log| <= n
    {
      hide Consistent, At, KeptIn, ReplayTo, ForkPoint, Num, Path, Linked, LibStays, Ancestry, Sound, Chain,
           ForgotOnly, Lock, Steps, IsAncestor, ForkState, KeepsFrom;
      ghost var h0, x, index1, hist1 := machine.head(s0), first[failed], fork.index, hist;
      ConsistentBounds(machine, fork.root, state, undo, log, hist);
      NumZero(h0);
      BranchBlock(tip, h0, failed);
      RemoveBranch(first, failed + 1);
      KeptWithout(index1, fork.index, Head(), |log|, tip, h0, failed);
      LibStaysWhen(machine, s, tip, Num(x) - 1, state);
      ParentBelow(x, tip);
      StepsAfter(index0, index1, fork.index, fork.root, tip, h0, failed, machine.lib(state));
      ok := PopTo(f);
      ConsistentBounds(machine, fork.root, state, undo, log, hist);
      if !ok {
        StrandedAt(machine, fork.root, s0, undo0, log0, hist0, hist1, hist, tip, x.previous, s);
      }
    }

    /** Applies the old branch again: the chain is what it was. */
    method PutBack(second: seq<Block>, ghost tip: Block, ghost s0: S, ghost undo0: seq<S>, ghost log0: seq<Block>,
        ghost hist0: seq<S>)
      requires Valid() && |hist| > 0 && hist0 != [] && hist[0] == hist0[0]
      requires Consistent(machine, fork.root, s0, undo0, log0, hist0)
      requires var h0 := machine.head(s0); var f := ForkPoint(tip, h0);
               Head() == f && Num(h0) > Num(f) && second == Path(h0, Num(h0) - Num(f))
      requires forall b | b in second :: b in fork.index
      requires ReplayTo(machine, state, machine.head(s0), Num(machine.head(s0))) == Some(s0)
      modifies this, fork
      ensures Valid() && old(log) <= log && state == s0 && hist == hist0 && fork.head == Head()
      ensures KeepsFrom(old(fork.index), fork.index, machine.lib(state))
    {
      hide Consistent, At, KeptIn, ReplayTo, ForkPoint, Num, Path, Ancestry, Sound, Chain, IsAncestor, KeepsFrom;
      ghost var h0 := machine.head(s0);
      ForkPointCommon(tip, h0);
      TopOf(ForkPoint(tip, h0), h0);
      var again := ApplyBranch(h0, second);
      SameState(machine, fork.root, s0, undo0, log0, hist0, state, undo, log, hist);
    }

    // ---- Receiving blocks --------------------------------------------------------------------

    /** Of the branch from f to tip, the blocks from the first one that does not apply are forgotten, and no others. */
    ghost predicate FailedPartGone(before: set<Block>, after: set<Block>, s: S, tip: Block, f: Block)
      reads this
    {
      exists n: nat ::
        && Num(f) < n <= Num(tip)
        && ReplayTo(machine, s, tip, n).None? && ReplayTo(machine, s, tip, n - 1).Some?
        && ForgotOnly(before, after, tip, n, Num(f))
    }

    /** What the fork database answers to a new block: its head afterwards. */
    function HeadAfter(b: Block): Block
      reads fork
    {
      if Num(b) > Num(fork.head) then b else fork.head
    }

    predicate Accepted(b: Block)
      requires b != Genesis
      reads fork
    {
      Num(b) + fork.maxSize > Num(fork.head) && (b.previous == Genesis || b.previous in fork.index)
    }

    /**
     A block that is already on the chain, pushed while the fork database's head is a rejected child
     of the chain's head: it fails to apply again and is dropped from the fork database.
     */
    predicate Erases(b: Block)
      requires b != Genesis
      reads this, fork
    {
      Accepted(b) && HeadAfter(b).previous == Head() && Num(b) >= |log| && IsAncestor(b, Head())
    }

    /** Takes in one block. */
    method PushBlock(b: Block) returns (outcome: Outcome)
      requires Valid() && b != Genesis
      modifies this, fork
      ensures old(log) <= log && |hist| > 0 && |old(hist)| > 0 && hist[0] == old(hist)[0]
      ensures Valid() <==> !old(Erases(b))
      // Not linked, or too old: nothing happens.
      ensures !old(Accepted(b)) ==> outcome == Rejected && ChainAsBefore(old(state), old(undo), old(log), old(hist))
                                    && fork.index == old(fork.index) && fork.head == old(fork.head)
      // On top of the chain: applied, or dropped without a trace in the chain.
      ensures old(Accepted(b) && HeadAfter(b).previous == Head()) ==>
                && fork.head == old(HeadAfter(b))
                && match old(machine.step(state, b))
                   case Some(t) => outcome == Extended && state == t && hist == old(hist) + [t]
                                   && |log| == (if machine.lib(t) > |old(log)| then machine.lib(t) else |old(log)|)
                                   && fork.maxSize == Num(b) - machine.lib(t) + 1
                   case None => outcome == Rejected && ChainAsBefore(old(state), old(undo), old(log), old(hist))
                                && fork.index == old(fork.index) - {b} && fork.maxSize == old(fork.maxSize)
      // On a branch that is not longer: only remembered.
      ensures old(Accepted(b) && HeadAfter(b).previous != Head() && Num(HeadAfter(b)) <= Num(Head())) ==>
                outcome == Ignored && ChainAsBefore(old(state), old(undo), old(log), old(hist))
                && fork.index == old(fork.index) + {b} && fork.head == old(HeadAfter(b))
                && fork.maxSize == old(fork.maxSize)
      // On a longer branch: that branch, or everything as before.
      ensures old(Longer(b)) ==> outcome in {Switched, Rejected, Broken}
      ensures old(Longer(b)) && outcome == Rejected ==> state == old(state) && hist == old(hist)
      ensures old(Longer(b)) && !old(ReachableAfter(b)) ==>
                && outcome == Rejected && ChainAsBefore(old(state), old(undo), old(log), old(hist))
                && fork.index == old(fork.index) + {b} && fork.head == old(HeadAfter(b))
      ensures old(Longer(b)) && old(ReachableAfter(b)) && !old(Undoable(HeadAfter(b))) ==>
                outcome == Broken && log == old(log) && hist <= old(hist) && Num(Head()) == |log|
      ensures old(Longer(b)) && old(ReachableAfter(b)) && old(Undoable(HeadAfter(b))) ==>
                SwitchDone(outcome, old(fork.index) + {b}, old(AtFork(HeadAfter(b))), old(HeadAfter(b)),
                  ForkPoint(old(HeadAfter(b)), old(Head())))
      ensures outcome == Broken ==> old(Longer(b)) && old(ReachableAfter(b))
    {
      hide Consistent, At, KeptIn, ReplayTo, ForkPoint, Num, Linked, LibStays, Ancestry, ForgotOnly, IsAncestor,
           ForkState, SwitchDone;
      ConsistentBounds(machine, fork.root, state, undo, log, hist);
      SelfAncestor(Head());
      ghost var index0, head0 := fork.index, fork.head;
      var r := fork.PushBlock(b);
      if r.None? {
        return Rejected;
      }
      KeptMore(index0, fork.index, Head(), |log|);
      var newHead := r.value;
      if newHead.previous != Head() {
        if Num(newHead) > Num(Head()) {
          outcome := SwitchFork(newHead);
          return;
        }
        return Ignored;
      }
      ghost var h := Head();
      var ok := ApplyBlock(b);
      NotItsParent(b);
      if !ok {
        fork.Remove(b);
        KeptUnless(fork.index, b, Head(), |log|);
        return Rejected;
      }
      return Extended;
    }

    /** The head the fork database answers with is higher than the chain, on another branch. */
    ghost predicate Longer(b: Block)
      requires b != Genesis
      reads this, fork
    {
      Accepted(b) && HeadAfter(b).previous != Head() && Num(HeadAfter(b)) > Num(Head())
    }

    /**
     Takes in a sequence of blocks, known or not, up to one that erases a block of the own chain. However
     the switches end, the state is the replay of its head's ancestry.
     */
    method Run(blocks: seq<Block>) returns (erased: bool)
      requires Valid()
      modifies this, fork
      ensures old(log) <= log && |old(hist)| > 0
      ensures !erased ==> Valid() && |hist| > 0
      ensures !erased ==> Some(state) == ReplayTo(machine, old(hist)[0], Head(), Num(Head()))
      ensures !erased ==> log == Ancestry(Head())[..|log|] && machine.lib(state) <= |log|
    {
      hide Consistent, At, KeptIn, ReplayTo, Num, Ancestry, IsAncestor, SwitchDone;
      ConsistentBounds(machine, fork.root, state, undo, log, hist);
      var i := 0;
      while i < |blocks|
        invariant 0 <= i <= |blocks| && Valid() && old(log) <= log
        invariant |hist| > 0 && |old(hist)| > 0 && hist[0] == old(hist)[0]
      {
        var b := blocks[i];
        if b != Genesis {
          erased := Erases(b);
          var _ := PushBlock(b);
          if erased {
            return;
          }
        }
        i := i + 1;
      }
      ReplayOfHead(machine, fork.root, state, undo, log, hist);
      return false;
    }

    /** The new branch and the current one can both be walked down to where they part. */
    ghost predicate Reachable(tip: Block)
      reads this, fork
    {
      BothWalk(fork.index, fork.head, fork.root, tip, Head())
    }

    ghost predicate ReachableAfter(b: Block)
      reads this, fork
    {
      BothWalk(fork.index + {b}, HeadAfter(b), fork.root, HeadAfter(b), Head())
    }

    /** The fork point is not below the block log. */
    ghost predicate Undoable(tip: Block)
      reads this
    {
      |log| <= Num(ForkPoint(tip, Head()))
    }

    /** The state at the fork point. */
    ghost function AtFork(tip: Block): S
      requires Valid() && Undoable(tip)
      reads this, fork
    {
      ForkState(machine, fork.root, state, undo, log, hist, tip)
    }

    ghost predicate ChainAsBefore(s: S, u: seq<S>, l: seq<Block>, h: seq<S>)
      reads this
    {
      state == s && undo == u && log == l && hist == h
    }
  }

  ghost predicate BothWalk(index: set<Block>, head: Block, root: Block, x: Block, y: Block) {
    var c := ForkPoint(x, y);
    x in index && y in index && Linked(index, head, root, x, c) && Linked(index, head, root, y, c)
  }

  lemma KeptMore(before: set<Block>, after: set<Block>, h: Block, low: nat)
    requires KeptIn(before, h, low) && before <= after
    ensures KeptIn(after, h, low)
  {
  }

  /** Dropping a block breaks the kept part of a chain exactly when it belongs to it. */
  lemma KeptUnless(after: set<Block>, b: Block, h: Block, low: nat)
    requires KeptIn(after + {b}, h, low) && b !in after
    ensures KeptIn(after, h, low) <==> !(low <= Num(b) && IsAncestor(b, h))
  {
    if low <= Num(b) && IsAncestor(b, h) {
      assert At(h, Num(b)) == b;
    } else {
      forall n: nat | low <= n <= Num(h) ensures At(h, n) in after {
        assert At(h, n) in after + {b};
      }
    }
  }

  lemma NotItsParent(b: Block)
    requires b != Genesis
    ensures !IsAncestor(b, b.previous) && Num(b.previous) + 1 == Num(b)
  {
  }

  lemma ReplayOfHead<S(!new)>(m: Machine<S>, root: Block, s: S, undo: seq<S>, log: seq<Block>, hist: seq<S>)
    requires Consistent(m, root, s, undo, log, hist)
    ensures Some(s) == ReplayTo(m, hist[0], m.head(s), Num(m.head(s)))
    ensures log == Ancestry(m.head(s))[..|log|] && m.lib(s) <= |log|
  {
    hide At, Num, Ancestry, Snapshots, ReplayTo, IsAncestor, Chain, Sound;
    ConsistentBounds(m, root, s, undo, log, hist);
    SelfAncestor(m.head(s));
    ChainReplays(m, hist, 0, |hist| - 1, m.head(s));
  }

  // ---- Steps of the fork switch --------------------------------------------------------------

  lemma PathEnd(b: Block, k: nat)
    requires 0 < k <= Num(b)
    ensures Path(b, k)[k - 1] != Genesis && Path(b, k)[k - 1].previous == At(b, Num(b) - k)
  {
    PathAt(b, k, k - 1);
    AtPrevious(b, Num(b) - k);
  }

  lemma BranchEnds(tip: Block, h: Block)
    requires Num(tip) > Num(h) && h != Genesis
    ensures var f := ForkPoint(tip, h);
            && IsAncestor(f, tip) && IsAncestor(f, h) && Num(f) < Num(h) < Num(tip)
            && At(tip, Num(f)) == f && At(h, Num(f)) == f
            && Path(h, Num(h) - Num(f))[Num(h) - Num(f) - 1] != Genesis
            && Path(h, Num(h) - Num(f))[Num(h) - Num(f) - 1].previous == f
  {
    ForkPointCommon(tip, h);
    PathEnd(h, Num(h) - Num(ForkPoint(tip, h)));
  }

  lemma BranchSteps(index: set<Block>, root: Block, tip: Block, h: Block)
    requires Num(tip) > Num(h) && h != Genesis && tip in index && Linked(index, tip, root, tip, ForkPoint(tip, h))
    ensures var f := ForkPoint(tip, h);
            && Num(f) < Num(h)
            && Steps(index, root, tip, Num(f) + 1)
            && Steps(index, root, tip, Num(tip) - (Num(h) - Num(f)))
            && forall b | b in Path(tip, Num(tip) - Num(f)) :: b in index
  {
    ForkPointCommon(tip, h);
    var f := ForkPoint(tip, h);
    forall n: nat | Num(f) + 1 < n <= Num(tip) ensures HasParent(index, root, At(tip, n)) {
      assert Lock(index, tip, root, At(tip, n)).Some?;
      AtPrevious(tip, n - 1);
    }
    forall b | b in Path(tip, Num(tip) - Num(f)) ensures b in index {
      var i: nat :| i < Num(tip) - Num(f) && b == Path(tip, Num(tip) - Num(f))[i];
      PathAt(tip, Num(tip) - Num(f), i);
      if i > 0 {
        AtPrevious(tip, Num(tip) - i);
        assert HasParent(index, root, At(tip, Num(tip) - i + 1));
      }
    }
  }

  lemma StateAtFork<S(!new)>(m: Machine<S>, root: Block, s0: S, undo0: seq<S>, log0: seq<Block>, hist0: seq<S>,
                             s: S, undo: seq<S>, log: seq<Block>, hist: seq<S>, tip: Block)
    requires Consistent(m, root, s0, undo0, log0, hist0) && Consistent(m, root, s, undo, log, hist)
    requires var n := Num(ForkPoint(tip, m.head(s0))) - Num(root); 0 <= n < |hist0| && hist == hist0[..n + 1]
    ensures |log0| <= Num(ForkPoint(tip, m.head(s0))) ==> s == ForkState(m, root, s0, undo0, log0, hist0, tip)
    ensures hist[0] == hist0[0] && s == hist0[Num(ForkPoint(tip, m.head(s0))) - Num(root)]
  {
    hide Chain, Sound, Logged, Snapshots, Num, ForkPoint;
  }

  /** Whatever happened in between, the state at the fork point is the one the old chain went through. */
  lemma ForkStateSame<S(!new)>(m: Machine<S>, root: Block, s0: S, undo0: seq<S>, log0: seq<Block>, hist0: seq<S>,
                               s: S, undo: seq<S>, log: seq<Block>, hist: seq<S>, tip: Block)
    requires Consistent(m, root, s0, undo0, log0, hist0) && Consistent(m, root, s, undo, log, hist)
    requires m.head(s) == ForkPoint(tip, m.head(s0)) && hist[0] == hist0[0]
    requires 0 <= Num(m.head(s)) - Num(root) < |hist0|
    ensures s == hist0[Num(m.head(s)) - Num(root)]
  {
    hide At, Num, Logged, Snapshots, ReplayTo, ForkPoint, IsAncestor, Chain, Sound;
    var n := Num(m.head(s)) - Num(root);
    ConsistentBounds(m, root, s, undo, log, hist);
    ForkPointCommon(tip, m.head(s0));
    ChainAncestors(m, hist0, n, |hist0| - 1);
    ChainHeads(m, hist0, n);
    SelfAncestor(m.head(s));
    ChainReplays(m, hist0, 0, n, m.head(s));
    ChainReplays(m, hist, 0, n, m.head(s));
  }

  lemma BranchBlock(tip: Block, h: Block, failed: nat)
    requires Num(tip) > Num(h) && h != Genesis && failed < Num(tip) - Num(ForkPoint(tip, h))
    ensures var f := ForkPoint(tip, h); var x := Path(tip, Num(tip) - Num(f))[failed];
            && x != Genesis && Num(x) == Num(tip) - failed && x == At(tip, Num(x))
            && Num(x.previous) == Num(x) - 1 && IsAncestor(f, x.previous)
  {
    ForkPointCommon(tip, h);
    var f := ForkPoint(tip, h);
    PathAt(tip, Num(tip) - Num(f), failed);
    AtPrevious(tip, Num(tip) - failed - 1);
    AtAt(tip, Num(tip) - failed - 1, Num(f));
  }

  /** The removed blocks lie above the head, so what is kept of its chain stays. */
  lemma KeptWithout(before: set<Block>, after: set<Block>, h': Block, low: nat, tip: Block, h: Block, failed: nat)
    requires Num(tip) > Num(h) && h != Genesis && failed < Num(tip) - Num(ForkPoint(tip, h))
    requires KeptIn(before, h', low) && Num(h') < Num(tip) - failed
    requires var first := Path(tip, Num(tip) - Num(ForkPoint(tip, h)));
             after == before - set i | 0 <= i < failed + 1 :: first[i]
    ensures KeptIn(after, h', low)
  {
    var k := Num(tip) - Num(ForkPoint(tip, h));
    forall n: nat | low <= n <= Num(h') ensures At(h', n) in after {
      if i: nat :| i < failed + 1 && Path(tip, k)[i] == At(h', n) {
        PathAt(tip, k, i);
      }
    }
  }

  /** The irreversible block stays within n for the whole replay exactly when the last state that replays has it so. */
  lemma LibStaysWhen<S(!new)>(m: Machine<S>, s: S, tip: Block, k: nat, t: S)
    requires Sound(m) && k < Num(tip)
    requires ReplayTo(m, s, tip, k) == Some(t) && ReplayTo(m, s, tip, k + 1).None?
    ensures forall n: nat :: LibStays(m, s, tip, n) <==> m.lib(t) <= n
  {
    hide ReplayTo;
    forall n: nat | m.lib(t) <= n ensures LibStays(m, s, tip, n) {
      forall j: nat | j <= Num(tip) && ReplayTo(m, s, tip, j).Some? ensures m.lib(ReplayTo(m, s, tip, j).value) <= n {
        if j > k {
          ReplayPrefix(m, s, tip, j, k + 1);
        } else {
          LibGrows(m, s, tip, j, k);
        }
      }
    }
  }

  lemma {:induction false} LibGrows<S(!new)>(m: Machine<S>, s: S, tip: Block, j: nat, k: nat)
    requires Sound(m) && j <= k && ReplayTo(m, s, tip, k).Some?
    ensures ReplayTo(m, s, tip, j).Some?
    ensures m.lib(ReplayTo(m, s, tip, j).value) <= m.lib(ReplayTo(m, s, tip, k).value)
    decreases k
  {
    if j < k && k > Num(m.head(s)) {
      ReplayPrefix(m, s, tip, k, k - 1);
      LibGrows(m, s, tip, j, k - 1);
    }
  }

  lemma NotAll<S(!new)>(m: Machine<S>, s: S, tip: Block, n: nat)
    requires n <= Num(tip) && ReplayTo(m, s, tip, n).None?
    ensures ReplayTo(m, s, tip, Num(tip)).None?
  {
    if ReplayTo(m, s, tip, Num(tip)).Some? {
      ReplayPrefix(m, s, tip, Num(tip), n);
    }
  }

  /** A chain that was undone as far as possible above the fork point is a replay of the new branch. */
  lemma StrandedAt<S(!new)>(m: Machine<S>, root: Block, s0: S, undo0: seq<S>, log0: seq<Block>, hist0: seq<S>,
      hist1: seq<S>, hist: seq<S>, tip: Block, h: Block, s: S)
    requires Consistent(m, root, s0, undo0, log0, hist0) && Chain(m, hist1) && hist1[0] == hist0[0]
    requires m.head(hist1[|hist1| - 1]) == h && IsAncestor(h, tip)
    requires 0 < |hist| && hist <= hist1
    requires var f := ForkPoint(tip, m.head(s0)); var n := Num(f) - Num(root);
             && 0 <= n < |hist0| && s == hist0[n] && n < |hist|
    ensures var u := hist[|hist| - 1];
            IsAncestor(m.head(u), tip) && ReplayTo(m, s, tip, Num(m.head(u))) == Some(u)
  {
    hide At, Num, Logged, Snapshots, ReplayTo, ForkPoint, IsAncestor, Chain, Sound;
    var f := ForkPoint(tip, m.head(s0));
    var n, j := Num(f) - Num(root), |hist| - 1;
    ConsistentBounds(m, root, s0, undo0, log0, hist0);
    ForkPointCommon(tip, m.head(s0));
    ChainAncestors(m, hist1, j, |hist1| - 1);
    ChainAncestors(m, hist1, n, |hist1| - 1);
    AncestorTrans(m.head(hist1[j]), h, tip);
    AncestorTrans(m.head(hist1[n]), h, tip);
    ChainAncestors(m, hist0, n, |hist0| - 1);
    ChainHeads(m, hist0, n);
    ChainHeads(m, hist1, n);
    SameHeight(m.head(hist0[n]), f, m.head(s0));
    ChainReplays(m, hist1, 0, n, tip);
    ChainReplays(m, hist0, 0, n, tip);
    ChainReplays(m, hist1, n, j, tip);
  }

  lemma SameHeight(a: Block, b: Block, h: Block)
    requires IsAncestor(a, h) && IsAncestor(b, h) && Num(a) == Num(b)
    ensures a == b
  {
  }

  /** After the failed part of the branch is forgotten, one can still step down from the failed block. */
  lemma StepsAfter(index0: set<Block>, index1: set<Block>, index2: set<Block>, root: Block, tip: Block, h: Block,
      failed: nat, lib: nat)
    requires Num(tip) > Num(h) && h != Genesis && failed < Num(tip) - Num(ForkPoint(tip, h))
    requires Steps(index0, root, tip, Num(ForkPoint(tip, h)) + 1)
    requires KeepsFrom(index0, index1, lib)
    requires var first := Path(tip, Num(tip) - Num(ForkPoint(tip, h)));
             index2 == index1 - set i | 0 <= i < failed + 1 :: first[i]
    ensures var f := ForkPoint(tip, h); var low := if lib <= Num(f) then Num(f) else lib;
            Steps(index2, root, Path(tip, Num(tip) - Num(f))[failed], low + 1)
  {
    hide At, Num, Path, ForkPoint;
    var f := ForkPoint(tip, h);
    var k := Num(tip) - Num(f);
    BranchBlock(tip, h, failed);
    var x := Path(tip, k)[failed];
    var low := if lib <= Num(f) then Num(f) else lib;
    forall n: nat | low + 1 < n <= Num(x) ensures HasParent(index2, root, At(x, n)) {
      AtAt(tip, Num(x), n);
      AtPrevious(tip, n - 1);
      assert HasParent(index0, root, At(tip, n));
      if i: nat :| i < failed + 1 && Path(tip, k)[i] == At(tip, n).previous {
        PathAt(tip, k, i);
      }
    }
  }

  /** A state is determined by where the chain started and by the head. */
  lemma SameState<S(!new)>(m: Machine<S>, root: Block, s: S, undo: seq<S>, log: seq<Block>, hist: seq<S>,
                           s': S, undo': seq<S>, log': seq<Block>, hist': seq<S>)
    requires Consistent(m, root, s, undo, log, hist) && Consistent(m, root, s', undo', log', hist')
    requires m.head(s) == m.head(s') && hist[0] == hist'[0]
    ensures s == s' && hist == hist'
  {
    hide Num, Logged, Snapshots, Chain, Sound;
    ConsistentBounds(m, root, s, undo, log, hist);
    ConsistentBounds(m, root, s', undo', log', hist');
    forall k: nat | k < |hist| ensures hist[k] == hist'[k] {
      SameAt(m, hist, hist', k);
    }
  }

  lemma SameAt<S(!new)>(m: Machine<S>, hist: seq<S>, hist': seq<S>, k: nat)
    requires Sound(m) && Chain(m, hist) && Chain(m, hist') && hist[0] == hist'[0]
    requires |hist| == |hist'| && m.head(hist[|hist| - 1]) == m.head(hist'[|hist| - 1]) && k < |hist|
    ensures hist[k] == hist'[k]
  {
    hide At, Num, ReplayTo, IsAncestor, Chain, Sound;
    var tip := m.head(hist[|hist| - 1]);
    ChainAncestors(m, hist, k, |hist| - 1);
    ChainAncestors(m, hist', k, |hist| - 1);
    ChainHeads(m, hist, k);
    ChainHeads(m, hist', k);
    ChainReplays(m, hist, 0, k, tip);
    ChainReplays(m, hist', 0, k, tip);
  }

  /** The old branch replays from the fork point to the state that was left. */
  lemma RestoreReplays<S(!new)>(m: Machine<S>, root: Block, s0: S, undo0: seq<S>, log0: seq<Block>, hist0: seq<S>,
      tip: Block, s: S)
    requires Consistent(m, root, s0, undo0, log0, hist0)
    requires var n := Num(ForkPoint(tip, m.head(s0))) - Num(root); 0 <= n < |hist0| && s == hist0[n]
    ensures ReplayTo(m, s, m.head(s0), Num(m.head(s0))) == Some(s0)
    ensures IsAncestor(m.head(s0), tip) ==> ReplayTo(m, s, tip, Num(m.head(s0))) == Some(s0)
  {
    hide At, Num, Logged, Snapshots, ReplayTo, ForkPoint, IsAncestor, Chain, Sound;
    var n := Num(ForkPoint(tip, m.head(s0))) - Num(root);
    SelfAncestor(m.head(s0));
    ChainReplays(m, hist0, n, |hist0| - 1, m.head(s0));
    if IsAncestor(m.head(s0), tip) {
      ChainReplays(m, hist0, n, |hist0| - 1, tip);
    }
  }

  /** The two branches share a block above the fork point only if the new one contains the old head. */
  lemma SharedAbove(tip: Block, h: Block, n: nat)
    requires Num(tip) > Num(h) && h != Genesis
    requires Num(ForkPoint(tip, h)) < n <= Num(h) && At(h, n) == At(tip, n)
    ensures IsAncestor(h, tip) && n == Num(h)
  {
    if IsAncestor(h, tip) {
      ForkPointOnChain(h, tip);
    } else {
      ForkPointHighest(tip, h, n);
    }
  }

  lemma ReplayNext<S(!new)>(m: Machine<S>, s: S, tip: Block, n: nat, t: S)
    requires n >= Num(m.head(s)) && ReplayTo(m, s, tip, n) == Some(t)
    ensures ReplayTo(m, s, tip, n + 1) == m.step(t, At(tip, n + 1))
  {
    hide At;
  }

  lemma {:induction false} ReplayPrefix<S(!new)>(m: Machine<S>, s: S, tip: Block, n: nat, k: nat)
    requires k <= n && ReplayTo(m, s, tip, n).Some?
    ensures ReplayTo(m, s, tip, k).Some?
    decreases n
  {
    if k < n && n > Num(m.head(s)) {
      ReplayPrefix(m, s, tip, n - 1, k);
    }
  }

  lemma KeptAt(index: set<Block>, h: Block, low: nat, n: nat)
    requires KeptIn(index, h, low) && low <= n <= Num(h)
    ensures At(h, n) in index && Num(At(h, n)) == n
  {
  }

  /** The old branch is still there to be applied again. */
  lemma RestoreKept<S(!new)>(m: Machine<S>, index0: set<Block>, index1: set<Block>, index2: set<Block>,
                             tip: Block, h: Block, s: S, failed: nat, low: nat, lib: nat)
    requires Num(tip) > Num(h) && h != Genesis && failed < Num(tip) - Num(ForkPoint(tip, h))
    requires KeptIn(index0, h, low) && low <= Num(ForkPoint(tip, h)) < Num(h) && lib <= Num(ForkPoint(tip, h))
    requires KeepsFrom(index0, index1, lib)
    requires var first := Path(tip, Num(tip) - Num(ForkPoint(tip, h)));
             && index2 == index1 - (set i | 0 <= i < failed + 1 :: first[i])
             && ReplayTo(m, s, tip, Num(first[failed])).None?
    requires IsAncestor(h, tip) ==> ReplayTo(m, s, tip, Num(h)).Some?
    ensures forall b | b in Path(h, Num(h) - Num(ForkPoint(tip, h))) :: b in index2
  {
    hide At, Num, Path, ForkPoint, ReplayTo;
    var f := ForkPoint(tip, h);
    var k, k' := Num(tip) - Num(f), Num(h) - Num(f);
    ForkPointCommon(tip, h);
    BranchBlock(tip, h, failed);
    forall b | b in Path(h, k') ensures b in index2 {
      var j: nat :| j < k' && b == Path(h, k')[j];
      PathAt(h, k', j);
      KeptAt(index0, h, low, Num(h) - j);
      if i: nat :| i < failed + 1 && Path(tip, k)[i] == b {
        PathAt(tip, k, i);
        SharedAbove(tip, h, Num(h) - j);
        ReplayPrefix(m, s, tip, Num(h), Num(tip) - failed);
      }
    }
  }

  /** What a failed switch leaves of the fork database. */
  lemma ForgottenBranch(index0: set<Block>, index1: set<Block>, index2: set<Block>, index3: set<Block>,
                        tip: Block, h: Block, failed: nat, lib: nat, lib': nat)
    requires Num(tip) > Num(h) && h != Genesis && failed < Num(tip) - Num(ForkPoint(tip, h))
    requires KeepsFrom(index0, index1, lib)
    requires KeepsFrom(index2, index3, lib')
    requires var first := Path(tip, Num(tip) - Num(ForkPoint(tip, h)));
             index2 == index1 - set i | 0 <= i < failed + 1 :: first[i]
    requires lib <= Num(ForkPoint(tip, h)) && lib' <= Num(ForkPoint(tip, h))
    ensures var f := ForkPoint(tip, h);
            ForgotOnly(index0, index3, tip, Num(tip) - failed, Num(f))
  {
    var f := ForkPoint(tip, h);
    hide At, Num, Path, ForkPoint;
    var k := Num(tip) - Num(f);
    ForkPointCommon(tip, h);
    forall n: nat | Num(tip) - failed <= n <= Num(tip) ensures At(tip, n) !in index3 {
      PathAt(tip, k, Num(tip) - n);
      var i := Num(tip) - n;
      assert Path(tip, k)[i] !in index2;
    }
    forall b | b in index0 && Num(b) >= Num(f) && !(Num(b) >= Num(tip) - failed && IsAncestor(b, tip))
      ensures b in index3 {
      if i: nat :| i < failed + 1 && Path(tip, k)[i] == b {
        PathAt(tip, k, i);
      }
    }
  }

  ghost function ForkState<S(!new)>(m: Machine<S>, root: Block, s: S, undo: seq<S>, log: seq<Block>, hist: seq<S>,
      tip: Block): S
    requires Consistent(m, root, s, undo, log, hist) && |log| <= Num(ForkPoint(tip, m.head(s)))
  {
    ConsistentBounds(m, root, s, undo, log, hist);
    ForkPointCommon(tip, m.head(s));
    hist[Num(ForkPoint(tip, m.head(s))) - Num(root)]
  }

  /** Only blocks lower than one below the irreversible block are gone. */
  ghost predicate KeepsFrom(before: set<Block>, after: set<Block>, lib: nat) {
    after <= before && forall b | b in before && Num(b) + 1 >= lib :: b in after
  }

  lemma KeepsPruned(before: set<Block>, index: set<Block>, head: Block, lib0: nat, lib: nat)
    requires KeepsFrom(before, index, lib0) && lib0 <= lib < Num(head)
    ensures KeepsFrom(before, Pruned(index, head, Num(head) - lib + 1), lib)
  {
  }

  /** Only blocks of tip's branch from height n up, and blocks below height low, are gone. */
  ghost predicate ForgotOnly(before: set<Block>, after: set<Block>, tip: Block, n: nat, low: nat) {
    && after <= before
    && (forall k: nat | n <= k <= Num(tip) :: At(tip, k) !in after)
    && forall b | b in before && Num(b) >= low && !(Num(b) >= n && IsAncestor(b, tip)) :: b in after
  }

  ghost predicate HasParent(index: set<Block>, root: Block, b: Block) {
    b != Genesis && b != root && b.previous != Genesis && b.previous in index
  }

  /** From x one can step down to height low, every parent on the way being kept. */
  ghost predicate Steps(index: set<Block>, root: Block, x: Block, low: int) {
    forall n: nat | low < n <= Num(x) :: HasParent(index, root, At(x, n))
  }

  lemma SelfAncestor(b: Block)
    ensures IsAncestor(b, b) && At(b, Num(b)) == b
  {
  }

  lemma ProperAncestor(f: Block, h: Block)
    requires IsAncestor(f, h) && f != h
    ensures h != Genesis && Num(f) < Num(h) && IsAncestor(f, h.previous)
  {
  }

  lemma ParentBelow(y: Block, x: Block)
    requires IsAncestor(y, x)
    ensures y != Genesis ==> IsAncestor(y.previous, x) && Num(y.previous) == Num(y) - 1
  {
    if y != Genesis {
      AtPrevious(x, Num(y) - 1);
    }
  }

  lemma StepDown(index: set<Block>, root: Block, x: Block, y: Block, low: int)
    requires IsAncestor(y, x) && 0 <= low < Num(y)
    ensures y != Genesis && IsAncestor(y.previous, x) && Num(y.previous) == Num(y) - 1
    ensures Steps(index, root, x, low) ==> Lock(index, y, root, y).Some?
  {
    ParentBelow(y, x);
    NumZero(y);
    hide IsAncestor;
    if Steps(index, root, x, low) {
      assert At(x, Num(y)) == y by { TopOf(y, x); }
      assert HasParent(index, root, At(x, Num(y)));
    }
  }

  lemma TopOf(y: Block, x: Block)
    requires IsAncestor(y, x)
    ensures At(x, Num(y)) == y && Num(y) <= Num(x)
  {
  }

  lemma StepsFewer(index: set<Block>, root: Block, x: Block, low: int, low': int)
    requires Steps(index, root, x, low) && low <= low'
    ensures Steps(index, root, x, low')
  {
  }

  lemma BranchStart<S(!new)>(m: Machine<S>, s: S, tip: Block, k: nat)
    requires Sound(m) && 0 < k <= Num(tip) && m.head(s) == At(tip, Num(tip) - k)
    ensures Num(m.head(s)) == Num(tip) - k && ReplayTo(m, s, tip, Num(tip) - k) == Some(s)
  {
  }

  lemma BranchStep<S(!new)>(m: Machine<S>, s: S, tip: Block, k: nat, i: nat, t: S)
    requires Sound(m) && i < k <= Num(tip) && m.head(s) == At(tip, Num(tip) - k)
    requires ReplayTo(m, s, tip, Num(tip) - 1 - i) == Some(t)
    ensures var b := At(tip, Num(tip) - i);
            && b != Genesis && b.previous == At(tip, Num(tip) - 1 - i) && Num(b) == Num(tip) - i
            && ReplayTo(m, s, tip, Num(b)) == m.step(t, b)
            && (m.step(t, b).Some? ==> m.lib(t) <= m.lib(m.step(t, b).value) < Num(b))
  {
    AtPrevious(tip, Num(tip) - 1 - i);
  }

  /** Once a block of the branch fails, so does the branch. */
  lemma {:induction false} BranchFails<S(!new)>(m: Machine<S>, s: S, tip: Block, n: nat)
    requires n <= Num(tip) && ReplayTo(m, s, tip, n).None?
    ensures ReplayTo(m, s, tip, Num(tip)).None?
    decreases Num(tip) - n
  {
    if n < Num(tip) {
      assert ReplayTo(m, s, tip, n + 1).None?;
      BranchFails(m, s, tip, n + 1);
    }
  }

  lemma KeepsAll(index: set<Block>, lib: nat)
    ensures KeepsFrom(index, index, lib)
  {
  }

  lemma StillKept(before: set<Block>, after: set<Block>, lib: nat, b: Block)
    requires KeepsFrom(before, after, lib) && b in before && Num(b) + 1 >= lib
    ensures b in after
  {
  }

  // ---- A block of the chain that is dropped --------------------------------------------------

  /** A chain whose states are its blocks, where blocks with body 13 do not apply. */
  function ToyStep(s: Block, b: Block): Option<Block> {
    if b != Genesis && b.previous == s && b.body != 13 then Some(b) else None
  }

  const Toy: Machine<Block> := Machine(ToyStep, (s: Block) => s, (s: Block) => 0)

  /** After a child of the head has been rejected, receiving the head once more drops it. */
  method KnownHeadDropped() returns (kept: bool)
    ensures !kept
  {
    var b1 := Block(Genesis, 1);
    var db := new Database(Toy, b1);
    var bad := Block(b1, 13);
    var first := db.PushBlock(bad);
    assert Num(bad) == 2 && db.Accepted(b1);
    var second := db.PushBlock(b1);
    kept := db.Head() in db.fork.index;
  }

  // ---- Steps on values -----------------------------------------------------------------------

  lemma SiblingNum(a: Block, b: Block)
    requires a != Genesis && b != Genesis && a.previous == b.previous
    ensures Num(a) == Num(b)
  {
  }

  lemma TopKept(index: set<Block>, h: Block, low: nat)
    requires KeptIn(index, h, low)
    ensures low <= Num(h) ==> h in index
  {
    assert At(h, Num(h)) == h;
  }

  lemma ConsistentBounds<S(!new)>(m: Machine<S>, root: Block, s: S, undo: seq<S>, log: seq<Block>, hist: seq<S>)
    requires Consistent(m, root, s, undo, log, hist)
    ensures |log| <= Num(m.head(s)) && Num(root) <= |log| && |undo| == Num(m.head(s)) - |log|
    ensures Num(m.head(s)) == Num(root) + |hist| - 1
    ensures Sound(m) && |hist| > 0 && m.lib(s) <= |log| && History(m, root, s, hist)
  {
    ChainHeads(m, hist, |hist| - 1);
  }

  /** Before the irreversible state is migrated. */
  lemma ApplyFacts<S(!new)>(m: Machine<S>, root: Block, s: S, undo: seq<S>, log: seq<Block>, hist: seq<S>, b: Block,
      t: S)
    requires Consistent(m, root, s, undo, log, hist) && m.step(s, b) == Some(t)
    ensures b != Genesis && m.head(t) == b && b.previous == m.head(s) && m.lib(t) < Num(b)
    ensures Num(root) <= |log| < Num(b) && log == Ancestry(b)[..|log|]
    ensures Numbered(m, undo + [s]) && Num(m.head((undo + [s])[0])) == |log| && |undo| + 1 == Num(b) - |log|
  {
    LogOfChild(m, root, s, log, b, t) by { hide Snapshots, Chain; }
    SnapshotHeights(m, root, s, undo, |log|, hist) by { hide Logged; }
    HistoryHeight(m, root, s, hist) by { hide Logged, Snapshots; }
    hide History, Logged, Snapshots;
  }

  lemma HistoryHeight<S(!new)>(m: Machine<S>, root: Block, s: S, hist: seq<S>)
    requires History(m, root, s, hist)
    ensures Num(m.head(s)) == Num(root) + |hist| - 1
  {
    ChainHeads(m, hist, |hist| - 1);
  }

  lemma LogOfChild<S(!new)>(m: Machine<S>, root: Block, s: S, log: seq<Block>, b: Block, t: S)
    requires Sound(m) && Logged(m, root, s, log) && m.step(s, b) == Some(t)
    ensures b != Genesis && m.head(t) == b && b.previous == m.head(s) && m.lib(t) < Num(b)
    ensures Num(root) <= |log| < Num(b) && log == Ancestry(b)[..|log|]
  {
  }

  lemma SnapshotHeights<S(!new)>(m: Machine<S>, root: Block, s: S, undo: seq<S>, n: nat, hist: seq<S>)
    requires History(m, root, s, hist) && Snapshots(root, n, undo, hist)
    ensures Numbered(m, undo + [s]) && Num(m.head((undo + [s])[0])) == n && |undo| == |hist| - 1 - (n - Num(root))
  {
    assert undo + [s] == hist[n - Num(root)..];
    forall i: nat | i < |undo + [s]| ensures Num(m.head((undo + [s])[i])) == n + i {
      ChainHeads(m, hist, n - Num(root) + i);
    }
  }

  /** After it. */
  lemma ApplyDone<S(!new)>(m: Machine<S>, root: Block, s: S, undo: seq<S>, log: seq<Block>, hist: seq<S>, b: Block,
      t: S)
    requires Consistent(m, root, s, undo, log, hist) && m.step(s, b) == Some(t)
    ensures var n := if m.lib(t) > |log| then m.lib(t) else |log|;
            && n - |log| <= |undo + [s]| && n <= Num(b)
            && log <= Ancestry(b)[..n]
            && Consistent(m, root, t, (undo + [s])[n - |log|..], Ancestry(b)[..n], hist + [t])
  {
    var n := if m.lib(t) > |log| then m.lib(t) else |log|;
    ApplyFacts(m, root, s, undo, log, hist, b, t);
    assert History(m, root, t, hist + [t]) by {
      hide Logged, Snapshots;
      ChainExtend(m, hist, t);
    }
    SnapshotsGrow(m, root, s, undo, |log|, hist, t, n) by {
      hide Logged, Chain, Sound;
      HistoryHeight(m, root, s, hist);
    }
    assert Logged(m, root, t, Ancestry(b)[..n]) by {
      hide History, Snapshots, Ancestry;
      assert Ancestry(b)[..n][..n] == Ancestry(b)[..n];
    }
    hide History, Logged, Snapshots, Ancestry;
  }

  lemma SnapshotsGrow<S(!new)>(m: Machine<S>, root: Block, s: S, undo: seq<S>, low: nat, hist: seq<S>, t: S, n: nat)
    requires |hist| > 0 && s == hist[|hist| - 1] && Snapshots(root, low, undo, hist) && low <= n <= Num(root) + |hist|
    ensures n - low <= |undo + [s]| && Snapshots(root, n, (undo + [s])[n - low..], hist + [t])
  {
    assert (undo + [s])[n - low..] == (hist + [t])[n - Num(root)..|hist|];
  }

  lemma PopDone<S(!new)>(m: Machine<S>, root: Block, s: S, undo: seq<S>, log: seq<Block>, hist: seq<S>)
    requires Consistent(m, root, s, undo, log, hist) && undo != []
    ensures |hist| > 1 && m.head(s) != Genesis && |log| < Num(m.head(s))
    ensures m.head(undo[|undo| - 1]) == m.head(s).previous
    ensures Consistent(m, root, undo[|undo| - 1], undo[..|undo| - 1], log, hist[..|hist| - 1])
  {
    ConsistentBounds(m, root, s, undo, log, hist);
    assert History(m, root, undo[|undo| - 1], hist[..|hist| - 1]) && m.step(undo[|undo| - 1], m.head(s)) == Some(s) by {
      hide Logged;
      ChainPrefix(m, hist, |hist| - 1);
      assert Follows(m, hist, |hist| - 1);
    }
    SnapshotsShrink(root, undo, |log|, hist) by { hide History, Logged; }
    LogOfParent(m, root, s, log, undo[|undo| - 1]) by { hide Snapshots, Chain; }
    hide History, Logged, Snapshots;
  }

  lemma SnapshotsShrink<S(!new)>(root: Block, undo: seq<S>, n: nat, hist: seq<S>)
    requires Snapshots(root, n, undo, hist) && undo != []
    ensures Snapshots(root, n, undo[..|undo| - 1], hist[..|hist| - 1])
  {
    assert undo[..|undo| - 1] == hist[..|hist| - 1][n - Num(root)..|hist| - 2];
  }

  lemma LogOfParent<S(!new)>(m: Machine<S>, root: Block, s: S, log: seq<Block>, p: S)
    requires Sound(m) && Logged(m, root, s, log) && m.step(p, m.head(s)) == Some(s) && |log| < Num(m.head(s))
    requires m.lib(p) <= m.lib(s)
    ensures Logged(m, root, p, log)
  {
    assert Ancestry(m.head(s))[..|log|] == Ancestry(m.head(p))[..|log|];
  }

  /** Pruning below the irreversible block keeps what the next migrations need. */
  lemma KeptPruned(index: set<Block>, b: Block, head: Block, low: nat, low': nat, lib: nat)
    requires KeptIn(index, b, low) && low <= low' && lib <= low' && Num(head) == Num(b) && lib < Num(b)
    ensures KeptIn(Pruned(index, head, Num(b) - lib + 1), b, low')
  {
  }
}
