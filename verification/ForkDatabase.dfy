/**
 The fork database: a pruned tree of recent blocks with a designated head. An item reaches its
 parent through a weak pointer, which can be followed only while the parent is still kept in the
 index (or is the head). The item the database was started with never gets a parent pointer.
 */
module ForkDatabase {
  import opened Blocks

  const DEFAULT_MAX_SIZE: nat := 1024

  /** Follows the parent pointer of b. */
  function Lock(index: set<Block>, head: Block, root: Block, b: Block): (r: Option<Block>)
    ensures r.Some? ==> b != Genesis && r.value == b.previous && r.value != Genesis
  {
    if b == Genesis || b == root || b.previous == Genesis then None
    else if b.previous in index || b.previous == head then Some(b.previous)
    else None
  }

  /** From x one can walk down to the block just above c. */
  ghost predicate Linked(index: set<Block>, head: Block, root: Block, x: Block, c: Block) {
    forall n: nat | Num(c) + 1 < n <= Num(x) :: Lock(index, head, root, At(x, n)).Some?
  }

  /** The walk from b down to height n along parent pointers. */
  function Walk(index: set<Block>, head: Block, root: Block, b: Block, n: nat): Option<Block>
    decreases b
  {
    if Num(b) <= n then Some(b)
    else
      match Lock(index, head, root, b)
      case None => None
      case Some(p) => Walk(index, head, root, p, n)
  }

  function PruneBelow(head: Block, size: nat): nat {
    if Num(head) <= size then 0 else Num(head) - size
  }

  /** The blocks a prune to `size` keeps. */
  ghost function Pruned(index: set<Block>, head: Block, size: nat): set<Block> {
    set b | b in index && Num(b) + size >= Num(head)
  }

  function AtHeight(index: set<Block>, n: nat): set<Block> {
    set b | b in index && Num(b) == n
  }

  lemma {:induction false} WalkFinds(index: set<Block>, head: Block, root: Block, b: Block, n: nat)
    requires forall m: nat | n < m <= Num(b) :: Lock(index, head, root, At(b, m)).Some?
    ensures Walk(index, head, root, b, n) == Some(At(b, n))
    decreases b
  {
    if Num(b) > n {
      assert At(b, Num(b)) == b;
      forall m: nat | n < m <= Num(b.previous) ensures Lock(index, head, root, At(b.previous, m)).Some? {
        assert At(b, m) == At(b.previous, m);
      }
      WalkFinds(index, head, root, b.previous, n);
    }
  }

  lemma {:induction false} PathGrows(b: Block, k: nat)
    requires k < Num(b)
    ensures Path(b, k + 1) == Path(b, k) + [At(b, Num(b) - k)]
    decreases k
  {
    if k > 0 {
      PathGrows(b.previous, k - 1);
      assert Path(b, k + 1) == [b] + Path(b.previous, k);
    } else {
      assert Path(b.previous, 0) == [];
    }
  }

  /** The walk down from `start` has come to `cur`, having passed `path`. */
  ghost predicate Descended(index: set<Block>, head: Block, root: Block, start: Block, cur: Block, path: seq<Block>) {
    && cur != Genesis && Num(cur) <= Num(start) && At(start, Num(cur)) == cur
    && path == Path(start, Num(start) - Num(cur))
    && forall n: nat | Num(cur) < n <= Num(start) :: Lock(index, head, root, At(start, n)).Some?
  }

  lemma DescendStart(index: set<Block>, head: Block, root: Block, x: Block)
    requires x != Genesis
    ensures Descended(index, head, root, x, x, [])
  {
  }

  lemma DescendedNotGenesis(index: set<Block>, head: Block, root: Block, start: Block, cur: Block, path: seq<Block>)
    requires Descended(index, head, root, start, cur, path)
    ensures cur != Genesis && Num(cur) > 0
  {
  }

  lemma DescendStep(index: set<Block>, head: Block, root: Block, start: Block, cur: Block, path: seq<Block>)
    requires Descended(index, head, root, start, cur, path) && Lock(index, head, root, cur).Some?
    ensures Descended(index, head, root, start, cur.previous, path + [cur])
  {
    hide Path, At, Lock, Num;
    NumPrevious(cur);
    PathGrows(start, Num(start) - Num(cur));
    AtPrevious(start, Num(cur) - 1);
  }

  lemma NumPrevious(b: Block)
    requires b != Genesis
    ensures Num(b) == Num(b.previous) + 1
  {
  }

  /** One more step succeeds exactly when the parent can be reached; failing above c + 1 breaks the link to c. */
  lemma DescendOn(index: set<Block>, head: Block, root: Block, start: Block, cur: Block, path: seq<Block>, c: Block)
    requires Descended(index, head, root, start, cur, path) && Num(c) + 1 < Num(cur)
    ensures cur != Genesis && Num(cur.previous) + 1 == Num(cur)
    ensures var p := Lock(index, head, root, cur);
            if p.None? then !Linked(index, head, root, start, c)
            else p.value == cur.previous && Descended(index, head, root, start, p.value, path + [cur])
  {
    hide Path, At, Lock, Num;
    NumPrevious(cur);
    if Lock(index, head, root, cur).None? {
      assert Lock(index, head, root, At(start, Num(cur))).None?;
    } else {
      DescendStep(index, head, root, start, cur, path);
    }
  }

  lemma DescendEnd(index: set<Block>, head: Block, root: Block, start: Block, cur: Block, path: seq<Block>)
    requires Descended(index, head, root, start, cur, path)
    ensures var c := cur.previous;
            && Num(c) < Num(start) && Linked(index, head, root, start, c)
            && path + [cur] == Path(start, Num(start) - Num(c))
  {
    hide Path, At, Lock;
    PathGrows(start, Num(start) - Num(cur));
  }

  lemma ForkPointHigher(x: Block, y: Block)
    requires x != Genesis && y != Genesis && Num(x) != Num(y)
    ensures Num(x) > Num(y) ==> ForkPoint(x.previous, y) == ForkPoint(x, y) && Num(ForkPoint(x, y)) + 1 < Num(x)
    ensures Num(y) > Num(x) ==> ForkPoint(x, y.previous) == ForkPoint(x, y) && Num(ForkPoint(x, y)) + 1 < Num(y)
  {
    ForkPointCommon(x, y);
  }

  lemma ForkPointLevel(x: Block, y: Block)
    requires x != Genesis && y != Genesis && Num(x) == Num(y)
    ensures x.previous == y.previous ==> ForkPoint(x, y) == x.previous
    ensures x.previous != y.previous ==>
              ForkPoint(x.previous, y.previous) == ForkPoint(x, y) && Num(ForkPoint(x, y)) + 1 < Num(x)
              && x.previous != Genesis && y.previous != Genesis && Num(x.previous) == Num(y.previous)
  {
    if x.previous != y.previous {
      NumZero(x.previous);
      NumZero(y.previous);
      ForkPointCommon(x.previous, y.previous);
    }
  }

  lemma NumZero(b: Block)
    ensures Num(b) == 0 <==> b == Genesis
  {
  }

  class ForkDb {
    var index: set<Block>
    var head: Block
    var maxSize: nat
    const root: Block

    ghost predicate Valid()
      reads this
    {
      Genesis !in index && head != Genesis && root != Genesis
    }

    /** Starts from one block, the head of the block log. */
    constructor (b: Block)
      requires b != Genesis
      ensures Valid() && index == {b} && head == b && root == b && maxSize == DEFAULT_MAX_SIZE
    {
      index, head, root, maxSize := {b}, b, b, DEFAULT_MAX_SIZE;
    }

    /** Adds a block whose parent is known, and moves the head to it when it is the highest. */
    method PushBlock(b: Block) returns (r: Option<Block>)
      requires Valid() && b != Genesis
      modifies `index, `head
      ensures Valid()
      ensures r.Some? <==>
        Num(b) + maxSize > Num(old(head)) && (b.previous == Genesis || b.previous in old(index))
      ensures r.None? ==> index == old(index) && head == old(head)
      ensures r.Some? ==> index == old(index) + {b}
      ensures r.Some? ==> head == (if Num(b) > Num(old(head)) then b else old(head)) == r.value
    {
      if Num(b) <= PruneBelow(head, maxSize) {
        return None;
      }
      if b.previous != Genesis && b.previous !in index {
        return None;
      }
      index := index + {b};
      if Num(b) > Num(head) {
        head := b;
      }
      return Some(head);
    }

    /** Moves the head to its parent. */
    method PopBlock() returns (ok: bool)
      requires Valid()
      modifies `head
      ensures Valid()
      ensures ok <==> Lock(index, old(head), root, old(head)).Some?
      ensures head == if ok then old(head).previous else old(head)
    {
      match Lock(index, head, root, head)
      case None => ok := false;
      case Some(p) => head, ok := p, true;
    }

    method SetHead(b: Block)
      requires Valid() && b != Genesis
      modifies `head
      ensures Valid() && head == b
    {
      head := b;
    }

    method Remove(b: Block)
      requires Valid()
      modifies `index
      ensures Valid() && index == old(index) - {b}
    {
      index := index - {b};
    }

    /** Drops the lowest blocks until none is further below the head than the given size. */
    method SetMaxSize(size: nat)
      requires Valid()
      modifies `index, `maxSize
      ensures Valid() && maxSize == size
      ensures index == Pruned(old(index), head, size)
    {
      maxSize := size;
      var low := PruneBelow(head, size);
      var stale := set b | b in index && Num(b) < low;
      while stale != {}
        invariant maxSize == size && index <= old(index)
        invariant forall b :: b in stale <==> b in index && Num(b) < low
        invariant forall b | b in old(index) && Num(b) >= low :: b in index
        decreases stale
      {
        var b :| b in stale;
        index := index - {b};
        stale := stale - {b};
      }
    }

    /**
     The two branches above the fork point of two known blocks, newest block first. It succeeds
     exactly when both chains can be walked down to that point.
     */
    method FetchBranchFrom(first: Block, second: Block) returns (r: Option<(seq<Block>, seq<Block>)>)
      requires Valid()
      ensures var c := ForkPoint(first, second);
              r.Some? <==> first in index && second in index
                           && Linked(index, head, root, first, c) && Linked(index, head, root, second, c)
      ensures var c := ForkPoint(first, second);
              r.Some? ==> Num(c) < Num(first) && Num(c) < Num(second)
                          && r.value == (Path(first, Num(first) - Num(c)), Path(second, Num(second) - Num(c)))
    {
      if first !in index || second !in index {
        return None;
      }
      hide Num, At, Path, ForkPoint, Lock, Linked, Descended;
      ghost var c := ForkPoint(first, second);
      var x, y := first, second;
      var xs, ys := [], [];
      DescendStart(index, head, root, x);
      DescendStart(index, head, root, y);
      while Num(x) > Num(y)
        invariant Descended(index, head, root, first, x, xs) && ForkPoint(x, y) == c
        decreases Num(x)
      {
        ForkPointHigher(x, y);
        DescendOn(index, head, root, first, x, xs, c);
        xs := xs + [x];
        var p := Lock(index, head, root, x);
        if p.None? { return None; }
        x := p.value;
      }
      while Num(y) > Num(x)
        invariant Descended(index, head, root, second, y, ys) && ForkPoint(x, y) == c && Num(y) >= Num(x)
        decreases Num(y)
      {
        ForkPointHigher(x, y);
        DescendOn(index, head, root, second, y, ys, c);
        ys := ys + [y];
        var p := Lock(index, head, root, y);
        if p.None? { return None; }
        y := p.value;
      }
      DescendedNotGenesis(index, head, root, first, x, xs);
      DescendedNotGenesis(index, head, root, second, y, ys);
      while x.previous != y.previous
        invariant Descended(index, head, root, first, x, xs) && Descended(index, head, root, second, y, ys)
        invariant x != Genesis && y != Genesis && Num(x) == Num(y) && ForkPoint(x, y) == c
        decreases Num(x)
      {
        ForkPointLevel(x, y);
        DescendOn(index, head, root, first, x, xs, c);
        DescendOn(index, head, root, second, y, ys, c);
        xs, ys := xs + [x], ys + [y];
        var px, py := Lock(index, head, root, x), Lock(index, head, root, y);
        if px.None? || py.None? { return None; }
        x, y := px.value, py.value;
      }
      ForkPointLevel(x, y);
      DescendEnd(index, head, root, first, x, xs);
      DescendEnd(index, head, root, second, y, ys);
      return Some((xs + [x], ys + [y]));
    }

    /** The block on the head's chain at height n, by walking. */
    method WalkMainBranchToNum(n: nat) returns (r: Option<Block>)
      ensures r == if n > Num(head) then None else Walk(index, head, root, head, n)
    {
      if n > Num(head) {
        return None;
      }
      var next := Some(head);
      while next.Some? && Num(next.value) > n
        invariant next.Some? ==> Walk(index, head, root, next.value, n) == Walk(index, head, root, head, n)
        invariant next.None? ==> Walk(index, head, root, head, n) == None
        decreases if next.Some? then Num(next.value) + 1 else 0
      {
        next := Lock(index, head, root, next.value);
      }
      return next;
    }

    /** A single candidate at the height is taken as it is; otherwise the chain is walked. */
    method FetchBlockOnMainBranchByNumber(n: nat) returns (r: Option<Block>)
      ensures AtHeight(index, n) == {} ==> r == None
      ensures forall b | AtHeight(index, n) == {b} :: r == Some(b)
      ensures |AtHeight(index, n)| > 1 ==> r == if n > Num(head) then None else Walk(index, head, root, head, n)
      ensures n <= Num(head) && At(head, n) in index && Linked(index, head, root, head, At(head, n))
              && (n < Num(head) ==> Lock(index, head, root, At(head, n + 1)).Some?)
              ==> r == Some(At(head, n))
    {
      var blocks := AtHeight(index, n);
      ghost var onChain := n <= Num(head) && At(head, n) in index;
      if |blocks| == 1 {
        var b :| b in blocks;
        assert |blocks - {b}| == 0;
        assert onChain ==> At(head, n) in blocks;
        return Some(b);
      }
      if |blocks| == 0 {
        assert blocks == {};
        assert onChain ==> At(head, n) in blocks;
        return None;
      }
      r := WalkMainBranchToNum(n);
      if onChain && Linked(index, head, root, head, At(head, n))
         && (n < Num(head) ==> Lock(index, head, root, At(head, n + 1)).Some?) {
        WalkFinds(index, head, root, head, n);
      }
    }
  }
}
