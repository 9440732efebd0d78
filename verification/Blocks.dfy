/**
 Blocks and their ancestry. A block id commits to the header, which holds the id of the previous
 block; hashes are taken to be injective, so a block is modelled as what its id commits to: its
 previous block and a body. `Genesis` plays the part of the null id. The number stored in an id is
 then the length of the chain below it.
 */
module Blocks {
  datatype Option<+T> = None | Some(value: T)

  datatype Block = Genesis | Block(previous: Block, body: nat)

  function Num(b: Block): nat {
    match b
    case Genesis => 0
    case Block(p, _) => Num(p) + 1
  }

  /** The ancestor of b at height n; b itself when b is not higher than n. */
  function At(b: Block, n: nat): (r: Block)
    ensures n <= Num(b) ==> Num(r) == n
  {
    if Num(b) <= n then b else At(b.previous, n)
  }

  predicate IsAncestor(a: Block, b: Block) {
    Num(a) <= Num(b) && At(b, Num(a)) == a
  }

  /** The blocks 1, 2, .., Num(b) below and including b. */
  function Ancestry(b: Block): (r: seq<Block>)
    ensures |r| == Num(b)
  {
    match b
    case Genesis => []
    case Block(p, _) => Ancestry(p) + [b]
  }

  /** b and the k - 1 blocks below it, newest first. */
  function Path(b: Block, k: nat): (r: seq<Block>)
    requires k <= Num(b)
    ensures |r| == k
    decreases k
  {
    if k == 0 then [] else [b] + Path(b.previous, k - 1)
  }

  lemma {:induction false} AtAt(b: Block, m: nat, n: nat)
    requires n <= m
    ensures At(At(b, m), n) == At(b, n)
    decreases b
  {
    if Num(b) > m {
      AtAt(b.previous, m, n);
    }
  }

  lemma AncestorTrans(a: Block, b: Block, c: Block)
    requires IsAncestor(a, b) && IsAncestor(b, c)
    ensures IsAncestor(a, c)
  {
    AtAt(c, Num(b), Num(a));
  }

  lemma {:induction false} AtPrevious(b: Block, n: nat)
    requires n < Num(b)
    ensures At(b, n + 1) != Genesis && At(b, n + 1).previous == At(b, n)
    decreases b
  {
    if n + 1 < Num(b) {
      AtPrevious(b.previous, n);
    }
  }

  lemma {:induction false} AncestryAt(b: Block, i: nat)
    requires i < Num(b)
    ensures Ancestry(b)[i] == At(b, i + 1)
    decreases b
  {
    if i + 1 < Num(b) {
      AncestryAt(b.previous, i);
    }
  }

  lemma {:induction false} PathAt(b: Block, k: nat, i: nat)
    requires i < k <= Num(b)
    ensures Path(b, k)[i] == At(b, Num(b) - i)
    decreases k
  {
    if i > 0 {
      PathAt(b.previous, k - 1, i - 1);
    }
  }

  // ---- Where two chains part -----------------------------------------------------------------

  /** The block below the lowest pair of different blocks at equal height, going down from x and y. */
  function ForkPoint(x: Block, y: Block): Block
    decreases Num(x) + Num(y)
  {
    if x == Genesis || y == Genesis then Genesis
    else if Num(x) > Num(y) then ForkPoint(x.previous, y)
    else if Num(y) > Num(x) then ForkPoint(x, y.previous)
    else if x.previous == y.previous then x.previous
    else ForkPoint(x.previous, y.previous)
  }

  lemma {:induction false} ForkPointCommon(x: Block, y: Block)
    ensures IsAncestor(ForkPoint(x, y), x) && IsAncestor(ForkPoint(x, y), y)
    ensures x != Genesis && y != Genesis ==> Num(ForkPoint(x, y)) < Num(x) && Num(ForkPoint(x, y)) < Num(y)
    decreases Num(x) + Num(y)
  {
    if x == Genesis || y == Genesis {
      GenesisBelow(x);
      GenesisBelow(y);
    } else if Num(x) > Num(y) {
      ForkPointCommon(x.previous, y);
    } else if Num(y) > Num(x) {
      ForkPointCommon(x, y.previous);
    } else if x.previous != y.previous {
      ForkPointCommon(x.previous, y.previous);
    }
  }

  lemma {:induction false} GenesisBelow(b: Block)
    ensures At(b, 0) == Genesis
    decreases b
  {
    if b != Genesis { GenesisBelow(b.previous); }
  }

  /** If neither chain contains the other, the fork point is their most recent common ancestor. */
  lemma ForkPointRecent(x: Block, y: Block, c: Block)
    requires !IsAncestor(x, y) && !IsAncestor(y, x)
    requires IsAncestor(c, x) && IsAncestor(c, y)
    ensures IsAncestor(c, ForkPoint(x, y))
  {
    ForkPointCommon(x, y);
    var f := ForkPoint(x, y);
    if Num(c) <= Num(f) {
      AtAt(x, Num(f), Num(c));
    } else {
      ForkPointHighest(x, y, Num(c));
    }
  }

  /** Above the fork point the two chains have different blocks at every height. */
  lemma {:induction false} ForkPointHighest(x: Block, y: Block, n: nat)
    requires !IsAncestor(x, y) && !IsAncestor(y, x)
    requires Num(ForkPoint(x, y)) < n <= Num(x) && n <= Num(y)
    ensures At(x, n) != At(y, n)
    decreases Num(x) + Num(y)
  {
    if x == Genesis || y == Genesis {
      GenesisBelow(x);
      GenesisBelow(y);
    } else if Num(x) > Num(y) {
      if IsAncestor(x.previous, y) { AtAt(y, Num(y), Num(x.previous)); }
      ForkPointHighest(x.previous, y, n);
    } else if Num(y) > Num(x) {
      ForkPointHighest(x, y.previous, n);
    } else {
      if n < Num(x) {
        if x.previous != y.previous {
          ForkPointHighest(x.previous, y.previous, n);
        }
      }
    }
  }

  /** If x lies on the chain of y, going down from both ends just below x. */
  lemma {:induction false} ForkPointOnChain(x: Block, y: Block)
    requires x != Genesis && IsAncestor(x, y)
    ensures ForkPoint(y, x) == x.previous
    decreases y
  {
    if Num(y) > Num(x) {
      ForkPointOnChain(x, y.previous);
    }
  }
}
