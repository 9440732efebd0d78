/**
 The transaction Merkle root of a block: a level-by-level reduction of the digests, in place.

 Hashing is a parameter: `pair` hashes two digests into one and `seal` turns the last digest into
 the checksum of the block header.
 */
module Merkle {
  datatype Hasher<!D, !C> = Hasher(pair: (D, D) -> D, seal: D -> C, nothing: C)

  // ---- Level by level ------------------------------------------------------------------------

  /** The next level: neighbours hashed in pairs, an odd last digest carried up as it is. */
  function Level<D, C>(h: Hasher<D, C>, s: seq<D>): (r: seq<D>)
    ensures |r| == (|s| + 1) / 2
  {
    if |s| < 2 then s else [h.pair(s[0], s[1])] + Level(h, s[2..])
  }

  lemma {:induction false} LevelAppend<D, C>(h: Hasher<D, C>, s: seq<D>, t: seq<D>)
    requires |s| % 2 == 0
    ensures Level(h, s + t) == Level(h, s) + Level(h, t)
    decreases |s|
  {
    if |s| == 0 {
      assert s + t == t;
    } else {
      assert (s + t)[2..] == s[2..] + t;
      LevelAppend(h, s[2..], t);
    }
  }

  lemma LevelPair<D, C>(h: Hasher<D, C>, s: seq<D>, x: D, y: D)
    requires |s| % 2 == 0
    ensures Level(h, s + [x, y]) == Level(h, s) + [h.pair(x, y)]
  {
    LevelAppend(h, s, [x, y]);
    assert [x, y][2..] == [];
  }

  lemma LevelOdd<D, C>(h: Hasher<D, C>, s: seq<D>, x: D)
    requires |s| % 2 == 0
    ensures Level(h, s + [x]) == Level(h, s) + [x]
  {
    LevelAppend(h, s, [x]);
  }

  lemma LevelNone<D, C>(h: Hasher<D, C>, s: seq<D>)
    requires s == []
    ensures Level(h, s) == []
  {
  }

  /** The last digest left when levels are built until one remains. */
  function Top<D, C>(h: Hasher<D, C>, s: seq<D>): D
    requires |s| > 0
    decreases |s|
  {
    if |s| == 1 then s[0] else Top(h, Level(h, s))
  }

  function Root<D, C>(h: Hasher<D, C>, s: seq<D>): C {
    if s == [] then h.nothing else h.seal(Top(h, s))
  }

  // ---- The reference: a binary tree split at a power of two -------------------------------------

  /** The largest power of two below n. */
  function HalfPower(n: nat): (p: nat)
    requires n >= 2
    ensures p < n <= 2 * p && (n > 2 ==> p % 2 == 0)
  {
    if n == 2 then 1 else 2 * HalfPower((n + 1) / 2)
  }

  /** The hash tree of section 2.1 of RFC 6962, without its domain separation. */
  function Tree<D, C>(h: Hasher<D, C>, s: seq<D>): D
    requires |s| > 0
    decreases |s|
  {
    if |s| == 1 then s[0]
    else var k := HalfPower(|s|); h.pair(Tree(h, s[..k]), Tree(h, s[k..]))
  }

  /** Building one level does not change the tree's digest. */
  lemma {:induction false} LevelKeepsTree<D, C>(h: Hasher<D, C>, s: seq<D>)
    requires |s| > 0
    ensures Tree(h, Level(h, s)) == Tree(h, s)
    decreases |s|
  {
    if |s| == 2 {
      assert Level(h, s) == [h.pair(s[0], s[1])] by { assert s[2..] == []; }
    } else if |s| > 2 {
      var k := HalfPower(|s|);
      assert s == s[..k] + s[k..];
      LevelAppend(h, s[..k], s[k..]);
      var up := Level(h, s);
      assert up[..k / 2] == Level(h, s[..k]) && up[k / 2..] == Level(h, s[k..]);
      LevelKeepsTree(h, s[..k]);
      LevelKeepsTree(h, s[k..]);
    }
  }

  /** Level by level and top down give the same digest. */
  lemma {:induction false} TopIsTree<D, C>(h: Hasher<D, C>, s: seq<D>)
    requires |s| > 0
    ensures Top(h, s) == Tree(h, s)
    decreases |s|
  {
    if |s| > 1 {
      LevelKeepsTree(h, s);
      TopIsTree(h, Level(h, s));
    }
  }

  // ---- What a root commits to ----------------------------------------------------------------

  ghost predicate Injective<D(!new), C>(h: Hasher<D, C>) {
    && (forall a, b, c, d :: h.pair(a, b) == h.pair(c, d) ==> a == c && b == d)
    && (forall a, b :: h.seal(a) == h.seal(b) ==> a == b)
  }

  lemma {:induction false} TreeCommits<D(!new), C>(h: Hasher<D, C>, s: seq<D>, t: seq<D>)
    requires Injective(h) && |s| == |t| > 0 && Tree(h, s) == Tree(h, t)
    ensures s == t
    decreases |s|
  {
    if |s| > 1 {
      var k := HalfPower(|s|);
      TreeCommits(h, s[..k], t[..k]);
      TreeCommits(h, s[k..], t[k..]);
      assert s == s[..k] + s[k..] && t == t[..k] + t[k..];
    }
  }

  /** With collision-free hashes a root commits to the transactions, once their number is known. */
  lemma RootCommits<D(!new), C>(h: Hasher<D, C>, s: seq<D>, t: seq<D>)
    requires Injective(h) && |s| == |t|
    ensures Root(h, s) == Root(h, t) <==> s == t
  {
    if s != [] && Root(h, s) == Root(h, t) {
      TopIsTree(h, s);
      TopIsTree(h, t);
      TreeCommits(h, s, t);
    }
  }

  /** Without the number it does not, whatever the hash: a level has the root of the level below it. */
  lemma LevelsShareRoot<D, C>(h: Hasher<D, C>, s: seq<D>)
    requires |s| > 1
    ensures |Level(h, s)| != |s| && Root(h, Level(h, s)) == Root(h, s)
  {
  }

  // ---- The reduction in place -----------------------------------------------------------------

  method CalculateMerkleRoot<D, C>(h: Hasher<D, C>, transactions: seq<D>) returns (root: C)
    ensures root == Root(h, transactions)
  {
    if |transactions| == 0 {
      return h.nothing;
    }
    var ids := new D[|transactions|](i requires 0 <= i < |transactions| => transactions[i]);
    var current := ids.Length;
    assert ids[..current] == transactions;
    while current > 1
      invariant 0 < current <= ids.Length
      invariant Top(h, ids[..current]) == Top(h, transactions)
    {
      current := ReduceLevel(h, ids, current);
    }
    assert ids[..1] == [ids[0]];
    root := h.seal(ids[0]);
  }

  /** One level, overwriting the front of the vector while the rest of it is still being read. */
  method ReduceLevel<D, C>(h: Hasher<D, C>, ids: array<D>, current: nat) returns (k: nat)
    requires 1 < current <= ids.Length
    modifies ids
    ensures 0 < k < current && ids[..k] == Level(h, old(ids[..current]))
  {
    hide Level;
    ghost var s := ids[..current];
    LevelNone(h, s[..0]);
    var iMax := current - current % 2;
    k := 0;
    var i := 0;
    while i < iMax
      invariant 0 <= i <= iMax && i == 2 * k
      invariant ids[..k] == Level(h, s[..i])
      invariant forall j | i <= j < current :: ids[j] == s[j]
    {
      assert s[..i + 2] == s[..i] + [s[i], s[i + 1]];
      LevelPair(h, s[..i], s[i], s[i + 1]);
      ids[k] := h.pair(ids[i], ids[i + 1]);
      k := k + 1;
      i := i + 2;
    }
    if current % 2 == 1 {
      assert s == s[..iMax] + [s[iMax]];
      LevelOdd(h, s[..iMax], s[iMax]);
      ids[k] := ids[iMax];
      k := k + 1;
    } else {
      assert s == s[..iMax];
    }
  }
}
