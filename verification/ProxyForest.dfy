/**
 The proxy graph of the account index, as a map from an account to the account it proxies to.
 An empty name stands for "votes itself", so it is also where every finite chain ends.
 This module defines, without any counters, how much stake sits a given number of hops below an
 account, and proves how that quantity moves when a stake or an edge changes.
 */
module ProxyForest {
  import opened Sums

  type Name = string
  const SELF: Name := ""

  type Graph = map<Name, Name>
  type Stakes = map<Name, int>

  /** Every edge leads to a known account, and the empty name is not an account. */
  ghost predicate Closed(g: Graph) {
    SELF !in g && forall x {:trigger g[x]} | x in g :: g[x] == SELF || g[x] in g
  }

  /** The account k hops above x, or SELF when the chain is shorter than that. */
  ghost function Up(g: Graph, x: Name, k: nat): Name
    decreases k
  {
    if k == 0 then x else if x in g then Up(g, g[x], k - 1) else SELF
  }

  ghost predicate Ends(g: Graph, x: Name) {
    exists k: nat :: Up(g, x, k) == SELF
  }

  ghost predicate Acyclic(g: Graph) {
    forall x {:trigger Ends(g, x)} | x in g :: Ends(g, x)
  }

  ghost function StakeAt(g: Graph, v: Stakes, p: Name, k: nat, x: Name): int {
    if Up(g, x, k) == p && x in v then v[x] else 0
  }

  /** The stake of all accounts exactly k hops below p. */
  ghost function Below(g: Graph, v: Stakes, p: Name, k: nat): int {
    Sum(g.Keys, x => StakeAt(g, v, p, k, x))
  }

  lemma {:induction false} UpSelf(g: Graph, k: nat)
    requires SELF !in g
    ensures Up(g, SELF, k) == SELF
  {
  }

  lemma {:induction false} UpPlus(g: Graph, x: Name, j: nat, k: nat)
    requires SELF !in g
    ensures Up(g, x, j + k) == Up(g, Up(g, x, j), k)
    decreases j
  {
    if j > 0 {
      if x in g {
        UpPlus(g, g[x], j - 1, k);
      } else {
        UpSelf(g, k);
      }
    }
  }

  /** One more hop at the top of a chain. */
  lemma UpNext(g: Graph, x: Name, k: nat)
    requires Closed(g)
    ensures Up(g, x, k + 1) == if Up(g, x, k) in g then g[Up(g, x, k)] else SELF
  {
    UpPlus(g, x, k, 1);
    var y := Up(g, x, k);
    assert Up(g, y, 1) == if y in g then Up(g, g[y], 0) else SELF;
  }

  lemma UpStays(g: Graph, x: Name, j: nat, k: nat)
    requires SELF !in g && Up(g, x, j) == SELF && j <= k
    ensures Up(g, x, k) == SELF
  {
    UpPlus(g, x, j, k - j);
    UpSelf(g, k - j);
  }

  lemma {:induction false} UpIn(g: Graph, x: Name, k: nat)
    requires Closed(g) && x in g
    ensures Up(g, x, k) in g || Up(g, x, k) == SELF
    decreases k
  {
    if k > 0 {
      if g[x] == SELF { UpSelf(g, k - 1); } else { UpIn(g, g[x], k - 1); }
    }
  }

  /** A chain that comes back to where it was never ends. */
  lemma {:induction false} LoopRepeats(g: Graph, x: Name, m: nat, n: nat)
    requires SELF !in g && Up(g, x, m) == x
    ensures Up(g, x, m * n) == x
    decreases n
  {
    if n > 0 {
      LoopRepeats(g, x, m, n - 1);
      UpPlus(g, x, m * (n - 1), m);
      assert m * n == m * (n - 1) + m;
    }
  }

  lemma NoLoop(g: Graph, x: Name, m: nat)
    requires SELF !in g && x in g && Ends(g, x) && m > 0
    ensures Up(g, x, m) != x
  {
    if Up(g, x, m) == x {
      var k: nat :| Up(g, x, k) == SELF;
      LoopRepeats(g, x, m, k);
      assert m * k >= k;
      UpStays(g, x, k, m * k);
    }
  }

  /** An account lies at most once on an ending chain. */
  lemma UniqueDepth(g: Graph, x: Name, i: nat, j: nat)
    requires Closed(g) && x in g && Ends(g, x)
    requires Up(g, x, i) == Up(g, x, j) != SELF
    ensures i == j
  {
    if i < j {
      UniqueDepthOrdered(g, x, i, j);
    } else if j < i {
      UniqueDepthOrdered(g, x, j, i);
    }
  }

  lemma UniqueDepthOrdered(g: Graph, x: Name, i: nat, j: nat)
    requires Closed(g) && x in g && Ends(g, x) && i < j
    ensures Up(g, x, i) == Up(g, x, j) ==> Up(g, x, i) == SELF
  {
    var y := Up(g, x, i);
    UpIn(g, x, i);
    if y != SELF && Up(g, x, j) == y {
      UpPlus(g, x, i, j - i);
      EndsAbove(g, x, i);
      NoLoop(g, y, j - i);
    }
  }

  lemma EndsAbove(g: Graph, x: Name, i: nat)
    requires SELF !in g && Ends(g, x)
    ensures Ends(g, Up(g, x, i))
  {
    var k: nat :| Up(g, x, k) == SELF;
    UpStays(g, x, k, i + k);
    UpPlus(g, x, i, k);
  }

  // ---- Stake changes -------------------------------------------------------------------------

  /** Moving the stake of one account by d shows up, k hops up, exactly at its k-th proxy. */
  lemma BelowStake(g: Graph, v: Stakes, a: Name, d: int, p: Name, k: nat)
    requires a in g && a in v
    ensures Below(g, v[a := v[a] + d], p, k) == Below(g, v, p, k) + if Up(g, a, k) == p then d else 0
  {
    var v' := v[a := v[a] + d];
    SumChangeOne(g.Keys, x => StakeAt(g, v, p, k, x), x => StakeAt(g, v', p, k, x), a);
  }

  lemma BelowZeroHops(g: Graph, v: Stakes, p: Name)
    requires p in g && p in v
    ensures Below(g, v, p, 0) == v[p]
  {
    SumSingle(g.Keys, x => StakeAt(g, v, p, 0, x), p);
  }

  lemma BelowNonneg(g: Graph, v: Stakes, p: Name, k: nat)
    requires forall x | x in v :: v[x] >= 0
    ensures Below(g, v, p, k) >= 0
  {
    SumMono(g.Keys, x => 0, x => StakeAt(g, v, p, k, x));
    SumZero(g.Keys, (x: Name) => 0);
  }

  /** A new account without stake and without a proxy is below nobody. */
  lemma BelowNew(g: Graph, v: Stakes, a: Name, p: Name, k: nat)
    requires Closed(g) && a !in g && a != SELF
    ensures Below(g[a := SELF], v[a := 0], p, k) == Below(g, v, p, k)
  {
    var g', v' := g[a := SELF], v[a := 0];
    assert g'.Keys == g.Keys + {a};
    var f := x => StakeAt(g', v', p, k, x);
    SumInsert(g.Keys, f, a);
    forall x | x in g ensures f(x) == StakeAt(g, v, p, k, x) {
      UpGrown(g, a, x, k);
    }
    SumExt(g.Keys, f, x => StakeAt(g, v, p, k, x));
  }

  lemma {:induction false} UpGrown(g: Graph, a: Name, x: Name, k: nat)
    requires Closed(g) && a !in g && a != SELF && x != a
    ensures Up(g[a := SELF], x, k) == Up(g, x, k)
    decreases k
  {
    if k > 0 && x in g {
      UpGrown(g, a, g[x], k - 1);
    }
  }

  // ---- Edge changes --------------------------------------------------------------------------

  /** Below a, nothing changes when the edge out of a changes. */
  lemma {:induction false} UpSame(g: Graph, a: Name, b: Name, x: Name, k: nat)
    requires SELF !in g && a in g
    requires forall i: nat | i < k :: Up(g, x, i) != a
    ensures Up(g[a := b], x, k) == Up(g, x, k)
    decreases k
  {
    if k > 0 {
      assert Up(g, x, 0) != a;
      if x in g {
        forall i: nat | i < k - 1 ensures Up(g, g[x], i) != a {
          assert Up(g, x, i + 1) != a;
        }
        UpSame(g, a, b, g[x], k - 1);
      }
    }
  }

  /** The first j hops up to a root a are untouched by giving a an edge. */
  lemma UpToRoot(g: Graph, a: Name, b: Name, x: Name, j: nat)
    requires Closed(g) && a in g && g[a] == SELF && Up(g, x, j) == a
    ensures forall i: nat | i < j :: Up(g, x, i) != a
    ensures Up(g[a := b], x, j) == a
  {
    forall i: nat | i < j ensures Up(g, x, i) != a {
      if Up(g, x, i) == a {
        UpNext(g, x, i);
        UpStays(g, x, i + 1, j);
      }
    }
    UpSame(g, a, b, x, j);
  }

  /** b can become the proxy of a root a: it is an account whose own chain never reaches a. */
  ghost predicate Attachable(g: Graph, a: Name, b: Name) {
    && Closed(g) && a in g && g[a] == SELF && b in g
    && Ends(g, b)
    && forall i: nat :: Up(g, b, i) != a
  }

  /** How a chain through a root a continues once a proxies to b. */
  lemma UpAttached(g: Graph, a: Name, b: Name, x: Name, j: nat, m: nat)
    requires Attachable(g, a, b) && Up(g, x, j) == a
    ensures Up(g[a := b], x, j + 1 + m) == Up(g, b, m)
  {
    var g' := g[a := b];
    UpToRoot(g, a, b, x, j);
    UpPlus(g', x, j, 1 + m);
    assert Up(g', a, 1 + m) == Up(g', b, m);
    UpSame(g, a, b, b, m);
  }

  lemma AttachedAcyclic(g: Graph, a: Name, b: Name)
    requires Attachable(g, a, b) && Acyclic(g)
    ensures Closed(g[a := b]) && Acyclic(g[a := b])
  {
    var g' := g[a := b];
    forall x | x in g' ensures Ends(g', x) {
      if j: nat :| Up(g, x, j) == a {
        var m: nat :| Up(g, b, m) == SELF;
        UpAttached(g, a, b, x, j, m);
      } else {
        assert Ends(g, x);
        var k: nat :| Up(g, x, k) == SELF;
        UpSame(g, a, b, x, k);
      }
    }
  }

  /** p is d hops above b: after the attachment p gains, k hops down, what a had k - 1 - d hops down. */
  lemma BelowAttachedOn(g: Graph, v: Stakes, a: Name, b: Name, p: Name, d: nat, k: nat)
    requires Attachable(g, a, b) && Up(g, b, d) == p && p != SELF && d < k
    ensures Below(g[a := b], v, p, k) == Below(g, v, p, k) + Below(g, v, a, k - 1 - d)
  {
    var g' := g[a := b];
    var j := k - 1 - d;
    forall x | x in g
      ensures StakeAt(g', v, p, k, x) == StakeAt(g, v, p, k, x) + StakeAt(g, v, a, j, x)
    {
      PointAttached(g, a, b, p, k, x);
      if Up(g, x, j) == a {
        UpAttached(g, a, b, x, j, d);
        UpNext(g, x, j);
        UpStays(g, x, j + 1, k);
      } else if i: nat :| i < k && Up(g, x, i) == a {
        UpAttached(g, a, b, x, i, k - 1 - i);
        UpNext(g, x, i);
        UpStays(g, x, i + 1, k);
        if Up(g, b, k - 1 - i) == p {
          UniqueDepth(g, b, d, k - 1 - i);
        }
      }
    }
    assert g'.Keys == g.Keys;
    SumPlus(g.Keys, x => StakeAt(g, v, p, k, x), x => StakeAt(g, v, a, j, x), x => StakeAt(g', v, p, k, x));
  }

  /** p is not within k - 1 hops above b: nothing changes for it k hops down. */
  lemma BelowAttachedOff(g: Graph, v: Stakes, a: Name, b: Name, p: Name, k: nat)
    requires Attachable(g, a, b) && p != SELF
    requires forall d: nat | d < k :: Up(g, b, d) != p
    ensures Below(g[a := b], v, p, k) == Below(g, v, p, k)
  {
    var g' := g[a := b];
    forall x | x in g ensures StakeAt(g', v, p, k, x) == StakeAt(g, v, p, k, x) {
      PointAttached(g, a, b, p, k, x);
    }
    assert g'.Keys == g.Keys;
    SumExt(g.Keys, x => StakeAt(g', v, p, k, x), x => StakeAt(g, v, p, k, x));
  }

  lemma PointAttached(g: Graph, a: Name, b: Name, p: Name, k: nat, x: Name)
    requires Attachable(g, a, b) && x in g
    ensures (forall i: nat | i < k :: Up(g, x, i) != a) ==> Up(g[a := b], x, k) == Up(g, x, k)
    ensures forall i: nat | i < k && Up(g, x, i) == a ::
              Up(g, x, k) == SELF && Up(g[a := b], x, k) == Up(g, b, k - 1 - i)
  {
    if forall i: nat | i < k :: Up(g, x, i) != a {
      UpSame(g, a, b, x, k);
    }
    forall i: nat | i < k && Up(g, x, i) == a
      ensures Up(g, x, k) == SELF && Up(g[a := b], x, k) == Up(g, b, k - 1 - i)
    {
      UpAttached(g, a, b, x, i, k - 1 - i);
      UpNext(g, x, i);
      UpStays(g, x, i + 1, k);
    }
  }

  /** Cutting the edge out of a leaves a forest to which the old proxy can be attached again. */
  lemma Detached(g: Graph, a: Name)
    requires Closed(g) && Acyclic(g) && a in g && g[a] != SELF
    ensures Attachable(g[a := SELF], a, g[a])
    ensures Acyclic(g[a := SELF])
    ensures g[a := SELF][a := g[a]] == g
    ensures forall k: nat :: Up(g[a := SELF], g[a], k) == Up(g, g[a], k)
  {
    var g0 := g[a := SELF];
    var b := g[a];
    forall k: nat ensures Up(g, b, k) != a && Up(g0, b, k) == Up(g, b, k) {
      BelowNotBack(g, a, k);
    }
    forall x | x in g0 ensures Ends(g0, x) {
      if j: nat :| Up(g, x, j) == a {
        FirstVisit(g, a, x, j);
      } else {
        assert Ends(g, x);
        var k: nat :| Up(g, x, k) == SELF;
        UpSame(g, a, SELF, x, k);
      }
    }
  }

  lemma BelowNotBack(g: Graph, a: Name, k: nat)
    requires Closed(g) && Acyclic(g) && a in g && g[a] != SELF
    ensures Up(g, g[a], k) != a
    ensures Up(g[a := SELF], g[a], k) == Up(g, g[a], k)
  {
    forall i: nat ensures Up(g, g[a], i) != a {
      assert Up(g, a, i + 1) == Up(g, g[a], i);
      NoLoop(g, a, i + 1);
    }
    UpSame(g, a, SELF, g[a], k);
  }

  lemma FirstVisit(g: Graph, a: Name, x: Name, j: nat)
    requires Closed(g) && Acyclic(g) && a in g && x in g && Up(g, x, j) == a
    ensures Ends(g[a := SELF], x)
  {
    forall i: nat | i < j ensures Up(g, x, i) != a {
      if Up(g, x, i) == a { UniqueDepth(g, x, i, j); }
    }
    var g0 := g[a := SELF];
    UpSame(g, a, SELF, x, j);
    UpPlus(g0, x, j, 1);
    assert Up(g0, a, 1) == Up(g0, SELF, 0);
    assert Up(g0, x, j + 1) == SELF;
  }
}
