/**
 Finite sums over sets, with the algebra the bookkeeping invariants need: a tally kept by a chain
 object is compared with a sum of contributions over all accounts, and a step of the chain changes
 a known part of those contributions.
 */
module Sums {

  ghost function Sum<T(!new)>(s: set<T>, f: T -> int): int {
    if s == {} then 0 else
      var x :| x in s;
      f(x) + Sum(s - {x}, f)
  }

  /** Any member can be taken out first. */
  lemma {:induction false} SumRemove<T(!new)>(s: set<T>, f: T -> int, x: T)
    requires x in s
    ensures Sum(s, f) == f(x) + Sum(s - {x}, f)
    decreases |s|
  {
    var y :| y in s && Sum(s, f) == f(y) + Sum(s - {y}, f);
    if y != x {
      SumRemove(s - {y}, f, x);
      SumRemove(s - {x}, f, y);
      assert s - {y} - {x} == s - {x} - {y};
    }
  }

  lemma SumInsert<T(!new)>(s: set<T>, f: T -> int, x: T)
    requires x !in s
    ensures Sum(s + {x}, f) == f(x) + Sum(s, f)
  {
    SumRemove(s + {x}, f, x);
    assert s + {x} - {x} == s;
  }

  lemma {:induction false} SumExt<T(!new)>(s: set<T>, f: T -> int, g: T -> int)
    requires forall x | x in s :: f(x) == g(x)
    ensures Sum(s, f) == Sum(s, g)
    decreases |s|
  {
    if s != {} {
      var x :| x in s;
      SumRemove(s, f, x);
      SumRemove(s, g, x);
      SumExt(s - {x}, f, g);
    }
  }

  lemma {:induction false} SumPlus<T(!new)>(s: set<T>, f: T -> int, g: T -> int, h: T -> int)
    requires forall x | x in s :: h(x) == f(x) + g(x)
    ensures Sum(s, h) == Sum(s, f) + Sum(s, g)
    decreases |s|
  {
    if s != {} {
      var x :| x in s;
      SumRemove(s, f, x);
      SumRemove(s, g, x);
      SumRemove(s, h, x);
      SumPlus(s - {x}, f, g, h);
    }
  }

  lemma {:induction false} SumMono<T(!new)>(s: set<T>, f: T -> int, g: T -> int)
    requires forall x | x in s :: f(x) <= g(x)
    ensures Sum(s, f) <= Sum(s, g)
    decreases |s|
  {
    if s != {} {
      var x :| x in s;
      SumRemove(s, f, x);
      SumRemove(s, g, x);
      SumMono(s - {x}, f, g);
    }
  }

  lemma {:induction false} SumZero<T(!new)>(s: set<T>, f: T -> int)
    requires forall x | x in s :: f(x) == 0
    ensures Sum(s, f) == 0
    decreases |s|
  {
    if s != {} {
      var x :| x in s;
      SumRemove(s, f, x);
      SumZero(s - {x}, f);
    }
  }

  /** Two functions that agree away from x differ, summed, by their difference at x. */
  lemma SumChangeOne<T(!new)>(s: set<T>, f: T -> int, g: T -> int, x: T)
    requires x in s
    requires forall y | y in s && y != x :: f(y) == g(y)
    ensures Sum(s, g) == Sum(s, f) + g(x) - f(x)
  {
    SumRemove(s, f, x);
    SumRemove(s, g, x);
    SumExt(s - {x}, f, g);
  }

  /** A function that is zero except at x sums to its value at x. */
  lemma SumSingle<T(!new)>(s: set<T>, f: T -> int, x: T)
    requires x in s
    requires forall y | y in s && y != x :: f(y) == 0
    ensures Sum(s, f) == f(x)
  {
    SumRemove(s, f, x);
    SumZero(s - {x}, f);
  }

  /** Exchanging the order of a double sum: f lists it by rows, g by columns. */
  lemma {:induction false} SumSwap<S(!new), T(!new)>(
      s: set<S>, t: set<T>, f: S -> T -> int, g: T -> S -> int, rows: S -> int, cols: T -> int)
    requires forall x, y | x in s && y in t :: f(x)(y) == g(y)(x)
    requires forall x | x in s :: rows(x) == Sum(t, f(x))
    requires forall y | y in t :: cols(y) == Sum(s, g(y))
    ensures Sum(s, rows) == Sum(t, cols)
    decreases |s|
  {
    if s == {} {
      SumZero(t, cols);
    } else {
      var x :| x in s;
      SumRemove(s, rows, x);
      var rest := y => Sum(s - {x}, g(y));
      SumSwap(s - {x}, t, f, g, rows, rest);
      forall y | y in t ensures cols(y) == f(x)(y) + rest(y) {
        SumRemove(s, g(y), x);
      }
      SumPlus(t, f(x), rest, cols);
    }
  }

  /** Rounded shares: if each f(x) is at most m g(x) / c then so is their sum. */
  lemma {:induction false} SumScaled<T(!new)>(s: set<T>, f: T -> int, g: T -> int, c: int, m: int)
    requires forall x | x in s :: f(x) * c <= m * g(x)
    ensures Sum(s, f) * c <= m * Sum(s, g)
    decreases |s|
  {
    if s != {} {
      var x :| x in s;
      SumRemove(s, f, x);
      SumRemove(s, g, x);
      SumScaled(s - {x}, f, g, c, m);
      Distribute(c, f(x), Sum(s - {x}, f));
      Distribute(m, g(x), Sum(s - {x}, g));
    }
  }

  lemma Distribute(c: int, x: int, y: int)
    ensures (x + y) * c == x * c + y * c && c * (x + y) == c * x + c * y
  {
  }

  // ---- Totals over the entries of a table ----------------------------------------------------

  ghost function Entry<K(!new), V>(m: map<K, V>, f: (K, V) -> int): K -> int {
    k => if k in m then f(k, m[k]) else 0
  }

  ghost function Total<K(!new), V>(m: map<K, V>, f: (K, V) -> int): int {
    Sum(m.Keys, Entry(m, f))
  }

  lemma TotalIs<K(!new), V>(m: map<K, V>, f: (K, V) -> int)
    ensures Total(m, f) == Sum(m.Keys, Entry(m, f))
  {
  }

  lemma TotalNone<K(!new), V>(m: map<K, V>, f: (K, V) -> int)
    requires m.Keys == {}
    ensures Total(m, f) == 0
  {
  }

  lemma TotalDrop<K(!new), V>(m: map<K, V>, f: (K, V) -> int, k: K)
    requires k in m
    ensures Total(m - {k}, f) == Total(m, f) - f(k, m[k])
  {
    SumRemove(m.Keys, Entry(m, f), k);
    assert (m - {k}).Keys == m.Keys - {k};
    SumExt(m.Keys - {k}, Entry(m, f), Entry(m - {k}, f));
  }

  lemma TotalPut<K(!new), V>(m: map<K, V>, f: (K, V) -> int, k: K, v: V)
    ensures Total(m[k := v], f) == Total(m, f) + f(k, v) - (if k in m then f(k, m[k]) else 0)
  {
    var n := m[k := v];
    if k in m {
      assert n.Keys == m.Keys;
      SumChangeOne(m.Keys, Entry(m, f), Entry(n, f), k);
    } else {
      assert n.Keys == m.Keys + {k};
      SumInsert(m.Keys, Entry(n, f), k);
      SumExt(m.Keys, Entry(m, f), Entry(n, f));
    }
  }

  lemma TotalNonneg<K(!new), V>(m: map<K, V>, f: (K, V) -> int)
    requires forall k | k in m :: f(k, m[k]) >= 0
    ensures Total(m, f) >= 0
  {
    SumZero(m.Keys, _ => 0);
    SumMono(m.Keys, _ => 0, Entry(m, f));
  }

  /** One entry of a table of natural numbers is at most their total. */
  lemma TotalAtLeast<K(!new), V>(m: map<K, V>, f: (K, V) -> int, k: K)
    requires k in m && forall j | j in m :: f(j, m[j]) >= 0
    ensures f(k, m[k]) <= Total(m, f)
  {
    TotalDrop(m, f, k);
    TotalNonneg(m - {k}, f);
  }
}
