/**
 Chains in a graph in which every node has at most one successor, given as a map:
 a snooper above a user, an environment around an object.
 */
module Chains {
  import opened Wrappers

  type Graph<T(==)> = map<T, T>

  /** The n-th node above x. */
  function Above<T>(g: Graph<T>, x: T, n: nat): Option<T>
  {
    if n == 0 then Some(x) else if x in g then Above(g, g[x], n - 1) else None
  }

  ghost predicate Acyclic<T>(g: Graph<T>)
  {
    forall x, n: nat :: x in g && n > 0 ==> Above(g, x, n) != Some(x)
  }

  ghost predicate Reaches<T>(g: Graph<T>, x: T, y: T)
  {
    exists n: nat :: Above(g, x, n) == Some(y)
  }

  // ------------------------------------------------------------------- chains

  lemma {:induction false} AboveAdds<T>(g: Graph<T>, x: T, a: nat, b: nat)
    ensures Above(g, x, a + b) == if Above(g, x, a).Some? then Above(g, Above(g, x, a).value, b) else None
    decreases a
  {
    if a > 0 && x in g {
      AboveAdds(g, g[x], a - 1, b);
    }
  }

  /** A path that does not use the edges in which g and h differ. */
  lemma {:induction false} SamePath<T>(g: Graph<T>, h: Graph<T>, x: T, n: nat)
    requires forall i: nat :: i < n && Above(g, x, i).Some? ==>
      var y := Above(g, x, i).value; (y in g <==> y in h) && (y in g ==> g[y] == h[y])
    ensures Above(h, x, n) == Above(g, x, n)
    decreases n
  {
    if n > 0 {
      assert Above(g, x, 0) == Some(x);
      if x in g {
        forall i: nat | i < n - 1 && Above(g, g[x], i).Some?
          ensures var y := Above(g, g[x], i).value; (y in g <==> y in h) && (y in g ==> g[y] == h[y])
        {
          assert Above(g, x, i + 1) == Above(g, g[x], i);
        }
        SamePath(g, h, g[x], n - 1);
      }
    }
  }

  /** Removing edges closes no cycle. */
  lemma SubgraphAcyclic<T>(g: Graph<T>, h: Graph<T>)
    requires Acyclic(g)
    requires forall x :: x in h ==> x in g && h[x] == g[x]
    ensures Acyclic(h)
  {
    forall x, n: nat | x in h && n > 0 ensures Above(h, x, n) != Some(x) {
      if Above(h, x, n) == Some(x) {
        SubgraphPath(g, h, x, n);
        assert Above(g, x, n) == Some(x);
      }
    }
  }

  lemma {:induction false} SubgraphPath<T>(g: Graph<T>, h: Graph<T>, x: T, n: nat)
    requires forall x :: x in h ==> x in g && h[x] == g[x]
    requires Above(h, x, n).Some?
    ensures Above(g, x, n) == Above(h, x, n)
    decreases n
  {
    if n > 0 { SubgraphPath(g, h, g[x], n - 1); }
  }

  ghost predicate LeadsTo<T>(g: Graph<T>, x: T, y: T)
  {
    exists n: nat :: n > 0 && Above(g, x, n) == Some(y)
  }

  /** In an acyclic graph every chain ends after at most |g| steps; `seen` are the
      objects already passed on the way to x. */
  lemma {:induction false} ChainEnds<T>(g: Graph<T>, x: T, seen: set<T>)
    requires Acyclic(g) && seen <= g.Keys && |seen| <= |g|
    requires forall y :: y in seen ==> LeadsTo(g, y, x)
    ensures Above(g, x, |g| - |seen| + 1) == None
    decreases |g| - |seen|
  {
    if x in g {
      assert x !in seen;
      var seen' := seen + {x};
      forall y | y in seen' ensures LeadsTo(g, y, g[x]) {
        if y == x {
          assert Above(g, g[x], 0) == Some(g[x]);
          assert Above(g, y, 1) == Some(g[x]);
        } else {
          var n: nat :| n > 0 && Above(g, y, n) == Some(x);
          AboveAdds(g, y, n, 1);
          assert Above(g, x, 1) == Above(g, g[x], 0);
          assert Above(g, y, n + 1) == Some(g[x]);
        }
      }
      SubsetSize(seen', g.Keys);
      ChainEnds(g, g[x], seen');
    }
  }

  lemma SubsetSize<T>(a: set<T>, b: set<T>)
    requires a <= b
    ensures |a| <= |b|
  {
    assert b == a + (b - a);
  }

  // -------------------------------------------------------- the length of a chain

  function Climb<T>(g: Graph<T>, x: T, fuel: nat): (d: nat)
    ensures d <= fuel
  {
    if fuel == 0 || x !in g then 0 else 1 + Climb(g, g[x], fuel - 1)
  }

  /** How many nodes there are above x. */
  function Height<T>(g: Graph<T>, x: T): nat { Climb(g, x, |g|) }

  lemma {:induction false} ClimbEnough<T>(g: Graph<T>, x: T, a: nat, b: nat)
    requires a <= b && Above(g, x, a + 1) == None
    ensures Climb(g, x, a) == Climb(g, x, b)
    decreases a
  {
    if x in g {
      assert Above(g, x, 1) == Above(g, g[x], 0);
      ClimbEnough(g, g[x], a - 1, b - 1);
    }
  }

  lemma HeightStep<T>(g: Graph<T>, x: T)
    requires Acyclic(g) && x in g
    ensures Height(g, x) == 1 + Height(g, g[x])
  {
    ChainEnds(g, x, {});
    assert Above(g, x, |g| + 1) == Above(g, g[x], |g|);
    ClimbEnough(g, g[x], |g| - 1, |g|);
  }

  /** The chain above x does not come back to x. */
  lemma NoReturn<T>(g: Graph<T>, x: T, i: nat)
    requires Acyclic(g) && Above(g, x, i).Some?
    ensures var y := Above(g, x, i).value; y in g ==> g[y] != x
  {
    var y := Above(g, x, i).value;
    if y in g && g[y] == x {
      AboveAdds(g, x, i, 1);
    }
  }
}
