/**
 Who snoops whom, as a map from the snooped object to its snooper.  The chain
 upwards from an object is walked before a new edge is added, and every message
 to an object is passed on along it.
 */
module SnoopGraph {
  import opened Wrappers
  import opened Chains

  /** Each object snoops at most one user. */
  ghost predicate Injective<T>(g: Graph<T>)
  {
    forall x, y :: x in g && y in g && g[x] == g[y] ==> x == y
  }

  /** The graph after `spy` stops snooping. */
  function Stopped<T>(g: Graph<T>, spy: T): (r: Graph<T>)
  {
    map x | x in g && g[x] != spy :: g[x]
  }

  /** The graph after `spy` has started to snoop `victim`. */
  function Started<T>(g: Graph<T>, spy: T, victim: T): (r: Graph<T>)
  {
    Stopped(g, spy)[victim := spy]
  }

  // --------------------------------------------------------------- new edges

  /** The chain above `spy` is the same before and after the change as long as it
      does not meet the victim. */
  lemma ChainKept<T>(g: Graph<T>, spy: T, victim: T, n: nat)
    requires Acyclic(g) && !Reaches(g, spy, victim)
    ensures Above(Started(g, spy, victim), spy, n) == Above(g, spy, n)
  {
    var h := Started(g, spy, victim);
    forall i: nat | i < n && Above(g, spy, i).Some?
      ensures var y := Above(g, spy, i).value; (y in g <==> y in h) && (y in g ==> g[y] == h[y])
    {
      var y := Above(g, spy, i).value;
      NoReturn(g, spy, i);
    }
    SamePath(g, h, spy, n);
  }

  /**
   The walk up from `spy` meets the victim exactly when the new edge would close
   a cycle.
   */
  lemma WalkIsExact<T>(g: Graph<T>, spy: T, victim: T)
    requires Acyclic(g)
    ensures Reaches(g, spy, victim) <==> !Acyclic(Started(g, spy, victim))
  {
    if Reaches(g, spy, victim) {
      var n: nat :| Above(g, spy, n) == Some(victim);
      ClosesCycle(g, spy, victim, n);
    } else {
      KeepsAcyclic(g, spy, victim);
    }
  }

  lemma {:induction false} ClosesCycle<T>(g: Graph<T>, spy: T, victim: T, n: nat)
    requires Acyclic(g) && Above(g, spy, n) == Some(victim)
    ensures !Acyclic(Started(g, spy, victim))
    decreases n
  {
    var h := Started(g, spy, victim);
    forall i: nat | i < n && Above(g, spy, i).Some?
      ensures var y := Above(g, spy, i).value; (y in g <==> y in h) && (y in g ==> g[y] == h[y])
    {
      var y := Above(g, spy, i).value;
      NoReturn(g, spy, i);
      if y == victim {
        AboveAdds(g, spy, i, n - i);
        assert false;
      }
    }
    SamePath(g, h, spy, n);
    assert h[victim] == spy;
    assert Above(h, victim, n + 1) == Above(h, spy, n);
  }

  lemma KeepsAcyclic<T>(g: Graph<T>, spy: T, victim: T)
    requires Acyclic(g) && !Reaches(g, spy, victim)
    ensures Acyclic(Started(g, spy, victim))
  {
    var h := Started(g, spy, victim);
    forall x, n: nat | x in h && n > 0 ensures Above(h, x, n) != Some(x) {
      if Above(h, x, n) == Some(x) {
        if i: nat :| i < n && Above(h, x, i) == Some(victim) {
          // turn the cycle so that it starts at the victim
          AboveAdds(h, x, i, n - i);
          AboveAdds(h, victim, n - i, i);
          assert Above(h, victim, n) == Some(victim);
          assert Above(h, spy, n - 1) == Above(h, victim, n);
          ChainKept(g, spy, victim, n - 1);
          assert false;
        } else {
          AvoidsVictim(g, spy, victim, x, n);
        }
      }
    }
  }

  lemma AvoidsVictim<T>(g: Graph<T>, spy: T, victim: T, x: T, n: nat)
    requires forall i: nat :: i < n ==> Above(Started(g, spy, victim), x, i) != Some(victim)
    requires Above(Started(g, spy, victim), x, n).Some?
    ensures Above(g, x, n) == Above(Started(g, spy, victim), x, n)
  {
    var h := Started(g, spy, victim);
    var s := Stopped(g, spy);
    forall i: nat | i < n && Above(h, x, i).Some?
      ensures var y := Above(h, x, i).value; (y in h <==> y in s) && (y in h ==> h[y] == s[y])
    {}
    SamePath(h, s, x, n);
    SubgraphPath(g, s, x, n);
  }

  lemma StartedInjective<T>(g: Graph<T>, spy: T, victim: T)
    requires Injective(g)
    ensures Injective(Started(g, spy, victim))
  {
  }
}
