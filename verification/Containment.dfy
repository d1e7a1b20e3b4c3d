/**
 Containment as a graph from an object to its environment, and the total weight of
 what is transitively inside an object.
 */
module Containment {
  import opened Wrappers
  import opened Chains

  /** y is the environment of x, or the environment of that, and so on. */
  ghost predicate Under<T>(env: Graph<T>, x: T, y: T) { LeadsTo(env, x, y) }

  ghost predicate AtOrUnder<T>(env: Graph<T>, x: T, y: T) { x == y || Under(env, x, y) }

  /** Everything transitively inside o. */
  ghost function Inside<T>(all: set<T>, env: Graph<T>, o: T): set<T>
  {
    set x | x in all && Under(env, x, o)
  }

  // ---------------------------------------------------------------------- sums

  ghost function Sum<T>(s: set<T>, w: map<T, int>): int
    requires s <= w.Keys
  {
    if s == {} then 0 else var x :| x in s; w[x] + Sum(s - {x}, w)
  }

  lemma {:induction false} SumPick<T>(s: set<T>, w: map<T, int>, x: T)
    requires s <= w.Keys && x in s
    ensures Sum(s, w) == w[x] + Sum(s - {x}, w)
    decreases |s|
  {
    var y :| y in s && Sum(s, w) == w[y] + Sum(s - {y}, w);
    if y != x {
      SumPick(s - {y}, w, x);
      SumPick(s - {x}, w, y);
      assert s - {y} - {x} == s - {x} - {y};
    }
  }

  lemma {:induction false} SumUnion<T>(a: set<T>, b: set<T>, w: map<T, int>)
    requires a + b <= w.Keys && a !! b
    ensures Sum(a + b, w) == Sum(a, w) + Sum(b, w)
    decreases |a|
  {
    if a == {} {
      assert a + b == b;
    } else {
      var x :| x in a;
      SumPick(a, w, x);
      SumPick(a + b, w, x);
      assert a + b - {x} == (a - {x}) + b;
      SumUnion(a - {x}, b, w);
    }
  }

  lemma {:induction false} SumChange<T>(s: set<T>, w: map<T, int>, x: T, v: int)
    requires s <= w.Keys && x in w
    ensures Sum(s, w[x := v]) == Sum(s, w) + (if x in s then v - w[x] else 0)
    decreases |s|
  {
    if s != {} {
      var y :| y in s;
      SumPick(s, w, y);
      SumPick(s, w[x := v], y);
      SumChange(s - {y}, w, x, v);
    }
  }

  // -------------------------------------------------------- attaching a subtree

  /** Following a path of d inside d[x := p], where x is a root of d. */
  lemma PathKept<T>(d: Graph<T>, x: T, p: T, y: T, n: nat)
    requires x !in d && Above(d, y, n).Some?
    ensures Above(d[x := p], y, n) == Above(d, y, n)
  {
    SubgraphPath(d[x := p], d, y, n);
  }

  /** A path in d[x := p] either stays in d or passes through x. */
  lemma {:induction false} PathSplits<T>(d: Graph<T>, x: T, p: T, y: T, n: nat) returns (i: nat)
    requires x !in d && Above(d[x := p], y, n).Some?
    ensures i <= n
    ensures i == n ==> Above(d, y, n) == Above(d[x := p], y, n)
    ensures i < n ==> Above(d, y, i) == Some(x) && Above(d[x := p], p, n - i - 1) == Above(d[x := p], y, n)
    decreases n
  {
    if n == 0 {
      i := 0;
    } else if y == x {
      i := 0;
    } else {
      var j := PathSplits(d, x, p, d[y], n - 1);
      i := j + 1;
    }
  }

  /** Above the new parent nothing changes, as x is not there. */
  lemma ParentChain<T>(d: Graph<T>, x: T, p: T, n: nat)
    requires x !in d && !AtOrUnder(d, p, x) && Above(d[x := p], p, n).Some?
    ensures Above(d, p, n) == Above(d[x := p], p, n)
  {
    var i := PathSplits(d, x, p, p, n);
    assert Above(d, p, 0) == Some(p);
    if i < n {
      assert false;
    }
  }

  /** Who is under o after x has been put into p. */
  lemma AttachUnder<T>(d: Graph<T>, x: T, p: T, y: T, o: T)
    requires x !in d && !AtOrUnder(d, p, x)
    ensures Under(d[x := p], y, o) <==> Under(d, y, o) || (AtOrUnder(d, y, x) && AtOrUnder(d, p, o))
  {
    var h := d[x := p];
    if Under(h, y, o) {
      var n: nat :| n > 0 && Above(h, y, n) == Some(o);
      var i := PathSplits(d, x, p, y, n);
      if i < n {
        if i == 0 { assert Above(d, y, 0) == Some(y); }
        ParentChain(d, x, p, n - i - 1);
        if n - i - 1 == 0 { assert Above(h, p, 0) == Some(p); }
      }
    }
    if Under(d, y, o) {
      var n: nat :| n > 0 && Above(d, y, n) == Some(o);
      PathKept(d, x, p, y, n);
    }
    if AtOrUnder(d, y, x) && AtOrUnder(d, p, o) {
      AttachedUnder(d, x, p, y, o);
    }
  }

  lemma AttachedUnder<T>(d: Graph<T>, x: T, p: T, y: T, o: T)
    requires x !in d && AtOrUnder(d, y, x) && AtOrUnder(d, p, o)
    ensures Under(d[x := p], y, o)
  {
    var h := d[x := p];
    var i: nat, j: nat := 0, 0;
    assert Above(d, y, 0) == Some(y) && Above(d, p, 0) == Some(p);
    if y != x { i :| i > 0 && Above(d, y, i) == Some(x); }
    if p != o { j :| j > 0 && Above(d, p, j) == Some(o); }
    PathKept(d, x, p, y, i);
    PathKept(d, x, p, p, j);
    assert Above(h, x, 1 + j) == Above(h, p, j);
    AboveAdds(h, y, i, 1 + j);
    assert Above(h, y, i + (1 + j)) == Some(o);
  }

  lemma AttachAcyclic<T>(d: Graph<T>, x: T, p: T)
    requires Acyclic(d) && x !in d && !AtOrUnder(d, p, x)
    ensures Acyclic(d[x := p])
  {
    var h := d[x := p];
    forall z, n: nat | z in h && n > 0 ensures Above(h, z, n) != Some(z) {
      if Above(h, z, n) == Some(z) {
        assert Under(h, z, z);
        AttachUnder(d, x, p, z, z);
        NotUnderItself(d, z);
        Transitive(d, p, z, x);
        assert false;
      }
    }
  }

  lemma NotUnderItself<T>(d: Graph<T>, z: T)
    requires Acyclic(d)
    ensures !Under(d, z, z)
  {
    forall n: nat | n > 0 ensures Above(d, z, n) != Some(z) {}
  }

  lemma Transitive<T>(d: Graph<T>, a: T, b: T, c: T)
    ensures AtOrUnder(d, a, b) && AtOrUnder(d, b, c) ==> AtOrUnder(d, a, c)
    ensures Under(d, a, b) && AtOrUnder(d, b, c) ==> Under(d, a, c)
  {
    if Under(d, a, b) && Under(d, b, c) {
      var i: nat :| i > 0 && Above(d, a, i) == Some(b);
      var j: nat :| j > 0 && Above(d, b, j) == Some(c);
      AboveAdds(d, a, i, j);
      assert Above(d, a, i + j) == Some(c);
    }
  }

  /** The load of every object after x, with all that is in it, has been put into p. */
  lemma AttachLoad<T>(all: set<T>, d: Graph<T>, x: T, p: T, w: map<T, int>, o: T)
    requires Acyclic(d) && x !in d && x in all && !AtOrUnder(d, p, x) && all <= w.Keys
    ensures Sum(Inside(all, d[x := p], o), w)
         == Sum(Inside(all, d, o), w) + (if AtOrUnder(d, p, o) then w[x] + Sum(Inside(all, d, x), w) else 0)
  {
    var h := d[x := p];
    var tree := {x} + Inside(all, d, x);
    forall y | y in all ensures Under(h, y, o) <==> Under(d, y, o) || (AtOrUnder(d, y, x) && AtOrUnder(d, p, o)) {
      AttachUnder(d, x, p, y, o);
    }
    if AtOrUnder(d, p, o) {
      assert Inside(all, h, o) == Inside(all, d, o) + tree;
      forall y | y in tree ensures y !in Inside(all, d, o) {
        TreesApart(d, x, p, y, o);
      }
      SumUnion(Inside(all, d, o), tree, w);
      NotUnderItself(d, x);
      SumPick(tree, w, x);
      assert tree - {x} == Inside(all, d, x);
    } else {
      assert Inside(all, h, o) == Inside(all, d, o);
    }
  }

  /** Nothing at or under the root x is under anything above p. */
  lemma TreesApart<T>(d: Graph<T>, x: T, p: T, y: T, o: T)
    requires x !in d && !AtOrUnder(d, p, x) && AtOrUnder(d, y, x) && AtOrUnder(d, p, o)
    ensures !Under(d, y, o)
  {
    if Under(d, y, o) {
      // both x and o are above y, and x is a root: o is at or under x
      var n: nat :| n > 0 && Above(d, y, n) == Some(o);
      var i: nat := 0;
      assert Above(d, y, 0) == Some(y);
      if y != x { i :| i > 0 && Above(d, y, i) == Some(x); }
      assert Above(d, o, 0) == Some(o);
      if n <= i {
        AboveAdds(d, y, n, i - n);
        if n < i { assert Under(d, o, x); }
        Transitive(d, p, o, x);
        assert false;
      } else {
        AboveAdds(d, y, i, n - i);
        assert false;
      }
    }
  }
}
