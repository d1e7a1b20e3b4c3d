/**
 The mudlib's weight ledger: every object caches in `encumb` the weight of all
 that is in it, and each change is passed on up the environments.
 */
module Encumbrance {
  import opened Wrappers
  import opened Chains
  import opened Containment

  class Thing {
    var weight: int
    var encumb: int
    var maxEncumb: int
    var environment: Thing?

    constructor (weight: int, maxEncumb: int)
      ensures this.weight == weight && this.maxEncumb == maxEncumb && encumb == 0 && environment == null
    {
      this.weight, this.maxEncumb, this.encumb, this.environment := weight, maxEncumb, 0, null;
    }

    /** What the object weighs with all that is in it. */
    function Weight(): int
      reads this
    {
      weight + encumb
    }

    /** The change goes to this object and to everything around it. */
    method AddEncumbrance(w: int, ghost all: set<Thing>, ghost env: Graph<Thing>)
      requires Placed(all, env) && Acyclic(env) && this in all
      modifies all`encumb
      ensures forall o :: o in all ==> o.encumb == old(o.encumb) + (if AtOrUnder(env, this, o) then w else 0)
      decreases Height(env, this)
    {
      encumb := encumb + w;
      AboveParent(env, this);
      if environment != null {
        HeightStep(env, this);
        environment.AddEncumbrance(w, all, env);
      }
    }

    method SetWeight(w: int, ghost all: set<Thing>, ghost env: Graph<Thing>)
      requires Balanced(all, env) && this in all
      modifies all`encumb, this`weight
      ensures Balanced(all, env) && weight == w
    {
      hide Sum, Inside, Under, AtOrUnder, Acyclic;
      ghost var before := Weights(all);
      WeightChange(all, env, before, this, w);
      AboveParent(env, this);
      if environment == null {
        weight := w;
      } else {
        if w != weight {
          environment.AddEncumbrance(w - weight, all, env);
        }
        weight := w;
      }
      assert Weights(all) == before[this := w];
    }

    /** Is ob around this object?  The walk of move(). */
    method IsIn(ob: Thing, ghost all: set<Thing>, ghost env: Graph<Thing>) returns (inside: bool)
      requires Placed(all, env) && Acyclic(env) && this in all
      ensures inside <==> Under(env, this, ob)
    {
      hide Acyclic, Under, AtOrUnder;
      AboveParent(env, this);
      var e: Thing? := environment;
      ghost var here: Thing := this;
      while e != null
        invariant here in all && e == here.environment
        invariant Under(env, this, ob) <==> Under(env, here, ob)
        decreases Height(env, here)
      {
        AboveParent(env, here);
        if e == ob {
          AtItself(env, ob);
          return true;
        }
        AtOrAbove<Thing>(env, e, ob);
        HeightStep(env, here);
        here := e;
        e := e.environment;
      }
      AboveParent(env, here);
      return false;
    }

    /** Take the load of this object off its environments. */
    method Unload(ghost all: set<Thing>, ghost env: Graph<Thing>)
      requires Placed(all, env) && Acyclic(env) && this in all
      modifies all`encumb
      ensures forall o :: o in all ==>
        o.encumb == old(o.encumb) - (if Under(env, this, o) then old(weight + encumb) else 0)
    {
      hide Acyclic, AtOrUnder, Under;
      AboveParent(env, this);
      if environment != null {
        environment.AddEncumbrance(-Weight(), all, env);
      }
    }

    /**
     remove(), after which the driver destructs the object.  Only the object's own
     weight is taken off: what was still in it stays on the books around it.
     */
    method Remove(ghost all: set<Thing>, ghost env: Graph<Thing>)
      requires Balanced(all, env) && this in all
      modifies all`encumb
      ensures Placed(all, env) && Weights(all) == old(Weights(all))
      ensures forall o :: o in all && o != this ==>
        o.encumb == Sum(Inside(all, env - {this}, o), Weights(all))
          + (if Under(env, this, o) then Sum(Inside(all, env, this), Weights(all)) else 0)
    {
      hide Sum, Inside, Under, AtOrUnder, Acyclic;
      RemovedLoads(all, env, this, Weights(all));
      AboveParent(env, this);
      if environment != null {
        environment.AddEncumbrance(-weight, all, env);
      }
    }

    /** move() of an object that is not equipped. */
    method Move(ob: Thing, ghost all: set<Thing>, ghost env: Graph<Thing>) returns (r: Outcome)
      requires Balanced(all, env) && this in all && ob in all
      modifies all`encumb, this`environment
      ensures r == if !Under(env, this, ob) && old(ob.encumb) + old(Weight()) > ob.maxEncumb then TooHeavy
                   else if AtOrUnder(env, ob, this) then Recursive
                   else Moved
      ensures r == Moved ==> Balanced(all, env[this := ob])
      ensures r == Moved && !Under(env, this, ob) ==> ob.encumb <= ob.maxEncumb
      ensures r != Moved ==> environment == old(environment)
      ensures r == TooHeavy ==> forall o :: o in all ==> o.encumb == old(o.encumb)
      ensures r == Recursive ==> forall o :: o in all ==>
        o.encumb == old(o.encumb) + (if AtOrUnder(env, ob, o) && !Under(env, this, o) then old(Weight()) else 0)
      ensures r == Recursive ==> (Balanced(all, env) <==> old(Weight()) == 0)
    {
      hide Sum, Inside, Under, AtOrUnder, Acyclic;
      var inside := IsIn(ob, all, env);
      if !inside && ob.encumb + Weight() > ob.maxEncumb {
        return TooHeavy;
      }
      r := Carry(ob, all, env);
    }

    /** Update the books and move the object, whatever the destination can hold; the
        driver refuses a destination inside the object after the books have changed. */
    method Carry(ob: Thing, ghost all: set<Thing>, ghost env: Graph<Thing>) returns (r: Outcome)
      requires Balanced(all, env) && this in all && ob in all
      modifies all`encumb, this`environment
      ensures r == if AtOrUnder(env, ob, this) then Recursive else Moved
      ensures r == Moved ==> Balanced(all, env[this := ob])
      ensures r == Moved ==> ob.encumb == old(ob.encumb) + (if Under(env, this, ob) then 0 else old(Weight()))
      ensures r == Recursive ==> environment == old(environment)
      ensures r == Recursive ==> forall o :: o in all ==>
        o.encumb == old(o.encumb) + (if AtOrUnder(env, ob, o) && !Under(env, this, o) then old(Weight()) else 0)
      ensures r == Recursive ==> (Balanced(all, env) <==> old(Weight()) == 0)
    {
      hide Sum, Inside, Under, AtOrUnder, Acyclic;
      ghost var weights := Weights(all);
      ghost var w := Weight();
      ghost var before := map o | o in all :: o.encumb;
      Shift(ob, all, env);
      var recursive := ob.Holds(this, all, env);
      if recursive {
        Passed(env, this, ob);
        ghost var off := set o | o in all && AtOrUnder(env, ob, o) && !Under(env, this, o);
        OffBooks(all, env, before, off, w, ob);
        return Recursive;
      }
      MovedLoads(all, env, this, ob, weights);
      AtItself(env, ob);
      PutInto(ob, all, env);
      return Moved;
    }

    /** The books are those of the new place already. */
    method PutInto(ob: Thing, ghost all: set<Thing>, ghost env: Graph<Thing>)
      requires Placed(all, env) && this in all && ob in all && Acyclic(env[this := ob])
      requires forall o :: o in all ==> o.encumb == Sum(Inside(all, env[this := ob], o), Weights(all))
      modifies this`environment
      ensures Balanced(all, env[this := ob])
    {
      hide Sum, Inside, Acyclic;
      environment := ob;
    }

    /** Is this object ob, or around which ob is?  The walk of move_object. */
    method Holds(ob: Thing, ghost all: set<Thing>, ghost env: Graph<Thing>) returns (recursive: bool)
      requires Placed(all, env) && Acyclic(env) && this in all
      ensures recursive <==> AtOrUnder(env, this, ob)
    {
      AtOrAbove<Thing>(env, this, ob);
      if this == ob {
        AtItself(env, this);
        return true;
      }
      recursive := IsIn(ob, all, env);
    }

    /** The load goes from the environments of this object to ob and its environments. */
    method Shift(ob: Thing, ghost all: set<Thing>, ghost env: Graph<Thing>)
      requires Placed(all, env) && Acyclic(env) && this in all && ob in all
      modifies all`encumb
      ensures forall o :: o in all ==>
        o.encumb == old(o.encumb) - (if Under(env, this, o) then old(Weight()) else 0)
          + (if AtOrUnder(env, ob, o) then old(Weight()) else 0)
    {
      hide Under, AtOrUnder, Acyclic;
      AboveParent(env, this);
      Unload(all, env);
      ob.AddEncumbrance(Weight(), all, env);
    }
  }

  /** What becomes of a move: Recursive is the driver's error. */
  datatype Outcome = Moved | TooHeavy | Recursive

  /** Everything above x is at or above whatever is in x. */
  lemma Passed<T>(env: Graph<T>, x: T, p: T)
    requires Acyclic(env) && AtOrUnder(env, p, x)
    ensures AtOrUnder(env, p, p) && !Under(env, x, p)
    ensures forall o :: Under(env, x, o) ==> AtOrUnder(env, p, o)
  {
    Transitive(env, x, p, x);
    NotUnderItself(env, x);
    forall o | Under(env, x, o) ensures AtOrUnder(env, p, o) {
      Transitive(env, p, x, o);
    }
  }

  /** Books that were right, with w added to some of them. */
  lemma OffBooks(all: set<Thing>, env: Graph<Thing>, before: map<Thing, int>, off: set<Thing>, w: int, ob: Thing)
    requires Placed(all, env) && Acyclic(env) && before.Keys == all && ob in off && off <= all
    requires forall o :: o in all ==> before[o] == Sum(Inside(all, env, o), Weights(all))
    requires forall o :: o in all ==> o.encumb == before[o] + (if o in off then w else 0)
    ensures Balanced(all, env) <==> w == 0
  {
    hide Sum, Inside, Acyclic;
  }

  /** The environments are the map env. */
  ghost predicate Placed(all: set<Thing>, env: Graph<Thing>)
    reads all`environment
  {
    && env.Keys <= all && env.Values <= all
    && forall o :: o in all ==> if o in env then o.environment == env[o] else o.environment == null
  }

  ghost function Weights(all: set<Thing>): map<Thing, int>
    reads all`weight
  {
    map o | o in all :: o.weight
  }

  /** Each cached encumbrance is the total weight of what is inside. */
  ghost predicate Balanced(all: set<Thing>, env: Graph<Thing>)
    reads all
  {
    && Placed(all, env) && Acyclic(env)
    && forall o :: o in all ==> o.encumb == Sum(Inside(all, env, o), Weights(all))
  }

  /** The books of the others are right exactly when what was left inside weighs
      nothing, or nothing was around the removed object; in particular when it was
      empty. */
  lemma RemovedBalance(all: set<Thing>, env: Graph<Thing>, x: Thing)
    requires Placed(all, env) && Acyclic(env) && x in all
    requires forall o :: o in all && o != x ==>
      o.encumb == Sum(Inside(all, env - {x}, o), Weights(all))
        + (if Under(env, x, o) then Sum(Inside(all, env, x), Weights(all)) else 0)
    ensures (forall o :: o in all && o != x ==> o.encumb == Sum(Inside(all, env - {x}, o), Weights(all)))
       <==> x !in env || Sum(Inside(all, env, x), Weights(all)) == 0
    ensures x !in env.Values ==> Inside(all, env, x) == {}
  {
    AboveParent(env, x);
    if x in env {
      assert Under(env, x, env[x]);
    }
    if x !in env.Values {
      forall y ensures !Under(env, y, x) {
        if Under(env, y, x) {
          var n: nat :| n > 0 && Above(env, y, n) == Some(x);
          EntersThroughValue(env, y, n);
          assert false;
        }
      }
    }
  }

  /** Removing an empty object keeps the whole ledger. */
  lemma RemovedEmpty(all: set<Thing>, env: Graph<Thing>, x: Thing)
    requires Placed(all, env) && Acyclic(env) && x in all && x !in env.Values
    requires forall o :: o in all && o != x ==>
      o.encumb == Sum(Inside(all, env - {x}, o), Weights(all))
        + (if Under(env, x, o) then Sum(Inside(all, env, x), Weights(all)) else 0)
    ensures Balanced(all - {x}, env - {x})
  {
    RemovedBalance(all, env, x);
    var e := env - {x};
    SubgraphAcyclic(env, e);
    forall o | o in all - {x} ensures o.encumb == Sum(Inside(all - {x}, e, o), Weights(all - {x})) {
      RootUnderNothing(e, x, o);
      assert Inside(all - {x}, e, o) == Inside(all, e, o);
      SameWeights(Inside(all, e, o), Weights(all), Weights(all - {x}));
    }
  }

  lemma {:induction false} SameWeights<T>(s: set<T>, a: map<T, int>, b: map<T, int>)
    requires s <= a.Keys && s <= b.Keys && forall o :: o in s ==> a[o] == b[o]
    ensures Sum(s, a) == Sum(s, b)
  {
    if s != {} {
      var x :| x in s;
      SumPick(s, a, x);
      SumPick(s, b, x);
      SameWeights(s - {x}, a, b);
    }
  }

  lemma {:induction false} EntersThroughValue<T>(env: Graph<T>, y: T, n: nat)
    requires n > 0 && Above(env, y, n).Some?
    ensures Above(env, y, n).value in env.Values
    decreases n
  {
    if n > 1 { EntersThroughValue(env, env[y], n - 1); }
  }

  /** What is at or above the parent is what is above the object. */
  lemma AboveParent<T>(env: Graph<T>, x: T)
    requires Acyclic(env)
    ensures forall o :: Under(env, x, o) <==> x in env && AtOrUnder(env, env[x], o)
    ensures !Under(env, x, x)
  {
    forall o ensures Under(env, x, o) <==> x in env && AtOrUnder(env, env[x], o) {
      if Under(env, x, o) {
        var n: nat :| n > 0 && Above(env, x, n) == Some(o);
        assert Above(env, env[x], n - 1) == Some(o);
      }
      if x in env && AtOrUnder(env, env[x], o) {
        assert Above(env, env[x], 0) == Some(env[x]);
        if env[x] == o {
          assert Above(env, x, 1) == Some(o);
        } else {
          var n: nat :| n > 0 && Above(env, env[x], n) == Some(o);
          assert Above(env, x, n + 1) == Some(o);
        }
      }
    }
    NotUnderItself(env, x);
  }

  lemma AtItself<T>(env: Graph<T>, x: T)
    ensures AtOrUnder(env, x, x)
  {
  }

  lemma AtOrAbove<T>(env: Graph<T>, x: T, o: T)
    ensures x != o ==> (AtOrUnder(env, x, o) <==> Under(env, x, o))
  {
  }

  lemma WeightChange<T>(all: set<T>, env: Graph<T>, w: map<T, int>, x: T, v: int)
    requires x in all && all == w.Keys
    ensures forall o :: o in all ==>
      Sum(Inside(all, env, o), w[x := v]) == Sum(Inside(all, env, o), w) + (if Under(env, x, o) then v - w[x] else 0)
  {
    forall o | o in all ensures
      Sum(Inside(all, env, o), w[x := v]) == Sum(Inside(all, env, o), w) + (if Under(env, x, o) then v - w[x] else 0)
    {
      SumChange(Inside(all, env, o), w, x, v);
    }
  }

  /** What a move does to the load of every object. */
  lemma MovedLoads<T>(all: set<T>, env: Graph<T>, x: T, p: T, w: map<T, int>)
    requires Acyclic(env) && x in all && p in all && all == w.Keys && !AtOrUnder(env, p, x)
    ensures Acyclic(env[x := p])
    ensures forall o :: o in all ==>
      var load := w[x] + Sum(Inside(all, env, x), w);
      Sum(Inside(all, env[x := p], o), w)
      == Sum(Inside(all, env, o), w) - (if Under(env, x, o) then load else 0) + (if AtOrUnder(env, p, o) then load else 0)
  {
    MovedAcyclic(env, x, p);
    hide Sum, Inside, Under, Acyclic, AtOrUnder;
    forall o | o in all ensures
      var load := w[x] + Sum(Inside(all, env, x), w);
      Sum(Inside(all, env[x := p], o), w)
      == Sum(Inside(all, env, o), w) - (if Under(env, x, o) then load else 0) + (if AtOrUnder(env, p, o) then load else 0)
    {
      MovedLoad(all, env, x, p, w, o);
    }
  }

  lemma MovedAcyclic<T>(env: Graph<T>, x: T, p: T)
    requires Acyclic(env) && !AtOrUnder(env, p, x)
    ensures Acyclic(env - {x}) && Acyclic(env[x := p])
  {
    var d := env - {x};
    SubgraphAcyclic(env, d);
    hide Under, Acyclic;
    assert env[x := p] == d[x := p];
    DetachedUnder(env, x, p, x);
    AttachAcyclic(d, x, p);
  }

  lemma MovedLoad<T>(all: set<T>, env: Graph<T>, x: T, p: T, w: map<T, int>, o: T)
    requires Acyclic(env) && Acyclic(env - {x}) && x in all && p in all && o in all && all == w.Keys
    requires !AtOrUnder(env, p, x)
    ensures
      var load := w[x] + Sum(Inside(all, env, x), w);
      Sum(Inside(all, env[x := p], o), w)
      == Sum(Inside(all, env, o), w) - (if Under(env, x, o) then load else 0) + (if AtOrUnder(env, p, o) then load else 0)
  {
    hide Sum, Inside, Under, Acyclic, AtOrUnder;
    assert env[x := p] == (env - {x})[x := p];
    DetachedUnder(env, x, p, x);
    DetachedUnder(env, x, p, o);
    AttachLoad(all, env - {x}, x, p, w, o);
    DetachLoad(all, env, x, w, o);
  }

  lemma RemovedLoads<T>(all: set<T>, env: Graph<T>, x: T, w: map<T, int>)
    requires Acyclic(env) && x in all && all == w.Keys
    ensures forall o :: o in all ==>
      Sum(Inside(all, env - {x}, o), w)
      == Sum(Inside(all, env, o), w) - (if Under(env, x, o) then w[x] + Sum(Inside(all, env, x), w) else 0)
  {
    forall o | o in all ensures
      Sum(Inside(all, env - {x}, o), w)
      == Sum(Inside(all, env, o), w) - (if Under(env, x, o) then w[x] + Sum(Inside(all, env, x), w) else 0)
    {
      DetachLoad(all, env, x, w, o);
    }
  }

  /** Taking x out of its environment does not change what is above p, when p is not
      inside x. */
  lemma DetachedUnder<T>(env: Graph<T>, x: T, p: T, o: T)
    requires Acyclic(env) && !AtOrUnder(env, p, x)
    ensures AtOrUnder(env - {x}, p, o) <==> AtOrUnder(env, p, o)
  {
    var d := env - {x};
    if x in env {
      assert env == d[x := env[x]];
      NotAboveParent(env, x);
      AttachUnder(d, x, env[x], p, o);
      AttachUnder(d, x, env[x], p, x);
    } else {
      assert env == d;
    }
  }

  lemma NotAboveParent<T>(env: Graph<T>, x: T)
    requires Acyclic(env) && x in env
    ensures !AtOrUnder(env - {x}, env[x], x)
  {
    var d := env - {x};
    AboveParent(env, x);
    if AtOrUnder(d, env[x], x) {
      if env[x] != x {
        var n: nat :| n > 0 && Above(d, env[x], n) == Some(x);
        SubgraphPath(env, d, env[x], n);
      }
      assert false;
    }
  }

  /** The load of every object before and after x is taken out of its environment. */
  lemma DetachLoad<T>(all: set<T>, env: Graph<T>, x: T, w: map<T, int>, o: T)
    requires Acyclic(env) && x in all && all == w.Keys
    ensures Sum(Inside(all, env - {x}, o), w)
         == Sum(Inside(all, env, o), w) - (if Under(env, x, o) then w[x] + Sum(Inside(all, env, x), w) else 0)
    ensures Inside(all, env - {x}, x) == Inside(all, env, x)
  {
    var d := env - {x};
    if x in env {
      var q := env[x];
      assert env == d[x := q];
      NotAboveParent(env, x);
      SubgraphAcyclic(env, d);
      forall y | y in all ensures Under(env, y, x) <==> Under(d, y, x) { AttachUnder(d, x, q, y, x); }
      assert Inside(all, d, x) == Inside(all, env, x);
      AttachLoad(all, d, x, q, w, o);
      AttachUnder(d, x, q, x, o);
      RootUnderNothing(d, x, o);
      AtItself(d, x);
    } else {
      assert env == d;
      RootUnderNothing(env, x, o);
    }
  }

  lemma RootUnderNothing<T>(d: Graph<T>, x: T, o: T)
    requires x !in d
    ensures !Under(d, x, o)
  {
    forall n: nat | n > 0 ensures Above(d, x, n) != Some(o) {}
  }
}
