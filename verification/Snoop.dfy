/**
 The driver's objects and interactive users, with snooping: the links between
 them, the O_SNOOP flag, and message delivery along the links.
 */
module Snoop {
  import opened Wrappers
  import opened Chains
  import opened SnoopGraph

  class Object {
    var destructed: bool
    var snooping: bool  // O_SNOOP
    var interactive: Interactive?

    constructor ()
      ensures !destructed && !snooping && interactive == null
    {
      destructed, snooping, interactive := false, false, null;
    }
  }

  class Interactive {
    const ob: Object
    var snoopedBy: Object?
    var closing: bool
    var netDead: bool

    constructor (ob: Object)
      ensures this.ob == ob && snoopedBy == null && !closing && !netDead
    {
      this.ob := ob;
      snoopedBy, closing, netDead := null, false, false;
    }
  }

  datatype Message<T> = Message(to: T, text: string)

  datatype Outcome = Error | Refused | Done

  // ------------------------------------------------------------ what is delivered

  /** The messages one call of add_message sends, in order. */
  ghost function Delivered<T>(g: Graph<T>, live: set<T>, who: T, data: string): seq<Message<T>>
    requires Acyclic(g)
    decreases Height(g, who)
  {
    if who !in live then []
    else if who !in g then [Message(who, data)]
    else
      HeightStep(g, who);
      [Message(who, data)] + Delivered(g, live, g[who], "%") + Delivered(g, live, g[who], data)
  }

  lemma DeliveredStep<T>(g: Graph<T>, live: set<T>, who: T, data: string)
    requires Acyclic(g)
    ensures Delivered(g, live, who, data) ==
      if who !in live then []
      else if who !in g then [Message(who, data)]
      else [Message(who, data)] + Delivered(g, live, g[who], "%") + Delivered(g, live, g[who], data)
  {
    if who in g { HeightStep(g, who); }
  }

  /** The texts among them that go to one object. */
  function TextsTo<T(==)>(log: seq<Message<T>>, who: T): seq<string>
  {
    if log == [] then []
    else (if log[0].to == who then [log[0].text] else []) + TextsTo(log[1..], who)
  }

  function Joined(ts: seq<string>): string
  {
    if ts == [] then "" else ts[0] + Joined(ts[1..])
  }

  function Power2(k: nat): (p: nat)
    ensures p > 0
  {
    if k == 0 then 1 else 2 * Power2(k - 1)
  }

  function Percents(n: nat): (s: string)
    ensures |s| == n
  {
    if n == 0 then "" else "%" + Percents(n - 1)
  }

  lemma {:induction false} TextsToAdds<T>(a: seq<Message<T>>, b: seq<Message<T>>, who: T)
    ensures TextsTo(a + b, who) == TextsTo(a, who) + TextsTo(b, who)
  {
    if a == [] {
      assert a + b == b;
    } else {
      TextsToAdds(a[1..], b, who);
      assert (a + b)[0] == a[0] && (a + b)[1..] == a[1..] + b;
      var first := if a[0].to == who then [a[0].text] else [];
      assert first + (TextsTo(a[1..], who) + TextsTo(b, who)) == first + TextsTo(a[1..], who) + TextsTo(b, who);
    }
  }

  lemma {:induction false} JoinedAdds(a: seq<string>, b: seq<string>)
    ensures Joined(a + b) == Joined(a) + Joined(b)
  {
    if a == [] {
      assert a + b == b;
    } else {
      JoinedAdds(a[1..], b);
      assert (a + b)[0] == a[0] && (a + b)[1..] == a[1..] + b;
      assert a[0] + (Joined(a[1..]) + Joined(b)) == a[0] + Joined(a[1..]) + Joined(b);
    }
  }

  lemma {:induction false} PercentsAdd(a: nat, b: nat)
    ensures Percents(a) + Percents(b) == Percents(a + b)
  {
    if a == 0 {
      assert Percents(0) + Percents(b) == Percents(b);
    } else {
      PercentsAdd(a - 1, b);
    }
  }

  /** An object that is not on the chain gets nothing. */
  lemma {:induction false} OffTheChain<T>(g: Graph<T>, live: set<T>, who: T, data: string, s: T)
    requires Acyclic(g) && !Reaches(g, who, s)
    ensures TextsTo(Delivered(g, live, who, data), s) == []
    decreases Height(g, who)
  {
    assert Above(g, who, 0) == Some(who);
    if who in live && who in g {
      HeightStep(g, who);
      forall n: nat ensures Above(g, g[who], n) != Some(s) {
        assert Above(g, who, n + 1) == Above(g, g[who], n);
      }
      OffTheChain(g, live, g[who], "%", s);
      OffTheChain(g, live, g[who], data, s);
      TextsToAdds([Message(who, data)] + Delivered(g, live, g[who], "%"), Delivered(g, live, g[who], data), s);
      TextsToAdds([Message(who, data)], Delivered(g, live, g[who], "%"), s);
    }
  }

  lemma SplitTexts<T>(g: Graph<T>, live: set<T>, who: T, data: string, s: T)
    requires Acyclic(g) && who in live && who in g
    ensures TextsTo(Delivered(g, live, who, data), s)
         == (if who == s then [data] else []) + TextsTo(Delivered(g, live, g[who], "%"), s)
          + TextsTo(Delivered(g, live, g[who], data), s)
  {
    TextsToAdds([Message(who, data)] + Delivered(g, live, g[who], "%"), Delivered(g, live, g[who], data), s);
    TextsToAdds([Message(who, data)], Delivered(g, live, g[who], "%"), s);
  }

  /**
   The k-th snooper above a user receives one message as exactly 2^k messages,
   which together read 2^k - 1 percent signs and then the text.
   */
  lemma {:induction false} KthSnooper<T>(g: Graph<T>, live: set<T>, who: T, data: string, s: T, k: nat)
    requires Acyclic(g) && Above(g, who, k) == Some(s)
    requires forall i: nat :: i <= k && Above(g, who, i).Some? ==> Above(g, who, i).value in live
    ensures var ts := TextsTo(Delivered(g, live, who, data), s);
      |ts| == Power2(k) && Joined(ts) == Percents(Power2(k) - 1) + data
    decreases k
  {
    assert Above(g, who, 0) == Some(who);
    if k == 0 {
      if who in g {
        SplitTexts(g, live, who, data, s);
        forall n: nat ensures Above(g, g[who], n) != Some(who) {
          assert Above(g, who, n + 1) == Above(g, g[who], n);
        }
        OffTheChain(g, live, g[who], "%", s);
        OffTheChain(g, live, g[who], data, s);
      }
      assert TextsTo(Delivered(g, live, who, data), s) == [data];
      assert Joined([data]) == data + Joined([]) == data;
    } else {
      forall i: nat | i <= k - 1 && Above(g, g[who], i).Some? ensures Above(g, g[who], i).value in live {
        assert Above(g, who, i + 1) == Above(g, g[who], i);
      }
      KthSnooper(g, live, g[who], "%", s, k - 1);
      KthSnooper(g, live, g[who], data, s, k - 1);
      SplitTexts(g, live, who, data, s);
      var a := TextsTo(Delivered(g, live, g[who], "%"), s);
      var b := TextsTo(Delivered(g, live, g[who], data), s);
      assert [] + a + b == a + b;
      JoinedAdds(a, b);
      JoinPercents(Power2(k - 1), data);
    }
  }

  lemma JoinPercents(p: nat, data: string)
    requires p > 0
    ensures (Percents(p - 1) + "%") + (Percents(p - 1) + data) == Percents(2 * p - 1) + data
  {
    PercentsAdd(p - 1, 1);
    PercentsAdd(p, p - 1);
    assert Percents(1) == "%" + Percents(0) == "%";
    assert (Percents(p - 1) + "%") + (Percents(p - 1) + data) == Percents(p) + Percents(p - 1) + data;
  }

  lemma OneAbove<T>(g: Graph<T>, x: T)
    ensures Above(g, x, 1) == if x in g then Some(g[x]) else None
  {
    if x in g { assert Above(g, g[x], 0) == Some(g[x]); }
  }

  /** Stopping keeps the graph sound and takes exactly the spy off the snoopers. */
  lemma StoppedValues<T>(g: Graph<T>, spy: T)
    requires Acyclic(g) && Injective(g)
    ensures Acyclic(Stopped(g, spy)) && Injective(Stopped(g, spy))
    ensures forall y :: y in Stopped(g, spy).Values <==> y in g.Values && y != spy
    ensures spy !in g.Values ==> Stopped(g, spy) == g
  {
    SubgraphAcyclic(g, Stopped(g, spy));
    forall y | y in g.Values && y != spy ensures y in Stopped(g, spy).Values {
      var x :| x in g && g[x] == y;
      assert x in Stopped(g, spy);
    }
  }

  lemma LinkedValues<T>(g: Graph<T>, spy: T, victim: T)
    requires Acyclic(g) && Injective(g) && spy !in g.Values && !Reaches(g, spy, victim)
    ensures Acyclic(g[victim := spy]) && Injective(g[victim := spy])
    ensures forall y :: y in g[victim := spy].Values <==>
      y == spy || (y in g.Values && !(victim in g && g[victim] == y))
  {
    var h := g[victim := spy];
    assert Stopped(g, spy) == g;
    KeepsAcyclic(g, spy, victim);
    StartedInjective(g, spy, victim);
    assert h[victim] == spy;
    forall y | y in g.Values && !(victim in g && g[victim] == y) ensures y in h.Values {
      var x :| x in g && g[x] == y;
      assert h[x] == y;
    }
  }

  lemma StoppedKeepsApart<T>(g: Graph<T>, spy: T, victim: T)
    requires Acyclic(g) && !Reaches(g, spy, victim)
    ensures !Reaches(Stopped(g, spy), spy, victim)
  {
    var s := Stopped(g, spy);
    forall n: nat ensures Above(s, spy, n) != Some(victim) {
      if Above(s, spy, n).Some? { SubgraphPath(g, s, spy, n); }
    }
  }

  lemma RemovedValues<T>(g: Graph<T>, x: T)
    requires Acyclic(g) && Injective(g)
    ensures Acyclic(g - {x}) && Injective(g - {x})
    ensures forall y :: y in (g - {x}).Values <==> y in g.Values && !(x in g && g[x] == y)
  {
    var h := g - {x};
    SubgraphAcyclic(g, h);
    forall y | y in g.Values && !(x in g && g[x] == y) ensures y in h.Values {
      var z :| z in g && g[z] == y;
      assert h[z] == y;
    }
  }

  /** h is g without the links to the spy, all others kept. */
  ghost predicate OnlyStops<T>(g: Graph<T>, h: Graph<T>, spy: T)
  {
    && spy !in h.Values
    && (forall x :: x in h ==> x in g && h[x] == g[x])
    && (forall x :: x in g && g[x] != spy ==> x in h)
  }

  /** In h the spy snoops the victim and nobody else, and the other links are those
      of g, but for the spy's own and the one to the victim. */
  ghost predicate OnlyStarts<T>(g: Graph<T>, h: Graph<T>, spy: T, victim: T)
  {
    && victim in h && h[victim] == spy
    && (forall x :: x in h && x != victim ==> h[x] != spy && x in g && h[x] == g[x])
    && (forall x :: x in g && x != victim && g[x] != spy ==> x in h)
  }

  lemma StopsOnly<T>(g: Graph<T>, spy: T)
    ensures OnlyStops(g, Stopped(g, spy), spy)
  {
  }

  lemma StartsOnly<T>(g: Graph<T>, spy: T, victim: T)
    ensures OnlyStarts(g, Started(g, spy, victim), spy, victim)
  {
  }

  /** All users but one, in the same order. */
  function Without<T(==)>(s: seq<T>, x: T): (r: seq<T>)
  {
    if s == [] then [] else (if s[0] == x then [] else [s[0]]) + Without(s[1..], x)
  }

  predicate Distinct<T(==)>(s: seq<T>) { forall i, j :: 0 <= i < j < |s| ==> s[i] != s[j] }

  lemma {:induction false} WithoutIs<T>(s: seq<T>, x: T)
    ensures forall y :: y in Without(s, x) <==> y in s && y != x
    ensures Distinct(s) ==> Distinct(Without(s, x))
  {
    if s != [] {
      WithoutIs(s[1..], x);
      assert s == [s[0]] + s[1..];
      if Distinct(s) {
        assert forall j :: 0 < j < |s| ==> s[j] == s[1..][j - 1];
        assert s[0] !in Without(s[1..], x);
      }
    }
  }

  // ------------------------------------------------------------------ the driver

  class Comm {
    var users: seq<Interactive>
    var sent: seq<Message<Object>>  // text handed to the connections
    ghost var objects: set<Object>
    ghost var snoopers: Graph<Object>  // the links, as a map from object to snooper

    /** Users and their objects point at each other. */
    ghost predicate Linked()
      reads this`users, this`objects, objects`interactive
    {
      && Distinct(users)
      && (forall u :: u in users ==> u.ob in objects && u.ob.interactive == u)
      && (forall o :: o in objects && o.interactive != null ==> o.interactive in users && o.interactive.ob == o)
    }

    /** The snooped_by pointers are the map `snoopers`. */
    ghost predicate Mapped()
      reads this`users, this`objects, this`snoopers, objects`interactive, users`snoopedBy
    {
      && snoopers.Keys <= objects && snoopers.Values <= objects
      && (forall o :: o in snoopers ==> o.interactive != null)
      && (forall u :: u in users ==>
        if u.ob in snoopers then u.snoopedBy == snoopers[u.ob] else u.snoopedBy == null)
    }

    /** O_SNOOP is set exactly on the objects that snoop someone. */
    ghost predicate Flagged()
      reads this`objects, this`snoopers, objects`snooping
    {
      forall o :: o in objects ==> (o.snooping <==> o in snoopers.Values)
    }

    ghost predicate Valid()
      reads this`users, this`objects, this`snoopers, objects`interactive, objects`snooping, users`snoopedBy
    {
      Linked() && Mapped() && Flagged() && Acyclic(snoopers) && Injective(snoopers)
    }

    /** The connection of o still takes text. */
    predicate IsLive(o: Object)
      reads o, o.interactive
    {
      !o.destructed && o.interactive != null && !o.interactive.closing && !o.interactive.netDead
    }

    ghost function Live(): set<Object>
      reads this`objects, objects, set o | o in objects :: o.interactive
    {
      set o | o in objects && IsLive(o)
    }

    constructor ()
      ensures Valid() && users == [] && objects == {} && sent == []
    {
      users, sent, objects, snoopers := [], [], {}, map[];
    }

    method AddMessage(who: Object, data: string)
      requires Valid() && who in objects
      modifies this`sent
      ensures who.destructed || who.interactive == null || who.interactive.netDead || who.interactive.closing ==>
        sent == old(sent)
      ensures !who.destructed && who.interactive != null && !who.interactive.netDead && !who.interactive.closing ==>
        old(sent) + [Message(who, data)] <= sent
      ensures sent == old(sent) + Delivered(snoopers, Live(), who, data)
      decreases Height(snoopers, who), 0
    {
      DeliveredStep<Object>(snoopers, Live(), who, data);
      hide Delivered, Acyclic, Injective, Mapped;
      if !IsLive(who) {
        return;
      }
      var ip := who.interactive;
      sent := sent + [Message(who, data)];
      if ip.snoopedBy != null {
        HeightStep(snoopers, who);
        ReceiveSnoop(data, ip.snoopedBy);
      }
    }

    method ReceiveSnoop(data: string, snooper: Object)
      requires Valid() && snooper in objects
      modifies this`sent
      ensures sent == old(sent) + Delivered(snoopers, Live(), snooper, "%") + Delivered(snoopers, Live(), snooper, data)
      decreases Height(snoopers, snooper), 1
    {
      AddMessage(snooper, "%");
      AddMessage(snooper, data);
    }

    // ------------------------------------------------------- changing the links

    /** The walk that protects against loops: from the spy up to the victim. */
    method MeetsAbove(spy: Object, victim: Object) returns (met: bool)
      requires Valid() && spy in objects
      ensures met <==> Reaches(snoopers, spy, victim)
    {
      ghost var g := snoopers;
      var tmp: Object? := spy;
      ghost var n: nat := 0;
      while tmp != null
        invariant tmp != null ==> tmp in objects
        invariant Above(g, spy, n) == if tmp == null then None else Some(tmp)
        invariant forall i: nat :: i < n ==> Above(g, spy, i) != Some(victim)
        decreases if tmp == null then 0 else 1 + Height<Object>(g, tmp)
      {
        if tmp == victim {
          return true;
        }
        AboveAdds<Object>(g, spy, n, 1);
        OneAbove<Object>(g, tmp);
        if tmp in g { HeightStep<Object>(g, tmp); }
        tmp := if tmp.interactive != null then tmp.interactive.snoopedBy else null;
        n := n + 1;
      }
      forall i: nat ensures Above(g, spy, i) != Some(victim) {
        if i >= n { AboveAdds(g, spy, n, i - n); }
      }
      return false;
    }

    method ClearSnooper(spy: Object)
      requires Linked() && Mapped()
      modifies this`snoopers, users`snoopedBy
      ensures Linked() && Mapped() && snoopers == Stopped(old(snoopers), spy)
    {
      var i := 0;
      while i < |users|
        invariant 0 <= i <= |users| && snoopers == old(snoopers)
        invariant forall j :: 0 <= j < i ==>
          users[j].snoopedBy == if old(users[j].snoopedBy) == spy then null else old(users[j].snoopedBy)
        invariant forall j :: i <= j < |users| ==> users[j].snoopedBy == old(users[j].snoopedBy)
      {
        if users[i].snoopedBy == spy {
          users[i].snoopedBy := null;
        }
        i := i + 1;
      }
      snoopers := Stopped(snoopers, spy);
      assert snoopers.Values <= old(snoopers).Values;
    }

    /** new_set_snoop without a victim. */
    method StopSnoop(spy: Object)
      requires Valid() && spy in objects
      modifies this`snoopers, spy`snooping, users`snoopedBy
      ensures Valid() && snoopers == Stopped(old(snoopers), spy)
    {
      hide Acyclic, Injective, Stopped;
      StoppedValues(snoopers, spy);
      if spy.snooping {
        ClearSnooper(spy);
        spy.snooping := false;
      }
    }

    /** Set the snooped_by pointer of one user. */
    method Repoint(ob: Object, target: Object?)
      requires Linked() && Mapped() && ob in objects && ob.interactive != null
      requires target != null ==> target in objects
      modifies this`snoopers, ob.interactive`snoopedBy
      ensures Linked() && Mapped()
      ensures snoopers == if target == null then old(snoopers) - {ob} else old(snoopers)[ob := target]
    {
      ob.interactive.snoopedBy := target;
      if target == null {
        snoopers := snoopers - {ob};
      } else {
        snoopers := snoopers[ob := target];
      }
    }

    /** Point the victim's link at the spy, who snoops nobody else at this point. */
    method Link(spy: Object, victim: Object)
      requires Valid() && spy in objects && victim in objects && victim.interactive != null
      requires spy !in snoopers.Values && !Reaches(snoopers, spy, victim)
      modifies this`snoopers, objects`snooping, victim.interactive`snoopedBy
      ensures Valid() && snoopers == old(snoopers)[victim := spy]
    {
      LinkedValues(snoopers, spy, victim);
      var previous := QuerySnoop(victim);
      hide Acyclic, Injective, Reaches, Linked, Mapped;
      if previous != null {
        previous.snooping := false;
      }
      spy.snooping := true;
      Repoint(victim, spy);
    }

    /** Let `spy` snoop `victim`, or stop snooping when there is no victim. */
    method NewSetSnoop(spy: Object, victim: Object?) returns (r: Outcome)
      requires Valid() && spy in objects && (victim != null ==> victim in objects)
      modifies this`snoopers, objects`snooping, users`snoopedBy
      ensures Valid()
      ensures r == Done <==>
        && !spy.destructed
        && (victim == null
            || (!victim.destructed && victim.interactive != null && !Reaches<Object>(old(snoopers), spy, victim)))
      ensures r == Error <==> !spy.destructed && victim != null && !victim.destructed && victim.interactive == null
      ensures r != Done ==> snoopers == old(snoopers)
      ensures r == Done && victim == null ==> OnlyStops(old(snoopers), snoopers, spy) && !spy.snooping
      ensures r == Done && victim != null ==> OnlyStarts(old(snoopers), snoopers, spy, victim) && spy.snooping
    {
      if victim == null {
        StopsOnly<Object>(snoopers, spy);
      } else {
        StartsOnly<Object>(snoopers, spy, victim);
      }
      hide OnlyStops, OnlyStarts, Stopped, Started, Reaches, Linked, Mapped, Flagged, Acyclic, Injective;
      if spy.destructed || (victim != null && victim.destructed) {
        return Refused;
      }
      if victim == null {
        StopSnoop(spy);
        return Done;
      }
      if victim.interactive == null {
        return Error;
      }
      var met := MeetsAbove(spy, victim);
      if met {
        return Refused;
      }
      Restart(spy, victim);
      return Done;
    }

    /** Terminate the spy's previous snoop and set up the new one. */
    method Restart(spy: Object, victim: Object)
      requires Valid() && spy in objects && victim in objects && victim.interactive != null
      requires !Reaches(snoopers, spy, victim)
      modifies this`snoopers, objects`snooping, users`snoopedBy
      ensures Valid() && snoopers == Started(old(snoopers), spy, victim)
    {
      StoppedKeepsApart(snoopers, spy, victim);
      StoppedValues(snoopers, spy);
      hide Reaches, Linked, Mapped, Flagged, Acyclic, Injective, Stopped;
      StopSnoop(spy);
      Link(spy, victim);
    }

    method QuerySnoop(ob: Object) returns (snooper: Object?)
      requires Valid() && ob in objects
      ensures snooper == if ob in snoopers then snoopers[ob] else null
      ensures snooper != null ==> snooper in objects
    {
      if ob.interactive == null {
        return null;
      }
      return ob.interactive.snoopedBy;
    }

    /** The search always succeeds when the flag is set. */
    method QuerySnooping(ob: Object) returns (target: Object?)
      requires Valid() && ob in objects
      ensures target == null <==> ob !in snoopers.Values
      ensures target != null ==> target in snoopers && snoopers[target] == ob
    {
      target := null;
      if !ob.snooping {
        return;
      }
      ghost var o :| o in snoopers && snoopers[o] == ob;
      ghost var k :| 0 <= k < |users| && users[k] == o.interactive;
      var i := 0;
      while i < |users|
        invariant 0 <= i <= k
      {
        if users[i].snoopedBy == ob {
          return users[i].ob;
        }
        i := i + 1;
      }
      assert false;
    }

    // ------------------------------------------------ objects that come and go

    /** A new object is known to the driver. */
    method AddObject(ob: Object)
      requires Valid() && ob !in objects && ob.interactive == null && !ob.snooping
      modifies this`objects
      ensures Valid() && objects == old(objects) + {ob}
    {
      objects := objects + {ob};
    }

    /** A connection is attached to an object. */
    method Connect(ob: Object)
      requires Valid() && ob in objects && ob.interactive == null
      modifies this`users, ob`interactive
      ensures Valid() && ob.interactive != null && fresh(ob.interactive)
      ensures users == old(users) + [ob.interactive]
    {
      var ip := new Interactive(ob);
      ob.interactive := ip;
      users := users + [ip];
    }

    /** The first half of remove_interactive, up to the net_dead apply. */
    method BeginRemove(ob: Object) returns (proceed: bool)
      requires Valid() && ob in objects
      modifies ob.interactive
      ensures Valid()
      ensures proceed <==> ob.interactive != null && !old(ob.interactive.closing)
      ensures proceed ==> ob.interactive.closing
    {
      if ob.interactive == null || ob.interactive.closing {
        return false;
      }
      ob.interactive.closing := true;
      return true;
    }

    /** The link to the snooper goes, and with it the snooper's flag. */
    method Unlink(ob: Object)
      requires Valid() && ob in objects && ob.interactive != null
      modifies this`snoopers, ob.interactive`snoopedBy, objects`snooping
      ensures Valid() && snoopers == old(snoopers) - {ob}
    {
      RemovedValues(snoopers, ob);
      var snooper := QuerySnoop(ob);
      hide Acyclic, Injective, Linked, Mapped;
      if snooper != null {
        snooper.snooping := false;
      }
      Repoint(ob, null);
    }

    /** The connection is taken out of the users and off its object. */
    method Detach(ob: Object)
      requires Valid() && ob in objects && ob.interactive != null && ob !in snoopers
      modifies this`users, ob`interactive
      ensures Valid() && ob.interactive == null
    {
      hide Acyclic, Injective, Without;
      var ip: Interactive := ob.interactive;
      WithoutIs(users, ip);
      users := Without(users, ip);
      ob.interactive := null;
    }

    /** The second half: the link to the snooper and the connection go. */
    method FinishRemove(ob: Object)
      requires Valid() && ob in objects && ob.interactive != null
      modifies this`users, this`snoopers, ob`interactive, ob.interactive`snoopedBy, objects`snooping
      ensures Valid() && ob.interactive == null && snoopers == old(snoopers) - {ob}
    {
      hide Acyclic, Injective, Linked, Mapped, Flagged;
      Unlink(ob);
      Detach(ob);
    }

    /** The snoop part of destructing an object. */
    method Destruct(ob: Object)
      requires Valid() && ob in objects
      modifies this`snoopers, ob`snooping, ob`destructed, users`snoopedBy
      ensures Valid() && ob.destructed && snoopers == Stopped(old(snoopers), ob)
    {
      StopSnoop(ob);
      ob.destructed := true;
    }
  }
}
