/**
 The scheduler as it runs: the queue is drained in batches.  All due events are
 taken off the queue together and handled one after the other; what they add is
 picked up by the next batch of the same tick.
 */
module Backend {
  import opened TickSpec
  import opened TickRuns

  /** The state with b put in front of the queue. */
  function Ahead(b: seq<Entry>, s: State): State { s.(queue := b + s.queue) }

  predicate AllDue(b: seq<Entry>, now: nat) { forall x :: x in b ==> x.tick <= now }

  lemma OpBehind(b: seq<Entry>, s: State, op: Op)
    requires AllDue(b, s.now)
    ensures DoOp(Ahead(b, s), op) == Ahead(b, DoOp(s, op))
  {
    if op.Add? { InsertBehind(b, s.queue, Entry(s.now + op.delay, |s.events|)); }
  }

  lemma {:induction false} OpsBehind(b: seq<Entry>, s: State, ops: seq<Op>)
    requires AllDue(b, s.now)
    ensures RunOps(Ahead(b, s), ops) == Ahead(b, RunOps(s, ops))
    decreases ops
  {
    if ops != [] {
      OpBehind(b, s, ops[0]);
      assert DoOp(s, ops[0]).now == s.now;
      OpsBehind(b, DoOp(s, ops[0]), ops[1..]);
    }
  }

  /** Handling the first event of a batch is popping the earliest event of the
      queue the batch was taken from. */
  lemma BatchStep(b: seq<Entry>, s: State)
    requires b != [] && AllDue(b, s.now) && Ok(Ahead(b, s))
    ensures b[0].id < |s.events| && HasDue(Ahead(b, s))
    ensures PopOne(Ahead(b, s)) == Ahead(b[1..], Handle(s, b[0].id))
    ensures Ok(Ahead(b[1..], Handle(s, b[0].id))) && Handle(s, b[0].id).now == s.now
    ensures Drain(Ahead(b, s)) == Drain(Ahead(b[1..], Handle(s, b[0].id)))
    ensures Weight(Ahead(b[1..], Handle(s, b[0].id))) < Weight(Ahead(b, s))
  {
    var a := Ahead(b, s);
    assert a.queue[0] == b[0] && a.queue[1..] == b[1..] + s.queue;
    assert b[0] in b;
    var e := s.events[b[0].id];
    var noted := s.(log := s.log + [Handled(b[0].id, s.now, e.valid)]);
    assert AllDue(b[1..], s.now) by { assert forall x :: x in b[1..] ==> x in b; }
    OpsBehind(b[1..], noted, e.callback.ops);
    PopOk(a);
    PopShrinks(a);
  }

  lemma InsertAt(q: seq<Entry>, e: Entry, i: nat)
    requires i <= |q| && (forall j :: 0 <= j < i ==> q[j].tick <= e.tick)
    requires i < |q| ==> q[i].tick > e.tick
    ensures Insert(q, e) == q[..i] + [e] + q[i..]
  {
    InsertBehind(q[..i], q[i..], e);
    assert q[..i] + q[i..] == q;
    assert q[..i] + ([e] + q[i..]) == q[..i] + [e] + q[i..];
  }

  /** Behind an entry that is not due none is. */
  lemma LaterBehind(q: seq<Entry>, n: nat, now: nat)
    requires Sorted(q) && n <= |q| && (n < |q| ==> q[n].tick > now)
    ensures forall x :: x in q[n..] ==> x.tick > now
  {
    forall i | n <= i < |q| ensures q[i].tick > now {
      if i > n { assert Precedes(q[n], q[i]); }
    }
  }

  class Scheduler {
    var gametick: nat
    var queue: seq<Entry>
    var events: seq<TickEvent>
    ghost var log: seq<Happened>
    ghost var cleared: seq<nat>

    ghost function View(): State
      reads this
    {
      State(gametick, queue, events, log, cleared)
    }

    constructor ()
      ensures View() == Start
    {
      gametick, queue, events := 0, [], [];
      log, cleared := [], [];
    }

    /** multimap insertion: behind every entry with the same key. */
    method InsertEntry(e: Entry)
      modifies this`queue
      ensures queue == Insert(old(queue), e)
    {
      ghost var q := queue;
      var i := 0;
      while i < |queue| && queue[i].tick <= e.tick
        invariant 0 <= i <= |queue| && queue == q
        invariant forall j :: 0 <= j < i ==> q[j].tick <= e.tick
      {
        i := i + 1;
      }
      InsertAt(q, e, i);
      queue := queue[..i] + [e] + queue[i..];
    }

    method AddGametickEvent(delay: nat, callback: Action) returns (id: nat)
      modifies this`queue, this`events, this`log
      ensures View() == AddEvent(old(View()), delay, callback)
      ensures id == |old(events)|
    {
      id := |events|;
      log := log + [Added(id, gametick + delay)];
      events := events + [TickEvent(true, callback, gametick + delay)];
      InsertEntry(Entry(gametick + delay, id));
    }

    method Invalidate(id: nat)
      modifies this`events, this`log
      ensures View() == InvalidateEvent(old(View()), id)
    {
      if id < |events| {
        events := events[id := events[id].(valid := false)];
        log := log + [Invalidated(id)];
      }
    }

    method RunCallback(callback: Action)
      modifies this`queue, this`events, this`log
      ensures View() == RunOps(old(View()), callback.ops)
    {
      var ops := callback.ops;
      var i := 0;
      while i < |ops|
        invariant 0 <= i <= |ops|
        invariant gametick == old(gametick) && cleared == old(cleared)
        invariant RunOps(View(), ops[i..]) == RunOps(old(View()), ops)
      {
        assert ops[i..][0] == ops[i] && ops[i..][1..] == ops[i + 1..];
        match ops[i] {
          case Add(delay, action) => var _ := AddGametickEvent(delay, action);
          case Invalidate(id) => Invalidate(id);
        }
        i := i + 1;
      }
    }

    method HandleEvent(id: nat)
      requires id < |events|
      modifies this`queue, this`events, this`log
      ensures View() == Handle(old(View()), id)
    {
      log := log + [Handled(id, gametick, events[id].valid)];
      if events[id].valid {
        RunCallback(events[id].callback);
      }
    }

    /** Take all due events off the queue. */
    method TakeDue() returns (batch: seq<Entry>)
      requires Ok(View())
      modifies this`queue
      ensures Ahead(batch, View()) == old(View())
      ensures AllDue(batch, gametick) && forall x :: x in queue ==> x.tick > gametick
      ensures batch == [] <==> !HasDue(old(View()))
    {
      hide Sorted, Precedes;
      var n := 0;
      while n < |queue| && queue[n].tick <= gametick
        invariant 0 <= n <= |queue| && queue == old(queue)
        invariant forall i :: 0 <= i < n ==> queue[i].tick <= gametick
      {
        n := n + 1;
      }
      batch := queue[..n];
      queue := queue[n..];
      assert batch + queue == old(queue);
      LaterBehind(old(queue), n, gametick);
    }

    method HandleBatch(batch: seq<Entry>)
      requires AllDue(batch, gametick) && Ok(Ahead(batch, View()))
      modifies this`queue, this`events, this`log
      ensures Ok(View())
      ensures Drain(View()) == Drain(Ahead(batch, old(View())))
      ensures batch != [] ==> Weight(View()) < Weight(Ahead(batch, old(View())))
    {
      hide Drain, Weight, Ok, PopOne, Handle, HasDue;
      ghost var start := Ahead(batch, View());
      var i := 0;
      while i < |batch|
        invariant 0 <= i <= |batch| && gametick == old(gametick)
        invariant AllDue(batch[i..], gametick)
        invariant Ok(Ahead(batch[i..], View()))
        invariant Drain(Ahead(batch[i..], View())) == Drain(start)
        invariant Weight(Ahead(batch[i..], View())) <= Weight(start)
        invariant i > 0 ==> Weight(Ahead(batch[i..], View())) < Weight(start)
      {
        ghost var b := batch[i..];
        assert b[0] == batch[i] && b[1..] == batch[i + 1..];
        assert forall x :: x in b[1..] ==> x in b;
        BatchStep(b, View());
        HandleEvent(batch[i].id);
        i := i + 1;
      }
      assert Ahead(batch[i..], View()) == View();
    }

    /** All events of the current tick, those they add for this tick included. */
    method CallTickEvents()
      requires Ok(View())
      modifies this`queue, this`events, this`log
      ensures View() == Drain(old(View()))
    {
      if queue == [] || queue[0].tick > gametick {
        return;
      }
      while true
        invariant Ok(View()) && gametick == old(gametick)
        invariant Drain(View()) == Drain(old(View()))
        decreases Weight(View())
      {
        var batch := TakeDue();
        if batch == [] {
          break;
        }
        HandleBatch(batch);
      }
    }

    method OnGameTick()
      requires Ok(View())
      modifies this
      ensures View() == DoStep(old(View()), Tick)
    {
      CallTickEvents();
      gametick := gametick + 1;
    }

    method ClearTickEvents() returns (leftover: nat)
      requires Ok(View())
      modifies this`queue, this`cleared
      ensures View() == DoStep(old(View()), Shutdown)
      ensures leftover == |old(queue)|
    {
      leftover := 0;
      ghost var ids: seq<nat> := [];
      while leftover < |queue|
        invariant leftover <= |queue|
        invariant queue == old(queue) && cleared == old(cleared)
        invariant ids + Ids(queue[leftover..]) == Ids(queue)
      {
        assert queue[leftover..][1..] == queue[leftover + 1..];
        assert ids + ([queue[leftover].id] + Ids(queue[leftover + 1..])) == ids + [queue[leftover].id] + Ids(queue[leftover + 1..]);
        ids := ids + [queue[leftover].id];
        leftover := leftover + 1;
      }
      cleared := cleared + ids;
      queue := [];
    }
  }
}
