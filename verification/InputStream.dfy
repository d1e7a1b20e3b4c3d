/**
 Runs of one connection in line mode: data events and command events in any
 interleaving, and what they deliver compared with the byte stream as a whole.
 */
module InputStream {
  import opened Wrappers
  import opened InputBuffer
  import opened StreamCut

  // ------------------------------------------------------------------- runs

  datatype Event = Data(bytes: seq<byte>) | Command

  /** `seen` is everything stored so far, `delivered` the commands handed out and
      `lost` the indices of the stream's lines hit by a space reset. */
  datatype Run = Run(conn: Conn, seen: seq<byte>, delivered: seq<seq<byte>>, lost: set<nat>)

  function Begin(strip: bool): Run { Run(Fresh(false, strip), [], [], {}) }

  predicate Plain(s: seq<byte>)
  {
    forall i :: 0 <= i < |s| ==> s[i] != NUL && !IsErase(s[i])
  }

  /** What is stored for plain data: ESC becomes a space when stripping is on. */
  function Translate(strip: bool, s: seq<byte>): (r: seq<byte>)
    ensures |r| == |s|
    ensures forall i :: 0 <= i < |s| ==> r[i] == if s[i] == ESC && strip then ANSI_SUBSTITUTE else s[i]
  {
    seq(|s|, i requires 0 <= i < |s| => if s[i] == ESC && strip then ANSI_SUBSTITUTE else s[i])
  }

  /** The read is preceded by dropping the whole buffer. */
  predicate Resets(c: Conn)
    requires Wf(c)
  {
    MAX_TEXT - c.end < LOW_SPACE && MAX_TEXT - |c.win| < LOW_SPACE
  }

  /** The data fits behind what the space check leaves. */
  predicate Fits(c: Conn, data: seq<byte>)
    requires Settled(c)
  {
    MakeRoom(c).end + |data| <= MAX_TEXT - 1
  }

  predicate Enabled(r: Run, e: Event)
  {
    && Settled(r.conn)
    && (e.Data? ==> Plain(e.bytes) && Fits(r.conn, e.bytes))
  }

  /** A command event only happens while it is scheduled. */
  function Step(r: Run, e: Event): Run
    requires Enabled(r, e)
  {
    match e
    case Data(bytes) =>
      var n := |Cut(r.seen).done|;
      Run(Arrive(r.conn, bytes), r.seen + Translate(r.conn.strip, bytes), r.delivered,
          if Resets(r.conn) then r.lost + {n} else r.lost)
    case Command =>
      if !r.conn.sched then r
      else
        var (c, line) := Fire(r.conn);
        r.(conn := c, delivered := if line.Some? then r.delivered + [line.value] else r.delivered)
  }

  // ----------------------------------------------------- single steps of a run

  /** The connection with d appended to its window. */
  function Stored(c: Conn, d: seq<byte>): Conn { c.(end := c.end + |d|, win := c.win + d) }

  lemma StoredTwice(c: Conn, d: seq<byte>, e: seq<byte>)
    ensures Stored(Stored(c, d), e) == Stored(c, d + e)
    ensures Stored(c, []) == c
  {
    assert c.win + d + e == c.win + (d + e);
    assert c.win + [] == c.win;
  }

  lemma TranslateCons(strip: bool, s: seq<byte>)
    requires s != []
    ensures Translate(strip, s) == Translate(strip, [s[0]]) + Translate(strip, s[1..])
  {
  }

  lemma FeedOnePlain(c: Conn, b: byte)
    requires Wf(c) && c.start <= c.end < MAX_TEXT - 1 && !c.single && !IsErase(b)
    ensures FeedOne(c, b) == Stored(c, Translate(c.strip, [b]))
  {
    assert Translate(c.strip, [b]) == [if b == ESC && c.strip then ANSI_SUBSTITUTE else b];
  }

  lemma {:induction false} FeedPlain(c: Conn, data: seq<byte>)
    requires Wf(c) && c.start <= c.end && !c.single
    requires Plain(data) && c.end + |data| <= MAX_TEXT - 1
    ensures FeedAll(c, data) == Stored(c, Translate(c.strip, data))
    decreases data
  {
    hide FeedOne;
    StoredTwice(c, [], []);
    if data == [] {
      assert Translate(c.strip, data) == [];
    } else {
      var first := Translate(c.strip, [data[0]]);
      var rest := Translate(c.strip, data[1..]);
      FeedOnePlain(c, data[0]);
      FeedPlain(FeedOne(c, data[0]), data[1..]);
      TranslateCons(c.strip, data);
      StoredTwice(c, first, rest);
    }
  }

  lemma {:induction false} FeedFull(c: Conn, data: seq<byte>, n: nat)
    requires Wf(c) && c.start <= c.end && !c.single
    requires Plain(data) && c.end + n == MAX_TEXT - 1 && n <= |data|
    ensures FeedAll(c, data) == FeedAll(c, data[..n])
    decreases n
  {
    if n > 0 {
      assert data[..n][0] == data[0] && data[..n][1..] == data[1..][..n - 1];
      FeedFull(FeedOne(c, data[0]), data[1..], n - 1);
    }
  }

  /** Of plain data waiting on the socket, everything read is stored exactly when
      it fits; when at least as much is waiting as may be read, the last byte read
      is dropped. */
  lemma ReadStores(c: Conn, pending: seq<byte>)
    requires Wf(c) && c.start <= c.end && !c.single && Plain(pending)
    ensures var c1 := MakeRoom(c);
      var n := ReadSize(c1, pending);
      var c2 := FeedAll(c1, pending[..n]);
      && (|c2.win| == |c1.win| + n <==> Fits(c, pending))
      && (!Fits(c, pending) ==> n == MAX_TEXT - c1.end && c2.win == c1.win + Translate(c.strip, pending[..n - 1]))
  {
    ReadStoresInto(MakeRoom(c), pending);
  }

  lemma ReadStoresInto(c: Conn, pending: seq<byte>)
    requires Wf(c) && c.start <= c.end && !c.single && Plain(pending)
    ensures var n := ReadSize(c, pending);
      var c2 := FeedAll(c, pending[..n]);
      if c.end + |pending| <= MAX_TEXT - 1 then |c2.win| == |c.win| + n
      else n == MAX_TEXT - c.end && c2.win == c.win + Translate(c.strip, pending[..n - 1])
  {
    hide FeedAll, Translate;
    var n := ReadSize(c, pending);
    if c.end + |pending| <= MAX_TEXT - 1 {
      assert pending[..n] == pending;
      FeedPlain(c, pending);
    } else {
      FeedFull(c, pending[..n], n - 1);
      assert pending[..n][..n - 1] == pending[..n - 1];
      FeedPlain(c, pending[..n - 1]);
    }
  }

  lemma PlainClean(c: Conn)
    requires Wf(c) && Plain(c.win) && c.start <= c.end && !c.skip
    ensures Clean(c) == if c.win == [] then Empty(c) else c
  {
    if c.win != [] {
      assert c.win[0..] == c.win;
    }
  }

  predicate Sound(c: Conn)
  {
    && Wf(c) && c.start <= c.end && !c.single && Plain(c.win)
    && (c.cmd <==> !c.skip && HasEol(c.win))
    && (c.sched <==> c.cmd)
  }

  /** A command event hands out the first line and nothing else. */
  lemma FireTakesLine(c: Conn)
    requires Sound(c) && c.cmd
    ensures var (c', line) := Fire(c);
      && Sound(c') && !c'.skip && c'.strip == c.strip
      && c'.win == c.win[FirstEol(c.win) + TermLen(c.win, FirstEol(c.win))..]
      && line == Some(c.win[..FirstEol(c.win)])
  {
    hide Clean, CutCommand;
    var c0 := c.(sched := false);
    PlainClean(c0);
    CutPlain(c0);
  }

  /** Cutting the first line off plain text. */
  lemma CutPlain(c: Conn)
    requires Wf(c) && c.start <= c.end && !c.single && !c.skip && c.cmd && Plain(c.win) && HasEol(c.win)
    ensures var (c', line) := CutCommand(c);
      && Wf(c') && c'.start <= c'.end && !c'.single && !c'.skip && c'.strip == c.strip && c'.sched == c.sched
      && c'.win == c.win[FirstEol(c.win) + TermLen(c.win, FirstEol(c.win))..]
      && Plain(c'.win) && (c'.cmd <==> HasEol(c'.win))
      && line == c.win[..FirstEol(c.win)]
  {
    TillNulPlain(c.win[..FirstEol(c.win)]);
    PastPlain(c);
    hide FirstEol, PastLine, Clean, TillNul;
    PlainClean(PastLine(c));
  }

  lemma PastPlain(c: Conn)
    requires Wf(c) && c.start <= c.end && Plain(c.win) && HasEol(c.win)
    ensures var k := FirstEol(c.win);
      var r := PastLine(c);
      && r == c.(start := r.start, win := c.win[k + TermLen(c.win, k)..])
      && r.start <= r.end && Plain(r.win)
  {
    hide FirstEol, TermLen;
  }

  lemma {:induction false} TillNulPlain(s: seq<byte>)
    requires NUL !in s
    ensures TillNul(s) == s
  {
    if s != [] { TillNulPlain(s[1..]); }
  }

  /** Without a reset the space check keeps the window. */
  lemma RoomKeeps(c: Conn)
    requires Wf(c) && c.start <= c.end
    ensures var c1 := MakeRoom(c);
      && c1.start <= c1.end && c1.single == c.single && c1.strip == c.strip
      && c1.cmd == c.cmd && c1.sched == c.sched
      && (if Resets(c) then c1.win == [] && c1.skip else c1.win == c.win && c1.skip == c.skip)
  {
  }

  lemma ArriveIs(c: Conn, data: seq<byte>)
    requires Wf(c) && c.start <= c.end && !c.single && Plain(data) && Fits(c, data)
    ensures var c1 := MakeRoom(c);
      var c2 := Stored(c1, Translate(c.strip, data));
      Wf(c2) && Arrive(c, data) == if data == [] then c1 else Announce(c2)
  {
    hide Announce, FeedAll, FirstEol;
    var c1 := MakeRoom(c);
    assert data[..ReadSize(c1, data)] == data;
    RoomKeeps(c);
    FeedPlain(c1, data);
  }

  /** The command search when nothing is being skipped. */
  lemma AnnouncePlain(c: Conn)
    requires Wf(c) && c.start <= c.end && !c.single && Plain(c.win) && !c.skip && c.win != []
    ensures Announce(c) == if HasEol(c.win) then c.(cmd := true, sched := true) else c
  {
    PlainClean(c);
  }

  /** Arrival without a reset and with nothing being skipped appends. */
  lemma ArriveAppends(c: Conn, data: seq<byte>)
    requires Sound(c) && !c.skip && Plain(data) && Fits(c, data) && !Resets(c)
    ensures var c' := Arrive(c, data);
      Sound(c') && !c'.skip && c'.strip == c.strip && c'.win == c.win + Translate(c.strip, data)
  {
    hide Announce, Arrive, FirstEol, MakeRoom;
    var d := Translate(c.strip, data);
    ArriveIs(c, data);
    RoomKeeps(c);
    FirstEolAppend(c.win, d);
    if data != [] {
      AnnouncePlain(Stored(MakeRoom(c), d));
    }
  }

  lemma SkipNothing(c: Conn)
    requires Wf(c) && c.start <= c.end && c.win != [] && c.win[0] != NUL
    ensures SkipNuls(c) == c
  {
    assert c.win[0..] == c.win;
  }

  /** The command search while a line is being skipped: w is what is left of
      that line, d the data behind it. */
  lemma AnnounceSkipping(c: Conn, w: seq<byte>, d: seq<byte>)
    requires Wf(c) && c.start <= c.end && !c.single && c.skip && !c.cmd && !c.sched
    requires c.win == w + d && Plain(c.win) && c.win != [] && !HasEol(w)
    ensures var c' := Announce(c);
      && Sound(c') && c'.strip == c.strip
      && c'.skip == !HasEol(d)
      && (if c'.skip then !HasEol(c'.win) else c'.win == d[FirstEol(d) + 1..])
  {
    hide FirstEol, SkipNuls;
    FirstEolAppend(w, d);
    SkipNothing(c);
    if HasEol(d) {
      assert c.win[FirstEol(c.win) + 1..] == d[FirstEol(d) + 1..];
      PlainClean(Flushed(c));
    }
  }

  /** Arrival while a line is being skipped, or with a reset. */
  lemma ArriveSkipping(c: Conn, data: seq<byte>)
    requires Sound(c) && Plain(data) && Fits(c, data)
    requires !HasEol(c.win) && (c.skip || Resets(c))
    ensures var c' := Arrive(c, data);
      var d := Translate(c.strip, data);
      && Sound(c') && c'.strip == c.strip
      && c'.skip == !HasEol(d)
      && (if c'.skip then !HasEol(c'.win) else c'.win == d[FirstEol(d) + 1..])
  {
    hide Announce, Arrive, FirstEol, MakeRoom;
    var d := Translate(c.strip, data);
    ArriveIs(c, data);
    RoomKeeps(c);
    if data != [] {
      AnnounceSkipping(Stored(MakeRoom(c), d), MakeRoom(c).win, d);
    }
  }

  // ------------------------------------------------------------- whole runs

  predicate AllEnabled(r: Run, es: seq<Event>)
    decreases es
  {
    es == [] || (Enabled(r, es[0]) && AllEnabled(Step(r, es[0]), es[1..]))
  }

  function RunAll(r: Run, es: seq<Event>): Run
    requires AllEnabled(r, es)
    decreases es
  {
    if es == [] then r else RunAll(Step(r, es[0]), es[1..])
  }

  /** No arrival needs a reset. */
  predicate WithoutReset(r: Run, es: seq<Event>)
    requires AllEnabled(r, es)
    decreases es
  {
    es == [] || ((es[0].Data? ==> !Resets(r.conn)) && WithoutReset(Step(r, es[0]), es[1..]))
  }

  /** The commands handed out and the lines in the window are the stream's lines, and
      the window ends in what follows them. */
  predicate Exact(r: Run)
  {
    Cut(r.seen) == Lines(r.delivered + Cut(r.conn.win).done, Cut(r.conn.win).rest)
  }

  predicate ExactThroughout(r: Run, es: seq<Event>)
    requires AllEnabled(r, es)
    decreases es
  {
    Exact(r) && (es == [] || ExactThroughout(Step(r, es[0]), es[1..]))
  }

  /** No arrival completes a pair whose first half has been handed out as a terminator
      already, and then begins an odd run of terminator bytes. */
  predicate Unshifted(r: Run, es: seq<Event>)
    requires AllEnabled(r, es)
    decreases es
  {
    es == [] ||
    (&& (es[0].Data? ==> !Shifts(r.seen, r.conn.win, Translate(r.conn.strip, es[0].bytes)))
     && Unshifted(Step(r, es[0]), es[1..]))
  }

  predicate InStep(r: Run)
  {
    && Sound(r.conn) && !r.conn.skip && Exact(r)
    && AtEnd(r.conn.win, r.seen) && (Half(r.conn.win) ==> Half(r.seen))
  }

  lemma CommandKeeps(r: Run)
    requires InStep(r) && r.conn.sched
    ensures InStep(Step(r, Command)) && Step(r, Command).seen == r.seen
    ensures |Cut(r.conn.win).done| == 1 + |Cut(Step(r, Command).conn.win).done|
  {
    hide Fire, FirstEol, Cut, Half, AtEnd, TermLen;
    FireTakesLine(r.conn);
    TakesLine(r.seen, r.conn.win, r.delivered);
  }

  lemma DataKeeps(r: Run, data: seq<byte>)
    requires InStep(r) && Enabled(r, Data(data)) && !Resets(r.conn)
    requires !Shifts(r.seen, r.conn.win, Translate(r.conn.strip, data))
    ensures InStep(Step(r, Data(data)))
  {
    hide Arrive, Cut, Half, Shifts;
    ArriveAppends(r.conn, data);
    Continues(r.seen, r.conn.win, r.delivered, Translate(r.conn.strip, data));
  }

  /** For every arrival that shifts the lines: the commands handed out and pending are
      the stream's lines with exactly one more, an empty one, where the pair was taken
      apart. */
  lemma OneExtraCommand(r: Run, data: seq<byte>)
    requires InStep(r) && Enabled(r, Data(data)) && !Resets(r.conn)
    requires Shifts(r.seen, r.conn.win, Translate(r.conn.strip, data))
    ensures var r' := Step(r, Data(data));
      var ls := Cut(r.seen).done;
      var more := Cut(Translate(r.conn.strip, data)[1..]).done;
      && Cut(r'.seen).done == ls + more
      && r'.delivered + Cut(r'.conn.win).done == ls + [[]] + more
      && Cut(r'.seen).rest == Cut(r'.conn.win).rest
      && !Exact(r')
  {
    hide Arrive, Cut, Half, Shifts;
    ArriveAppends(r.conn, data);
    OneLineMore(r.seen, r.conn.win, r.delivered, Translate(r.conn.strip, data));
  }

  lemma {:induction false} StaysInStep(r: Run, es: seq<Event>)
    requires InStep(r) && AllEnabled(r, es) && WithoutReset(r, es)
    ensures ExactThroughout(r, es) <==> Unshifted(r, es)
    ensures Unshifted(r, es) ==> InStep(RunAll(r, es))
    decreases es
  {
    if es != [] {
      hide Cut, Half, Shifts;
      match es[0] {
        case Data(bytes) =>
          if Shifts(r.seen, r.conn.win, Translate(r.conn.strip, bytes)) {
            OneExtraCommand(r, bytes);
            return;
          }
          DataKeeps(r, bytes);
        case Command => if r.conn.sched { CommandKeeps(r); }
      }
      hide Exact, Step;
      StaysInStep(Step(r, es[0]), es[1..]);
    }
  }

  /**
   For every chunking of a plain stream without resets and every interleaving with
   command events.  After every event the commands handed out are the stream's first
   lines, in order, once each, and the rest of its complete lines are still in the
   window, if and only if no arrival shifts the lines.  CMD_IN_BUF then holds exactly
   when there is such a line, and then the command event is queued.
   */
  lemma DeliversTheStream(strip: bool, es: seq<Event>)
    requires AllEnabled(Begin(strip), es) && WithoutReset(Begin(strip), es)
    ensures ExactThroughout(Begin(strip), es) <==> Unshifted(Begin(strip), es)
    ensures Unshifted(Begin(strip), es) ==>
      var r := RunAll(Begin(strip), es);
      && Cut(r.seen).done == r.delivered + Cut(r.conn.win).done
      && Cut(r.seen).rest == Cut(r.conn.win).rest
      && (r.conn.cmd <==> r.delivered != Cut(r.seen).done)
      && (r.conn.cmd <==> r.conn.sched)
  {
    StaysInStep(Begin(strip), es);
    var w := RunAll(Begin(strip), es).conn.win;
    assert HasEol(w) <==> Cut(w).done != [];
  }

  // --------------------------------------------- whatever the chunks begin with

  predicate TextsFollow(r: Run)
  {
    && Sound(r.conn) && !r.conn.skip
    && Texts(Cut(r.seen).done) == Texts(r.delivered) + Texts(Cut(r.conn.win).done)
    && Cut(r.seen).rest == Cut(r.conn.win).rest
  }

  lemma {:induction false} TextsStay(r: Run, es: seq<Event>)
    requires TextsFollow(r) && AllEnabled(r, es) && WithoutReset(r, es)
    ensures TextsFollow(RunAll(r, es))
    decreases es
  {
    if es != [] {
      match es[0] {
        case Data(bytes) => DataKeepsTexts(r, bytes);
        case Command => if r.conn.sched { CommandKeepsTexts(r); }
      }
      hide Cut, Texts, Step, TextsFollow;
      TextsStay(Step(r, es[0]), es[1..]);
    }
  }

  lemma DataKeepsTexts(r: Run, data: seq<byte>)
    requires TextsFollow(r) && Enabled(r, Data(data)) && !Resets(r.conn)
    ensures TextsFollow(Step(r, Data(data)))
  {
    hide Arrive, Cut, Texts;
    var d := Translate(r.conn.strip, data);
    ArriveAppends(r.conn, data);
    TextsAppend(r.seen, d);
    TextsAppend(r.conn.win, d);
    Associates(Texts(r.delivered), Texts(Cut(r.conn.win).done), Texts(Cut(Cut(r.seen).rest + d).done));
  }

  lemma CommandKeepsTexts(r: Run)
    requires TextsFollow(r) && r.conn.sched
    ensures TextsFollow(Step(r, Command))
  {
    hide Fire, FirstEol, Cut, Texts;
    FireTakesLine(r.conn);
    CutStep(r.conn.win);
    var k := FirstEol(r.conn.win);
    var l := [r.conn.win[..k]];
    var ls := Cut(r.conn.win[k + TermLen(r.conn.win, k)..]).done;
    TextsAdd(l, ls);
    TextsAdd(r.delivered, l);
    Associates(Texts(r.delivered), Texts(l), Texts(ls));
  }

  /**
   Without resets the chunking can never cost or change a line that holds text: the
   non-empty commands handed out and pending are the non-empty lines of the stream,
   in order, and the flag and the event agree with the window.
   */
  lemma DeliversTheTexts(strip: bool, es: seq<Event>)
    requires AllEnabled(Begin(strip), es) && WithoutReset(Begin(strip), es)
    ensures var r := RunAll(Begin(strip), es);
      && Texts(Cut(r.seen).done) == Texts(r.delivered) + Texts(Cut(r.conn.win).done)
      && Cut(r.seen).rest == Cut(r.conn.win).rest
      && (r.conn.cmd <==> HasEol(r.conn.win)) && (r.conn.sched <==> r.conn.cmd)
  {
    TextsStay(Begin(strip), es);
  }

  function Commands(n: nat): seq<Event>
  {
    if n == 0 then [] else [Command] + Commands(n - 1)
  }

  /** As many command events as there are lines in the window hand out all of them. */
  lemma {:induction false} Drains(r: Run, n: nat)
    requires InStep(r) && n == |Cut(r.conn.win).done|
    ensures AllEnabled(r, Commands(n))
    ensures var f := RunAll(r, Commands(n));
      f.delivered == Cut(r.seen).done && f.conn.win == Cut(r.seen).rest && !f.conn.sched
    decreases n
  {
    hide Fire, TermLen, FirstEol, Cut, Step;
    CutWithoutEol(r.conn.win);
    if n > 0 {
      assert r.conn.sched;
      CommandKeeps(r);
      assert Commands(n)[1..] == Commands(n - 1);
      Drains(Step(r, Command), n - 1);
    } else if HasEol(r.conn.win) {
      CutStep(r.conn.win);
    }
  }

  // ------------------------------------------------ runs with space resets

  /** The lines whose index is not in `lost`. */
  function Keep(ls: seq<seq<byte>>, lost: set<nat>): seq<seq<byte>>
  {
    if ls == [] then []
    else
      var n := |ls| - 1;
      Keep(ls[..n], lost) + (if n in lost then [] else [ls[n]])
  }

  lemma KeepSnoc(ls: seq<seq<byte>>, l: seq<byte>, lost: set<nat>)
    ensures Keep(ls + [l], lost) == Keep(ls, lost) + (if |ls| in lost then [] else [l])
  {
    assert (ls + [l])[..|ls|] == ls;
  }

  lemma {:induction false} KeepAppend(a: seq<seq<byte>>, b: seq<seq<byte>>, lost: set<nat>)
    requires forall i :: i in lost ==> i < |a|
    ensures Keep(a + b, lost) == Keep(a, lost) + b
    decreases |b|
  {
    if b == [] {
      assert a + b == a;
    } else {
      hide Keep;
      var n := |b| - 1;
      KeepAppend(a, b[..n], lost);
      KeepSnoc(a + b[..n], b[n], lost);
      assert a + b == a + b[..n] + [b[n]];
      assert b == b[..n] + [b[n]];
    }
  }

  lemma {:induction false} KeepMore(a: seq<seq<byte>>, lost: set<nat>, n: nat)
    requires |a| <= n
    ensures Keep(a, lost + {n}) == Keep(a, lost)
  {
    if a != [] { KeepMore(a[..|a| - 1], lost, n); }
  }

  /** Only LF terminates lines. */
  predicate LfOnly(es: seq<Event>) { forall i :: 0 <= i < |es| && es[i].Data? ==> CR !in es[i].bytes }

  /** No reset hits a complete line that has not been handed out. */
  predicate HitsNoLine(r: Run, es: seq<Event>)
    requires AllEnabled(r, es)
    decreases es
  {
    es == [] ||
    ((es[0].Data? && Resets(r.conn) ==> !r.conn.cmd) && HitsNoLine(Step(r, es[0]), es[1..]))
  }

  function Pending(c: Conn): seq<seq<byte>> { if c.skip then [] else Cut(c.win).done }

  /** The commands handed out and pending are the stream's lines without the lines hit. */
  predicate Ledger(r: Run) { Keep(Cut(r.seen).done, r.lost) == r.delivered + Pending(r.conn) }

  predicate LedgerThroughout(r: Run, es: seq<Event>)
    requires AllEnabled(r, es)
    decreases es
  {
    Ledger(r) && (es == [] || LedgerThroughout(Step(r, es[0]), es[1..]))
  }

  predicate Tracks(r: Run)
  {
    var n := |Cut(r.seen).done|;
    && Sound(r.conn) && CR !in r.seen
    && (forall i :: i in r.lost ==> i <= n)
    && (n in r.lost <==> r.conn.skip)
    && (r.conn.skip ==> !HasEol(r.conn.win))
    && (!r.conn.skip ==> Cut(r.seen).rest == Cut(r.conn.win).rest && CR !in r.conn.win)
    && Ledger(r)
  }

  lemma TrackCommand(r: Run)
    requires Tracks(r) && r.conn.sched
    ensures Tracks(Step(r, Command))
  {
    hide Fire, FirstEol, Cut, Keep;
    FireTakesLine(r.conn);
    CutLf(r.conn.win);
    var k := FirstEol(r.conn.win);
    var w := r.conn.win[k + 1..];
    assert r.delivered + ([r.conn.win[..k]] + Cut(w).done) == r.delivered + [r.conn.win[..k]] + Cut(w).done;
  }

  /** Data behind a window that is being kept. */
  lemma TrackKept(r: Run, data: seq<byte>)
    requires Tracks(r) && Enabled(r, Data(data)) && CR !in data
    requires !r.conn.skip && !Resets(r.conn)
    ensures Tracks(Step(r, Data(data)))
  {
    hide Arrive, Cut, FirstEol, Keep;
    var d := Translate(r.conn.strip, data);
    var more := Cut(Cut(r.seen).rest + d);
    ArriveAppends(r.conn, data);
    assert CR !in d;
    CutAppend(r.seen, d);
    CutAppend(r.conn.win, d);
    KeepAppend(Cut(r.seen).done, more.done, r.lost);
    assert r.delivered + (Cut(r.conn.win).done + more.done) == r.delivered + Cut(r.conn.win).done + more.done;
  }

  /** Data behind an unterminated line: either that line goes on, or it ends. */
  lemma CutBehindOpenLine(s: seq<byte>, d: seq<byte>)
    requires CR !in s && CR !in d
    ensures var ls := Cut(s).done;
      if !HasEol(d) then Cut(s + d).done == ls
      else
        && |Cut(s + d).done| > |ls|
        && Cut(s + d).done == ls + [Cut(s).rest + d[..FirstEol(d)]] + Cut(d[FirstEol(d) + 1..]).done
        && Cut(s + d).rest == Cut(d[FirstEol(d) + 1..]).rest
  {
    hide Cut, FirstEol;
    var p := Cut(s).rest;
    var k := FirstEol(d);
    CutAppend(s, d);
    RestHasNoEol(s);
    CutIsSplitCr(s);
    FirstEolAppend(p, d);
    CutWithoutEol(p + d);
    if HasEol(d) {
      CutLf(p + d);
      assert (p + d)[..|p| + k] == p + d[..k];
      assert (p + d)[|p| + k + 1..] == d[k + 1..];
    }
  }

  lemma {:induction false} CutIsSplitCr(s: seq<byte>)
    requires CR !in s
    ensures CR !in Cut(s).rest
    decreases |s|
  {
    var k := FirstEol(s);
    if k < |s| { CutIsSplitCr(s[k + TermLen(s, k)..]); }
  }

  /** Data while a line is being skipped, or with a reset that starts a skip. */
  lemma TrackSkipped(r: Run, data: seq<byte>)
    requires Tracks(r) && Enabled(r, Data(data)) && CR !in data
    requires !r.conn.cmd && (r.conn.skip || Resets(r.conn))
    ensures Tracks(Step(r, Data(data)))
  {
    hide Arrive, Cut, FirstEol, Keep;
    var d := Translate(r.conn.strip, data);
    var ls := Cut(r.seen).done;
    var n := |ls|;
    CutWithoutEol(r.conn.win);
    ArriveSkipping(r.conn, data);
    assert CR !in d;
    CutBehindOpenLine(r.seen, d);
    KeepMore(ls, r.lost, n);
    var r' := Step(r, Data(data));
    assert r'.lost == r.lost + {n};
    assert Keep(ls, r'.lost) == r.delivered;
    if HasEol(d) {
      var l := Cut(r.seen).rest + d[..FirstEol(d)];
      KeepSnoc(ls, l, r'.lost);
      assert Keep(ls + [l], r'.lost) == r.delivered;
      KeepAppend(ls + [l], Cut(d[FirstEol(d) + 1..]).done, r'.lost);
    }
  }

  /** A reset that hits complete lines: what is skipped and kept is as with any other
      reset, and CMD_IN_BUF stays set. */
  lemma ArriveHit(c: Conn, data: seq<byte>)
    requires Sound(c) && c.cmd && Resets(c) && Plain(data) && Fits(c, data)
    ensures var c' := Arrive(c, data);
      var d := Translate(c.strip, data);
      && c'.skip == !HasEol(d) && (!c'.skip ==> c'.win == d[FirstEol(d) + 1..])
  {
    hide Announce, Arrive, FirstEol, MakeRoom;
    var d := Translate(c.strip, data);
    ArriveIs(c, data);
    RoomKeeps(c);
    if data == [] {
      FirstEolIs(d, 0);
    } else {
      assert [] + d == d;
      hide Translate, Resets;
      AnnounceHit(Stored(MakeRoom(c), d), d);
    }
  }

  lemma AnnounceHit(c: Conn, d: seq<byte>)
    requires Wf(c) && c.start <= c.end && !c.single && c.skip && c.win == d && Plain(d) && d != []
    ensures var c' := Announce(c);
      c'.skip == !HasEol(d) && (!c'.skip ==> c'.win == d[FirstEol(d) + 1..])
  {
    hide FirstEol, SkipNuls;
    SkipNothing(c);
    if HasEol(d) { PlainClean(Flushed(c)); }
  }

  /** The lines it hits are in the stream, but neither handed out nor pending any more,
      whatever arrives with it. */
  lemma HitBreaksLedger(r: Run, data: seq<byte>)
    requires Tracks(r) && Enabled(r, Data(data)) && CR !in data && Resets(r.conn) && r.conn.cmd
    ensures var r' := Step(r, Data(data));
      && |Keep(Cut(r'.seen).done, r'.lost)| > |r'.delivered + Pending(r'.conn)|
      && !Ledger(r')
  {
    hide Arrive, Cut, FirstEol, Keep;
    var d := Translate(r.conn.strip, data);
    var ls := Cut(r.seen).done;
    CutStep(r.conn.win);
    ArriveHit(r.conn, data);
    assert CR !in d;
    CutBehindOpenLine(r.seen, d);
    KeepMore(ls, r.lost, |ls|);
    var r' := Step(r, Data(data));
    assert |Keep(ls, r'.lost)| > |r.delivered|;
    if HasEol(d) {
      var l := Cut(r.seen).rest + d[..FirstEol(d)];
      KeepSnoc(ls, l, r'.lost);
      KeepAppend(ls + [l], Cut(d[FirstEol(d) + 1..]).done, r'.lost);
    }
  }

  lemma {:induction false} StaysTracked(r: Run, es: seq<Event>)
    requires Tracks(r) && AllEnabled(r, es) && LfOnly(es)
    ensures LedgerThroughout(r, es) <==> HitsNoLine(r, es)
    ensures HitsNoLine(r, es) ==> Tracks(RunAll(r, es))
    decreases es
  {
    if es != [] {
      assert forall i :: 0 <= i < |es[1..]| ==> es[1..][i] == es[i + 1];
      hide Cut, FirstEol, Keep;
      match es[0] {
        case Data(bytes) =>
          if Resets(r.conn) && r.conn.cmd {
            HitBreaksLedger(r, bytes);
            return;
          }
          if r.conn.skip || Resets(r.conn) { TrackSkipped(r, bytes); } else { TrackKept(r, bytes); }
        case Command => if r.conn.sched { TrackCommand(r); }
      }
      hide Step, Ledger;
      StaysTracked(Step(r, es[0]), es[1..]);
    }
  }

  /**
   Runs with space resets.  After every event the commands handed out and those still
   in the window are the stream's lines without exactly the lines a reset hit, if and
   only if no reset hits a complete line: a reset then hits a single unterminated one.
   That line stays lost through its terminator, also when the buffer is dropped again
   before it arrives.
   */
  lemma LosesExactlyTheLinesHit(strip: bool, es: seq<Event>)
    requires AllEnabled(Begin(strip), es) && LfOnly(es)
    ensures LedgerThroughout(Begin(strip), es) <==> HitsNoLine(Begin(strip), es)
    ensures HitsNoLine(Begin(strip), es) ==>
      var r := RunAll(Begin(strip), es);
      && Keep(Cut(r.seen).done, r.lost) == r.delivered + (if r.conn.skip then [] else Cut(r.conn.win).done)
      && (r.conn.skip <==> |Cut(r.seen).done| in r.lost)
      && (!r.conn.skip ==> Cut(r.conn.win).rest == Cut(r.seen).rest)
      && (r.conn.sched <==> r.conn.cmd) && (r.conn.cmd <==> !r.conn.skip && HasEol(r.conn.win))
  {
    StaysTracked(Begin(strip), es);
  }

  // ------------------------------------------- any bytes, and both input modes

  /** What can happen to a connection: bytes of any kind are waiting, the command
      timer fires, the input mode changes, or the driver empties the buffer. */
  datatype Happening = Input(bytes: seq<byte>) | Timer | Mode(single: bool) | Discard(clear: bool)

  function Happen(c: Conn, h: Happening): Conn
    requires Settled(c)
  {
    match h
    case Input(bytes) => Arrive(c, bytes)
    case Timer => if c.sched then Fire(c).0 else c
    case Mode(single) => c.(single := single)
    case Discard(clear) => Empty(c).(cmd := c.cmd && !clear)
  }

  /** In every state from c on both indices are inside the array, and whenever the
      next read has to compact the buffer, the number of bytes to move is not negative. */
  ghost predicate InRangeThroughout(c: Conn, hs: seq<Happening>)
    decreases hs
  {
    && Settled(c)
    && 0 <= c.start <= MAX_TEXT && 0 <= c.end <= MAX_TEXT - 1
    && (MAX_TEXT - c.end < LOW_SPACE ==> 0 <= c.end - c.start == |c.win|)
    && (hs != [] ==> InRangeThroughout(Happen(c, hs[0]), hs[1..]))
  }

  /** Every run of a connection, whatever bytes arrive, stays in range. */
  lemma IndicesInRange(single: bool, strip: bool, hs: seq<Happening>)
    ensures InRangeThroughout(Fresh(single, strip), hs)
  {
    StaysInRange(Fresh(single, strip), hs);
  }

  lemma {:induction false} StaysInRange(c: Conn, hs: seq<Happening>)
    requires Settled(c)
    ensures InRangeThroughout(c, hs)
    decreases hs
  {
    if hs != [] {
      HappenSettles(c, hs[0]);
      hide Happen;
      StaysInRange(Happen(c, hs[0]), hs[1..]);
    }
  }

  lemma HappenSettles(c: Conn, h: Happening)
    requires Settled(c)
    ensures Settled(Happen(c, h))
  {
    hide Arrive, Fire;
  }

  // ------------------------------------------------ erase bytes and the search

  /** The connection when the bytes of an arrival have been stored. */
  function Fed(c: Conn, data: seq<byte>): Conn
    requires Settled(c)
  {
    FeedAll(MakeRoom(c), data[..ReadSize(MakeRoom(c), data)])
  }

  /** An arrival leaves a command in the buffer without the flag exactly if the flag was
      not set, erase bytes kept the end of the text from growing, and there is one: the
      search is not made then, and the event is left as it was. */
  lemma MissesExactly(c: Conn, data: seq<byte>)
    requires Settled(c)
    ensures var c' := Arrive(c, data);
      HasCommand(Clean(c')) && !c'.cmd
      <==> !c.cmd && Fed(c, data).end <= MakeRoom(c).end && HasCommand(Clean(Fed(c, data)))
    ensures Fed(c, data).end <= MakeRoom(c).end ==> Arrive(c, data).cmd == c.cmd && Arrive(c, data).sched == c.sched
  {
    FlagsKept(c);
    hide Clean, FeedAll, MakeRoom;
    var f := Fed(c, data);
    CleanTwice(f);
    CleanKeepsFlags(f);
  }

  lemma FlagsKept(c: Conn)
    requires Settled(c)
    ensures MakeRoom(c).cmd == c.cmd && MakeRoom(c).sched == c.sched
  {
  }

  lemma CleanKeepsFlags(c: Conn)
    requires Wf(c)
    ensures Clean(c).cmd == c.cmd && Clean(c).sched == c.sched
  {
    hide NulRun, FirstEol;
  }

  /** Cleaning a cleaned buffer changes nothing, whatever the flags are. */
  lemma CleanTwice(c: Conn)
    requires Wf(c)
    ensures forall cmd, sched :: var c1 := Clean(c).(cmd := cmd, sched := sched); Clean(c1) == c1
  {
    hide NulRun, FirstEol;
    var r := Clean(c);
    CleanDone(c);
    forall cmd, sched ensures Clean(r.(cmd := cmd, sched := sched)) == r.(cmd := cmd, sched := sched) {
      NoNulsLeft(r.(cmd := cmd, sched := sched));
    }
  }

  lemma CleanDone(c: Conn)
    requires Wf(c)
    ensures !(Clean(c).skip && HasEol(Clean(c).win))
  {
    hide NulRun, FirstEol;
  }

  lemma NoNulsLeft(c: Conn)
    requires Wf(c)
    requires if c.win == [] then c.start == 0 && c.end == 0 else c.win[0] != NUL
    ensures SkipNuls(c) == c
  {
    if c.win != [] { assert c.win[0..] == c.win; }
  }

  /** A byte and then an erase byte and LF: the complete line is not noticed. */
  lemma EraseHidesLine(a: byte)
    requires a != NUL && !IsErase(a) && !IsEol(a)
    ensures var c := Arrive(Fresh(false, false), [a]);
      && c.win == [a]
      && var c' := Arrive(c, [DEL, LF]);
      c'.win == [LF] && HasCommand(Clean(c')) && !c'.cmd && !c'.sched
  {
    var c0 := Fresh(false, false);
    FirstEolIs([], 0);
    FirstEolIs([a], 1);
    FirstEolIs([LF], 0);
    OneByteArrives(c0, a);
    var c := Arrive(c0, [a]);
    assert FeedAll(c, [DEL, LF]) == FeedAll(FeedOne(c, DEL), [LF]) by { assert [DEL, LF][1..] == [LF]; }
    var c1 := FeedOne(c, DEL);
    assert c1.win == [] && c1.start == 0 && c1.end == 0;
    assert FeedAll(c1, [LF]) == FeedOne(c1, LF);
    assert [] + [LF] == [LF];
    var c2 := FeedOne(c1, LF);
    assert c2.win == [LF] && c2.end == 1 && c2.start == 0;
    assert [DEL, LF][..2] == [DEL, LF];
    assert Arrive(c, [DEL, LF]) == c2;
    NoNulsLeft(c2);
  }

  lemma OneByteArrives(c: Conn, a: byte)
    requires c == Fresh(false, false) && a != NUL && !IsErase(a) && !IsEol(a)
    ensures var r := Arrive(c, [a]);
      r.win == [a] && r.start == 0 && r.end == 1 && !r.cmd && !r.sched && !r.skip && !r.single && !r.strip && Settled(r)
  {
    FirstEolIs([a], 1);
    assert [a][..1] == [a] && [] + [a] == [a] && [a][1..] == [];
    var c2 := Appended(c, a);
    NoNulsLeft(c2);
    assert FeedAll(c, [a]) == c2;
  }

  // ---------------------------------------- where the chunking does matter

  /** A reset that hits complete lines leaves CMD_IN_BUF set, and the next command
      event hands out the newly arrived text although no terminator was seen. */
  lemma ResetWithPendingLines(c: Conn, data: seq<byte>)
    requires Sound(c) && c.cmd && Resets(c)
    requires Plain(data) && Fits(c, data) && data != [] && !HasEol(Translate(c.strip, data))
    ensures Fire(Arrive(c, data)).1 == Some(Translate(c.strip, data))
  {
    var d := Translate(c.strip, data);
    ArriveIs(c, data);
    RoomKeeps(c);
    var c2 := Stored(MakeRoom(c), d);
    assert c2.win == d && d[0..] == d && d[..|d|] == d;
    TillNulPlain(d);
    hide PastLine, MakeRoom, Arrive;
    assert SkipNuls(c2) == c2;
  }

  /**
   A run that gets there: one arrival holds an empty line and a long unterminated
   text, and before its command event a second one arrives.  The empty line is never
   delivered, and the unterminated text of the second arrival is.
   */
  lemma ResetRun(a: byte, y: seq<byte>)
    requires Plain([a]) && !IsEol(a)
    requires Plain(y) && y != [] && !HasEol(y) && |y| <= MAX_TEXT - 1
    ensures var x := [LF] + seq(MAX_TEXT - LOW_SPACE, _ => a);
      var es := [Data(x), Data(y), Command];
      && AllEnabled(Begin(false), es)
      && var r := RunAll(Begin(false), es);
      && r.seen == x + y && Cut(r.seen).done == [[]] && r.delivered == [y]
  {
    var fill := seq(MAX_TEXT - LOW_SPACE, _ => a);
    assert [a][0] == a;
    LongLine(a, fill, y);
    ResetSteps([LF] + fill, y);
  }

  lemma ResetSteps(x: seq<byte>, y: seq<byte>)
    requires Plain(x) && HasEol(x) && |x| == MAX_TEXT - LOW_SPACE + 1
    requires Plain(y) && y != [] && !HasEol(y) && |y| <= MAX_TEXT - 1
    ensures var es := [Data(x), Data(y), Command];
      && AllEnabled(Begin(false), es)
      && var r := RunAll(Begin(false), es);
      && r.seen == x + y && r.delivered == [y]
  {
    var r0 := Begin(false);
    FirstArrival(x);
    var r1 := Step(r0, Data(x));
    SecondArrival(r1, y);
    var r2 := Step(r1, Data(y));
    ThreeSteps(r0, Data(x), Data(y), Command);
    assert Translate(false, x) == x && [] + x == x;
  }

  lemma ThreeSteps(r: Run, a: Event, b: Event, c: Event)
    requires Enabled(r, a) && Enabled(Step(r, a), b) && Enabled(Step(Step(r, a), b), c)
    ensures var es := [a, b, c];
      AllEnabled(r, es) && RunAll(r, es) == Step(Step(Step(r, a), b), c)
  {
    hide Step, Enabled;
    var es := [a, b, c];
    var r1 := Step(r, a);
    var r2 := Step(r1, b);
    var last, two := [c], [b, c];
    assert last[1..] == [] && two[1..] == last && es[1..] == two;
    assert AllEnabled(r2, last) && RunAll(r2, last) == Step(r2, c);
    assert AllEnabled(r1, two) && RunAll(r1, two) == Step(r2, c);
  }

  lemma SecondArrival(r: Run, y: seq<byte>)
    requires Sound(r.conn) && !r.conn.strip && r.conn.cmd && Resets(r.conn) && r.delivered == []
    requires Plain(y) && y != [] && !HasEol(y) && |y| <= MAX_TEXT - 1
    ensures Enabled(r, Data(y))
    ensures var r2 := Step(r, Data(y));
      && Enabled(r2, Command) && r2.seen == r.seen + y && Step(r2, Command).delivered == [y]
      && Step(r2, Command).seen == r.seen + y
  {
    RoomIsEmpty(r.conn);
    assert Translate(false, y) == y;
    ResetWithPendingLines(r.conn, y);
    SettledAfter(r.conn, y);
    StillScheduled(r.conn, y);
    hide Arrive, Fire, Cut, FirstEol, MakeRoom;
    assert [] + [y] == [y];
  }

  lemma StillScheduled(c: Conn, y: seq<byte>)
    requires Sound(c) && c.cmd && Resets(c) && Plain(y) && Fits(c, y) && y != [] && !HasEol(Translate(c.strip, y))
    ensures Arrive(c, y).sched
  {
    ArriveIs(c, y);
    hide Arrive;
    RoomKeeps(c);
  }

  lemma SettledAfter(c: Conn, data: seq<byte>)
    requires Settled(c)
    ensures Settled(Arrive(c, data))
  {
  }

  lemma LongLine(a: byte, fill: seq<byte>, y: seq<byte>)
    requires !IsEol(a) && a != NUL && !IsErase(a) && !HasEol(y) && fill != [] && forall i :: 0 <= i < |fill| ==> fill[i] == a
    ensures var x := [LF] + fill;
      Plain(x) && HasEol(x) && Cut(x + y).done == [[]]
  {
    var x := [LF] + fill;
    var s := x + y;
    FirstEolIs(x, 0);
    FirstEolIs(s, 0);
    assert s[1] == a;
    var rest := s[1..];
    assert rest == fill + y;
    FirstEolIs(fill, |fill|);
    FirstEolAppend(fill, y);
    CutWithoutEol(rest);
    CutStep(s);
  }

  /** More than fifteen sixteenths of the buffer in the first arrival. */
  lemma FirstArrival(x: seq<byte>)
    requires Plain(x) && HasEol(x) && |x| == MAX_TEXT - LOW_SPACE + 1
    ensures var r := Begin(false);
      && Enabled(r, Data(x))
      && var c := Step(r, Data(x)).conn;
      && Sound(c) && !c.strip && c.cmd && Resets(c)
  {
    hide Arrive, FirstEol;
    var c0 := Begin(false).conn;
    FirstEolIs([], 0);
    assert Sound(c0);
    assert Translate(false, x) == x && c0.win + x == x;
    ArriveAppends(c0, x);
  }

  lemma RoomIsEmpty(c: Conn)
    requires Settled(c) && Resets(c)
    ensures MakeRoom(c).end == 0
  {
  }

  /** An arrival followed by the command event it causes. */
  function Exchange(r: Run, data: seq<byte>): Run
    requires Enabled(r, Data(data))
    requires Enabled(Step(r, Data(data)), Command)
  {
    Step(Step(r, Data(data)), Command)
  }

  predicate Idle(r: Run) { Sound(r.conn) && !r.conn.skip && !r.conn.strip && r.conn.win == [] }

  lemma ExchangeTakesLine(r: Run, data: seq<byte>, k: nat)
    requires Idle(r) && Plain(data) && |data| <= 10
    requires k + 1 <= |data| <= k + 2 && (forall i :: 0 <= i < k ==> !IsEol(data[i])) && IsEol(data[k])
    requires |data| == k + 2 ==> IsPair(data[k], data[k + 1])
    ensures Enabled(r, Data(data)) && Enabled(Step(r, Data(data)), Command)
    ensures var r' := Exchange(r, data);
      && Idle(r')
      && r'.delivered == r.delivered + [data[..k]] && r'.seen == r.seen + data
  {
    hide Arrive, Fire, FirstEol, Cut, MakeRoom, FeedAll, Announce, Clean;
    FirstEolIs(data, k);
    LineArrives(r, data);
    FireTakesLine(Step(r, Data(data)).conn);
  }

  lemma LineArrives(r: Run, data: seq<byte>)
    requires Idle(r) && Plain(data) && |data| <= 10
    ensures Enabled(r, Data(data))
    ensures var r' := Step(r, Data(data));
      && Enabled(r', Command) && Sound(r'.conn) && !r'.conn.skip && !r'.conn.strip && r'.conn.win == data
      && r'.delivered == r.delivered && r'.seen == r.seen + data
  {
    hide Arrive, Fire, FirstEol, Cut, MakeRoom, FeedAll, Announce, Clean;
    assert Translate(false, data) == data;
    assert r.conn.win + data == data;
    RoomKeeps(r.conn);
    ArriveAppends(r.conn, data);
  }

  /** A terminator pair that arrives in two pieces, with a command event between
      them, yields an additional empty command. */
  lemma SplitPairMatters(a: byte)
    requires a != NUL && !IsErase(a) && !IsEol(a)
    ensures var r := Begin(false);
      && Enabled(r, Data([a, CR, LF])) && Enabled(Step(r, Data([a, CR, LF])), Command)
      && Exchange(r, [a, CR, LF]).delivered == [[a]]
    ensures var r := Begin(false);
      && Enabled(r, Data([a, CR])) && Enabled(Step(r, Data([a, CR])), Command)
      && var r' := Exchange(r, [a, CR]);
      && Enabled(r', Data([LF])) && Enabled(Step(r', Data([LF])), Command)
      && Exchange(r', [LF]).delivered == [[a], []]
  {
    hide Step, Enabled, Exchange;
    var r := Begin(false);
    ExchangeTakesLine(r, [a, CR, LF], 1);
    ExchangeTakesLine(r, [a, CR], 1);
    assert [a, CR, LF][..1] == [a] && [a, CR][..1] == [a];
    ExchangeTakesLine(Exchange(r, [a, CR]), [LF], 0);
  }
}
