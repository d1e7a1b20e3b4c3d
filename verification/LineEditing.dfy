/**
 Backspace (8) and delete (127) in line mode: an arrival in which every one of them
 takes back a byte of the same arrival does what the edited text alone would do, and so
 does every run of such arrivals.
 */
module LineEditing {
  import opened Wrappers
  import opened InputBuffer
  import opened StreamCut
  import opened InputStream

  predicate Erases(b: byte) { b == 8 || b == 127 }

  /** The text w after more typing: an erase byte takes the last byte back. */
  function Edit(w: seq<byte>, data: seq<byte>): seq<byte>
    decreases data
  {
    if data == [] then w
    else if !Erases(data[0]) then Edit(w + [data[0]], data[1..])
    else Edit(if w == [] then [] else w[..|w| - 1], data[1..])
  }

  function Typed(data: seq<byte>): seq<byte> { Edit([], data) }

  /** With n bytes there already, every erase byte finds one to take back. */
  predicate FindsWhatItErases(n: nat, data: seq<byte>)
    decreases data
  {
    data == []
    || if Erases(data[0]) then n > 0 && FindsWhatItErases(n - 1, data[1..])
       else FindsWhatItErases(n + 1, data[1..])
  }

  lemma {:induction false} EditPlain(w: seq<byte>, data: seq<byte>)
    requires forall i :: 0 <= i < |data| ==> !Erases(data[i])
    ensures Edit(w, data) == w + data && FindsWhatItErases(|w|, data)
    decreases data
  {
    if data == [] {
      assert w + data == w;
    } else {
      EditPlain(w + [data[0]], data[1..]);
      assert w + [data[0]] + data[1..] == w + data;
    }
  }

  lemma {:induction false} EditedIsPlain(w: seq<byte>, data: seq<byte>)
    requires forall i :: 0 <= i < |w| ==> !Erases(w[i])
    ensures forall i :: 0 <= i < |Edit(w, data)| ==> !Erases(Edit(w, data)[i])
    ensures NUL !in w && NUL !in data ==> NUL !in Edit(w, data)
    ensures |Edit(w, data)| <= |w| + |data|
    decreases data
  {
    if data != [] {
      assert data == [data[0]] + data[1..];
      EditedIsPlain(if !Erases(data[0]) then w + [data[0]] else if w == [] then [] else w[..|w| - 1], data[1..]);
    }
  }

  lemma {:induction false} EditAppend(w: seq<byte>, a: seq<byte>, b: seq<byte>)
    ensures Edit(w, a + b) == Edit(Edit(w, a), b)
    decreases a
  {
    if a == [] {
      assert a + b == b;
    } else {
      assert (a + b)[0] == a[0] && (a + b)[1..] == a[1..] + b;
      EditAppend(if !Erases(a[0]) then w + [a[0]] else if w == [] then [] else w[..|w| - 1], a[1..], b);
    }
  }

  /** A byte and an erase byte behind it leave no trace, wherever they stand. */
  lemma TypedPair(a: seq<byte>, x: byte, e: byte, b: seq<byte>)
    requires x != 8 && x != 127 && (e == 8 || e == 127)
    ensures Typed(a + [x, e] + b) == Typed(a + b)
  {
    var w := Edit([], a);
    EditAppend([], a, b);
    EditAppend([], a + [x, e], b);
    EditAppend([], a, [x, e]);
    assert [x, e][1..] == [e] && [e][1..] == [];
    assert (w + [x])[..|w + [x]| - 1] == w;
    assert Edit(w, [x, e]) == Edit(w + [x], [e]) == Edit(w, []) == w;
  }

  // ------------------------------------------------------------------ one arrival

  lemma TranslateAdds(strip: bool, a: seq<byte>, b: seq<byte>)
    ensures Translate(strip, a + b) == Translate(strip, a) + Translate(strip, b)
  {
  }

  /** An erase byte in line mode takes the last stored byte away again. */
  lemma EraseTakesBack(c: Conn, w: seq<byte>, e: byte)
    requires Wf(c) && c.start <= c.end && !c.single && c.end + |w| < MAX_TEXT - 1 && w != [] && Erases(e)
    ensures FeedOne(Stored(c, Translate(c.strip, w)), e) == Stored(c, Translate(c.strip, w[..|w| - 1]))
  {
    var t := Translate(c.strip, w);
    assert Translate(c.strip, w[..|w| - 1]) == t[..|t| - 1];
    assert (c.win + t)[..|c.win + t| - 1] == c.win + t[..|t| - 1];
  }

  lemma {:induction false} FeedEdits(c: Conn, w: seq<byte>, data: seq<byte>)
    requires Wf(c) && c.start <= c.end && !c.single && c.end + |w| + |data| <= MAX_TEXT - 1
    requires FindsWhatItErases(|w|, data)
    ensures FeedAll(Stored(c, Translate(c.strip, w)), data) == Stored(c, Translate(c.strip, Edit(w, data)))
    decreases data
  {
    hide FeedOne;
    if data != [] {
      var s := Stored(c, Translate(c.strip, w));
      var w' := if Erases(data[0]) then w[..|w| - 1] else w + [data[0]];
      if Erases(data[0]) {
        EraseTakesBack(c, w, data[0]);
      } else {
        PlainIsStored(c, w, data[0]);
      }
      FeedEdits(c, w', data[1..]);
    }
  }

  lemma PlainIsStored(c: Conn, w: seq<byte>, b: byte)
    requires Wf(c) && c.start <= c.end && !c.single && c.end + |w| < MAX_TEXT - 1 && !Erases(b)
    ensures FeedOne(Stored(c, Translate(c.strip, w)), b) == Stored(c, Translate(c.strip, w + [b]))
  {
    FeedOnePlain(Stored(c, Translate(c.strip, w)), b);
    TranslateAdds(c.strip, w, [b]);
    StoredTwice(c, Translate(c.strip, w), Translate(c.strip, [b]));
  }

  /** Every other byte is stored as it is, but for 27 when escapes are replaced by blanks. */
  lemma StoredBytes(strip: bool, b: byte)
    ensures Translate(strip, [b]) == [if b == 27 && strip then 32 else b]
    ensures NUL == 0
  {
  }

  /** A byte and an erase byte behind it are as if they had not been received. */
  lemma PairIsErased(c: Conn, x: byte, e: byte, s: seq<byte>)
    requires Wf(c) && c.start <= c.end && c.end + 2 <= MAX_TEXT - 1 && !c.single
    requires x != 8 && x != 127 && (e == 8 || e == 127)
    ensures FeedAll(c, [x, e] + s) == FeedAll(c, s)
  {
    hide FeedOne;
    var d := [x, e] + s;
    assert d[1..] == [e] + s && ([e] + s)[1..] == s && [] + [x] == [x] && [x][..0] == [];
    StoredTwice(c, [], []);
    assert Translate(c.strip, []) == [];
    PlainIsStored(c, [], x);
    EraseTakesBack(c, [x], e);
    var c1 := FeedOne(c, x);
    assert FeedAll(c, d) == FeedAll(c1, [e] + s) == FeedAll(FeedOne(c1, e), s);
  }

  /** In character mode both bytes are input like any other. */
  lemma {:induction false} CharacterMode(c: Conn, data: seq<byte>)
    requires Wf(c) && c.start <= c.end && c.single && c.end + |data| <= MAX_TEXT - 1
    ensures FeedAll(c, data) == Stored(c, Translate(c.strip, data))
    ensures Translate(c.strip, [8]) == [8] && Translate(c.strip, [127]) == [127]
    decreases data
  {
    StoredTwice(c, [], []);
    if data == [] {
      assert Translate(c.strip, data) == [];
    } else {
      var first, rest := Translate(c.strip, [data[0]]), Translate(c.strip, data[1..]);
      assert first == [if data[0] == ESC && c.strip then ANSI_SUBSTITUTE else data[0]];
      assert FeedOne(c, data[0]) == Stored(c, first);
      hide FeedOne;
      CharacterMode(FeedOne(c, data[0]), data[1..]);
      TranslateCons(c.strip, data);
      StoredTwice(c, first, rest);
    }
  }

  /** Erase bytes that reach back into what earlier arrivals left in the window: the
      window is edited like the bytes of the arrival. */
  lemma {:induction false} ReachesBack(c: Conn, data: seq<byte>)
    requires Wf(c) && c.start <= c.end && !c.single && c.end + |data| <= MAX_TEXT - 1
    requires FindsWhatItErases(|c.win|, data)
    ensures var w := Edit(c.win, Translate(c.strip, data));
      FeedAll(c, data) == c.(end := c.start + |w|, win := w)
    decreases data
  {
    if data == [] {
      assert Translate(c.strip, data) == [];
    } else {
      var t := Translate(c.strip, data);
      assert t[1..] == Translate(c.strip, data[1..]);
      OneByteBack(c, data[0], t[0]);
      hide FeedOne, Translate;
      ReachesBack(FeedOne(c, data[0]), data[1..]);
    }
  }

  lemma OneByteBack(c: Conn, b: byte, t: byte)
    requires Wf(c) && c.start <= c.end < MAX_TEXT - 1 && !c.single && (Erases(b) ==> c.win != [])
    requires t == if b == ESC && c.strip then ANSI_SUBSTITUTE else b
    ensures var w := if Erases(b) then c.win[..|c.win| - 1] else c.win + [t];
      FeedOne(c, b) == c.(end := c.start + |w|, win := w) && (Erases(t) <==> Erases(b))
  {
  }

  // ------------------------------------------------------------------------- runs

  /** A line-mode connection with a window that is not inverted. */
  predicate Upright(c: Conn) { Settled(c) && c.start <= c.end && !c.single }

  /** The bytes of an arrival fit, hold no NUL, and take back only what they brought. */
  predicate CanType(c: Conn, data: seq<byte>)
    requires Settled(c)
  {
    NUL !in data && FindsWhatItErases(0, data) && MakeRoom(c).end + |data| <= MAX_TEXT - 1
  }

  lemma ArrivesAsTyped(c: Conn, data: seq<byte>)
    requires Upright(c) && CanType(c, data)
    ensures Arrive(c, data) == Arrive(c, Typed(data)) && Upright(Arrive(c, data))
    ensures Plain(Typed(data)) && Fits(c, Typed(data))
  {
    hide FeedAll, MakeRoom, Announce, Translate, Arrive, Typed, FindsWhatItErases;
    TypedIsPlain(data);
    RoomIsUpright(c);
    var c1, p := MakeRoom(c), Typed(data);
    FedAsTyped(c1, data);
    FedAsTyped(c1, p);
    ArriveFed(c, data);
    ArriveFed(c, p);
    StaysUpright(c1, Stored(c1, Translate(c1.strip, p)));
  }

  lemma TypedIsPlain(data: seq<byte>)
    requires NUL !in data && FindsWhatItErases(0, data)
    ensures var p := Typed(data);
      Plain(p) && |p| <= |data| && FindsWhatItErases(0, p) && Typed(p) == p
  {
    var p := Typed(data);
    EditedIsPlain([], data);
    EditPlain([], p);
    assert [] + p == p;
  }

  lemma RoomIsUpright(c: Conn)
    requires Upright(c)
    ensures var c1 := MakeRoom(c); Wf(c1) && c1.start <= c1.end && !c1.single && c1.strip == c.strip
  {
    RoomKeeps(c);
  }

  lemma ArriveFed(c: Conn, data: seq<byte>)
    requires Settled(c) && MakeRoom(c).end + |data| <= MAX_TEXT - 1
    ensures var c2 := FeedAll(MakeRoom(c), data);
      Arrive(c, data) == if c2.end > MakeRoom(c).end then Announce(c2) else c2
  {
    hide FeedAll, MakeRoom, Announce;
    assert data[..ReadSize(MakeRoom(c), data)] == data;
  }

  lemma FedAsTyped(c: Conn, data: seq<byte>)
    requires Wf(c) && c.start <= c.end && !c.single && c.end + |data| <= MAX_TEXT - 1 && FindsWhatItErases(0, data)
    ensures FeedAll(c, data) == Stored(c, Translate(c.strip, Typed(data)))
  {
    assert Translate(c.strip, []) == [];
    StoredTwice(c, [], []);
    FeedEdits(c, [], data);
  }

  lemma StaysUpright(c1: Conn, c2: Conn)
    requires Wf(c1) && Wf(c2) && !c2.single && c2.start <= c2.end
    ensures Upright(c2) && Upright(Announce(c2))
  {
  }

  lemma FiresUpright(c: Conn)
    requires Upright(c)
    ensures Upright(Fire(c).0)
  {
    hide Clean, CutCommand;
    var c0 := c.(sched := false);
    CleanUpright(c0);
    if c.cmd && Clean(c0).win != [] { CutUpright(Clean(c0)); }
  }

  lemma CleanUpright(c: Conn)
    requires Wf(c)
    ensures Clean(c).start <= Clean(c).end && Clean(c).single == c.single
  {
    hide FirstEol, NulRun;
  }

  lemma CutUpright(c: Conn)
    requires Wf(c) && c.start <= c.end && !c.single && c.win != []
    ensures Upright(CutCommand(c).0)
  {
    hide FirstEol, Clean, TermLen;
    CleanUpright(PastLine(c));
  }

  /** A step on the bytes as they arrive; `seen` collects what they come to. */
  function TypedStep(r: Run, e: Event): Run
    requires Settled(r.conn)
  {
    match e
    case Data(bytes) =>
      Run(Arrive(r.conn, bytes), r.seen + Translate(r.conn.strip, Typed(bytes)), r.delivered,
          if Resets(r.conn) then r.lost + {|Cut(r.seen).done|} else r.lost)
    case Command =>
      if !r.conn.sched then r
      else
        var (c, line) := Fire(r.conn);
        r.(conn := c, delivered := if line.Some? then r.delivered + [line.value] else r.delivered)
  }

  predicate AllTypable(r: Run, es: seq<Event>)
    decreases es
  {
    Settled(r.conn)
    && (es == [] || ((es[0].Data? ==> CanType(r.conn, es[0].bytes)) && AllTypable(TypedStep(r, es[0]), es[1..])))
  }

  function TypedRun(r: Run, es: seq<Event>): Run
    requires AllTypable(r, es)
    decreases es
  {
    if es == [] then r else TypedRun(TypedStep(r, es[0]), es[1..])
  }

  function EditedEvent(e: Event): Event { match e case Data(bytes) => Data(Typed(bytes)) case Command => Command }

  function EditedAll(es: seq<Event>): seq<Event>
  {
    if es == [] then [] else [EditedEvent(es[0])] + EditedAll(es[1..])
  }

  lemma {:induction false} RunsAsTyped(r: Run, es: seq<Event>)
    requires Upright(r.conn) && AllTypable(r, es)
    ensures AllEnabled(r, EditedAll(es)) && RunAll(r, EditedAll(es)) == TypedRun(r, es)
    decreases es
  {
    if es != [] {
      hide Arrive, Fire, Cut, Edit, MakeRoom;
      var ed := EditedAll(es);
      assert ed[0] == EditedEvent(es[0]) && ed[1..] == EditedAll(es[1..]);
      match es[0] {
        case Data(bytes) => ArrivesAsTyped(r.conn, bytes);
        case Command => if r.conn.sched { FiresUpright(r.conn); }
      }
      assert Step(r, ed[0]) == TypedStep(r, es[0]);
      RunsAsTyped(TypedStep(r, es[0]), es[1..]);
    }
  }

  /**
   The delivery theorem with erase bytes: runs on the raw bytes hand out exactly the
   lines of what was typed, under the conditions of the theorem for plain streams.
   */
  lemma DeliversWhatIsTyped(strip: bool, es: seq<Event>)
    requires AllTypable(Begin(strip), es)
    ensures AllEnabled(Begin(strip), EditedAll(es))
    ensures WithoutReset(Begin(strip), EditedAll(es)) && Unshifted(Begin(strip), EditedAll(es)) ==>
      var r := TypedRun(Begin(strip), es);
      && Cut(r.seen).done == r.delivered + Cut(r.conn.win).done
      && Cut(r.seen).rest == Cut(r.conn.win).rest
      && (r.conn.cmd <==> r.delivered != Cut(r.seen).done)
      && (r.conn.cmd <==> r.conn.sched)
  {
    RunsAsTyped(Begin(strip), es);
    if WithoutReset(Begin(strip), EditedAll(es)) { DeliversTheStream(strip, EditedAll(es)); }
  }
}
