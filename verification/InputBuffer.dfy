/**
 The line-input path of one connection: the fixed text buffer with its two
 moving indices, the space check, the command search and the command event.

 `Interactive` is the object the driver updates in place.  `Conn` is its
 abstract value, and the functions on `Conn` say what each entry point does to it.
 */
module InputBuffer {
  import opened Wrappers

  newtype byte = x: int | 0 <= x < 256

  const MAX_TEXT: int := 1024 * 1024
  const LOW_SPACE: int := MAX_TEXT / 16

  const NUL: byte := 0
  const BACKSPACE: byte := 0x08
  const LF: byte := 10
  const CR: byte := 13
  const ESC: byte := 0x1b
  const ANSI_SUBSTITUTE: byte := 0x20
  const DEL: byte := 0x7f

  predicate IsEol(b: byte) { b == CR || b == LF }

  predicate IsErase(b: byte) { b == BACKSPACE || b == DEL }

  /** CR LF and LF CR count as one terminator. */
  predicate IsPair(a: byte, b: byte) { (a == CR && b == LF) || (a == LF && b == CR) }

  // ---------------------------------------------------------------- searching

  /** Index of the first line terminator, or |w| when there is none. */
  function FirstEol(w: seq<byte>): (k: nat)
    ensures k <= |w|
    ensures k < |w| ==> IsEol(w[k])
  {
    if w == [] || IsEol(w[0]) then 0 else 1 + FirstEol(w[1..])
  }

  predicate HasEol(w: seq<byte>) { FirstEol(w) < |w| }

  lemma {:induction false} FirstEolIs(w: seq<byte>, k: nat)
    requires k <= |w|
    requires forall i :: 0 <= i < k ==> !IsEol(w[i])
    requires k < |w| ==> IsEol(w[k])
    ensures FirstEol(w) == k
  {
    if k > 0 { FirstEolIs(w[1..], k - 1); }
  }

  /** How many NUL bytes the window starts with. */
  function NulRun(w: seq<byte>): (n: nat)
    ensures n <= |w|
    ensures n < |w| ==> w[n] != NUL
  {
    if w == [] || w[0] != NUL then 0 else 1 + NulRun(w[1..])
  }

  lemma {:induction false} NulRunIs(w: seq<byte>, n: nat)
    requires n <= |w|
    requires forall i :: 0 <= i < n ==> w[i] == NUL
    requires n < |w| ==> w[n] != NUL
    ensures NulRun(w) == n
  {
    if n > 0 { NulRunIs(w[1..], n - 1); }
  }

  /** The C string that starts at the front of s. */
  function TillNul(s: seq<byte>): (r: seq<byte>)
    ensures r <= s
    ensures NUL !in r
    ensures |r| < |s| ==> s[|r|] == NUL
  {
    if s == [] || s[0] == NUL then [] else [s[0]] + TillNul(s[1..])
  }

  // ------------------------------------------------------- the abstract value

  /**
   `win` is the unread window text[start..end]; it is empty when erase bytes
   have moved `end` to or below `start`.
   */
  datatype Conn = Conn(start: int, end: int, win: seq<byte>,
                       single: bool, strip: bool,
                       cmd: bool, skip: bool, sched: bool)

  predicate Wf(c: Conn) {
    && 0 <= c.start <= MAX_TEXT
    && 0 <= c.end <= MAX_TEXT - 1
    && |c.win| == (if c.start <= c.end then c.end - c.start else 0)
  }

  /** Between events: the erase bytes of an arrival can move `end` below `start`, but
      then `start` is where the space check of that arrival left it. */
  predicate Settled(c: Conn)
  {
    Wf(c) && (c.start <= c.end || c.start <= MAX_TEXT - LOW_SPACE)
  }

  function Fresh(single: bool, strip: bool): (c: Conn)
    ensures Settled(c)
  {
    Conn(0, 0, [], single, strip, false, false, false)
  }

  function DropFront(c: Conn, n: nat): (r: Conn)
    requires Wf(c) && n <= |c.win|
    ensures Wf(r) && r.start == c.start + n && r.end == c.end
  {
    c.(start := c.start + n, win := c.win[n..])
  }

  function Empty(c: Conn): (r: Conn) { c.(start := 0, end := 0, win := []) }

  /** Leading NULs go and an exhausted buffer restarts at 0. */
  function SkipNuls(c: Conn): (r: Conn)
    requires Wf(c)
    ensures Wf(r)
    ensures r.win == [] ==> r.start == 0 && r.end == 0
    ensures r.win != [] ==> r.end == c.end && r.start < r.end && r.win[0] != NUL
    ensures r == c.(start := r.start, end := r.end, win := r.win)
  {
    var n := NulRun(c.win);
    if n == |c.win| then Empty(c) else DropFront(c, n)
  }

  /** Standard clean-up: skip NULs, and when the current line is being skipped
      and its terminator has arrived, flush it and skip NULs again. */
  function Clean(c: Conn): (r: Conn)
    requires Wf(c)
    ensures Settled(r)
    ensures r.win == [] ==> r.start == 0 && r.end == 0
    ensures r.win != [] ==> r.end == c.end && r.start < r.end && r.win[0] != NUL
  {
    var c1 := SkipNuls(c);
    if c1.skip && HasEol(c1.win) then SkipNuls(Flushed(c1)) else c1
  }

  function Flushed(c: Conn): (r: Conn)
    requires Wf(c) && HasEol(c.win)
    ensures Wf(r)
  {
    DropFront(c, FirstEol(c.win) + 1).(skip := false)
  }

  predicate HasCommand(c: Conn) { c.win != [] && (c.single || HasEol(c.win)) }

  function Appended(c: Conn, b: byte): (r: Conn)
    requires Wf(c) && c.end < MAX_TEXT - 1
    ensures Wf(r)
  {
    c.(end := c.end + 1, win := if c.start <= c.end then c.win + [b] else [])
  }

  function Erased(c: Conn): (r: Conn)
    requires Wf(c)
    ensures Wf(r)
  {
    if c.end == 0 then c
    else c.(end := c.end - 1, win := if c.win == [] then [] else c.win[..|c.win| - 1])
  }

  /** One received byte; the caller has checked that there is room. */
  function FeedOne(c: Conn, b: byte): (r: Conn)
    requires Wf(c) && c.end < MAX_TEXT - 1
    ensures Wf(r)
  {
    if IsErase(b) && !c.single then Erased(c)
    else Appended(c, if b == ESC && c.strip then ANSI_SUBSTITUTE else b)
  }

  function FeedAll(c: Conn, data: seq<byte>): (r: Conn)
    requires Wf(c)
    ensures Wf(r)
    ensures r.start == c.start && r.single == c.single && r.strip == c.strip
    ensures r.cmd == c.cmd && r.skip == c.skip && r.sched == c.sched
    decreases data
  {
    if data == [] || c.end == MAX_TEXT - 1 then c else FeedAll(FeedOne(c, data[0]), data[1..])
  }

  /** The space check before a read: compact, and if that is not enough, drop
      the whole buffer and skip the current line. */
  function MakeRoom(c: Conn): (r: Conn)
    requires Settled(c)
    ensures Wf(r)
    ensures MAX_TEXT - r.end >= LOW_SPACE && MAX_TEXT - r.start >= LOW_SPACE
    ensures MAX_TEXT - c.end < LOW_SPACE ==> c.start <= c.end
  {
    if MAX_TEXT - c.end >= LOW_SPACE then c
    else
      var c1 := if c.start > 0 then c.(start := 0, end := |c.win|) else c;
      if MAX_TEXT - c1.end < LOW_SPACE then Empty(c1).(skip := true) else c1
  }

  function ReadSize(c: Conn, pending: seq<byte>): (n: nat)
    requires Wf(c)
    ensures n <= |pending|
  {
    if |pending| <= MAX_TEXT - c.end then |pending| else MAX_TEXT - c.end
  }

  /** The command search after new bytes were stored. */
  function Announce(c: Conn): (r: Conn)
    requires Wf(c)
    ensures Wf(r)
  {
    var c1 := Clean(c);
    if HasCommand(c1) then c1.(cmd := true, sched := true) else c1
  }

  /** Data is waiting on the socket. */
  function Arrive(c: Conn, pending: seq<byte>): (r: Conn)
    requires Settled(c)
    ensures Settled(r)
  {
    var c1 := MakeRoom(c);
    var c2 := FeedAll(c1, pending[..ReadSize(c1, pending)]);
    if c2.end > c1.end then Announce(c2) else c2
  }

  function TermLen(w: seq<byte>, k: nat): (t: nat)
    requires k < |w|
    ensures 1 <= t <= 2 && k + t <= |w|
  {
    if k + 1 < |w| && IsPair(w[k], w[k + 1]) then 2 else 1
  }

  /** Past the first line and its terminator; past the end when there is none. */
  function PastLine(c: Conn): (r: Conn)
    requires Wf(c) && c.start <= c.end
    ensures Wf(r)
  {
    var k := FirstEol(c.win);
    if k < |c.win| then DropFront(c, k + TermLen(c.win, k)) else c.(start := c.end + 1, win := [])
  }

  /** Past one byte of the window, or past its end. */
  function Blanked(c: Conn): (r: Conn)
    requires Wf(c) && c.start <= c.end
    ensures Wf(r) && r.start == c.start + 1 && r.end == c.end
  {
    if c.win != [] then DropFront(c, 1) else c.(start := c.start + 1, win := [])
  }

  lemma DropTwice(c: Conn, i: nat)
    requires Wf(c) && i < |c.win|
    ensures Blanked(DropFront(c, i)) == DropFront(c, i + 1)
  {
    assert c.win[i..][1..] == c.win[i + 1..];
  }

  lemma PastLineSteps(c: Conn)
    requires Wf(c) && c.start <= c.end
    ensures var k := FirstEol(c.win);
      var d := DropFront(c, k);
      PastLine(c) == if k + 1 < |c.win| && IsPair(c.win[k], c.win[k + 1])
                     then Blanked(Blanked(d)) else Blanked(d)
  {
    hide FirstEol, Blanked;
    var k := FirstEol(c.win);
    if k < |c.win| { DropTwice(c, k); } else { BlankedPastEnd(c); }
    if k + 1 < |c.win| { DropTwice(c, k + 1); }
  }

  lemma BlankedPastEnd(c: Conn)
    requires Wf(c) && c.start <= c.end
    ensures Blanked(DropFront(c, |c.win|)) == c.(start := c.end + 1, win := [])
  {
  }

  /** Clean up, and clear CMD_IN_BUF when no command is left. */
  function Rechecked(c: Conn): (r: Conn)
    requires Wf(c)
    ensures Settled(r)
  {
    var c1 := Clean(c);
    if HasCommand(c1) then c1 else c1.(cmd := false)
  }

  /** Cut the first command out of a cleaned, non-empty window. */
  function CutCommand(c: Conn): (r: (Conn, seq<byte>))
    requires Wf(c) && c.win != []
    ensures Settled(r.0)
  {
    if c.single then
      var b := c.win[0];
      var c2 := Clean(DropFront(c, 1));
      (if c2.win == [] then c2.(cmd := false) else c2, if IsErase(b) || b == NUL then [] else [b])
    else
      (Rechecked(PastLine(c)), TillNul(c.win[..FirstEol(c.win)]))
  }

  /** The command event: at most one command leaves the buffer. */
  function Fire(c: Conn): (r: (Conn, Option<seq<byte>>))
    requires Settled(c)
    ensures Settled(r.0)
  {
    var c0 := c.(sched := false);
    if !c.cmd then (c0, None)
    else
      var c1 := Clean(c0);
      if c1.win == [] then (c1, None)
      else
        var (c2, line) := CutCommand(c1);
        (if c2.cmd then c2.(sched := true) else c2, Some(line))
  }

  // ------------------------------------------------------ the connection object

  class Interactive {
    const text: array<byte>
    var textEnd: int
    var textStart: int
    var singleChar: bool
    var cmdInBuf: bool
    var skipCommand: bool
    var commandScheduled: bool  // the zero-delay command timer is pending
    const stripAnsi: bool

    ghost predicate InRange()
      reads this
    {
      && text.Length == MAX_TEXT
      && 0 <= textEnd <= MAX_TEXT - 1
      && 0 <= textStart <= MAX_TEXT
    }

    /** What holds between events. */
    ghost predicate Valid()
      reads this
    {
      InRange() && (textStart <= textEnd || textStart <= MAX_TEXT - LOW_SPACE)
    }

    ghost function View(): (c: Conn)
      requires InRange()
      reads this, text
      ensures Wf(c) && c.start == textStart && c.end == textEnd
      ensures c.single == singleChar && c.strip == stripAnsi
      ensures c.cmd == cmdInBuf && c.skip == skipCommand && c.sched == commandScheduled
    {
      Conn(textStart, textEnd, if textStart <= textEnd then text[textStart..textEnd] else [],
           singleChar, stripAnsi, cmdInBuf, skipCommand, commandScheduled)
    }

    constructor (stripAnsi: bool)
      ensures Valid() && View() == Fresh(false, stripAnsi)
    {
      text := new byte[MAX_TEXT](_ => 0);
      textEnd, textStart := 0, 0;
      singleChar, cmdInBuf, skipCommand, commandScheduled := false, false, false, false;
      this.stripAnsi := stripAnsi;
    }

    /** Advance past NULs; an exhausted buffer restarts at the front. */
    method SkipNullInput()
      requires InRange()
      modifies this`textStart, this`textEnd
      ensures InRange() && View() == SkipNuls(old(View()))
    {
      ghost var w := if textStart <= textEnd then text[textStart..textEnd] else [];
      ghost var s0 := textStart;
      assert w == View().win;
      while textStart < textEnd && text[textStart] == NUL
        invariant textEnd == old(textEnd) && s0 <= textStart <= MAX_TEXT
        invariant textStart == s0 || textStart <= textEnd
        invariant forall i :: 0 <= i < textStart - s0 ==> w[i] == NUL
      {
        assert w[textStart - s0] == text[textStart];
        textStart := textStart + 1;
      }
      assert textStart < textEnd ==> w[textStart - s0] == text[textStart];
      NulRunIs(w, textStart - s0);
      if textStart >= textEnd {
        textStart, textEnd := 0, 0;
      }
    }

    /** Index of the first terminator in the window, textEnd when there is none. */
    method FindEol() returns (p: nat)
      requires InRange() && textStart <= textEnd
      ensures p == textStart + FirstEol(View().win)
    {
      ghost var w := View().win;
      p := textStart;
      while p < textEnd && !IsEol(text[p])
        invariant textStart <= p <= textEnd
        invariant forall i :: 0 <= i < p - textStart ==> !IsEol(w[i])
      {
        assert w[p - textStart] == text[p];
        p := p + 1;
      }
      assert p < textEnd ==> w[p - textStart] == text[p];
      FirstEolIs(w, p - textStart);
    }

    method Advance(n: nat)
      requires InRange() && textStart + n <= textEnd
      modifies this`textStart
      ensures InRange() && View() == DropFront(old(View()), n)
    {
      textStart := textStart + n;
    }

    /** If the current line is being skipped and is complete, flush it. */
    method FlushSkipped() returns (flushed: bool)
      requires InRange() && textStart <= textEnd
      modifies this`textStart, this`skipCommand
      ensures InRange()
      ensures flushed <==> old(View()).skip && HasEol(old(View()).win)
      ensures View() == if flushed then Flushed(old(View())) else old(View())
    {
      flushed := false;
      if skipCommand {
        var p := FindEol();
        if p < textEnd {
          Advance(p - textStart + 1);
          skipCommand := false;
          flushed := true;
        }
      }
    }

    method CleanBuf() returns (more: bool)
      requires InRange()
      modifies this`textStart, this`textEnd, this`skipCommand
      ensures InRange() && View() == Clean(old(View()))
      ensures more <==> View().win != []
      decreases skipCommand
    {
      hide View;
      SkipNullInput();
      var flushed := FlushSkipped();
      if flushed {
        more := CleanBuf();
      } else {
        more := textEnd > textStart;
      }
    }

    method Append(b: byte)
      requires InRange() && textEnd < MAX_TEXT - 1
      modifies this`textEnd, text
      ensures InRange() && View() == Appended(old(View()), b)
    {
      text[textEnd] := b;
      textEnd := textEnd + 1;
    }

    method EraseLast()
      requires InRange()
      modifies this`textEnd
      ensures InRange() && View() == Erased(old(View()))
    {
      if textEnd > 0 {
        textEnd := textEnd - 1;
      }
    }

    /** Store one byte; the caller has checked that there is room. */
    method StoreByte(b: byte)
      requires InRange() && textEnd < MAX_TEXT - 1
      modifies this`textEnd, text
      ensures InRange() && View() == FeedOne(old(View()), b)
    {
      hide View;
      if IsErase(b) && !singleChar {
        EraseLast();
      } else if b == ESC && stripAnsi {
        Append(ANSI_SUBSTITUTE);
      } else {
        Append(b);
      }
    }

    method OnUserInput(data: seq<byte>)
      requires InRange()
      modifies this`textEnd, text
      ensures InRange() && View() == FeedAll(old(View()), data)
    {
      hide View;
      var i := 0;
      while i < |data|
        invariant 0 <= i <= |data| && InRange()
        invariant FeedAll(View(), data[i..]) == FeedAll(old(View()), data)
      {
        if textEnd == MAX_TEXT - 1 {
          return;
        }
        assert data[i..][0] == data[i] && data[i..][1..] == data[i + 1..];
        StoreByte(data[i]);
        i := i + 1;
      }
    }

    method CmdInBuf() returns (found: bool)
      requires InRange()
      modifies this`textStart, this`textEnd, this`skipCommand
      ensures InRange() && View() == Clean(old(View()))
      ensures found <==> HasCommand(View())
    {
      hide View;
      var more := CleanBuf();
      if !more {
        return false;
      }
      if singleChar {
        return true;
      }
      var p := FindEol();
      found := p < textEnd;
    }

    /** Overwrite the byte at textStart by NUL and step past it. */
    method BlankByte()
      requires InRange() && textStart <= textEnd
      modifies this`textStart, text
      ensures InRange() && View() == Blanked(old(View()))
    {
      text[textStart] := NUL;
      textStart := textStart + 1;
    }

    /** Single-character mode: the first byte is the command. */
    method TakeChar() returns (command: seq<byte>)
      requires InRange() && View().win != [] && singleChar
      modifies this, text
      ensures InRange() && (View(), command) == CutCommand(old(View()))
    {
      var b := if IsErase(text[textStart]) then NUL else text[textStart];
      assert text[textStart] == View().win[0];
      hide View;
      BlankByte();
      var more := CleanBuf();
      if !more {
        cmdInBuf := false;
      }
      command := if b == NUL then [] else [b];
    }

    method PairAt(p: nat) returns (pair: bool)
      requires InRange() && textStart <= p <= textEnd
      ensures pair <==> var w, k := View().win, p - textStart; k + 1 < |w| && IsPair(w[k], w[k + 1])
    {
      pair := p + 1 < textEnd && IsPair(text[p], text[p + 1]);
    }

    /** Step to the terminator found at p and past it, or past both bytes of a pair. */
    method EndLine(p: nat)
      requires InRange() && textStart <= textEnd && p == textStart + FirstEol(View().win)
      modifies this`textStart, text
      ensures InRange() && View() == PastLine(old(View()))
    {
      hide View, FirstEol, PastLine, DropFront, Blanked, IsPair;
      PastLineSteps(View());
      var pair := PairAt(p);
      Advance(p - textStart);
      if pair {
        BlankByte();
      }
      BlankByte();
    }

    /** The C string that begins at textStart once position p holds a NUL. */
    method LineText(p: nat) returns (line: seq<byte>)
      requires InRange() && textStart <= p <= textEnd
      ensures line == TillNul(View().win[..p - textStart])
    {
      assert text[textStart..p] == View().win[..p - textStart];
      line := TillNul(text[textStart..p]);
    }

    /** Line mode: the text up to the first terminator is the command. */
    method TakeLine() returns (command: seq<byte>)
      requires InRange() && View().win != [] && !singleChar
      modifies this, text
      ensures InRange() && (View(), command) == CutCommand(old(View()))
    {
      var p := FindEol();
      command := LineText(p);
      hide View, FirstEol, Clean, PastLine;
      EndLine(p);
      Recheck();
    }

    method Recheck()
      requires InRange()
      modifies this
      ensures InRange() && View() == Rechecked(old(View()))
    {
      var found := CmdInBuf();
      if !found {
        cmdInBuf := false;
      }
    }

    method FirstCmdInBuf() returns (command: Option<seq<byte>>)
      requires InRange()
      modifies this, text
      ensures InRange()
      ensures var c := Clean(old(View()));
              if c.win == [] then command == None && View() == c
              else command == Some(CutCommand(c).1) && View() == CutCommand(c).0
    {
      hide View;
      var more := CleanBuf();
      if !more {
        return None;
      }
      var line: seq<byte>;
      if singleChar {
        line := TakeChar();
      } else {
        line := TakeLine();
      }
      command := Some(line);
    }

    /** Move the window to the front of the array. */
    method Compact()
      requires InRange() && 0 < textStart <= textEnd
      modifies this`textStart, this`textEnd, text
      ensures InRange() && View() == old(View()).(start := 0, end := |old(View()).win|)
    {
      var n := textEnd - textStart;
      forall i | 0 <= i < n {
        text[i] := text[textStart + i];
      }
      textEnd := n;
      textStart := 0;
    }

    /** The space check; returns how many bytes may be read. */
    method CheckSpace() returns (textSpace: int)
      requires Valid()
      modifies this`textStart, this`textEnd, this`skipCommand, text
      ensures InRange() && View() == MakeRoom(old(View()))
      ensures textSpace == MAX_TEXT - textEnd
    {
      textSpace := MAX_TEXT - textEnd;
      if textSpace < LOW_SPACE {
        if textStart > 0 {
          textSpace := textSpace + textStart;
          Compact();
        }
        if textSpace < LOW_SPACE {
          skipCommand := true;
          textStart, textEnd := 0, 0;
          textSpace := MAX_TEXT;
        }
      }
    }

    /** After new bytes: note a complete command and queue the command event. */
    method SearchCommand()
      requires InRange()
      modifies this
      ensures InRange() && View() == Announce(old(View()))
    {
      var found := CmdInBuf();
      if found {
        cmdInBuf := true;
        commandScheduled := true;
      }
    }

    method GetUserData(pending: seq<byte>) returns (numBytes: nat)
      requires Valid()
      modifies this, text
      ensures Valid() && View() == Arrive(old(View()), pending)
      ensures numBytes == ReadSize(MakeRoom(old(View())), pending)
    {
      hide View;
      var textSpace := CheckSpace();
      numBytes := if |pending| <= textSpace then |pending| else textSpace;
      var start := textEnd;
      OnUserInput(pending[..numBytes]);
      if textEnd > start {
        SearchCommand();
      }
      assert Settled(View());
    }

    /** The command event; the command is processed where None is not returned,
        and afterwards the event is queued again while commands are left. */
    method OnUserCommand() returns (command: Option<seq<byte>>)
      requires Valid()
      modifies this, text
      ensures Valid() && (View(), command) == Fire(old(View()))
    {
      hide View, Clean, CutCommand;
      Unschedule();
      command := None;
      if cmdInBuf {
        command := FirstCmdInBuf();
      }
      if command != None {
        MaybeSchedule();
      }
      assert Settled(View());
    }

    method Unschedule()
      requires InRange()
      modifies this`commandScheduled
      ensures InRange() && View() == old(View()).(sched := false)
    {
      commandScheduled := false;
    }

    /** Queue the command event while the flag is set. */
    method MaybeSchedule()
      requires InRange()
      modifies this`commandScheduled
      ensures InRange() && View() == if old(cmdInBuf) then old(View()).(sched := true) else old(View())
    {
      if cmdInBuf {
        commandScheduled := true;
      }
    }
  }
}
