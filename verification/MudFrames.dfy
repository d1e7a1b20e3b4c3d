/**
 The length-prefixed input mode of a MUD port: four bytes of length in network
 order, then that many bytes.  The length is converted to host order in place,
 at the front of the same buffer the payload is collected in.
 */
module MudFrames {
  import opened Wrappers
  import opened InputBuffer

  // ------------------------------------------------------- four-byte integers

  /** A 32-bit int read from memory on a little-endian host. */
  function HostInt(b: seq<byte>): int
    requires |b| == 4
  {
    var u := b[0] as int + 0x100 * b[1] as int + 0x1_0000 * b[2] as int + 0x100_0000 * b[3] as int;
    if u < 0x8000_0000 then u else u - 0x1_0000_0000
  }

  /** The network byte order of a length. */
  function NetworkBytes(n: nat): (b: seq<byte>)
    requires n < 0x8000_0000
    ensures |b| == 4
  {
    [(n / 0x100_0000) as byte, (n / 0x1_0000 % 0x100) as byte, (n / 0x100 % 0x100) as byte, (n % 0x100) as byte]
  }

  /** ntohl on the four bytes. */
  function Swapped(b: seq<byte>): (r: seq<byte>)
    requires |b| == 4
    ensures |r| == 4
  {
    [b[3], b[2], b[1], b[0]]
  }

  lemma SwappedReadsBack(n: nat)
    requires n < 0x8000_0000
    ensures HostInt(Swapped(NetworkBytes(n))) == n
  {
    assert n == n % 0x100 + 0x100 * (n / 0x100);
    assert n / 0x100 == n / 0x100 % 0x100 + 0x100 * (n / 0x1_0000);
    assert n / 0x1_0000 == n / 0x1_0000 % 0x100 + 0x100 * (n / 0x100_0000);
  }

  // ------------------------------------------------------- the abstract value

  const MAX_PAYLOAD: int := MAX_TEXT - 5

  datatype Port = Port(buf: seq<byte>, closed: bool)

  /** A header is incomplete, or announces more than there is; or it announces an
      empty payload, and nothing has been or will be read behind it. */
  predicate Ok(p: Port)
  {
    |p.buf| < 4
    || (var n := HostInt(p.buf[..4]); 0 <= n <= MAX_PAYLOAD && |p.buf| <= 4 + n && (|p.buf| == 4 + n ==> n == 0))
  }

  /** The read size behind any header. */
  function Space(p: Port): int
  {
    if |p.buf| < 4 then 4 - |p.buf| else HostInt(p.buf[..4]) - |p.buf| + 4
  }

  /** How much may be read next. */
  function Wanted(p: Port): (n: nat)
    requires Ok(p)
    ensures |p.buf| + n <= MAX_TEXT - 1
    ensures n == 0 <==> |p.buf| == 4 && HostInt(p.buf) == 0
  {
    Space(p)
  }

  /** How much of the pending data a read takes; a negative size, seen as an unsigned
      one, is no limit. */
  function Taken(p: Port, pending: seq<byte>): (n: nat)
    ensures n <= |pending|
    ensures Ok(p) ==> n <= Wanted(p)
  {
    if Space(p) < 0 || |pending| <= Space(p) then |pending| else Space(p)
  }

  /** What is taken fits into the buffer; behind a good header it always does. */
  predicate Fits(p: Port, pending: seq<byte>) { |p.buf| + Taken(p, pending) <= MAX_TEXT - 1 }

  /** One read of pending data: the new state and the message it completes. */
  function Read(p: Port, pending: seq<byte>): (Port, Option<seq<byte>>)
  {
    var n := Taken(p, pending);
    var buf := p.buf + pending[..n];
    if n != Space(p) then (p.(buf := buf), None)
    else if |buf| == 4 then
      var header := Swapped(buf);
      (Port(header, p.closed || HostInt(header) > MAX_PAYLOAD), None)
    else (p.(buf := []), Some(buf[4..]))
  }

  /** A header of four zeros passes the length check, and after it the port takes
      nothing, delivers nothing and does not close, however much is waiting. */
  lemma ZeroHeaderStays(p: Port, pending: seq<byte>)
    requires |p.buf| == 4 && HostInt(p.buf) == 0
    ensures Ok(p) && Taken(p, pending) == 0 && Read(p, pending) == (p, None)
  {
    assert p.buf[..4] == p.buf && p.buf + pending[..0] == p.buf;
    assert p.buf == [0, 0, 0, 0];
  }

  lemma OkFits(p: Port, pending: seq<byte>)
    requires Ok(p)
    ensures Fits(p, pending)
  {
  }

  /** Behind a header with the top bit set everything is taken, and the read size stays
      negative: the port collects bytes and never delivers a message. */
  lemma NegativeHeaderStays(p: Port, pending: seq<byte>)
    requires |p.buf| >= 4 && HostInt(p.buf[..4]) < 0
    ensures Space(p) < 0 && Taken(p, pending) == |pending|
    ensures Read(p, pending) == (p.(buf := p.buf + pending), None)
    ensures var r := Read(p, pending).0; r.buf[..4] == p.buf[..4] && Space(r) < 0
  {
    assert pending[..|pending|] == pending;
    assert (p.buf + pending)[..4] == p.buf[..4];
  }

  class MudPort {
    const text: array<byte>
    var textEnd: int
    var closed: bool

    ghost predicate Valid()
      reads this
    {
      text.Length == MAX_TEXT && 0 <= textEnd <= MAX_TEXT - 1
    }

    ghost function View(): (p: Port)
      requires Valid()
      reads this, text
      ensures |p.buf| == textEnd && p.closed == closed
    {
      Port(text[..textEnd], closed)
    }

    constructor ()
      ensures Valid() && View() == Port([], false)
    {
      text := new byte[MAX_TEXT](_ => 0);
      textEnd, closed := 0, false;
    }

    /** How much to read, as the driver computes it from whatever stands in the buffer. */
    method TextSpace() returns (n: int)
      requires Valid()
      ensures n == Space(View())
      ensures Ok(View()) ==> n == Wanted(View())
    {
      if textEnd < 4 {
        n := 4 - textEnd;
      } else {
        assert text[..textEnd][..4] == text[..4];
        n := HostInt(text[..4]) - textEnd + 4;
      }
    }

    method Copy(data: seq<byte>)
      requires Valid() && textEnd + |data| <= MAX_TEXT - 1
      modifies this`textEnd, text
      ensures Valid() && View() == old(View()).(buf := old(View()).buf + data)
    {
      forall i | 0 <= i < |data| {
        text[textEnd + i] := data[i];
      }
      textEnd := textEnd + |data|;
    }

    method ConvertHeader()
      requires Valid() && textEnd == 4
      modifies this`closed, text
      ensures Valid()
      ensures var header := Swapped(old(View()).buf);
        && View() == Port(header, old(closed) || HostInt(header) > MAX_PAYLOAD)
        && (!closed && Ok(View()) <==> !old(closed) && 0 <= HostInt(header) <= MAX_PAYLOAD)
        && (!closed && Space(View()) < 0 <==> !old(closed) && HostInt(header) < 0)
    {
      text[0], text[1], text[2], text[3] := text[3], text[2], text[1], text[0];
      assert text[..textEnd] == text[..4];
      if HostInt(text[..4]) > MAX_PAYLOAD {
        closed := true;
      }
    }

    method TakeMessage() returns (message: seq<byte>)
      requires Valid() && textEnd > 4
      modifies this`textEnd, text
      ensures Valid() && View() == old(View()).(buf := []) && message == old(View()).buf[4..]
    {
      ghost var buf := text[..textEnd];
      text[textEnd] := NUL;
      message := text[4..textEnd];
      assert message == buf[4..];
      textEnd := 0;
    }

    method GetUserData(pending: seq<byte>) returns (numBytes: nat, message: Option<seq<byte>>)
      requires Valid() && Fits(View(), pending)
      modifies this, text
      ensures Valid() && (View(), message) == Read(old(View()), pending)
      ensures numBytes == Taken(old(View()), pending)
    {
      hide View, HostInt;
      message := None;
      var textSpace := TextSpace();
      numBytes := if textSpace < 0 || |pending| <= textSpace then |pending| else textSpace;
      Copy(pending[..numBytes]);
      if numBytes == textSpace {
        if textEnd == 4 {
          ConvertHeader();
        } else {
          var m := TakeMessage();
          message := Some(m);
        }
      }
    }
  }

  // ------------------------------------------------------------------- frames

  predicate Sendable(fs: seq<seq<byte>>) { forall i :: 0 <= i < |fs| ==> 1 <= |fs[i]| <= MAX_PAYLOAD }

  function Frame(payload: seq<byte>): seq<byte>
    requires |payload| <= MAX_PAYLOAD
  {
    NetworkBytes(|payload|) + payload
  }

  function Stream(fs: seq<seq<byte>>): seq<byte>
    requires Sendable(fs)
  {
    if fs == [] then [] else Frame(fs[0]) + Stream(fs[1..])
  }

  /** The wire bytes of the frame being collected. */
  function Collected(p: Port): seq<byte>
  {
    if |p.buf| < 4 then p.buf else Swapped(p.buf[..4]) + p.buf[4..]
  }

  /** A run of reads; sizes[i] is how much of the stream has arrived by read i. */
  datatype Run = Run(port: Port, unread: seq<byte>, delivered: seq<seq<byte>>)

  function Step(r: Run, size: nat): Run
    requires Ok(r.port)
  {
    var pending := if size <= |r.unread| then r.unread[..size] else r.unread;
    var (p, m) := Read(r.port, pending);
    Run(p, r.unread[Taken(r.port, pending)..], if m.Some? then r.delivered + [m.value] else r.delivered)
  }

  /** The run is somewhere inside the stream of the frames still to be delivered. */
  predicate Inside(r: Run, fs: seq<seq<byte>>)
  {
    && Ok(r.port) && !r.port.closed && Wanted(r.port) > 0
    && Sendable(fs)
    && Collected(r.port) + r.unread == Stream(fs)
  }

  lemma HeaderOf(b: seq<byte>, rest: seq<byte>, fs: seq<seq<byte>>)
    requires Sendable(fs) && |b| == 4 && b + rest == Stream(fs)
    ensures fs != [] && HostInt(Swapped(b)) == |fs[0]| && rest == fs[0] + Stream(fs[1..])
  {
    assert |b + rest| >= 4;
    var n := NetworkBytes(|fs[0]|);
    assert b == (b + rest)[..4] && n == Stream(fs)[..4];
    assert rest == (b + rest)[4..];
    SwappedReadsBack(|fs[0]|);
  }

  /** What one read does to a run inside a stream of frames. */
  lemma StepInside(r: Run, fs: seq<seq<byte>>, size: nat)
    requires Inside(r, fs)
    ensures var r' := Step(r, size);
      || (Inside(r', fs) && r'.delivered == r.delivered)
      || (fs != [] && Inside(r', fs[1..]) && r'.delivered == r.delivered + [fs[0]])
  {
    hide HostInt, NetworkBytes, Stream, Frame;
    var pending := if size <= |r.unread| then r.unread[..size] else r.unread;
    var n := Taken(r.port, pending);
    var rest := r.unread[n..];
    assert r.unread == pending[..n] + rest;
    var buf := r.port.buf + pending[..n];
    if |r.port.buf| < 4 {
      assert buf + rest == r.port.buf + r.unread;
      if |buf| == 4 {
        HeaderOf(buf, rest, fs);
        assert Swapped(buf)[..4] == Swapped(buf);
        assert Swapped(Swapped(buf)) + Swapped(buf)[4..] == buf;
      }
    } else {
      PayloadStep(r, fs, pending);
    }
  }

  lemma PayloadStep(r: Run, fs: seq<seq<byte>>, pending: seq<byte>)
    requires Inside(r, fs) && |r.port.buf| >= 4
    requires pending <= r.unread
    ensures var n := Taken(r.port, pending);
      var rest := r.unread[n..];
      var buf := r.port.buf + pending[..n];
      if n == Wanted(r.port) then fs != [] && Sendable(fs[1..]) && buf[4..] == fs[0] && rest == Stream(fs[1..])
      else Inside(Run(Port(buf, false), rest, r.delivered), fs)
  {
    var n := Taken(r.port, pending);
    var rest := r.unread[n..];
    var header, got, more := r.port.buf[..4], r.port.buf[4..], pending[..n];
    assert Swapped(Swapped(header)) == header;
    hide HostInt, NetworkBytes, Stream, Frame, Swapped;
    assert r.unread == more + rest;
    Regroup(Swapped(header), got, more, rest);
    HeaderOf(Swapped(header), got + r.unread, fs);
    BufferParts(r.port.buf, more);
    if n == Wanted(r.port) { SameParts(got + more, rest, fs[0], Stream(fs[1..])); }
  }

  lemma Regroup(h: seq<byte>, got: seq<byte>, more: seq<byte>, rest: seq<byte>)
    ensures h + got + (more + rest) == h + (got + (more + rest)) == h + (got + more) + rest
    ensures got + (more + rest) == got + more + rest
  {
  }

  lemma BufferParts(buf: seq<byte>, more: seq<byte>)
    requires |buf| >= 4
    ensures (buf + more)[..4] == buf[..4] && (buf + more)[4..] == buf[4..] + more
  {
  }

  lemma SameParts(a: seq<byte>, b: seq<byte>, c: seq<byte>, d: seq<byte>)
    requires a + b == c + d && |a| == |c|
    ensures a == c && b == d
  {
    assert a == (a + b)[..|a|] && c == (c + d)[..|c|];
    assert b == (a + b)[|a|..] && d == (c + d)[|c|..];
  }

  /** Every state on the way has a length it can wait for. */
  predicate CanRun(r: Run, sizes: seq<nat>)
    decreases sizes
  {
    Ok(r.port) && (sizes == [] || CanRun(Step(r, sizes[0]), sizes[1..]))
  }

  function RunAll(r: Run, sizes: seq<nat>): Run
    requires CanRun(r, sizes)
    decreases sizes
  {
    if sizes == [] then r else RunAll(Step(r, sizes[0]), sizes[1..])
  }

  /** The first k frames have been delivered and the rest is on its way. */
  predicate At(r: Run, fs: seq<seq<byte>>, k: nat)
  {
    k <= |fs| && r.delivered == fs[..k] && Inside(r, fs[k..])
  }

  lemma StepAt(r: Run, fs: seq<seq<byte>>, k: nat, size: nat) returns (k': nat)
    requires At(r, fs, k)
    ensures At(Step(r, size), fs, k')
  {
    hide Step, Inside;
    InsideOk(r, fs[k..]);
    StepInside(r, fs[k..], size);
    k' := k;
    if !(Inside(Step(r, size), fs[k..]) && Step(r, size).delivered == r.delivered) {
      k' := k + 1;
      assert fs[k..][1..] == fs[k + 1..];
    }
  }

  lemma InsideOk(r: Run, fs: seq<seq<byte>>)
    requires Inside(r, fs)
    ensures Ok(r.port)
  {
  }

  lemma {:induction false} StaysInside(r: Run, fs: seq<seq<byte>>, k: nat, sizes: seq<nat>) returns (k': nat)
    requires At(r, fs, k)
    ensures CanRun(r, sizes) && At(RunAll(r, sizes), fs, k')
    decreases sizes
  {
    hide Step, Inside, Ok;
    InsideOk(r, fs[k..]);
    k' := k;
    if sizes != [] {
      var j := StepAt(r, fs, k, sizes[0]);
      k' := StaysInside(Step(r, sizes[0]), fs, j, sizes[1..]);
    }
  }

  /**
   For every sequence of frames and every chunking of their stream: the messages
   handed out are the first payloads, in order, and once the stream has been read
   completely they are all of them; the port is never closed on the way.
   */
  lemma DeliversTheFrames(fs: seq<seq<byte>>, sizes: seq<nat>)
    requires Sendable(fs)
    ensures var start := Run(Port([], false), Stream(fs), []);
      && CanRun(start, sizes)
      && var r := RunAll(start, sizes);
      && r.delivered <= fs && !r.port.closed
      && (r.unread == [] ==> r.delivered == fs && r.port.buf == [])
  {
    var start := Run(Port([], false), Stream(fs), []);
    assert Collected(start.port) + start.unread == Stream(fs);
    assert fs[0..] == fs;
    var k := StaysInside(start, fs, 0, sizes);
    var r := RunAll(start, sizes);
    if r.unread == [] {
      NothingLeft(r, fs[k..]);
    }
  }

  lemma NothingLeft(r: Run, fs: seq<seq<byte>>)
    requires Inside(r, fs) && r.unread == []
    ensures fs == [] && r.port.buf == []
  {
    hide HostInt, NetworkBytes;
    var w := Collected(r.port);
    assert w + r.unread == w;
    if |w| >= 4 {
      assert w == w[..4] + w[4..];
      assert Swapped(w[..4]) == r.port.buf[..4];
      HeaderOf(w[..4], w[4..], fs);
    }
  }

  /** The header is the length with its most significant byte first, and a payload has
      at most five bytes less than the buffer of 2^20. */
  lemma HeaderBytes(a: byte, b: byte, c: byte, d: byte)
    requires a < 128
    ensures NetworkBytes(a as int * 0x100_0000 + b as int * 0x1_0000 + c as int * 0x100 + d as int) == [a, b, c, d]
    ensures MAX_TEXT == 0x10_0000 && MAX_PAYLOAD == 0xF_FFFB
  {
    var n := a as int * 0x100_0000 + b as int * 0x1_0000 + c as int * 0x100 + d as int;
    assert n / 0x100 == a as int * 0x1_0000 + b as int * 0x100 + c as int;
    assert n / 0x1_0000 == a as int * 0x100 + b as int;
    assert n / 0x100_0000 == a as int;
  }
}
