/**
 The lines of a byte stream as a whole: the reference the input buffer is compared
 with.  CR LF and LF CR are one terminator.
 */
module StreamCut {
  import opened InputBuffer

  // ---------------------------------------------- the reference cut of a stream

  /** The complete lines of a byte stream, and what follows the last terminator. */
  datatype Lines = Lines(done: seq<seq<byte>>, rest: seq<byte>)

  function Cut(s: seq<byte>): Lines
    decreases |s|
  {
    var k := FirstEol(s);
    if k == |s| then Lines([], s)
    else
      var r := Cut(s[k + TermLen(s, k)..]);
      Lines([s[..k]] + r.done, r.rest)
  }

  /** Every line followed by one LF. */
  function Unlines(ls: seq<seq<byte>>): seq<byte>
  {
    if ls == [] then [] else ls[0] + [LF] + Unlines(ls[1..])
  }

  lemma {:induction false} FirstEolBefore(w: seq<byte>, i: nat)
    requires i < FirstEol(w)
    ensures !IsEol(w[i])
  {
    if i > 0 { FirstEolBefore(w[1..], i - 1); }
  }

  lemma {:induction false} RestHasNoEol(s: seq<byte>)
    ensures !HasEol(Cut(s).rest)
    decreases |s|
  {
    var k := FirstEol(s);
    if k < |s| { RestHasNoEol(s[k + TermLen(s, k)..]); }
  }

  /** For streams without CR the cut is the ordinary split at LF. */
  lemma {:induction false} CutIsSplit(s: seq<byte>)
    requires CR !in s
    ensures Unlines(Cut(s).done) + Cut(s).rest == s
    ensures LF !in Cut(s).rest
    ensures forall l :: l in Cut(s).done ==> LF !in l
    decreases |s|
  {
    hide Cut, FirstEol;
    var k := FirstEol(s);
    LineHasNoLf(s);
    CutWithoutEol(s);
    if k < |s| {
      var t := s[k + 1..];
      CutLf(s);
      CutIsSplit(t);
      UnlinesCons(s[..k], Cut(t).done);
      assert s == s[..k] + [LF] + t;
    }
  }

  lemma CutWithoutEol(s: seq<byte>)
    ensures !HasEol(s) ==> Cut(s) == Lines([], s) && FirstEol(s) == |s|
  {
  }

  lemma LineHasNoLf(s: seq<byte>)
    ensures LF !in s[..FirstEol(s)]
  {
    forall i | 0 <= i < FirstEol(s) ensures s[i] != LF { FirstEolBefore(s, i); }
  }

  lemma UnlinesCons(l: seq<byte>, ls: seq<seq<byte>>)
    ensures Unlines([l] + ls) == l + [LF] + Unlines(ls)
  {
    assert ([l] + ls)[1..] == ls;
  }

  /** One step of the cut when there is no CR. */
  lemma CutLf(s: seq<byte>)
    requires CR !in s && HasEol(s)
    ensures var k := FirstEol(s);
      s[k] == LF && TermLen(s, k) == 1
      && Cut(s) == Lines([s[..k]] + Cut(s[k + 1..]).done, Cut(s[k + 1..]).rest)
  {
    hide FirstEol, Cut;
    var k := FirstEol(s);
    assert s[k] in s;
    assert k + 1 < |s| ==> s[k + 1] in s;
    CutStep(s);
  }

  lemma CutStep(s: seq<byte>)
    requires HasEol(s)
    ensures var k := FirstEol(s);
      var r := Cut(s[k + TermLen(s, k)..]);
      Cut(s) == Lines([s[..k]] + r.done, r.rest)
  {
  }

  lemma {:induction false} FirstEolAppend(w: seq<byte>, d: seq<byte>)
    ensures FirstEol(w + d) == if HasEol(w) then FirstEol(w) else |w| + FirstEol(d)
  {
    if w == [] {
      assert w + d == d;
    } else if !IsEol(w[0]) {
      FirstEolAppend(w[1..], d);
      assert (w + d)[1..] == w[1..] + d;
    }
  }

  predicate NoLineEnd(l: seq<byte>) { 10 !in l && 13 !in l }

  /** The terminators are the bytes 10, 13, 13 10 and 10 13, and nothing else ends a
      line; a single byte does so if what follows does not make a pair of it. */
  lemma LineEnds(l: seq<byte>, e: seq<byte>, s: seq<byte>)
    requires NoLineEnd(l) && (e == [10] || e == [13] || e == [13, 10] || e == [10, 13])
    requires |e| == 1 && s != [] ==> !(e[0] == 10 && s[0] == 13) && !(e[0] == 13 && s[0] == 10)
    ensures Cut(l + e + s) == Lines([l] + Cut(s).done, Cut(s).rest)
    ensures Cut(l) == Lines([], l)
  {
    hide Cut;
    var w := l + e + s;
    forall i | 0 <= i < |l| ensures !IsEol(l[i]) && w[i] == l[i] { assert l[i] in l; }
    FirstEolIs(l, |l|);
    CutWithoutEol(l);
    FirstEolIs(w, |l|);
    CutStep(w);
    assert w[..|l|] == l && w[|l| + |e|..] == s;
  }

  // ------------------------------------------------------- cutting in two steps

  /** The stream ends in a terminator of one byte. */
  predicate Half(s: seq<byte>)
    decreases |s|
  {
    var k := FirstEol(s);
    k < |s| && if k + TermLen(s, k) == |s| then TermLen(s, k) == 1 else Half(s[k + TermLen(s, k)..])
  }

  lemma {:induction false} HalfEnds(s: seq<byte>)
    requires Half(s)
    ensures s != [] && IsEol(s[|s| - 1]) && Cut(s).rest == []
    decreases |s|
  {
    var k := FirstEol(s);
    var t := TermLen(s, k);
    if k + t < |s| { HalfEnds(s[k + t..]); } else { assert s[k + t..] == []; }
  }

  /** The first byte of d is the second byte of a terminator whose first ends s. */
  predicate Completes(s: seq<byte>, d: seq<byte>)
  {
    Half(s) && d != [] && s != [] && IsPair(s[|s| - 1], d[0])
  }

  /** Cutting may be resumed at any boundary: behind the last terminator, or, where d
      completes it, one byte later. */
  lemma {:induction false} CutAppend(w: seq<byte>, d: seq<byte>)
    ensures if Completes(w, d) then Cut(w + d) == Lines(Cut(w).done + Cut(d[1..]).done, Cut(d[1..]).rest)
            else var c := Cut(Cut(w).rest + d); Cut(w + d) == Lines(Cut(w).done + c.done, c.rest)
    ensures d != [] ==> Half(w + d) == if Completes(w, d) then Half(d[1..]) else Half(Cut(w).rest + d)
    decreases |w|
  {
    hide FirstEol, Cut, Half;
    FirstEolAppend(w, d);
    CutWithoutEol(w);
    HalfStep(w);
    if HasEol(w) {
      var k := FirstEol(w);
      var t := TermLen(w, k);
      var r := w[k + t..];
      CutStep(w);
      if k + t < |w| {
        CutAppend(r, d);
        ManyLines(w, d, k, t);
      } else {
        LastLine(w, d, k, t);
        assert [] + d == d;
      }
    }
  }

  lemma ManyLines(w: seq<byte>, d: seq<byte>, k: nat, t: nat)
    requires k == FirstEol(w) == FirstEol(w + d) && k < |w| && t == TermLen(w, k) && k + t < |w|
    ensures var r := w[k + t..];
      && Cut(w + d) == Lines([w[..k]] + Cut(r + d).done, Cut(r + d).rest)
      && Half(w + d) == Half(r + d) && Half(w) == Half(r) && (Completes(w, d) <==> Completes(r, d))
      && (forall x :: [w[..k]] + (Cut(r).done + x) == [w[..k]] + Cut(r).done + x)
  {
    hide FirstEol, Cut, Half;
    var r := w[k + t..];
    assert TermLen(w + d, k) == t && (w + d)[k + t..] == r + d && (w + d)[..k] == w[..k];
    CutStep(w + d);
    HalfStep(w);
    HalfStep(w + d);
    assert r[|r| - 1] == w[|w| - 1];
    forall x ensures [w[..k]] + (Cut(r).done + x) == [w[..k]] + Cut(r).done + x {}
  }

  lemma LastLine(w: seq<byte>, d: seq<byte>, k: nat, t: nat)
    requires k == FirstEol(w) == FirstEol(w + d) && k < |w| && t == TermLen(w, k) && k + t == |w|
    ensures Cut(w) == Lines([w[..k]], []) && Half(w) == (t == 1)
    ensures var e := if Completes(w, d) then d[1..] else d;
      && Cut(w + d) == Lines([w[..k]] + Cut(e).done, Cut(e).rest)
      && (d != [] ==> Half(w + d) == Half(e))
  {
    hide FirstEol, Cut, Half;
    CutStep(w);
    HalfStep(w);
    assert w[k + t..] == [];
    NothingToCut();
    var e := if Completes(w, d) then d[1..] else d;
    assert (w + d)[..k] == w[..k];
    assert (w + d)[k + TermLen(w + d, k)..] == e;
    CutStep(w + d);
    HalfStep(w + d);
    if e == [] { assert |w + d| == k + TermLen(w + d, k); }
  }

  lemma NothingToCut()
    ensures Cut([]) == Lines([], []) && !Half([])
  {
  }

  lemma HalfStep(s: seq<byte>)
    ensures Half(s) == var k := FirstEol(s);
      HasEol(s) && if k + TermLen(s, k) == |s| then TermLen(s, k) == 1 else Half(s[k + TermLen(s, k)..])
  {
    hide FirstEol, TermLen;
  }

  // ------------------------------------------------- where a pair is taken apart

  /** How many terminator bytes stand at the front, each pairing with the next. */
  function PairRun(d: seq<byte>): nat
  {
    if d == [] || !IsEol(d[0]) then 0
    else if |d| > 1 && IsPair(d[0], d[1]) then 1 + PairRun(d[1..])
    else 1
  }

  /** Cutting from a terminator byte on instead of behind it gives one more empty
      line if that run is odd, and the same lines if it is even. */
  lemma {:induction false} OneByteMore(d: seq<byte>)
    requires d != [] && IsEol(d[0])
    ensures Cut(d).done == Extra(PairRun(d)) + Cut(d[1..]).done
    ensures Cut(d).rest == Cut(d[1..]).rest
    ensures if PairRun(d) % 2 == 1 then Half(d[1..]) ==> Half(d) else Half(d) ==> Half(d[1..])
    decreases |d|
  {
    var e := d[1..];
    assert Extra(1) == [[]];
    FirstTerminator(d);
    NothingToCut();
    RunStep(d);
    hide FirstEol, Cut, Half, PairRun, Extra;
    if |d| > 1 && IsPair(d[0], d[1]) {
      OneByteMore(e);
      assert e[1..] == d[2..];
      Shifted(Cut(d).done, Cut(e).done, Cut(d[2..]).done, PairRun(e));
    }
  }

  /** An empty line after an odd number of terminator bytes. */
  function Extra(n: nat): seq<seq<byte>> { if n % 2 == 1 then [[]] else [] }

  lemma Shifted(a: seq<seq<byte>>, b: seq<seq<byte>>, c: seq<seq<byte>>, n: nat)
    requires a == [[]] + c && b == Extra(n) + c
    ensures a == Extra(n + 1) + b
  {
    if n % 2 == 1 { assert [] + b == b; } else { assert [] + c == c; }
  }

  lemma RunStep(d: seq<byte>)
    requires d != [] && IsEol(d[0])
    ensures PairRun(d) == 1 + (if |d| > 1 && IsPair(d[0], d[1]) then PairRun(d[1..]) else 0)
  {
  }

  /** A stream that begins with a terminator. */
  lemma FirstTerminator(d: seq<byte>)
    requires d != [] && IsEol(d[0])
    ensures var t := if |d| > 1 && IsPair(d[0], d[1]) then 2 else 1;
      && Cut(d) == Lines([[]] + Cut(d[t..]).done, Cut(d[t..]).rest)
      && Half(d) == if t == |d| then t == 1 else Half(d[t..])
  {
    FirstEolIs(d, 0);
    hide FirstEol, Cut, Half;
    CutStep(d);
    HalfStep(d);
    assert d[..0] == [];
  }

  /** A stream s whose lines are those handed out and those of the window w at its
      end, continued by d: they still are, unless d completes a pair whose first half
      has been handed out as a whole terminator and begins an odd run of terminators. */
  predicate Shifts(s: seq<byte>, w: seq<byte>, d: seq<byte>)
  {
    Completes(s, d) && !Half(w) && PairRun(d) % 2 == 1
  }

  predicate AtEnd(w: seq<byte>, s: seq<byte>) { |w| <= |s| && w == s[|s| - |w|..] }

  lemma Continues(s: seq<byte>, w: seq<byte>, out: seq<seq<byte>>, d: seq<byte>)
    requires AtEnd(w, s) && (Half(w) ==> Half(s))
    requires Cut(s) == Lines(out + Cut(w).done, Cut(w).rest)
    requires !Shifts(s, w, d)
    ensures AtEnd(w + d, s + d) && (Half(w + d) ==> Half(s + d))
    ensures Cut(s + d) == Lines(out + Cut(w + d).done, Cut(w + d).rest)
  {
    hide Cut, Half, PairRun, Extra, Completes;
    SameEnd(s, w, d);
    if d == [] {
      assert s + d == s && w + d == w;
    } else if Completes(s, d) && !Half(w) {
      TakenApart(s, w, out, d);
      NoExtra(PairRun(d), Cut(d[1..]).done);
    } else {
      SameSteps(s, w, d);
      BothContinue(s, w, out, d);
    }
  }

  lemma SameSteps(s: seq<byte>, w: seq<byte>, d: seq<byte>)
    requires AtEnd(w, s) && (Half(w) ==> Half(s)) && !(Completes(s, d) && !Half(w))
    ensures Completes(s, d) <==> Completes(w, d)
  {
    hide Half;
    SameEnd(s, w, d);
    if Half(w) { HalfEnds(w); }
  }

  lemma BothContinue(s: seq<byte>, w: seq<byte>, out: seq<seq<byte>>, d: seq<byte>)
    requires Cut(s) == Lines(out + Cut(w).done, Cut(w).rest) && d != []
    requires Completes(s, d) <==> Completes(w, d)
    ensures Cut(s + d) == Lines(out + Cut(w + d).done, Cut(w + d).rest)
    ensures Half(s + d) == Half(w + d)
  {
    hide Cut, Half, Completes;
    CutAppend(s, d);
    CutAppend(w, d);
    var more := Cut(if Completes(s, d) then d[1..] else Cut(w).rest + d).done;
    Associates(out, Cut(w).done, more);
  }

  /** The stream goes on behind the first byte of d, the window before it. */
  lemma TakenApart(s: seq<byte>, w: seq<byte>, out: seq<seq<byte>>, d: seq<byte>)
    requires Cut(s) == Lines(out + Cut(w).done, Cut(w).rest)
    requires Completes(s, d) && !Half(w)
    ensures var before, more := out + Cut(w).done, Cut(d[1..]).done;
      && Cut(s + d) == Lines(before + more, Cut(d[1..]).rest)
      && out + Cut(w + d).done == before + (Extra(PairRun(d)) + more)
      && Cut(w + d).rest == Cut(d[1..]).rest
    ensures PairRun(d) % 2 == 0 && Half(w + d) ==> Half(s + d)
  {
    HalfEnds(s);
    hide Cut, Half, PairRun, Extra;
    CutAppend(s, d);
    CutAppend(w, d);
    assert Cut(w).rest + d == d;
    OneByteMore(d);
    Associates(out, Cut(w).done, Cut(d).done);
  }

  /** Handing out the first line of the window. */
  lemma TakesLine(s: seq<byte>, w: seq<byte>, out: seq<seq<byte>>)
    requires AtEnd(w, s) && (Half(w) ==> Half(s)) && HasEol(w)
    requires Cut(s) == Lines(out + Cut(w).done, Cut(w).rest)
    ensures var k := FirstEol(w);
      var w' := w[k + TermLen(w, k)..];
      && AtEnd(w', s) && (Half(w') ==> Half(s))
      && Cut(s) == Lines(out + [w[..k]] + Cut(w').done, Cut(w').rest)
      && |Cut(w).done| == 1 + |Cut(w').done|
  {
    hide FirstEol, Cut, Half;
    CutStep(w);
    HalfStep(w);
    NothingToCut();
    var k := FirstEol(w);
    var w' := w[k + TermLen(w, k)..];
    Associates(out, [w[..k]], Cut(w').done);
    assert w' == s[|s| - |w'|..];
  }

  /** And otherwise the window yields exactly one line more, an empty one. */
  lemma OneLineMore(s: seq<byte>, w: seq<byte>, out: seq<seq<byte>>, d: seq<byte>)
    requires Cut(s) == Lines(out + Cut(w).done, Cut(w).rest) && Shifts(s, w, d)
    ensures Cut(s + d).done == out + Cut(w).done + Cut(d[1..]).done
    ensures out + Cut(w + d).done == out + Cut(w).done + [[]] + Cut(d[1..]).done
    ensures Cut(s + d).rest == Cut(w + d).rest == Cut(d[1..]).rest
    ensures Cut(s + d).done != out + Cut(w + d).done
  {
    assert Extra(PairRun(d)) == [[]];
    hide Cut, Half, PairRun, Extra;
    TakenApart(s, w, out, d);
    OneLonger(out + Cut(w).done, Cut(d[1..]).done);
  }

  lemma OneLonger(a: seq<seq<byte>>, b: seq<seq<byte>>)
    ensures a + ([[]] + b) == a + [[]] + b && a + b != a + [[]] + b
  {
    assert |a + b| != |a + [[]] + b|;
  }

  lemma NoExtra(n: nat, ls: seq<seq<byte>>)
    requires n % 2 == 0
    ensures Extra(n) + ls == ls
  {
  }

  lemma SameEnd(s: seq<byte>, w: seq<byte>, d: seq<byte>)
    requires AtEnd(w, s)
    ensures AtEnd(w + d, s + d)
    ensures w != [] ==> w[|w| - 1] == s[|s| - 1]
  {
    assert (s + d)[|s + d| - |w + d|..] == w + d;
  }

  // -------------------------------------------------------- lines that hold text

  /** The lines that are not empty. */
  function Texts(ls: seq<seq<byte>>): seq<seq<byte>>
  {
    if ls == [] then [] else (if ls[0] == [] then [] else [ls[0]]) + Texts(ls[1..])
  }

  lemma {:induction false} TextsAdd(a: seq<seq<byte>>, b: seq<seq<byte>>)
    ensures Texts(a + b) == Texts(a) + Texts(b)
  {
    if a == [] {
      assert a + b == b;
    } else {
      TextsAdd(a[1..], b);
      assert (a + b)[0] == a[0] && (a + b)[1..] == a[1..] + b;
      var first := if a[0] == [] then [] else [a[0]];
      assert Texts(a) == first + Texts(a[1..]) && Texts(a + b) == first + Texts(a[1..] + b);
      hide Texts;
      Associates(first, Texts(a[1..]), Texts(b));
    }
  }

  lemma Associates<T>(a: seq<T>, b: seq<T>, c: seq<T>)
    ensures a + (b + c) == a + b + c
  {
  }

  /** For them cutting may be resumed anywhere. */
  lemma TextsAppend(w: seq<byte>, d: seq<byte>)
    ensures var c := Cut(Cut(w).rest + d);
      && Texts(Cut(w + d).done) == Texts(Cut(w).done) + Texts(c.done)
      && Cut(w + d).rest == c.rest
  {
    hide Cut, Half, FirstEol;
    CutAppend(w, d);
    if Completes(w, d) {
      HalfEnds(w);
      assert Cut(w).rest + d == d;
      OneByteMore(d);
      TextsAdd(Cut(w).done, Cut(d[1..]).done);
      TextsAdd(Extra(PairRun(d)), Cut(d[1..]).done);
      assert Texts([[]]) == Texts([]) == [];
    } else {
      TextsAdd(Cut(w).done, Cut(Cut(w).rest + d).done);
    }
  }
}
