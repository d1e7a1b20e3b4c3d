/**
 Strings in which a backslash stands before a u: when the parser's passes run, the
 result is an error or shorter than the string, whatever is behind the u and however
 the characters that replace escapes combine with what stands around them.
 */
module JsonLengths {
  import opened Wrappers
  import opened JsonStrings
  import opened JsonEscapes

  // ------------------------------------------------- how long the end result is

  /** The length of x when each escape has become one character and two backslashes
      in a row have become one; `odd` tells that an odd number of backslashes stands
      before x. */
  ghost function Bound(x: string, odd: bool): int
  {
    if x == "" then 0
    else if EscapeAt(x, 0) then -4 + Bound(x[1..], odd)
    else if x[0] == '\\' then (if odd then 0 else 1) + Bound(x[1..], !odd)
    else 1 + Bound(x[1..], false)
  }

  lemma {:induction false} OddBound(x: string)
    ensures Bound(x, true) <= Bound(x, false) <= Bound(x, true) + 1
    ensures x != "" && x[0] != '\\' ==> Bound(x, true) == Bound(x, false)
  {
    if x != "" && x[0] == '\\' { OddBound(x[1..]); }
  }

  lemma BoundCons(c: char, t: string, odd: bool)
    ensures c != '\\' ==> Bound([c] + t, odd) == 1 + Bound(t, false)
    ensures c == '\\' && t != "" && t[0] == 'u' ==> Bound([c] + t, odd) == -4 + Bound(t, odd)
    ensures c == '\\' && !(t != "" && t[0] == 'u') ==> Bound([c] + t, odd) == (if odd then 0 else 1) + Bound(t, !odd)
  {
    var x := [c] + t;
    assert x[1..] == t;
  }

  /** One character in place of an escape, at the front. */
  lemma FrontShrinks(c: char, e: string, q: string, odd: bool)
    requires Bound(e, odd) >= 1 + Bound(q, false)
    ensures Bound([c] + q, odd) <= Bound(e, odd)
  {
    BoundCons(c, q, odd);
    OddBound(q);
  }

  /** And anywhere; e is the text from the escape on. */
  lemma {:induction false} Shrinks(p: string, c: char, e: string, q: string, odd: bool)
    requires EscapeAt(e, 0) && forall o :: Bound(e, o) >= 1 + Bound(q, false)
    ensures Bound(p + ([c] + q), odd) <= Bound(p + e, odd)
  {
    if p == "" {
      assert p + ([c] + q) == [c] + q && p + e == e;
      FrontShrinks(c, e, q, odd);
    } else {
      var a, b := p[1..] + ([c] + q), p[1..] + e;
      assert p + ([c] + q) == [p[0]] + a && p + e == [p[0]] + b;
      BoundCons(p[0], a, odd);
      BoundCons(p[0], b, odd);
      Shrinks(p[1..], c, e, q, false);
      Shrinks(p[1..], c, e, q, !odd);
      Shrinks(p[1..], c, e, q, odd);
      OddBound(a);
    }
  }

  lemma DigitsBound(x: string, i: nat, odd: bool)
    requires Code(x, i).Some?
    ensures Bound(x[i..], odd) == 4 + Bound(x[i + 4..], false)
  {
    hide Bound;
    assert x[i..] == [x[i]] + ([x[i + 1]] + ([x[i + 2]] + ([x[i + 3]] + x[i + 4..])));
    BoundCons(x[i], [x[i + 1]] + ([x[i + 2]] + ([x[i + 3]] + x[i + 4..])), odd);
    BoundCons(x[i + 1], [x[i + 2]] + ([x[i + 3]] + x[i + 4..]), false);
    BoundCons(x[i + 2], [x[i + 3]] + x[i + 4..], false);
    BoundCons(x[i + 3], x[i + 4..], false);
  }

  /** An escape counts for one character. */
  lemma HalfBound(x: string, i: nat, odd: bool)
    requires EscapeAt(x, i) && Code(x, i + 2).Some?
    ensures Bound(x[i..], odd) == 1 + Bound(x[i + 6..], false)
  {
    hide Bound;
    assert x[i..] == [x[i]] + x[i + 1..] && x[i + 1..] == [x[i + 1]] + x[i + 2..];
    BoundCons(x[i], x[i + 1..], odd);
    BoundCons(x[i + 1], x[i + 2..], odd);
    DigitsBound(x, i + 2, false);
  }

  lemma EscapeBound(x: string, i: nat, odd: bool)
    requires EscapeAt(x, i) && EscapedChar(x, i).Some?
    ensures Bound(x[i..], odd) >= 1 + Bound(x[i + EscapedChar(x, i).value.length..], false)
  {
    hide Bound;
    HalfBound(x, i, odd);
    if EscapedChar(x, i).value.length != 6 { HalfBound(x, i + 6, false); }
  }

  // ------------------------------------------------------------ the \u loop

  /** The same bound when an escape at index 0, which the loop no longer visits, is
      not counted as one. */
  ghost function FromOne(x: string): int
  {
    if x == "" then 0 else 1 + Bound(x[1..], x[0] == '\\')
  }

  lemma ReplacedOnce(x: string, i: nat)
    requires i >= 1 && EscapeAt(x, i) && EscapedChar(x, i).Some?
    ensures var e := EscapedChar(x, i).value;
      FromOne(x[..i] + [e.c] + x[i + e.length..]) <= FromOne(x)
  {
    hide Bound;
    var e := EscapedChar(x, i).value;
    var q := x[i + e.length..];
    forall o ensures Bound(x[i..], o) >= 1 + Bound(q, false) { EscapeBound(x, i, o); }
    var y := x[..i] + [e.c] + q;
    assert x[1..] == x[1..i] + x[i..] && y[1..] == x[1..i] + ([e.c] + q);
    Shrinks(x[1..i], e.c, x[i..], q, x[0] == '\\');
  }

  ghost predicate NoneFromOne(x: string, n: nat) { forall j: nat :: 1 <= j < n ==> !EscapeAt(x, j) }

  lemma {:induction false} LoopShrinks(x: string, i: nat)
    requires i >= 1 && NoneFromOne(x, i)
    ensures var r := UnicodePass(x, i);
      r.Some? ==> FromOne(r.value) <= FromOne(x) && NoneFromOne(r.value, |r.value|)
    decreases |x|, if i < |x| then |x| - i else 0
  {
    hide FromOne, EscapedChar;
    if i < |x| {
      if EscapeAt(x, i) {
        var e := EscapedChar(x, i);
        if e.Some? {
          ReplacedOnce(x, i);
          LoopShrinks(x[..i] + [e.value.c] + x[i + e.value.length..], 1);
        }
      } else {
        LoopShrinks(x, i + 1);
      }
    }
  }

  /** The whole loop. */
  lemma PassShrinks(x: string)
    ensures var r := UnicodePass(x, 0);
      r.Some? ==> FromOne(r.value) <= Bound(x, false) && NoneFromOne(r.value, |r.value|)
  {
    hide EscapedChar;
    if x != "" {
      if EscapeAt(x, 0) {
        var e := EscapedChar(x, 0);
        if e.Some? {
          var q := x[e.value.length..];
          EscapeBound(x, 0, false);
          assert x[0..] == x;
          var y := x[..0] + [e.value.c] + q;
          assert y[1..] == q && y[0] == e.value.c;
          OddBound(q);
          LoopShrinks(y, 1);
        }
      } else {
        LoopShrinks(x, 1);
      }
    }
  }

  // ------------------------------------------------------------ the last passes

  /** The length when pairs of backslashes are halved. */
  ghost function Halves(x: string, odd: bool): nat
  {
    if x == "" then 0
    else if x[0] == '\\' then (if odd then 0 else 1) + Halves(x[1..], !odd)
    else 1 + Halves(x[1..], false)
  }

  lemma {:induction false} NoEscapeHalves(x: string, odd: bool)
    requires forall j: nat :: !EscapeAt(x, j)
    ensures Halves(x, odd) == Bound(x, odd)
  {
    if x != "" {
      assert !EscapeAt(x, 0);
      forall j: nat ensures !EscapeAt(x[1..], j) { assert !EscapeAt(x, j + 1); }
      NoEscapeHalves(x[1..], !odd);
      NoEscapeHalves(x[1..], false);
    }
  }

  lemma {:induction false} SolidusHalves(x: string, odd: bool)
    ensures Halves(Replace(x, "\\/", "/"), odd) <= Halves(x, odd)
    decreases |x|
  {
    if x != "" {
      var pat := "\\/";
      if pat <= x {
        var t := x[2..];
        assert x == pat + t;
        Match(t, pat, "/");
        SolidusHalves(t, false);
        assert ("/" + Replace(t, pat, "/"))[1..] == Replace(t, pat, "/");
        assert x[1..][1..] == t;
      } else {
        assert Replace(x, pat, "/") == [x[0]] + Replace(x[1..], pat, "/");
        SolidusHalves(x[1..], !odd);
        SolidusHalves(x[1..], false);
      }
    }
  }

  lemma {:induction false} PairsHalve(x: string)
    ensures |Replace(x, "\\\\", "\\")| <= Halves(x, false)
    decreases |x|
  {
    if x != "" {
      var pat := "\\\\";
      if pat <= x {
        var t := x[2..];
        assert x == pat + t;
        Match(t, pat, "\\");
        PairsHalve(t);
        assert x[1..][1..] == t;
      } else {
        assert Replace(x, pat, "\\") == [x[0]] + Replace(x[1..], pat, "\\");
        PairsHalve(x[1..]);
        if |x| > 1 && x[0] == '\\' { assert x[1..][0] != '\\'; }
      }
    }
  }

  lemma LastPasses(y: string)
    requires NoneFromOne(y, |y|)
    ensures |Replace(Replace(y, "\\/", "/"), "\\\\", "\\")| <= FromOne(y)
  {
    SolidusHalves(y, false);
    PairsHalve(Replace(y, "\\/", "/"));
    if y != "" {
      forall j: nat ensures !EscapeAt(y[1..], j) {
        if j + 1 < |y| { assert !EscapeAt(y, j + 1); }
      }
      NoEscapeHalves(y[1..], y[0] == '\\');
    }
  }

  // ------------------------------------------------------------ the escaped text

  /** Before the \u pass the bound is the length of the string, less four for every
      backslash before a u, as the printer doubles that backslash and the second one
      begins an escape. */
  lemma {:induction false} StageBound(s: string, behind: bool)
    ensures Bound(Stage(s, behind, 6), false) <= |s| - (if NoSlashU(s, false) then 0 else 4)
  {
    if s != "" {
      var r := s[1..];
      var t := Stage(r, s[0] == SLASH, 6);
      StageBound(r, s[0] == SLASH);
      TokBound(s[0], behind, r, t);
      if s[0] == SLASH {
        SlashUCons(s);
      }
    }
  }

  lemma SlashUCons(s: string)
    requires s != ""
    ensures NoSlashU(s, false) <==> !(s[0] == SLASH && |s| > 1 && s[1] == 'u') && NoSlashU(s[1..], false)
  {
    if |s| > 1 { assert s[1..][0] == s[1]; }
  }

  lemma TokBound(c: char, behind: bool, r: string, t: string)
    requires t == Stage(r, c == SLASH, 6)
    ensures Bound(Tok(c, behind, r, 6) + t, false)
         <= Bound(t, false) + (if c == SLASH && r != "" && r[0] == 'u' then -3 else 1)
  {
    hide Bound;
    var k := Tok(c, behind, r, 6);
    OddBound(t);
    if c == SLASH {
      FirstIs(r, 6, 'u');
      if |k| == 1 {
        BoundCons('\\', t, false);
      } else {
        assert k + t == ['\\'] + (['\\'] + t);
        BoundCons('\\', ['\\'] + t, false);
        BoundCons('\\', t, true);
      }
    } else if c == ESC {
      var x := k + t;
      assert x[0..] == x && x[6..] == t;
      assert x[0] == '\\' && x[1] == 'u' && x[2] == '0' && x[3] == '0' && x[4] == '1' && x[5] == 'b';
      HalfBound(x, 0, false);
    } else {
      BoundCons(k[0], t, false);
    }
  }

  /** Undone, a string with a backslash before a u is shorter than it was. */
  lemma SlashUShrinks(s: string)
    requires !NoSlashU(s, false)
    ensures Unescape(Body(s)).Some? ==> |Unescape(Body(s)).value| < |s|
  {
    hide Stage, Replace, UnicodePass, Bound, NoSlashU;
    FirstPasses(s);
    var x := Stage(s, false, 6);
    StageBound(s, false);
    PassShrinks(x);
    var r := UnicodePass(x, 0);
    if r.Some? { LastPasses(r.value); }
  }
}
