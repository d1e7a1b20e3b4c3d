/**
 The two directions for one string: what the printer's passes produce, what the
 parser's passes undo, and exactly which strings survive.
 */
module JsonEscapes {
  import opened Wrappers
  import opened JsonStrings

  // ------------------------------------------------------------- the \u pass

  function HexDigit(c: char): int
  {
    if '0' <= c <= '9' then c as int - '0' as int
    else if 'a' <= c <= 'f' then c as int - 'a' as int + 10
    else if 'A' <= c <= 'F' then c as int - 'A' as int + 10
    else -1
  }

  /** The digit at a position; reading at the end of a string gives 0. */
  function DigitAt(s: string, i: nat): int { if i < |s| then HexDigit(s[i]) else -1 }

  /** The code of the four digits from i on, if they are digits. */
  function Code(s: string, i: nat): (r: Option<nat>)
    ensures r.Some? ==> i + 4 <= |s| && r.value < 0x1_0000
  {
    if DigitAt(s, i) < 0 || DigitAt(s, i + 1) < 0 || DigitAt(s, i + 2) < 0 || DigitAt(s, i + 3) < 0 then None
    else Some(DigitAt(s, i) * 0x1000 + DigitAt(s, i + 1) * 0x100 + DigitAt(s, i + 2) * 0x10 + DigitAt(s, i + 3))
  }

  predicate EscapeAt(s: string, i: nat) { i + 1 < |s| && s[i] == '\\' && s[i + 1] == 'u' }

  datatype Escape = Escape(c: char, length: nat)

  /** The character the escape at i stands for, and how long the escape is: a code
      in the surrogate range needs a second escape right behind it.  A code that is
      no character, 0 among them, is an error of the formatting function. */
  function EscapedChar(s: string, i: nat): (r: Option<Escape>)
    requires EscapeAt(s, i)
    ensures r.Some? ==> i + r.value.length <= |s| && r.value.length >= 6
  {
    var high := Code(s, i + 2);
    if high.None? || high.value == 0 then None
    else if !(0xD800 <= high.value < 0xE000) then Some(Escape(high.value as char, 6))
    else if !EscapeAt(s, i + 6) then None
    else
      var low := Code(s, i + 8);
      if low.None? then None
      else
        var point := 0x1_0000 + (high.value - 0xD800) * 0x400 + low.value - 0xDC00;
        if point < 0xD800 || 0xE000 <= point < 0x11_0000 then Some(Escape(point as char, 12)) else None
  }

  /** The loop over \uXXXX, which goes on at index 1 after each replacement. */
  function UnicodePass(s: string, i: nat): Option<string>
    decreases |s|, if i < |s| then |s| - i else 0
  {
    if i >= |s| then Some(s)
    else if EscapeAt(s, i) then
      var e := EscapedChar(s, i);
      if e.None? then None
      else UnicodePass(s[..i] + [e.value.c] + s[i + e.value.length..], 1)
    else UnicodePass(s, i + 1)
  }

  /** The parser's passes in their order. */
  function Unescape(raw: string): Option<string>
  {
    var p1 := Replace(raw, "\\\"", "\"");
    var p2 := Replace(p1, "\\b", [BS]);
    var p3 := Replace(p2, "\\f", [FF]);
    var p4 := Replace(p3, "\\n", [NL]);
    var p5 := Replace(p4, "\\r", [CR]);
    var p6 := Replace(p5, "\\t", [TAB]);
    var p7 := UnicodePass(p6, 0);
    if p7.None? then None
    else Some(Replace(Replace(p7.value, "\\/", "/"), "\\\\", "\\"))
  }

  /** No backslash directly before a u. */
  predicate NoSlashU(s: string, behind: bool)
  {
    s == "" || (!(behind && s[0] == 'u') && NoSlashU(s[1..], s[0] == SLASH))
  }

  predicate NoEscape(x: string, n: nat) { forall j: nat :: j < n ==> !EscapeAt(x, j) }

  lemma {:induction false} SkipAhead(x: string, i: nat, n: nat)
    requires i <= n <= |x| && NoEscape(x, n)
    ensures UnicodePass(x, i) == UnicodePass(x, n)
    decreases n - i
  {
    if i < n { SkipAhead(x, i + 1, n); }
  }

  /** Between passes 6 and 7 only \u001b is an escape, and the loop finds it all. */
  lemma {:induction false} UnicodeLoop(a: string, s: string, behind: bool, i: nat)
    requires i <= |a| && NoSlashU(s, behind) && NoEscape(a + Stage(s, behind, 6), |a|)
    ensures UnicodePass(a + Stage(s, behind, 6), i) == Some(a + Stage(s, behind, 7))
    decreases |s|
  {
    hide UnicodePass, NoEscape, Tok, EscapeAt;
    var x := a + Stage(s, behind, 6);
    SkipAhead(x, i, |a|);
    if s == "" {
      assert x == a && a + Stage(s, behind, 7) == a;
      PassEnds(a);
    } else {
      OneToken(a, s, behind);
      var k := Tok(s[0], behind, s[1..], 7);
      UnicodeLoop(a + k, s[1..], s[0] == SLASH, if s[0] == ESC then 1 else |a|);
      assert a + k + Stage(s[1..], s[0] == SLASH, 7) == a + (k + Stage(s[1..], s[0] == SLASH, 7));
    }
  }

  lemma PassEnds(a: string)
    ensures UnicodePass(a, |a|) == Some(a)
  {
  }

  lemma OneToken(a: string, s: string, behind: bool)
    requires s != "" && NoSlashU(s, behind) && NoEscape(a + Stage(s, behind, 6), |a|)
    ensures var x := a + Tok(s[0], behind, s[1..], 7) + Stage(s[1..], s[0] == SLASH, 6);
      && NoEscape(x, |a + Tok(s[0], behind, s[1..], 7)|)
      && UnicodePass(a + Stage(s, behind, 6), |a|) == UnicodePass(x, if s[0] == ESC then 1 else |a|)
  {
    hide Tok, UnicodePass;
    var t := Stage(s[1..], s[0] == SLASH, 6);
    assert a + Stage(s, behind, 6) == a + (Tok(s[0], behind, s[1..], 6) + t);
    if s[0] == ESC {
      EscapeToken(a, behind, s[1..], t);
    } else {
      OtherToken(a, s, behind, t);
    }
  }

  lemma EscapeToken(a: string, behind: bool, rest: string, t: string)
    requires NoEscape(a + (Tok(ESC, behind, rest, 6) + t), |a|)
    ensures UnicodePass(a + (Tok(ESC, behind, rest, 6) + t), |a|) == UnicodePass(a + [ESC] + t, 1)
    ensures Tok(ESC, behind, rest, 7) == [ESC]
    ensures NoEscape(a + [ESC] + t, |a| + 1)
  {
    var x := a + ("\\u001b" + t);
    assert x[|a|..] == "\\u001b" + t;
    assert x[|a|] == '\\' && x[|a| + 1] == 'u' && x[|a| + 2] == '0' && x[|a| + 3] == '0' && x[|a| + 4] == '1' && x[|a| + 5] == 'b';
    assert Code(x, |a| + 2) == Some(0x1b);
    assert EscapedChar(x, |a|) == Some(Escape(ESC, 6));
    assert x[..|a|] == a && x[|a| + 6..] == t;
    var y := a + [ESC] + t;
    forall j: nat | j < |a| + 1 ensures !EscapeAt(y, j) {
      if j + 1 < |a| { assert !EscapeAt(x, j); }
    }
  }

  lemma OtherToken(a: string, s: string, behind: bool, t: string)
    requires s != "" && s[0] != ESC && NoSlashU(s, behind) && t == Stage(s[1..], s[0] == SLASH, 6)
    requires NoEscape(a + (Tok(s[0], behind, s[1..], 6) + t), |a|)
    ensures Tok(s[0], behind, s[1..], 7) == Tok(s[0], behind, s[1..], 6)
    ensures var k := Tok(s[0], behind, s[1..], 7);
      a + (k + t) == a + k + t && NoEscape(a + k + t, |a| + |k|)
  {
    var k := Tok(s[0], behind, s[1..], 7);
    var x := a + (k + t);
    assert x == a + k + t;
    FirstIs(s[1..], 6, 'u');
    forall j: nat | j < |a| + |k| ensures !EscapeAt(x, j) {
      if j >= |a| && j + 1 < |x| {
        assert x[j] == (k + t)[j - |a|] && x[j + 1] == (k + t)[j + 1 - |a|];
      }
    }
  }

  /** The passes for quotes and letters, on every string. */
  lemma FirstPasses(s: string)
    ensures Unescape(Body(s)) ==
      var p7 := UnicodePass(Stage(s, false, 6), 0);
      if p7.None? then None else Some(Replace(Replace(p7.value, "\\/", "/"), "\\\\", "\\"))
  {
    hide Stage, Replace, UnicodePass;
    QuotePass(s, false);
    LetterPass(s, false, 'b');
    LetterPass(s, false, 'f');
    LetterPass(s, false, 'n');
    LetterPass(s, false, 'r');
    LetterPass(s, false, 't');
  }

  /** All passes together. */
  lemma UnescapeBody(s: string)
    requires NoSlashU(s, false)
    ensures Unescape(Body(s)) == Some(Mangled(s, false))
  {
    FirstPasses(s);
    hide Stage, Replace, UnicodePass, Unescape;
    assert "" + Stage(s, false, 6) == Stage(s, false, 6) && "" + Stage(s, false, 7) == Stage(s, false, 7);
    UnicodeLoop("", s, false, 0);
    SolidusPass(s, false);
    SlashPass(s, false);
    LastStage(s, false);
  }

  // ------------------------------------------------------------- the printer

  /** The printer's passes in their order; the last one is for ESC. */
  function EncodeString(s: string): string
  {
    var v := "\"" + Replace(s, "\"", "\\\"") + "\"";
    var w := Replace(Replace(v, "\\", "\\\\"), "\\\"", "\"");
    var e2 := Replace(w, [BS], "\\b");
    var e3 := Replace(e2, [FF], "\\f");
    var e4 := Replace(e3, [NL], "\\n");
    var e5 := Replace(e4, [CR], "\\r");
    var e6 := Replace(e5, [TAB], "\\t");
    Replace(e6, [ESC], "\\u001b")
  }

  lemma {:induction false} OneCharPass(a: string, b: string, c: char, rep: string)
    ensures Replace(a + b, [c], rep) == Replace(a, [c], rep) + Replace(b, [c], rep)
  {
    if a == "" {
      assert a + b == b;
    } else {
      assert (a + b)[0] == a[0] && (a + b)[1..] == a[1..] + b;
      OneCharPass(a[1..], b, c, rep);
      assert rep + (Replace(a[1..], [c], rep) + Replace(b, [c], rep)) == rep + Replace(a[1..], [c], rep) + Replace(b, [c], rep);
      assert [a[0]] + (Replace(a[1..], [c], rep) + Replace(b, [c], rep)) == [a[0]] + Replace(a[1..], [c], rep) + Replace(b, [c], rep);
    }
  }

  /** What stands for c after the quote and backslash passes (level 1) and the
      passes for control characters up to `level`; ESC is the seventh. */
  function EncTok(c: char, level: nat): string
  {
    if c == SLASH then "\\\\"
    else if c == QUOTE then "\\\""
    else if IsControl(c) && Pass(Letter(c)) <= level then ['\\', Letter(c)]
    else if c == ESC && level >= 7 then "\\u001b"
    else [c]
  }

  function EncStage(s: string, level: nat): string
  {
    if s == "" then "" else EncTok(s[0], level) + EncStage(s[1..], level)
  }

  lemma {:induction false} EncodedIsBody(s: string, behind: bool)
    ensures EncStage(s, 7) == Stage(s, behind, 0)
  {
    if s != "" { EncodedIsBody(s[1..], s[0] == SLASH); }
  }

  /** After the first two replacements: every backslash doubled, the one put before
      a quote included. */
  function DoubledTok(c: char): string
  {
    if c == QUOTE then "\\\\\"" else if c == SLASH then "\\\\" else [c]
  }

  function Doubled(s: string): string
  {
    if s == "" then "" else DoubledTok(s[0]) + Doubled(s[1..])
  }

  lemma {:induction false} DoublesAll(s: string)
    ensures Replace(Replace(s, "\"", "\\\""), "\\", "\\\\") == Doubled(s)
  {
    if s != "" {
      var t := Replace(s[1..], "\"", "\\\"");
      DoublesAll(s[1..]);
      if s[0] == QUOTE {
        assert s == "\"" + s[1..];
        Match(s[1..], "\"", "\\\"");
        OneCharPass("\\\"", t, '\\', "\\\\");
        assert Replace("\\\"", "\\", "\\\\") == "\\\\" + Replace("\"", "\\", "\\\\") == "\\\\\"";
      } else {
        assert Replace(s, "\"", "\\\"") == [s[0]] + t;
        OneCharPass([s[0]], t, '\\', "\\\\");
      }
    }
  }

  predicate EndsInSlash(s: string) { s != "" && s[|s| - 1] == SLASH }

  /** The third replacement takes one backslash off before each quote: off the
      two before an inner quote, and off the last one of a string that ends in a
      backslash, because of the closing quote. */
  lemma {:induction false} HalvesBeforeQuotes(s: string)
    ensures Replace(Doubled(s) + "\"", "\\\"", "\"") == Halved(s)
    decreases |s|
  {
    hide Replace, EncTok, DoubledTok;
    FinalSlash();
    if s == "" {
      assert Doubled(s) + "\"" == "\"";
    } else if s[1..] == "" && s[0] == SLASH {
      assert s == "\\";
      DoubledSlash();
      assert Doubled(s) + "\"" == "\\\\\"";
    } else {
      var t := Doubled(s[1..]) + "\"";
      HalvesBeforeQuotes(s[1..]);
      NoQuoteAhead(s[1..]);
      HalveTok(s[0], t);
      assert Doubled(s) + "\"" == DoubledTok(s[0]) + t;
      EncStageCons(s);
    }
  }

  function Halved(s: string): string
  {
    if EndsInSlash(s) then EncStage(s[..|s| - 1], 1) + "\\\"" else EncStage(s, 1) + "\""
  }

  lemma DoubledSlash()
    ensures Doubled("\\") == "\\\\" && Halved("\\") == "\\\""
  {
    assert Doubled("\\") == "\\\\" + Doubled("");
    assert EncStage("", 1) == "";
  }

  lemma NoQuoteAhead(s: string)
    ensures s != "" ==> Doubled(s) != "" && Doubled(s)[0] != QUOTE
  {
  }

  lemma FinalSlash()
    ensures Replace("\\\\\"", "\\\"", "\"") == "\\\""
    ensures Replace("\"", "\\\"", "\"") == "\""
  {
    var pat := "\\\"";
    assert "\"" == [QUOTE] + "";
    Emit(QUOTE, "", pat, "\"");
    assert "\\\\\"" == ['\\'] + (pat + "");
    Emit('\\', pat + "", pat, "\"");
    Match("", pat, "\"");
  }

  lemma HalveTok(c: char, t: string)
    requires c == SLASH ==> t == "" || t[0] != QUOTE
    ensures Replace(DoubledTok(c) + t, "\\\"", "\"") == EncTok(c, 1) + Replace(t, "\\\"", "\"")
  {
    hide Replace;
    var pat := "\\\"";
    if c == QUOTE {
      assert DoubledTok(c) + t == ['\\'] + (pat + t);
      Emit('\\', pat + t, pat, "\"");
      Match(t, pat, "\"");
    } else if c == SLASH {
      assert DoubledTok(c) + t == ['\\'] + (['\\'] + t);
      Emit('\\', t, pat, "\"");
      Emit('\\', ['\\'] + t, pat, "\"");
    } else {
      Emit(c, t, pat, "\"");
    }
  }

  lemma EncStageCons(s: string)
    requires s != ""
    ensures EncStage(s, 1) == EncTok(s[0], 1) + EncStage(s[1..], 1)
    ensures !(s[1..] == "" && s[0] == SLASH) ==> Halved(s) == EncTok(s[0], 1) + Halved(s[1..])
  {
    hide EncTok;
    if |s| > 1 {
      var t := s[..|s| - 1];
      assert t[0] == s[0] && t[1..] == s[1..][..|s| - 2];
      assert EncStage(t, 1) == EncTok(s[0], 1) + EncStage(s[1..][..|s| - 2], 1);
    }
  }

  /** A pass for one control character. */
  lemma {:induction false} ControlPass(s: string, x: char)
    requires IsLetter(x)
    ensures Replace(EncStage(s, Pass(x) - 1), [Control(x)], ['\\', x]) == EncStage(s, Pass(x))
  {
    if s != "" {
      var k := EncTok(s[0], Pass(x) - 1);
      ControlPass(s[1..], x);
      OneCharPass(k, EncStage(s[1..], Pass(x) - 1), Control(x), ['\\', x]);
      ControlTok(s[0], x);
    }
  }

  lemma ControlTok(c: char, x: char)
    requires IsLetter(x)
    ensures Replace(EncTok(c, Pass(x) - 1), [Control(x)], ['\\', x]) == EncTok(c, Pass(x))
  {
    ShortReplace(EncTok(c, Pass(x) - 1), Control(x), ['\\', x]);
  }

  lemma ShortReplace(k: string, c: char, rep: string)
    requires 1 <= |k| <= 2
    ensures Replace(k, [c], rep) == (if k[0] == c then rep else [k[0]])
      + (if |k| == 1 then "" else if k[1] == c then rep else [k[1]])
  {
  }

  lemma {:induction false} EscPass(s: string)
    ensures Replace(EncStage(s, 6), [ESC], "\\u001b") == EncStage(s, 7)
  {
    if s != "" {
      EscPass(s[1..]);
      OneCharPass(EncTok(s[0], 6), EncStage(s[1..], 6), ESC, "\\u001b");
      ShortReplace(EncTok(s[0], 6), ESC, "\\u001b");
    }
  }

  /** A one-character pass in the presence of the delimiters. */
  lemma Framed(a: string, b: string, tail: string, c: char, rep: string)
    requires Replace(a, [c], rep) == b && c != QUOTE && c != SLASH
    requires tail == "\"" || tail == "\\\""
    ensures Replace("\"" + a + tail, [c], rep) == "\"" + b + tail
  {
    OneCharPass("\"" + a, tail, c, rep);
    OneCharPass("\"", a, c, rep);
    ShortReplace(tail, c, rep);
    ShortReplace("\"", c, rep);
  }

  /** All the passes for control characters. */
  lemma ControlPasses(s: string, tail: string)
    requires tail == "\"" || tail == "\\\""
    ensures var e2 := Replace("\"" + EncStage(s, 1) + tail, [BS], "\\b");
      var e3 := Replace(e2, [FF], "\\f");
      var e4 := Replace(e3, [NL], "\\n");
      var e5 := Replace(e4, [CR], "\\r");
      var e6 := Replace(e5, [TAB], "\\t");
      Replace(e6, [ESC], "\\u001b") == "\"" + Body(s) + tail
  {
    hide Replace, EncStage, Stage;
    ControlPass(s, 'b');
    Framed(EncStage(s, 1), EncStage(s, 2), tail, BS, "\\b");
    ControlPass(s, 'f');
    Framed(EncStage(s, 2), EncStage(s, 3), tail, FF, "\\f");
    ControlPass(s, 'n');
    Framed(EncStage(s, 3), EncStage(s, 4), tail, NL, "\\n");
    ControlPass(s, 'r');
    Framed(EncStage(s, 4), EncStage(s, 5), tail, CR, "\\r");
    ControlPass(s, 't');
    Framed(EncStage(s, 5), EncStage(s, 6), tail, TAB, "\\t");
    EscPass(s);
    Framed(EncStage(s, 6), EncStage(s, 7), tail, ESC, "\\u001b");
    EncodedIsBody(s, false);
  }

  /** What is printed: the escaped characters between quotes, except that a final
      backslash is printed once, which escapes the closing quote. */
  lemma EncodeStringIs(s: string)
    ensures EncodeString(s) == if EndsInSlash(s) then "\"" + Body(s[..|s| - 1]) + "\\\"" else "\"" + Body(s) + "\""
  {
    hide Replace, EncStage, Stage;
    FirstReplacements(s);
    assert "\"" + Halved(s) == if EndsInSlash(s) then "\"" + EncStage(s[..|s| - 1], 1) + "\\\"" else "\"" + EncStage(s, 1) + "\"";
    if EndsInSlash(s) {
      ControlPasses(s[..|s| - 1], "\\\"");
    } else {
      ControlPasses(s, "\"");
    }
  }

  lemma FirstReplacements(s: string)
    ensures var v := "\"" + Replace(s, "\"", "\\\"") + "\"";
      Replace(Replace(v, "\\", "\\\\"), "\\\"", "\"") == "\"" + Halved(s)
  {
    var q := Replace(s, "\"", "\\\"");
    var v := "\"" + q + "\"";
    assert Replace(v, "\\", "\\\\") == "\"" + Doubled(s) + "\"" by {
      hide Replace, Doubled;
      OneCharPass("\"" + q, "\"", '\\', "\\\\");
      OneCharPass("\"", q, '\\', "\\\\");
      ShortReplace("\"", '\\', "\\\\");
      DoublesAll(s);
    }
    hide Replace, Doubled, Halved;
    assert "\"" + Doubled(s) + "\"" == [QUOTE] + (Doubled(s) + "\"");
    Emit(QUOTE, Doubled(s) + "\"", "\\\"", "\"");
    HalvesBeforeQuotes(s);
  }

  /** A string of one character, for every character but the backslash: the escapes are
      those of section 7 of RFC 8259, and ESC is written by its code. */
  lemma OneCharacter(c: char)
    requires c != '\\'
    ensures EncodeString([c]) ==
      if c == '"' then "\"\\\"\"" else if c == '\n' then "\"\\n\"" else if c == '\r' then "\"\\r\""
      else if c == '\t' then "\"\\t\"" else if c == '\U{0008}' then "\"\\b\"" else if c == '\U{000C}' then "\"\\f\""
      else if c == '\U{001B}' then "\"\\u001b\"" else "\"" + [c] + "\""
  {
    EncodeStringIs([c]);
    assert [c][1..] == "" && Stage("", false, 0) == "";
    assert Body([c]) == Tok(c, false, "", 0) + "";
  }

  /** The sixteen digits, in either case. */
  lemma HexDigits(d: nat)
    requires d < 16
    ensures HexDigit("0123456789abcdef"[d]) == d && HexDigit("0123456789ABCDEF"[d]) == d
  {
  }

  /** Two escapes that make one character, as in section 7 of RFC 8259: its G clef. */
  lemma SurrogatePair()
    ensures UnicodePass("\\uD834\\uDD1E", 0) == Some("\U{1D11E}")
    ensures UnicodePass("\\u0041", 0) == Some("A")
  {
    var s, a := "\\uD834\\uDD1E", "\\u0041";
    assert Code(s, 2) == Some(0xD834) && Code(s, 8) == Some(0xDD1E);
    assert EscapedChar(s, 0) == Some(Escape('\U{1D11E}', 12));
    assert s[..0] + ['\U{1D11E}'] + s[12..] == "\U{1D11E}";
    assert Code(a, 2) == Some(0x41);
    assert a[..0] + ['A'] + a[6..] == "A";
  }
}
