/**
 String escapes of the JSON printer and parser.  Both rewrite whole strings in
 several passes, one escape after the other; `Stage` gives the text between the
 parser's passes character by character, so that each pass can be seen to do its
 own part and to leave the others alone.
 */
module JsonStrings {
  import opened Wrappers

  const BS: char := '\U{0008}'
  const FF: char := '\U{000C}'
  const NL: char := '\n'
  const CR: char := '\r'
  const TAB: char := '\t'
  const ESC: char := '\U{001B}'
  const QUOTE: char := '"'
  const SLASH: char := '\\'

  /** replace_string: all non-overlapping occurrences from the left. */
  function Replace(s: string, pat: string, rep: string): string
    requires pat != ""
    decreases |s|
  {
    if s == "" then ""
    else if pat <= s then rep + Replace(s[|pat|..], pat, rep)
    else [s[0]] + Replace(s[1..], pat, rep)
  }

  predicate Contains(s: string, pat: string) { exists i :: 0 <= i <= |s| && pat <= s[i..] }

  lemma {:induction false} ReplaceAbsent(s: string, pat: string, rep: string)
    requires pat != "" && !Contains(s, pat)
    ensures Replace(s, pat, rep) == s
    decreases |s|
  {
    if s != "" {
      assert s[0..] == s;
      forall i | 0 <= i <= |s[1..]| ensures !(pat <= s[1..][i..]) {
        assert s[1..][i..] == s[i + 1..];
      }
      ReplaceAbsent(s[1..], pat, rep);
    }
  }

  /** One character at the front that does not begin an occurrence. */
  lemma Emit(c: char, t: string, pat: string, rep: string)
    requires |pat| == 2 && (c != pat[0] || t == "" || t[0] != pat[1])
    ensures Replace([c] + t, pat, rep) == [c] + Replace(t, pat, rep)
  {
    assert ([c] + t)[1..] == t;
  }

  lemma Match(t: string, pat: string, rep: string)
    requires pat != ""
    ensures Replace(pat + t, pat, rep) == rep + Replace(t, pat, rep)
  {
    assert (pat + t)[|pat|..] == t;
  }

  // ------------------------------------------------------------ the escape table

  /** The letters of the two-character escapes for control characters. */
  predicate IsLetter(x: char) { x == 'b' || x == 'f' || x == 'n' || x == 'r' || x == 't' }

  function Control(x: char): char
    requires IsLetter(x)
  {
    if x == 'b' then BS else if x == 'f' then FF else if x == 'n' then NL else if x == 'r' then CR else TAB
  }

  predicate IsControl(c: char) { c == BS || c == FF || c == NL || c == CR || c == TAB }

  function Letter(c: char): (x: char)
    requires IsControl(c)
    ensures IsLetter(x) && Control(x) == c
  {
    if c == BS then 'b' else if c == FF then 'f' else if c == NL then 'n' else if c == CR then 'r' else 't'
  }

  /** The parser's passes in order: quote 1, b 2, f 3, n 4, r 5, t 6, u 7, solidus 8,
      backslash 9. */
  function Pass(x: char): nat
    requires IsLetter(x)
  {
    if x == 'b' then 2 else if x == 'f' then 3 else if x == 'n' then 4 else if x == 'r' then 5 else 6
  }

  /** A plain character behind a backslash that some pass up to `level` takes for
      the second half of an escape. */
  predicate Hit(x: char, level: nat)
  {
    (IsLetter(x) && Pass(x) <= level) || (x == '/' && level >= 8)
  }

  // ------------------------------------------------------------------ the stages

  /** What stands for c, after passes 1 to `level`, when `behind` tells whether the
      original character before it is a backslash and `rest` is what follows. */
  function Tok(c: char, behind: bool, rest: string, level: nat): (t: string)
    ensures t != ""
  {
    if c == SLASH then
      if level >= 9 || (rest != "" && Hit(rest[0], level)) then "\\" else "\\\\"
    else if behind && IsLetter(c) && Pass(c) <= level then [Control(c)]
    else if c == QUOTE then (if level >= 1 then "\"" else "\\\"")
    else if IsControl(c) then (if Pass(Letter(c)) <= level then [c] else ['\\', Letter(c)])
    else if c == ESC then (if level >= 7 then [c] else "\\u001b")
    else [c]
  }

  function Stage(s: string, behind: bool, level: nat): string
  {
    if s == "" then ""
    else Tok(s[0], behind, s[1..], level) + Stage(s[1..], s[0] == SLASH, level)
  }

  /** The escaped text between the quotes. */
  function Body(s: string): string { Stage(s, false, 0) }

  /** What the passes make of it in the end. */
  function Mangled(s: string, behind: bool): (r: string)
    ensures |r| == |s|
  {
    if s == "" then ""
    else [if behind && IsLetter(s[0]) then Control(s[0]) else s[0]] + Mangled(s[1..], s[0] == SLASH)
  }

  lemma {:induction false} LastStage(s: string, behind: bool)
    ensures Stage(s, behind, 9) == Mangled(s, behind)
  {
    if s != "" { LastStage(s[1..], s[0] == SLASH); }
  }

  /** The first character of a stage is a letter, or u, or a solidus, only where the
      original character is. */
  lemma FirstIs(s: string, level: nat, x: char)
    requires x == 'u' || x == '/' || (IsLetter(x) && Pass(x) > level)
    ensures Stage(s, true, level) != "" && Stage(s, true, level)[0] == x <==> s != "" && s[0] == x
  {
  }

  /** A letter escape pass: everything but its own escape is left alone, except a
      plain letter behind a backslash. */
  lemma {:induction false} LetterPass(s: string, behind: bool, x: char)
    requires IsLetter(x) && (behind ==> s == "" || s[0] != x)
    ensures Replace(Stage(s, behind, Pass(x) - 1), ['\\', x], [Control(x)]) == Stage(s, behind, Pass(x))
    decreases |s|
  {
    if s != "" {
      hide Replace, Tok;
      var c := s[0];
      if c == SLASH && s[1..] != "" && s[1] == x {
        assert s[1..][0] == x && s[1..][1..] == s[2..];
        LetterPass(s[2..], false, x);
        SlashHit(s, behind, x);
      } else if c == SLASH {
        LetterPass(s[1..], true, x);
        FirstIs(s[1..], Pass(x) - 1, x);
        SlashTok(behind, s[1..], Pass(x) - 1, Stage(s[1..], true, Pass(x) - 1), x);
      } else {
        LetterPass(s[1..], false, x);
        PlainTok(c, behind, s[1..], Pass(x) - 1, Stage(s[1..], false, Pass(x) - 1), x);
      }
    }
  }

  /** A backslash and a letter: the second backslash of the escape and the letter
      are taken for an escape. */
  lemma SlashHit(s: string, behind: bool, x: char)
    requires IsLetter(x) && |s| >= 2 && s[0] == SLASH && s[1] == x
    requires Replace(Stage(s[2..], false, Pass(x) - 1), ['\\', x], [Control(x)]) == Stage(s[2..], false, Pass(x))
    ensures Replace(Stage(s, behind, Pass(x) - 1), ['\\', x], [Control(x)]) == Stage(s, behind, Pass(x))
  {
    hide Replace;
    var pat := ['\\', x];
    var level := Pass(x) - 1;
    var u := Stage(s[2..], false, level);
    assert s[1..][0] == x && s[1..][1..] == s[2..];
    assert Stage(s[1..], true, level) == [x] + u;
    assert Stage(s, behind, level) == ['\\'] + (pat + u);
    Emit('\\', pat + u, pat, [Control(x)]);
    Match(u, pat, [Control(x)]);
  }

  /** A backslash before anything else: one or two backslashes stay as they are. */
  lemma SlashTok(behind: bool, rest: string, level: nat, t: string, x: char)
    requires IsLetter(x) && level == Pass(x) - 1
    requires rest == "" || rest[0] != x
    requires t == "" || t[0] != x
    ensures Replace(Tok(SLASH, behind, rest, level) + t, ['\\', x], [Control(x)])
         == Tok(SLASH, behind, rest, level + 1) + Replace(t, ['\\', x], [Control(x)])
  {
    hide Replace;
    var pat := ['\\', x];
    Emit('\\', t, pat, [Control(x)]);
    Emit('\\', ['\\'] + t, pat, [Control(x)]);
    assert "\\\\" + t == ['\\'] + (['\\'] + t);
    assert "\\\\" + Replace(t, pat, [Control(x)]) == ['\\'] + (['\\'] + Replace(t, pat, [Control(x)]));
  }

  /** The same for a token that is not a backslash. */
  lemma PlainTok(c: char, behind: bool, rest: string, level: nat, t: string, x: char)
    requires IsLetter(x) && level == Pass(x) - 1 && c != SLASH && (behind ==> c != x)
    ensures Replace(Tok(c, behind, rest, level) + t, ['\\', x], [Control(x)])
         == Tok(c, behind, rest, level + 1) + Replace(t, ['\\', x], [Control(x)])
  {
    var pat := ['\\', x];
    var rep := [Control(x)];
    var k := Tok(c, behind, rest, level);
    if k == ['\\', x] {
      Match(t, pat, rep);
    } else if |k| == 1 {
      Emit(k[0], t, pat, rep);
    } else {
      EmitAll(k, t, pat, rep);
    }
  }

  /** A token with one backslash, at its front, that is not the pattern's. */
  lemma {:induction false} EmitAll(k: string, t: string, pat: string, rep: string)
    requires |pat| == 2 && pat[0] == '\\' && k != ""
    requires k[0] == '\\' ==> |k| > 1 && k[1] != pat[1]
    requires forall i :: 1 <= i < |k| ==> k[i] != '\\'
    ensures Replace(k + t, pat, rep) == k + Replace(t, pat, rep)
    decreases |k|
  {
    assert k + t == [k[0]] + (k[1..] + t);
    Emit(k[0], k[1..] + t, pat, rep);
    if |k| == 1 {
      assert k[1..] + t == t;
    } else {
      EmitAll(k[1..], t, pat, rep);
      assert k + Replace(t, pat, rep) == [k[0]] + (k[1..] + Replace(t, pat, rep));
    }
  }

  /** The first pass puts the quotes back. */
  lemma {:induction false} QuotePass(s: string, behind: bool)
    ensures Replace(Stage(s, behind, 0), "\\\"", "\"") == Stage(s, behind, 1)
    decreases |s|
  {
    if s != "" {
      QuotePass(s[1..], s[0] == SLASH);
      NoQuoteFirst(s[1..], s[0] == SLASH);
      QuoteTok(s[0], behind, s[1..], Stage(s[1..], s[0] == SLASH, 0));
    }
  }

  lemma NoQuoteFirst(s: string, behind: bool)
    ensures Stage(s, behind, 0) == "" || Stage(s, behind, 0)[0] != QUOTE
  {
  }

  lemma QuoteTok(c: char, behind: bool, rest: string, t: string)
    requires t == "" || t[0] != QUOTE
    ensures Replace(Tok(c, behind, rest, 0) + t, "\\\"", "\"") == Tok(c, behind, rest, 1) + Replace(t, "\\\"", "\"")
  {
    hide Replace;
    var pat := "\\\"";
    var k := Tok(c, behind, rest, 0);
    if c == SLASH {
      Emit('\\', t, pat, "\"");
      Emit('\\', ['\\'] + t, pat, "\"");
      assert "\\\\" + t == ['\\'] + (['\\'] + t);
      assert "\\\\" + Replace(t, pat, "\"") == ['\\'] + (['\\'] + Replace(t, pat, "\""));
    } else if c == QUOTE {
      Match(t, pat, "\"");
    } else {
      EmitAll(k, t, pat, "\"");
    }
  }

  /** The pass over the escaped solidus takes the second backslash of an escaped
      backslash that stands before one. */
  lemma {:induction false} SolidusPass(s: string, behind: bool)
    ensures Replace(Stage(s, behind, 7), "\\/", "/") == Stage(s, behind, 8)
    decreases |s|
  {
    if s != "" {
      hide Replace, Tok;
      FirstIs(s[1..], 7, '/');
      if s[0] == SLASH && s[1..] != "" && s[1] == '/' {
        assert s[1..][0] == '/' && s[1..][1..] == s[2..];
        SolidusPass(s[2..], false);
        SolidusHit(s, behind);
      } else {
        SolidusPass(s[1..], s[0] == SLASH);
        SolidusTok(s[0], behind, s[1..], Stage(s[1..], s[0] == SLASH, 7));
      }
    }
  }

  lemma SolidusHit(s: string, behind: bool)
    requires |s| >= 2 && s[0] == SLASH && s[1] == '/'
    requires Replace(Stage(s[2..], false, 7), "\\/", "/") == Stage(s[2..], false, 8)
    ensures Replace(Stage(s, behind, 7), "\\/", "/") == Stage(s, behind, 8)
  {
    hide Replace;
    var u := Stage(s[2..], false, 7);
    assert s[1..][0] == '/' && s[1..][1..] == s[2..];
    assert Stage(s[1..], true, 7) == ['/'] + u;
    assert Stage(s, behind, 7) == ['\\'] + ("\\/" + u);
    Emit('\\', "\\/" + u, "\\/", "/");
    Match(u, "\\/", "/");
  }

  lemma SolidusTok(c: char, behind: bool, rest: string, t: string)
    requires c == SLASH ==> (rest == "" || rest[0] != '/') && (t == "" || t[0] != '/')
    ensures Replace(Tok(c, behind, rest, 7) + t, "\\/", "/") == Tok(c, behind, rest, 8) + Replace(t, "\\/", "/")
  {
    hide Replace;
    var pat := "\\/";
    if c == SLASH {
      Emit('\\', t, pat, "/");
      Emit('\\', ['\\'] + t, pat, "/");
      assert "\\\\" + t == ['\\'] + (['\\'] + t);
      assert "\\\\" + Replace(t, pat, "/") == ['\\'] + (['\\'] + Replace(t, pat, "/"));
    } else {
      EmitAll(Tok(c, behind, rest, 7), t, pat, "/");
    }
  }

  /** The last pass halves the backslashes that are left in pairs. */
  lemma {:induction false} SlashPass(s: string, behind: bool)
    ensures Replace(Stage(s, behind, 8), "\\\\", "\\") == Stage(s, behind, 9)
    decreases |s|
  {
    if s != "" {
      hide Replace, Tok;
      SlashPass(s[1..], s[0] == SLASH);
      if s[1..] != "" && Hit(s[1], 8) { AfterHit(s[1..]); }
      FinalTok(s[0], behind, s[1..], Stage(s[1..], s[0] == SLASH, 8));
    }
  }

  lemma AfterHit(s: string)
    requires s != "" && Hit(s[0], 8)
    ensures Stage(s, true, 8) != "" && Stage(s, true, 8)[0] != SLASH
  {
  }

  lemma FinalTok(c: char, behind: bool, rest: string, t: string)
    requires c == SLASH && rest != "" && Hit(rest[0], 8) ==> t == "" || t[0] != SLASH
    ensures Replace(Tok(c, behind, rest, 8) + t, "\\\\", "\\") == Tok(c, behind, rest, 9) + Replace(t, "\\\\", "\\")
  {
    hide Replace;
    var pat := "\\\\";
    if c == SLASH {
      if rest != "" && Hit(rest[0], 8) {
        Emit('\\', t, pat, "\\");
      } else {
        Match(t, pat, "\\");
      }
    } else {
      EmitAll(Tok(c, behind, rest, 8), t, pat, "\\");
    }
  }
}
