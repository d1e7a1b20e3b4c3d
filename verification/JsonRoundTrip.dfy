/**
 The parser gives back what the printer was given.
 */
module JsonRoundTrip {
  import opened Wrappers
  import opened JsonStrings
  import opened JsonEscapes
  import opened JsonLengths
  import opened JsonSpec

  /** The text e stands at position pos of t. */
  predicate At(t: string, pos: nat, e: string) { pos + |e| <= |t| && t[pos..pos + |e|] == e }

  lemma AtSplit(t: string, pos: nat, a: string, b: string)
    ensures At(t, pos, a + b) <==> At(t, pos, a) && At(t, pos + |a|, b)
  {
    if At(t, pos, a + b) {
      assert t[pos..pos + |a|] == t[pos..pos + |a + b|][..|a|];
      assert t[pos + |a|..pos + |a| + |b|] == t[pos..pos + |a + b|][|a|..];
      assert (a + b)[..|a|] == a && (a + b)[|a|..] == b;
    }
    if At(t, pos, a) && At(t, pos + |a|, b) {
      assert t[pos..pos + |a + b|] == t[pos..pos + |a|] + t[pos + |a|..pos + |a| + |b|];
    }
  }

  lemma AtFirst(t: string, pos: nat, e: string)
    requires At(t, pos, e) && e != ""
    ensures Peek(t, pos) == e[0] && pos < |t| && At(t, pos + 1, e[1..])
  {
    assert e == [e[0]] + e[1..];
    AtSplit(t, pos, [e[0]], e[1..]);
    assert t[pos..pos + 1][0] == t[pos];
  }

  /** Two texts with a separator between them. */
  lemma AtBetween(t: string, pos: nat, a: string, c: char, b: string)
    requires At(t, pos, a + ([c] + b))
    ensures At(t, pos, a) && Peek(t, pos + |a|) == c && pos + |a| < |t| && At(t, pos + |a| + 1, b)
  {
    AtSplit(t, pos, a, [c] + b);
    AtSplit(t, pos + |a|, [c], b);
    AtFirst(t, pos + |a|, [c]);
  }

  /** A text between two brackets. */
  lemma AtBrackets(t: string, pos: nat, open: char, body: string, close: char)
    requires At(t, pos, [open] + body + [close])
    ensures Peek(t, pos) == open && pos < |t| && At(t, pos + 1, body)
    ensures Peek(t, pos + 1 + |body|) == close && pos + 1 + |body| < |t|
  {
    assert [open] + body + [close] == [open] + (body + [close]);
    AtSplit(t, pos, [open], body + [close]);
    AtSplit(t, pos + 1, body, [close]);
    AtFirst(t, pos, [open]);
    AtFirst(t, pos + 1 + |body|, [close]);
  }

  // ------------------------------------------------------------------- strings

  predicate NeedsEscape(c: char) { c == QUOTE || IsControl(c) || c == ESC }

  predicate HasEscape(s: string) { exists i :: 0 <= i < |s| && NeedsEscape(s[i]) }

  predicate HasSlashLetter(s: string) { exists i :: 0 <= i < |s| - 1 && s[i] == SLASH && IsLetter(s[i + 1]) }

  /**
   The strings that survive: those without a backslash, and those in which some
   other character is escaped, no backslash stands before one of b f n r t, and
   the last character is not a backslash.
   */
  predicate Survives(s: string)
  {
    SLASH !in s || (HasEscape(s) && !HasSlashLetter(s) && !EndsInSlash(s))
  }

  /** The scan runs over the escaped text of s and notes whether it saw an escape. */
  lemma {:induction false} ScanBody(t: string, pos: nat, s: string, behind: bool, active: bool)
    requires At(t, pos, Stage(s, behind, 0)) && '\0' !in s
    ensures Scan(t, pos, false, active) == Scan(t, pos + |Stage(s, behind, 0)|, false, active || HasEscape(s))
    decreases |s|
  {
    if s != "" {
      var k := Tok(s[0], behind, s[1..], 0);
      var rest := Stage(s[1..], s[0] == SLASH, 0);
      AtSplit(t, pos, k, rest);
      ScanTok(t, pos, s[0], k, active);
      ScanBody(t, pos + |k|, s[1..], s[0] == SLASH, active || NeedsEscape(s[0]));
      HasEscapeCons(s);
    }
  }

  lemma HasEscapeCons(s: string)
    requires s != ""
    ensures HasEscape(s) <==> NeedsEscape(s[0]) || HasEscape(s[1..])
  {
    if i :| 0 <= i < |s[1..]| && NeedsEscape(s[1..][i]) { assert NeedsEscape(s[i + 1]); }
    if i :| 0 <= i < |s| && NeedsEscape(s[i]) { assert i > 0 ==> NeedsEscape(s[1..][i - 1]); }
  }

  lemma ScanTok(t: string, pos: nat, c: char, k: string, active: bool)
    requires At(t, pos, k) && c != '\0'
    requires exists behind, rest :: k == Tok(c, behind, rest, 0)
    ensures Scan(t, pos, false, active) == Scan(t, pos + |k|, false, active || NeedsEscape(c))
  {
    AtFirst(t, pos, k);
    if |k| > 1 {
      AtFirst(t, pos + 1, k[1..]);
      ScanRun(t, pos + 2, k[2..], true);
    }
  }

  /** Ordinary characters. */
  lemma {:induction false} ScanRun(t: string, pos: nat, k: string, active: bool)
    requires At(t, pos, k) && forall i :: 0 <= i < |k| ==> k[i] != '\0' && k[i] != SLASH && k[i] != QUOTE
    ensures Scan(t, pos, false, active) == Scan(t, pos + |k|, false, active)
    decreases |k|
  {
    if k != "" {
      AtFirst(t, pos, k);
      ScanRun(t, pos + 1, k[1..], active);
    }
  }

  /** Without a backslash and without escapes the body is the string itself. */
  lemma {:induction false} PlainBody(s: string, behind: bool)
    requires SLASH !in s && !HasEscape(s)
    ensures Stage(s, behind, 0) == s
  {
    if s != "" {
      HasEscapeCons(s);
      assert s[0] in s;
      PlainBody(s[1..], false);
    }
  }

  /** With a backslash it is longer. */
  lemma {:induction false} SlashBody(s: string, behind: bool)
    ensures |Stage(s, behind, 0)| >= |s|
    ensures SLASH in s ==> |Stage(s, behind, 0)| > |s|
  {
    if s != "" {
      SlashBody(s[1..], s[0] == SLASH);
      assert s == [s[0]] + s[1..];
    }
  }

  lemma {:induction false} MangledSame(s: string, behind: bool)
    ensures Mangled(s, behind) == s <==> !(behind && s != "" && IsLetter(s[0])) && !HasSlashLetter(s)
  {
    if s != "" {
      MangledSame(s[1..], s[0] == SLASH);
      MangledCons(s, behind);
      SlashLetterCons(s);
    } else {
      assert !HasSlashLetter(s);
    }
  }

  lemma MangledCons(s: string, behind: bool)
    requires s != ""
    ensures Mangled(s, behind) == s <==> !(behind && IsLetter(s[0])) && Mangled(s[1..], s[0] == SLASH) == s[1..]
  {
    assert Mangled(s, behind)[0] == if behind && IsLetter(s[0]) then Control(s[0]) else s[0];
    assert Mangled(s, behind)[1..] == Mangled(s[1..], s[0] == SLASH);
    assert s == [s[0]] + s[1..];
  }

  lemma SlashLetterCons(s: string)
    requires s != ""
    ensures HasSlashLetter(s) <==> (|s| > 1 && s[0] == SLASH && IsLetter(s[1])) || HasSlashLetter(s[1..])
  {
    if i :| 0 <= i < |s[1..]| - 1 && s[1..][i] == SLASH && IsLetter(s[1..][i + 1]) { assert s[i + 1] == SLASH; }
    if i :| 0 <= i < |s| - 1 && s[i] == SLASH && IsLetter(s[i + 1]) {
      if i > 0 { assert s[1..][i - 1] == SLASH; }
    }
  }

  /** A string whose last character is not a backslash: the passes run over its body,
      unless nothing activates them. */
  lemma ParsesString(t: string, pos: nat, s: string)
    requires '\0' !in s && !EndsInSlash(s) && At(t, pos, EncodeString(s))
    ensures ParseString(t, pos) ==
      if !HasEscape(s) then Done(Body(s), pos + |EncodeString(s)|)
      else if Unescape(Body(s)).None? then Fail
      else Done(Unescape(Body(s)).value, pos + |EncodeString(s)|)
  {
    hide Unescape, EncodeString;
    EncodeStringIs(s);
    hide Stage, EndsInSlash, HasEscape, Body;
    BodyIs(s);
    var b := Body(s);
    Between(t, pos, b);
    ScanBody(t, pos + 1, s, false, false);
  }

  lemma BodyIs(s: string)
    ensures Body(s) == Stage(s, false, 0)
  {
  }

  lemma Between(t: string, pos: nat, b: string)
    requires At(t, pos, "\"" + b + "\"")
    ensures pos + |b| + 2 <= |t| && Peek(t, pos) == QUOTE && Peek(t, pos + 1 + |b|) == QUOTE
    ensures At(t, pos + 1, b) && t[pos + 1..pos + 1 + |b|] == b
  {
    assert "\"" + b + "\"" == "\"" + (b + "\"");
    AtSplit(t, pos, "\"", b + "\"");
    AtSplit(t, pos + 1, b, "\"");
    AtFirst(t, pos, "\"");
    AtFirst(t, pos + 1 + |b|, "\"");
  }

  lemma StringSurvives(t: string, pos: nat, s: string)
    requires '\0' !in s && NoSlashU(s, false) && Survives(s) && At(t, pos, EncodeString(s))
    ensures ParseString(t, pos) == Done(s, pos + |EncodeString(s)|)
  {
    assert !EndsInSlash(s);
    ParsesString(t, pos, s);
    UnescapeBody(s);
    MangledSame(s, false);
    if !HasEscape(s) { PlainBody(s, false); }
  }

  /**
   For every string: printing and parsing gives it back if and only if it
   `Survives` and no backslash stands before a u.
   */
  lemma StringRoundTrip(s: string)
    requires '\0' !in s
    ensures var e := EncodeString(s);
      ParseString(e, 0) == Done(s, |e|) <==> Survives(s) && NoSlashU(s, false)
  {
    var e := EncodeString(s);
    assert e[0..|e|] == e;
    if EndsInSlash(s) {
      FinalSlashFails(s);
      assert SLASH in s;
    } else if !NoSlashU(s, false) {
      SlashUFails(s);
    } else {
      ParsesString(e, 0, s);
      UnescapeBody(s);
      MangledSame(s, false);
      SlashBody(s, false);
      if !HasEscape(s) && SLASH !in s { PlainBody(s, false); }
    }
  }

  /** A backslash before a u is taken for a unicode escape when the passes run, and
      stays doubled when they do not: the string never comes back. */
  lemma SlashUFails(s: string)
    requires '\0' !in s && !NoSlashU(s, false)
    ensures ParseString(EncodeString(s), 0) != Done(s, |EncodeString(s)|)
  {
    var e := EncodeString(s);
    assert e[0..|e|] == e;
    if EndsInSlash(s) {
      FinalSlashFails(s);
    } else {
      ParsesString(e, 0, s);
      SlashUShrinks(s);
      SlashUHasSlash(s, false);
      SlashBody(s, false);
    }
  }

  lemma {:induction false} SlashUHasSlash(s: string, behind: bool)
    ensures !NoSlashU(s, behind) ==> behind || SLASH in s
  {
    if s != "" { SlashUHasSlash(s[1..], s[0] == SLASH); }
  }

  /** A final backslash escapes the closing quote. */
  lemma FinalSlashFails(s: string)
    requires '\0' !in s && EndsInSlash(s)
    ensures ParseString(EncodeString(s), 0) == Fail
  {
    hide EncodeString;
    EncodeStringIs(s);
    var u := s[..|s| - 1];
    BodyIs(u);
    hide Stage, HasEscape, Body;
    var b := Body(u);
    var e := EncodeString(s);
    assert e == "\"" + (b + "\\\"");
    OpenLayout(e, b);
    ScanBody(e, 1, u, false, false);
    OpenEnd(e, 1 + |b|, HasEscape(u));
  }

  lemma OpenLayout(e: string, b: string)
    requires e == "\"" + (b + "\\\"")
    ensures |e| == |b| + 3 && Peek(e, 0) == QUOTE && At(e, 1, b) && At(e, 1 + |b|, "\\\"")
  {
    assert e[0..|e|] == e;
    AtSplit(e, 0, "\"", b + "\\\"");
    AtSplit(e, 1, b, "\\\"");
    AtFirst(e, 0, "\"");
  }

  lemma OpenEnd(t: string, pos: nat, active: bool)
    requires At(t, pos, "\\\"") && |t| == pos + 2
    ensures Scan(t, pos, false, active) == Fail
  {
    AtFirst(t, pos, "\\\"");
    AtFirst(t, pos + 1, "\"");
  }

  // ------------------------------------------------------------------- numbers

  predicate AllDigits(s: string) { forall i :: 0 <= i < |s| ==> IsDigit(s[i]) }

  lemma {:induction false} DecimalDigits(n: nat)
    ensures AllDigits(Decimal(n)) && NatOf(Decimal(n)) == n
    ensures Decimal(n)[0] == '0' <==> n == 0
    ensures n == 0 ==> Decimal(n) == "0"
  {
    if n < 10 {
      assert NatOf([Digit(n)]) == NatOf([]) * 10 + n;
    } else {
      DecimalDigits(n / 10);
      var d := Decimal(n);
      assert d[..|d| - 1] == Decimal(n / 10);
    }
  }

  /** What may stand behind a number: the end, a comma or a closing bracket. */
  predicate Stops(c: char) { c == '\0' || c == ',' || c == ']' || c == '}' }

  lemma {:induction false} NumberRun(t: string, pos: nat, from: nat, s: string)
    requires At(t, pos, s) && AllDigits(s) && Stops(Peek(t, pos + |s|)) && from < pos + |s|
    ensures NumberEnd(t, pos, from, -1, -1) == Done(false, pos + |s|)
    decreases |s|
  {
    if s != "" {
      AtFirst(t, pos, s);
      NumberRun(t, pos + 1, from, s[1..]);
    }
  }

  lemma NumberParses(t: string, pos: nat, n: int)
    requires At(t, pos, ToString(n)) && Stops(Peek(t, pos + |ToString(n)|))
    ensures ParseNumber(t, pos) == Done(Num(n), pos + |ToString(n)|)
    ensures Peek(t, pos) == '-' || IsDigit(Peek(t, pos))
  {
    hide NatOf;
    var s := ToString(n);
    AtFirst(t, pos, s);
    if n < 0 {
      var d := Decimal(-n);
      DecimalDigits(-n);
      assert s[1..] == d;
      AtFirst(t, pos + 1, d);
      NumberRun(t, pos + 1, pos, d);
    } else {
      DecimalDigits(n);
      if n > 0 { NumberRun(t, pos, pos, s); }
    }
  }

  // -------------------------------------------------------------------- values

  /** No floats, and every string and key survives and has no NUL and no backslash-u. */
  ghost predicate Good(v: Value)
    decreases v
  {
    match v
    case Num(_) => true
    case Float(_) => false
    case Str(s) => GoodString(s)
    case Arr(items) => forall i :: 0 <= i < |items| ==> Good(items[i])
    case Obj(fields) => forall k :: k in fields ==> GoodString(k) && Good(fields[k])
  }

  predicate GoodString(s: string) { '\0' !in s && NoSlashU(s, false) && Survives(s) }

  lemma SkipNone(t: string, pos: nat)
    requires pos <= |t| && !IsBlank(Peek(t, pos))
    ensures SkipBlank(t, pos) == pos
  {
  }

  lemma QuoteFirst(s: string)
    ensures EncodeString(s) != "" && EncodeString(s)[0] == QUOTE
  {
    EncodeStringIs(s);
  }

  lemma {:induction false} ValueParses(t: string, pos: nat, v: Value, o: Order)
    requires IsOrder(o, v) && Good(v)
    requires At(t, pos, Encode(v, o)) && Stops(Peek(t, pos + |Encode(v, o)|))
    ensures ParseValue(t, pos) == Done(v, pos + |Encode(v, o)|)
    decreases v, 1, 0
  {
    match v {
      case Num(n) =>
        NumberParses(t, pos, n);
        SkipNone(t, pos);
      case Str(s) =>
        StringSurvives(t, pos, s);
        QuoteFirst(s);
        AtFirst(t, pos, EncodeString(s));
        SkipNone(t, pos);
      case Arr(items) =>
        ArrayParses(t, pos, items, o);
      case Obj(fields) =>
        ObjectParses(t, pos, v, o);
    }
  }

  lemma {:induction false} ArrayParses(t: string, pos: nat, items: seq<Value>, o: Order)
    requires IsOrder(o, Arr(items)) && forall i :: 0 <= i < |items| ==> Good(items[i])
    requires At(t, pos, Encode(Arr(items), o))
    ensures ParseValue(t, pos) == Done(Arr(items), pos + |Encode(Arr(items), o)|)
    decreases items, 1, 0
  {
    hide Encode, EncodeItems, Good, At, Peek, IsOrder, AreOrders, ParseValue, ParseItems, Begins, Stops;
    var body := ArrayLayout(t, pos, items, o);
    ArrayStep(t, pos);
    if items != [] {
      ItemsFirst(items, o.parts);
      NotClosed(t, pos + 1, body);
      ItemsParse(t, pos + 1, items, o.parts);
    }
  }

  /** Where the text of an array's elements stands. */
  lemma ArrayLayout(t: string, pos: nat, items: seq<Value>, o: Order) returns (body: string)
    requires IsOrder(o, Arr(items)) && At(t, pos, Encode(Arr(items), o))
    ensures AreOrders(o.parts, items) && body == if items == [] then "" else EncodeItems(items, o.parts)
    ensures Peek(t, pos) == '[' && pos < |t| && At(t, pos + 1, body)
    ensures Peek(t, pos + 1 + |body|) == ']' && pos + 1 + |body| < |t|
    ensures |Encode(Arr(items), o)| == |body| + 2
  {
    EncodedArray(items, o);
    EmptyBrackets();
    hide Encode, EncodeItems, At, Peek;
    body := if items == [] then "" else EncodeItems(items, o.parts);
    assert Encode(Arr(items), o) == ['['] + body + [']'];
    AtBrackets(t, pos, '[', body, ']');
  }

  lemma NotClosed(t: string, pos: nat, body: string)
    requires Begins(body) && At(t, pos, body)
    ensures Peek(t, pos) != ']'
  {
  }

  lemma ArrayStep(t: string, pos: nat)
    requires Peek(t, pos) == '[' && pos < |t|
    ensures ParseValue(t, pos) ==
      if Peek(t, pos + 1) == ']' then Done(Arr([]), pos + 2)
      else if ParseItems(t, pos + 1).Fail? then Fail
      else Done(Arr(ParseItems(t, pos + 1).value), ParseItems(t, pos + 1).pos)
  {
    hide ParseItems;
    SkipNone(t, pos);
  }

  lemma EncodedArray(items: seq<Value>, o: Order)
    requires IsOrder(o, Arr(items))
    ensures Encode(Arr(items), o) == if items == [] then "[]" else "[" + EncodeItems(items, o.parts) + "]"
  {
  }

  /** How the text of a value can begin. */
  predicate Begins(e: string)
  {
    e != "" && (e[0] == '-' || IsDigit(e[0]) || e[0] == QUOTE || e[0] == '[' || e[0] == '{')
  }

  lemma EncodeFirst(v: Value, o: Order)
    requires IsOrder(o, v) && !v.Float?
    ensures Begins(Encode(v, o))
  {
    match v {
      case Num(n) => if n >= 0 { DecimalDigits(n); }
      case Str(s) => QuoteFirst(s);
      case _ =>
    }
  }

  lemma ItemsFirst(items: seq<Value>, os: seq<Order>)
    requires AreOrders(os, items) && items != [] && Good(items[0])
    ensures Begins(EncodeItems(items, os))
  {
    EncodeFirst(items[0], os[0]);
  }

  /** The first element, and what stands behind it. */
  lemma {:induction false} ItemParses(t: string, pos: nat, items: seq<Value>, os: seq<Order>)
    requires AreOrders(os, items) && items != [] && Good(items[0])
    requires At(t, pos, EncodeItems(items, os)) && Peek(t, pos + |EncodeItems(items, os)|) == ']'
    ensures var q := pos + |Encode(items[0], os[0])|;
      && q < |t| && ParseValue(t, pos) == Done(items[0], q)
      && (|items| == 1 ==> Peek(t, q) == ']' && q == pos + |EncodeItems(items, os)|)
      && (|items| > 1 ==> Peek(t, q) == ',' && At(t, q + 1, EncodeItems(items[1..], os[1..]))
                          && q + 1 + |EncodeItems(items[1..], os[1..])| == pos + |EncodeItems(items, os)|)
    decreases items, 0, 0
  {
    assert IsOrder(os[0], items[0]);
    hide Encode, EncodeItems, Good, ParseValue, At, Peek, IsOrder, AreOrders, Stops;
    ItemsLayout(t, pos, items, os);
    ValueParses(t, pos, items[0], os[0]);
  }

  lemma ItemsLayout(t: string, pos: nat, items: seq<Value>, os: seq<Order>)
    requires AreOrders(os, items) && items != []
    requires At(t, pos, EncodeItems(items, os)) && Peek(t, pos + |EncodeItems(items, os)|) == ']'
    ensures var e := Encode(items[0], os[0]);
      var q := pos + |e|;
      && q < |t| && At(t, pos, e) && Stops(Peek(t, q))
      && (|items| == 1 ==> Peek(t, q) == ']' && q == pos + |EncodeItems(items, os)|)
      && (|items| > 1 ==> Peek(t, q) == ',' && At(t, q + 1, EncodeItems(items[1..], os[1..]))
                          && q + 1 + |EncodeItems(items[1..], os[1..])| == pos + |EncodeItems(items, os)|)
  {
    hide Encode, EncodeItems, At, Peek, IsOrder, AreOrders, Stops, IsList;
    ItemsTail(items, os);
    ItemsCons(items, os);
    TextLayout(t, pos, EncodeItems(items, os), Encode(items[0], os[0]), |items| == 1, EncodeItems(items[1..], os[1..]), ']');
  }

  lemma {:induction false} ItemsParse(t: string, pos: nat, items: seq<Value>, os: seq<Order>)
    requires AreOrders(os, items) && items != [] && forall i :: 0 <= i < |items| ==> Good(items[i])
    requires At(t, pos, EncodeItems(items, os)) && Peek(t, pos + |EncodeItems(items, os)|) == ']'
    ensures ParseItems(t, pos) == Done(items, pos + |EncodeItems(items, os)| + 1)
    decreases items, 0, 1
  {
    hide Encode, EncodeItems, Good, ParseItems, ParseValue, At, Peek, IsOrder;
    var q := pos + |Encode(items[0], os[0])|;
    ItemParses(t, pos, items, os);
    if |items| > 1 { ItemsParse(t, q + 1, items[1..], os[1..]); }
    ItemsStep(t, pos, items, q);
  }

  lemma StopsThere(t: string, pos: nat)
    ensures Peek(t, pos) == ',' || Peek(t, pos) == ']' || Peek(t, pos) == '}' ==> Stops(Peek(t, pos)) && pos < |t|
  {
  }

  /** One round of the loop over array elements. */
  lemma ItemsStep(t: string, pos: nat, items: seq<Value>, q: nat)
    requires pos <= |t| && items != [] && ParseValue(t, pos) == Done(items[0], q) && q < |t|
    ensures Peek(t, q) == ']' && |items| == 1 ==> ParseItems(t, pos) == Done(items, q + 1)
    ensures Peek(t, q) == ',' && ParseItems(t, q + 1).Done? && ParseItems(t, q + 1).value == items[1..] ==>
      ParseItems(t, pos) == Done(items, ParseItems(t, q + 1).pos)
  {
    hide ParseValue;
    assert items == [items[0]] + items[1..];
    if |items| == 1 { assert items == [items[0]]; }
  }

  lemma ItemsCons(items: seq<Value>, os: seq<Order>)
    requires AreOrders(os, items) && items != []
    ensures IsList(EncodeItems(items, os), Encode(items[0], os[0]), |items| == 1, EncodeItems(items[1..], os[1..]))
  {
    hide Encode, IsOrder;
  }

  lemma EmptyBrackets()
    ensures ['['] + "" + [']'] == "[]" && ['{'] + "" + ['}'] == "{}"
  {
  }

  // ------------------------------------------------------------------ mappings

  /** The mapping acc with the fields named in ks put in, in that order. */
  function Added(acc: map<string, Value>, m: map<string, Value>, ks: seq<string>): map<string, Value>
    requires forall k :: k in ks ==> k in m
    decreases ks
  {
    if ks == [] then acc else Added(acc[ks[0] := m[ks[0]]], m, ks[1..])
  }

  lemma {:induction false} AddedIs(acc: map<string, Value>, m: map<string, Value>, ks: seq<string>)
    requires forall k :: k in ks ==> k in m
    ensures var r := Added(acc, m, ks);
      && (forall k :: k in r <==> k in acc || k in ks)
      && (forall k :: k in ks ==> r[k] == m[k])
      && (forall k :: k in acc && k !in ks ==> r[k] == acc[k])
    decreases ks
  {
    if ks != [] {
      assert ks == [ks[0]] + ks[1..];
      AddedIs(acc[ks[0] := m[ks[0]]], m, ks[1..]);
    }
  }

  lemma ObjectParses(t: string, pos: nat, v: Value, o: Order)
    requires v.Obj? && IsOrder(o, v) && Good(v)
    requires At(t, pos, Encode(v, o))
    ensures ParseValue(t, pos) == Done(v, pos + |Encode(v, o)|)
    decreases v, 0, |o.keys| + 1
  {
    var ks, os := o.keys, o.parts;
    AllAdded(v, o);
    EncodedObject(v, o);
    EmptyBrackets();
    hide Encode, EncodeFields, Good, Added, At, Peek, IsOrder, ParseValue, ParseFields;
    AtBrackets(t, pos, '{', if ks == [] then "" else EncodeFields(v, ks, os), '}');
    if ks != [] {
      FieldsFirst(v, ks, os);
      AtFirst(t, pos + 1, EncodeFields(v, ks, os));
      FieldsParse(t, pos + 1, v, ks, os, map[]);
    }
    ObjectStep(t, pos);
  }

  lemma AllAdded(v: Value, o: Order)
    requires v.Obj? && IsOrder(o, v)
    ensures Added(map[], v.fields, o.keys) == v.fields
  {
    AddedIs(map[], v.fields, o.keys);
  }

  lemma ObjectStep(t: string, pos: nat)
    requires Peek(t, pos) == '{' && pos < |t|
    ensures ParseValue(t, pos) ==
      if Peek(t, pos + 1) == '}' then Done(Obj(map[]), pos + 2)
      else if ParseFields(t, pos + 1, map[]).Fail? then Fail
      else Done(Obj(ParseFields(t, pos + 1, map[]).value), ParseFields(t, pos + 1, map[]).pos)
  {
    hide ParseFields;
    SkipNone(t, pos);
  }

  lemma EncodedObject(v: Value, o: Order)
    requires v.Obj? && IsOrder(o, v)
    ensures Encode(v, o) == if o.keys == [] then "{}" else "{" + EncodeFields(v, o.keys, o.parts) + "}"
  {
  }

  lemma FieldsFirst(v: Value, ks: seq<string>, os: seq<Order>)
    requires v.Obj? && AreFields(os, ks, v) && ks != []
    ensures Begins(EncodeFields(v, ks, os))
  {
    QuoteFirst(ks[0]);
  }

  lemma {:induction false} FieldParses(t: string, pos: nat, k: string, x: Value, o: Order)
    requires IsOrder(o, x) && GoodString(k) && Good(x)
    requires At(t, pos, FieldText(k, Encode(x, o))) && Stops(Peek(t, pos + |FieldText(k, Encode(x, o))|))
    ensures ParseField(t, pos) == Done((k, x), pos + |FieldText(k, Encode(x, o))|)
    decreases x, 2, 0
  {
    hide Encode, Good, ParseValue, ParseString, EncodeString, NoSlashU, Survives;
    var e := Encode(x, o);
    var q := EncodeString(k);
    AtSplit(t, pos, q, ":" + e);
    AtSplit(t, pos + |q|, ":", e);
    StringSurvives(t, pos, k);
    QuoteFirst(k);
    AtFirst(t, pos, q);
    SkipNone(t, pos);
    AtFirst(t, pos + |q|, ":");
    SkipNone(t, pos + |q|);
    ValueParses(t, pos + |q| + 1, x, o);
  }

  lemma FieldsCons(v: Value, ks: seq<string>, os: seq<Order>)
    requires v.Obj? && AreFields(os, ks, v) && ks != []
    ensures IsList(EncodeFields(v, ks, os), FieldText(ks[0], Encode(v.fields[ks[0]], os[0])),
                   |ks| == 1, EncodeFields(v, ks[1..], os[1..]))
  {
    hide Encode, IsOrder, FieldText;
  }

  lemma FieldsTail(v: Value, ks: seq<string>, os: seq<Order>)
    requires v.Obj? && AreFields(os, ks, v) && ks != []
    ensures |os| == |ks| && AreFields(os[1..], ks[1..], v)
    ensures ks[0] in v.fields && IsOrder(os[0], v.fields[ks[0]])
  {
    hide IsOrder;
  }

  lemma ItemsTail(items: seq<Value>, os: seq<Order>)
    requires AreOrders(os, items) && items != []
    ensures |os| == |items| && AreOrders(os[1..], items[1..]) && IsOrder(os[0], items[0])
  {
    hide IsOrder;
  }

  /** Where the first field ends, and what stands behind it. */
  lemma FieldsLayout(t: string, pos: nat, v: Value, ks: seq<string>, os: seq<Order>)
    requires v.Obj? && AreFields(os, ks, v) && ks != []
    requires At(t, pos, EncodeFields(v, ks, os)) && Peek(t, pos + |EncodeFields(v, ks, os)|) == '}'
    ensures var f := FieldText(ks[0], Encode(v.fields[ks[0]], os[0]));
      var q := pos + |f|;
      && q < |t| && At(t, pos, f) && Stops(Peek(t, q))
      && (|ks| == 1 ==> Peek(t, q) == '}' && q == pos + |EncodeFields(v, ks, os)|)
      && (|ks| > 1 ==> Peek(t, q) == ',' && At(t, q + 1, EncodeFields(v, ks[1..], os[1..]))
                       && q + 1 + |EncodeFields(v, ks[1..], os[1..])| == pos + |EncodeFields(v, ks, os)|)
  {
    hide Encode, EncodeFields, FieldText, At, IsOrder, AreFields, Peek, Stops, IsList;
    FieldsTail(v, ks, os);
    FieldsCons(v, ks, os);
    var f := FieldText(ks[0], Encode(v.fields[ks[0]], os[0]));
    TextLayout(t, pos, EncodeFields(v, ks, os), f, |ks| == 1, EncodeFields(v, ks[1..], os[1..]), '}');
  }

  /** The text e of a list: its first part f, and the text of the others. */
  predicate IsList(e: string, f: string, last: bool, rest: string)
  {
    e == if last then f else f + ("," + rest)
  }

  lemma TextLayout(t: string, pos: nat, e: string, f: string, last: bool, rest: string, close: char)
    requires close == ']' || close == '}'
    requires IsList(e, f, last, rest) && At(t, pos, e) && Peek(t, pos + |e|) == close
    ensures var q := pos + |f|;
      && q < |t| && At(t, pos, f) && Stops(Peek(t, q))
      && (last ==> Peek(t, q) == close && q == pos + |e|)
      && (!last ==> Peek(t, q) == ',' && At(t, q + 1, rest) && q + 1 + |rest| == pos + |e|)
  {
    hide At, Peek, Stops;
    if !last { AtBetween(t, pos, f, ',', rest); }
    StopsThere(t, pos + |f|);
  }

  lemma GoodField(v: Value, k: string)
    requires v.Obj? && Good(v) && k in v.fields
    ensures GoodString(k) && Good(v.fields[k])
  {
  }

  lemma {:induction false} HeadParses(t: string, pos: nat, v: Value, ks: seq<string>, os: seq<Order>)
    requires v.Obj? && AreFields(os, ks, v) && Good(v) && ks != []
    requires At(t, pos, EncodeFields(v, ks, os)) && Peek(t, pos + |EncodeFields(v, ks, os)|) == '}'
    ensures var x := v.fields[ks[0]];
      var q := pos + |FieldText(ks[0], Encode(x, os[0]))|;
      && q < |t| && ParseField(t, pos) == Done((ks[0], x), q)
    decreases v, 0, 0
  {
    hide Encode, EncodeFields, Good, GoodString, ParseField, FieldText, At, IsOrder, AreFields, Peek, Stops;
    FieldsTail(v, ks, os);
    var x := v.fields[ks[0]];
    GoodField(v, ks[0]);
    FieldsLayout(t, pos, v, ks, os);
    FieldParses(t, pos, ks[0], x, os[0]);
  }

  lemma {:induction false} FieldsParse(t: string, pos: nat, v: Value, ks: seq<string>, os: seq<Order>, acc: map<string, Value>)
    requires v.Obj? && AreFields(os, ks, v) && Good(v) && ks != []
    requires At(t, pos, EncodeFields(v, ks, os)) && Peek(t, pos + |EncodeFields(v, ks, os)|) == '}'
    ensures ParseFields(t, pos, acc) == Done(Added(acc, v.fields, ks), pos + |EncodeFields(v, ks, os)| + 1)
    decreases v, 0, |ks|
  {
    hide Encode, EncodeFields, Good, ParseField, ParseFields, FieldText, At, IsOrder, Peek, Stops;
    var x := v.fields[ks[0]];
    var q := pos + |FieldText(ks[0], Encode(x, os[0]))|;
    FieldsLayout(t, pos, v, ks, os);
    HeadParses(t, pos, v, ks, os);
    FieldsStep(t, pos, ks[0], x, q, acc);
    if |ks| > 1 { FieldsParse(t, q + 1, v, ks[1..], os[1..], acc[ks[0] := x]); }
  }

  /** One round of the loop over the fields of a mapping. */
  lemma FieldsStep(t: string, pos: nat, k: string, x: Value, q: nat, acc: map<string, Value>)
    requires pos <= |t| && ParseField(t, pos) == Done((k, x), q) && q < |t|
    ensures Peek(t, q) == '}' ==> ParseFields(t, pos, acc) == Done(acc[k := x], q + 1)
    ensures Peek(t, q) == ',' ==> ParseFields(t, pos, acc) == ParseFields(t, q + 1, acc[k := x])
  {
    hide ParseField;
  }

  /**
   Every nested value of integers, surviving strings, arrays and mappings with
   surviving keys comes back from its text, whatever order the mappings are
   walked in, and the parser consumes exactly the printed text.
   */
  lemma RoundTrip(v: Value, text: string)
    requires Printed(v, text) && Good(v)
    ensures ParseValue(text, 0) == Done(v, |text|)
    ensures Decode(text) == Some(v)
  {
    var o :| IsOrder(o, v) && text == Encode(v, o);
    assert text[0..|text|] == text;
    ValueParses(text, 0, v, o);
  }
}
