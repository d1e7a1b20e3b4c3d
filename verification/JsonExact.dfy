/**
 The other direction of the round trip, for values built from numbers, strings and
 arrays: one that holds a string which does not survive never comes back, although
 the parser may find its way through the text again.
 */
module JsonExact {
  import opened Wrappers
  import opened JsonStrings
  import opened JsonEscapes
  import opened JsonLengths
  import opened JsonSpec
  import opened JsonRoundTrip

  // ----------------------------------------------------- quotes are never lost

  function Quotes(s: string): nat
  {
    if s == "" then 0 else (if s[0] == QUOTE then 1 else 0) + Quotes(s[1..])
  }

  lemma {:induction false} QuotesAdd(a: string, b: string)
    ensures Quotes(a + b) == Quotes(a) + Quotes(b)
  {
    if a == "" {
      assert a + b == b;
    } else {
      assert (a + b)[1..] == a[1..] + b;
      QuotesAdd(a[1..], b);
    }
  }

  lemma {:induction false} NoQuotes(s: string)
    requires QUOTE !in s
    ensures Quotes(s) == 0
  {
    if s != "" { NoQuotes(s[1..]); }
  }

  /** A replacement by something with as many quotes. */
  lemma {:induction false} ReplaceQuotes(s: string, pat: string, rep: string)
    requires pat != "" && Quotes(pat) <= Quotes(rep)
    ensures Quotes(Replace(s, pat, rep)) >= Quotes(s)
    decreases |s|
  {
    if s != "" {
      if pat <= s {
        var t := s[|pat|..];
        assert s == pat + t;
        Match(t, pat, rep);
        ReplaceQuotes(t, pat, rep);
        QuotesAdd(pat, t);
        QuotesAdd(rep, Replace(t, pat, rep));
      } else {
        assert Replace(s, pat, rep) == [s[0]] + Replace(s[1..], pat, rep);
        ReplaceQuotes(s[1..], pat, rep);
      }
    }
  }

  lemma ShortQuotes(c: char, d: char)
    ensures Quotes([c]) == if c == QUOTE then 1 else 0
    ensures Quotes([c, d]) == (if c == QUOTE then 1 else 0) + (if d == QUOTE then 1 else 0)
  {
    assert [c][1..] == "" && [d][1..] == "" && [c, d][1..] == [d];
    assert Quotes([c, d]) == (if c == QUOTE then 1 else 0) + Quotes([d]);
  }

  /** There is no quote in an escape. */
  lemma EscapeQuotes(s: string, i: nat)
    requires EscapeAt(s, i) && EscapedChar(s, i).Some?
    ensures QUOTE !in s[i..i + EscapedChar(s, i).value.length]
  {
    var n := EscapedChar(s, i).value.length;
    forall j | i <= j < i + n ensures s[j] != QUOTE {
      if j >= i + 2 && j < i + 6 { assert DigitAt(s, j) >= 0; }
      if j >= i + 8 { assert DigitAt(s, j) >= 0; }
    }
  }

  lemma {:induction false} UnicodeQuotes(s: string, i: nat)
    ensures UnicodePass(s, i).Some? ==> Quotes(UnicodePass(s, i).value) >= Quotes(s)
    decreases |s|, if i < |s| then |s| - i else 0
  {
    if i < |s| {
      if EscapeAt(s, i) {
        var e := EscapedChar(s, i);
        if e.Some? {
          var n := e.value.length;
          var y := s[..i] + [e.value.c] + s[i + n..];
          EscapeQuotes(s, i);
          NoQuotes(s[i..i + n]);
          assert s == s[..i] + (s[i..i + n] + s[i + n..]);
          assert y == s[..i] + ([e.value.c] + s[i + n..]);
          QuotesAdd(s[..i], s[i..i + n] + s[i + n..]);
          QuotesAdd(s[i..i + n], s[i + n..]);
          QuotesAdd(s[..i], [e.value.c] + s[i + n..]);
          QuotesAdd([e.value.c], s[i + n..]);
          UnicodeQuotes(y, 1);
        }
      } else {
        UnicodeQuotes(s, i + 1);
      }
    }
  }

  lemma UnescapeQuotes(raw: string)
    ensures Unescape(raw).Some? ==> Quotes(Unescape(raw).value) >= Quotes(raw)
  {
    ShortQuotes(SLASH, QUOTE); ShortQuotes(QUOTE, ' ');
    ShortQuotes(SLASH, 'b'); ShortQuotes(SLASH, 'f'); ShortQuotes(SLASH, 'n');
    ShortQuotes(SLASH, 'r'); ShortQuotes(SLASH, 't'); ShortQuotes(SLASH, '/'); ShortQuotes(SLASH, SLASH);
    hide Replace, UnicodePass, Quotes;
    ReplaceQuotes(raw, "\\\"", "\"");
    var p1 := Replace(raw, "\\\"", "\"");
    ReplaceQuotes(p1, "\\b", [BS]);
    var p2 := Replace(p1, "\\b", [BS]);
    ReplaceQuotes(p2, "\\f", [FF]);
    var p3 := Replace(p2, "\\f", [FF]);
    ReplaceQuotes(p3, "\\n", [NL]);
    var p4 := Replace(p3, "\\n", [NL]);
    ReplaceQuotes(p4, "\\r", [CR]);
    var p5 := Replace(p4, "\\r", [CR]);
    ReplaceQuotes(p5, "\\t", [TAB]);
    var p6 := Replace(p5, "\\t", [TAB]);
    UnicodeQuotes(p6, 0);
    var p7 := UnicodePass(p6, 0);
    if p7.Some? {
      ReplaceQuotes(p7.value, "\\/", "/");
      ReplaceQuotes(Replace(p7.value, "\\/", "/"), "\\\\", "\\");
    }
  }

  lemma {:induction false} StageQuotes(s: string, behind: bool)
    ensures Quotes(Stage(s, behind, 0)) == Quotes(s)
  {
    if s != "" {
      var k := Tok(s[0], behind, s[1..], 0);
      QuotesAdd(k, Stage(s[1..], s[0] == SLASH, 0));
      StageQuotes(s[1..], s[0] == SLASH);
      TokQuotes(s[0], behind, s[1..]);
    }
  }

  lemma TokQuotes(c: char, behind: bool, rest: string)
    ensures Quotes(Tok(c, behind, rest, 0)) == if c == QUOTE then 1 else 0
  {
    var k := Tok(c, behind, rest, 0);
    if c == ESC {
      NoQuotes(k);
    } else {
      ShortQuotes(k[0], if |k| > 1 then k[1] else ' ');
      assert k == [k[0]] || k == [k[0], k[1]];
    }
  }

  // ------------------------------------------------------------------- strings

  /** A string that ends in a backslash swallows its closing quote, so what is read
      for it holds a quote more. */
  lemma FinalSlashDiffers(t: string, pos: nat, s: string)
    requires '\0' !in s && EndsInSlash(s) && At(t, pos, EncodeString(s))
    ensures var r := ParseString(t, pos); r.Done? ==> r.value != s
  {
    hide EncodeString, Unescape, Quotes, HasEscape, EndsInSlash;
    var u := FrontQuotes(s);
    hide Stage, Body;
    var b := Body(u);
    SwallowLayout(t, pos, EncodeString(s), b);
    ScanBody(t, pos + 1, u, false, false);
    var p := pos + 1 + |b|;
    ScanSwallows(t, p, HasEscape(u));
    var end := Scan(t, p, false, HasEscape(u));
    if end.Done? {
      RawQuotes(t, pos + 1, p, end.pos);
      UnescapeQuotes(t[pos + 1..end.pos]);
    }
  }

  lemma FrontQuotes(s: string) returns (u: string)
    requires '\0' !in s && EndsInSlash(s)
    ensures u == s[..|s| - 1] && '\0' !in u && Quotes(Body(u)) == Quotes(s) && Body(u) == Stage(u, false, 0)
    ensures EncodeString(s) == "\"" + Body(u) + "\\\""
  {
    hide EncodeString;
    u := s[..|s| - 1];
    EncodeStringIs(s);
    BodyIs(u);
    StageQuotes(u, false);
    assert s == u + [SLASH];
    QuotesAdd(u, [SLASH]);
    ShortQuotes(SLASH, QUOTE);
  }

  lemma RawQuotes(t: string, from: nat, p: nat, to: nat)
    requires from <= p && p + 2 <= to <= |t| && t[p..p + 2] == "\\\""
    ensures Quotes(t[from..to]) > Quotes(t[from..p])
  {
    var b, tail := t[from..p], t[p + 2..to];
    assert t[from..to] == b + ("\\\"" + tail);
    QuotesAdd(b, "\\\"" + tail);
    QuotesAdd("\\\"", tail);
    ShortQuotes(SLASH, QUOTE);
  }

  lemma SwallowLayout(t: string, pos: nat, e: string, b: string)
    requires e == "\"" + b + "\\\"" && At(t, pos, e)
    ensures pos + |b| + 3 <= |t| && Peek(t, pos) == QUOTE && At(t, pos + 1, b)
    ensures At(t, pos + 1 + |b|, "\\\"") && t[pos + 1..pos + 1 + |b|] == b && t[pos + 1 + |b|..pos + 3 + |b|] == "\\\""
  {
    assert e == "\"" + (b + "\\\"");
    AtSplit(t, pos, "\"", b + "\\\"");
    AtSplit(t, pos + 1, b, "\\\"");
    AtFirst(t, pos, "\"");
  }

  lemma ScanSwallows(t: string, p: nat, active: bool)
    requires At(t, p, "\\\"")
    ensures Scan(t, p, false, active) == Scan(t, p + 2, false, true)
  {
    AtFirst(t, p, "\\\"");
    AtFirst(t, p + 1, "\"");
    assert t[p] == SLASH && t[p + 1] == QUOTE;
  }

  /** In any text, a string is read back as itself only if it is good. */
  lemma StringExact(t: string, pos: nat, s: string)
    requires '\0' !in s && At(t, pos, EncodeString(s))
    ensures var r := ParseString(t, pos); r.Done? && r.value == s ==> GoodString(s)
  {
    if EndsInSlash(s) {
      FinalSlashDiffers(t, pos, s);
    } else {
      ParsesString(t, pos, s);
      SlashBody(s, false);
      SlashUHasSlash(s, false);
      if NoSlashU(s, false) {
        UnescapeBody(s);
        MangledSame(s, false);
      } else {
        SlashUShrinks(s);
      }
    }
  }

  // -------------------------------------------------------------------- values

  /** Numbers, strings and arrays of such, and mappings in which everything is good. */
  ghost predicate Listed(v: Value)
    decreases v
  {
    match v
    case Num(_) => true
    case Float(_) => false
    case Str(s) => '\0' !in s
    case Arr(items) => forall i :: 0 <= i < |items| ==> Listed(items[i])
    case Obj(_) => Good(v)
  }

  lemma {:induction false} OnlyGood(t: string, pos: nat, v: Value, o: Order)
    requires Listed(v) && IsOrder(o, v)
    requires At(t, pos, Encode(v, o)) && Stops(Peek(t, pos + |Encode(v, o)|))
    requires ParseValue(t, pos).Done? && ParseValue(t, pos).value == v
    ensures Good(v)
    decreases v, 2
  {
    match v {
      case Num(_) =>
      case Str(s) =>
        QuoteFirst(s);
        AtFirst(t, pos, EncodeString(s));
        SkipNone(t, pos);
        StringExact(t, pos, s);
      case Arr(items) => OnlyGoodArray(t, pos, items, o);
      case Obj(_) =>
    }
  }

  lemma {:induction false} OnlyGoodArray(t: string, pos: nat, items: seq<Value>, o: Order)
    requires Listed(Arr(items)) && IsOrder(o, Arr(items)) && At(t, pos, Encode(Arr(items), o))
    requires ParseValue(t, pos).Done? && ParseValue(t, pos).value == Arr(items)
    ensures Good(Arr(items))
    decreases items, 1, 1
  {
    hide Encode, At, IsOrder, ParseValue;
    forall i | 0 <= i < |items| ensures Good(items[i]) { OnlyGoodElement(t, pos, items, o, i); }
  }

  lemma {:induction false} OnlyGoodElement(t: string, pos: nat, items: seq<Value>, o: Order, i: nat)
    requires i < |items| && Listed(Arr(items)) && IsOrder(o, Arr(items)) && At(t, pos, Encode(Arr(items), o))
    requires ParseValue(t, pos).Done? && ParseValue(t, pos).value == Arr(items)
    ensures Good(items[i])
    decreases items, 1, 0
  {
    assert forall j :: 0 <= j < |items| ==> Listed(items[j]);
    hide Encode, EncodeItems, At, Peek, IsOrder, AreOrders, ParseValue, ParseItems, Begins, Stops, Listed, Good;
    var body := ArrayLayout(t, pos, items, o);
    ArrayValue(t, pos, items);
    OnlyGoodItems(t, pos + 1, items, o.parts, i);
  }

  lemma ArrayValue(t: string, pos: nat, items: seq<Value>)
    requires Peek(t, pos) == '[' && pos < |t| && items != []
    requires ParseValue(t, pos).Done? && ParseValue(t, pos).value == Arr(items)
    ensures ParseItems(t, pos + 1).Done? && ParseItems(t, pos + 1).value == items
  {
    hide ParseValue, ParseItems;
    ArrayStep(t, pos);
  }

  lemma {:induction false} OnlyGoodItems(t: string, pos: nat, items: seq<Value>, os: seq<Order>, i: nat)
    requires i < |items| && AreOrders(os, items) && forall j :: 0 <= j < |items| ==> Listed(items[j])
    requires At(t, pos, EncodeItems(items, os)) && Peek(t, pos + |EncodeItems(items, os)|) == ']'
    requires ParseItems(t, pos).Done? && ParseItems(t, pos).value == items
    ensures Good(items[i])
    decreases items, 0, 1
  {
    hide Encode, EncodeItems, At, Peek, IsOrder, AreOrders, ParseValue, ParseItems, Stops, Listed, Good;
    OnlyGoodHead(t, pos, items, os);
    if i > 0 {
      RestStands(t, pos, items, os);
      ItemsRest(t, pos, items);
      ItemsTail(items, os);
      assert items[1..][i - 1] == items[i];
      OnlyGoodItems(t, ParseValue(t, pos).pos + 1, items[1..], os[1..], i - 1);
    }
  }

  /** Where the elements behind a good first one stand. */
  lemma RestStands(t: string, pos: nat, items: seq<Value>, os: seq<Order>)
    requires |items| > 1 && AreOrders(os, items) && Good(items[0])
    requires At(t, pos, EncodeItems(items, os)) && Peek(t, pos + |EncodeItems(items, os)|) == ']'
    ensures ParseValue(t, pos).Done? && Peek(t, ParseValue(t, pos).pos) == ',' && ParseValue(t, pos).pos < |t|
    ensures AreOrders(os[1..], items[1..])
    ensures var q, e := ParseValue(t, pos).pos + 1, EncodeItems(items[1..], os[1..]);
      At(t, q, e) && Peek(t, q + |e|) == ']'
  {
    hide Encode, EncodeItems, At, Peek, IsOrder, AreOrders, ParseValue, Stops, Listed, Good;
    ItemsTail(items, os);
    ItemParses(t, pos, items, os);
  }

  lemma {:induction false} OnlyGoodHead(t: string, pos: nat, items: seq<Value>, os: seq<Order>)
    requires items != [] && AreOrders(os, items) && Listed(items[0])
    requires At(t, pos, EncodeItems(items, os)) && Peek(t, pos + |EncodeItems(items, os)|) == ']'
    requires ParseItems(t, pos).Done? && ParseItems(t, pos).value == items
    ensures Good(items[0])
    decreases items, 0, 0
  {
    ItemsTail(items, os);
    hide Encode, EncodeItems, At, Peek, IsOrder, AreOrders, ParseValue, ParseItems, Stops, Listed, Good;
    ItemsLayout(t, pos, items, os);
    ItemsHead(t, pos, items);
    OnlyGood(t, pos, items[0], os[0]);
  }

  lemma ItemsHead(t: string, pos: nat, items: seq<Value>)
    requires pos <= |t| && ParseItems(t, pos).Done? && ParseItems(t, pos).value == items && items != []
    ensures ParseValue(t, pos).Done? && ParseValue(t, pos).value == items[0]
  {
    hide ParseValue;
  }

  lemma ItemsRest(t: string, pos: nat, items: seq<Value>)
    requires pos <= |t| && ParseItems(t, pos).Done? && ParseItems(t, pos).value == items && |items| > 1
    requires ParseValue(t, pos).Done? && ParseValue(t, pos).pos < |t| && Peek(t, ParseValue(t, pos).pos) == ','
    ensures var r := ParseItems(t, ParseValue(t, pos).pos + 1); r.Done? && r.value == items[1..]
  {
    hide ParseValue;
    SkipNone(t, ParseValue(t, pos).pos);
  }

  /** Of such a value every text comes back as the value if and only if all is good. */
  lemma RoundTripExact(v: Value, text: string)
    requires Listed(v) && Printed(v, text)
    ensures Decode(text) == Some(v) <==> Good(v)
  {
    var o :| IsOrder(o, v) && text == Encode(v, o);
    assert text[0..|text|] == text;
    if Good(v) { RoundTrip(v, text); }
    if Decode(text) == Some(v) { OnlyGood(text, 0, v, o); }
  }
}
