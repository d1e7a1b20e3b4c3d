/**
 Texts with blanks between the tokens: the parser skips spaces, tabs, line feeds, form
 feeds and carriage returns wherever the grammar allows them, and reads the same value.
 */
module JsonSpaces {
  import opened Wrappers
  import opened JsonStrings
  import opened JsonEscapes
  import opened JsonSpec
  import opened JsonRoundTrip

  predicate Blanks(s: string)
  {
    forall i :: 0 <= i < |s| ==> s[i] == ' ' || s[i] == '\t' || s[i] == '\r' || s[i] == '\n' || s[i] == '\U{000C}'
  }

  /** The blanks around a value, the order in which a mapping is written, the blanks
      around each of its keys, and the same for each element or field. */
  datatype Gaps = Gaps(before: string, after: string, keys: seq<string>, keyGaps: seq<(string, string)>, parts: seq<Gaps>)

  ghost predicate IsGaps(g: Gaps, v: Value)
    decreases v
  {
    && Blanks(g.before) && Blanks(g.after)
    && match v
       case Arr(items) => |g.parts| == |items| && forall i :: 0 <= i < |items| ==> IsGaps(g.parts[i], items[i])
       case Obj(fields) =>
         && Distinct(g.keys) && (forall k :: k in fields ==> k in g.keys)
         && |g.parts| == |g.keys| == |g.keyGaps|
         && forall i :: 0 <= i < |g.keys| ==>
           && g.keys[i] in fields && IsGaps(g.parts[i], fields[g.keys[i]])
           && Blanks(g.keyGaps[i].0) && Blanks(g.keyGaps[i].1)
       case _ => true
  }

  ghost predicate AllGaps(gs: seq<Gaps>, items: seq<Value>)
  {
    |gs| == |items| && forall i :: 0 <= i < |items| ==> IsGaps(gs[i], items[i])
  }

  /** Fields still to be written: keys, the blanks around them, and the values' gaps. */
  datatype Fields = Fields(keys: seq<string>, keyGaps: seq<(string, string)>, parts: seq<Gaps>)

  ghost predicate AreFields(f: Fields, m: map<string, Value>)
  {
    && |f.parts| == |f.keys| == |f.keyGaps|
    && forall i :: 0 <= i < |f.keys| ==>
      && f.keys[i] in m && IsGaps(f.parts[i], m[f.keys[i]])
      && Blanks(f.keyGaps[i].0) && Blanks(f.keyGaps[i].1)
  }

  function Rest(f: Fields): Fields
    requires |f.parts| == |f.keys| == |f.keyGaps| > 0
  {
    Fields(f.keys[1..], f.keyGaps[1..], f.parts[1..])
  }

  // ------------------------------------------------------------------- the texts

  ghost function Spaced(v: Value, g: Gaps): string
    requires IsGaps(g, v)
    decreases v, 2, 0
  {
    g.before + Core(v, g) + g.after
  }

  ghost function Core(v: Value, g: Gaps): string
    requires IsGaps(g, v)
    decreases v, 1, 0
  {
    match v
    case Num(n) => ToString(n)
    case Float(literal) => literal
    case Str(s) => EncodeString(s)
    case Arr(items) => if items == [] then "[]" else "[" + SpacedItems(items, g.parts) + "]"
    case Obj(fields) => if g.keys == [] then "{}" else "{" + SpacedFields(v, Fields(g.keys, g.keyGaps, g.parts)) + "}"
  }

  ghost function SpacedItems(items: seq<Value>, gs: seq<Gaps>): string
    requires AllGaps(gs, items)
    decreases items, 0, 0
  {
    if items == [] then ""
    else
      var e := Spaced(items[0], gs[0]);
      if |items| == 1 then e else e + ("," + SpacedItems(items[1..], gs[1..]))
  }

  function SpacedField(gap: (string, string), k: string, e: string): string
  {
    gap.0 + (EncodeString(k) + (gap.1 + (":" + e)))
  }

  ghost function SpacedFields(v: Value, f: Fields): string
    requires v.Obj? && AreFields(f, v.fields)
    decreases v, 0, |f.keys|
  {
    if f.keys == [] then ""
    else
      var e := SpacedField(f.keyGaps[0], f.keys[0], Spaced(v.fields[f.keys[0]], f.parts[0]));
      if |f.keys| == 1 then e else e + ("," + SpacedFields(v, Rest(f)))
  }

  // ------------------------------------------------------------- skipping blanks

  lemma {:induction false} SkipOver(t: string, pos: nat, b: string)
    requires At(t, pos, b) && Blanks(b)
    ensures SkipBlank(t, pos) == SkipBlank(t, pos + |b|)
    decreases |b|
  {
    if b != "" {
      AtFirst(t, pos, b);
      SkipOver(t, pos + 1, b[1..]);
    }
  }

  lemma {:induction false} SkipTwice(t: string, pos: nat)
    requires pos <= |t|
    ensures SkipBlank(t, SkipBlank(t, pos)) == SkipBlank(t, pos) && !IsBlank(Peek(t, SkipBlank(t, pos)))
    decreases |t| - pos
  {
    if pos < |t| && IsBlank(t[pos]) { SkipTwice(t, pos + 1); }
  }

  /** A value is read from the first character that is no blank on. */
  lemma ValueBehindBlanks(t: string, pos: nat, b: string)
    requires At(t, pos, b) && Blanks(b)
    ensures ParseValue(t, pos) == ParseValue(t, pos + |b|)
  {
    SkipOver(t, pos, b);
  }

  // --------------------------------------------------------------------- numbers

  /** What may stand behind a number here. */
  predicate Ends(c: char) { Stops(c) || IsBlank(c) }

  lemma {:induction false} DigitsEnd(t: string, pos: nat, from: nat, s: string)
    requires At(t, pos, s) && AllDigits(s) && Ends(Peek(t, pos + |s|)) && from < pos + |s|
    ensures NumberEnd(t, pos, from, -1, -1) == Done(false, pos + |s|)
    decreases |s|
  {
    if s != "" {
      AtFirst(t, pos, s);
      DigitsEnd(t, pos + 1, from, s[1..]);
    }
  }

  lemma {:induction false} AfterZero(t: string, pos: nat)
    requires pos <= |t|
    ensures SkipBlank(t, SkipAfterZero(t, pos)) == SkipBlank(t, pos)
    ensures var p := SkipAfterZero(t, pos); p == pos || p == |t| || p > pos
    ensures Stops(Peek(t, SkipBlank(t, pos))) ==> Ends(Peek(t, SkipAfterZero(t, pos)))
    decreases |t| - pos
  {
    if SkipAfterZero(t, pos) != pos { AfterZero(t, pos + 1); }
  }

  /** A number is read, and the cursor is behind it or behind some of the blanks that
      follow it. */
  lemma NumberSpaced(t: string, pos: nat, n: int)
    requires At(t, pos, ToString(n)) && Stops(Peek(t, SkipBlank(t, pos + |ToString(n)|)))
    ensures var r := ParseNumber(t, pos);
      r.Done? && r.value == Num(n) && SkipBlank(t, r.pos) == SkipBlank(t, pos + |ToString(n)|)
    ensures Peek(t, pos) == '-' || IsDigit(Peek(t, pos))
  {
    hide NatOf;
    var s := ToString(n);
    var end := pos + |s|;
    AtFirst(t, pos, s);
    assert Ends(Peek(t, end));
    if n < 0 {
      var d := Decimal(-n);
      DecimalDigits(-n);
      assert s[1..] == d;
      AtFirst(t, pos + 1, d);
      DigitsEnd(t, pos + 1, pos, d);
    } else {
      DecimalDigits(n);
      if n > 0 { DigitsEnd(t, pos, pos, s); } else { AfterZero(t, pos + 1); }
    }
  }

  // ---------------------------------------------------------------------- values

  /** The value was read, and the next character that is no blank stands at `end`. */
  predicate ReadsTo(t: string, r: Parsed<Value>, v: Value, end: nat)
  {
    r.Done? && r.pos <= |t| && r.value == v && SkipBlank(t, r.pos) == end
  }

  lemma {:induction false} SpacedParses(t: string, pos: nat, v: Value, g: Gaps)
    requires IsGaps(g, v) && Good(v)
    requires At(t, pos, Spaced(v, g)) && Stops(Peek(t, pos + |Spaced(v, g)|))
    ensures ReadsTo(t, ParseValue(t, pos), v, pos + |Spaced(v, g)|)
    decreases v, 2, 0
  {
    hide Core, Spaced, IsGaps, Good, Blanks, ParseValue, Stops, Peek, ReadsTo, At, IsSpaced;
    SpacedIs(v, g);
    AroundCore(t, pos, Spaced(v, g), g.before, Core(v, g), g.after);
    CoreParses(t, pos + |g.before|, v, g);
    ValueBehindBlanks(t, pos, g.before);
  }

  predicate IsSpaced(e: string, before: string, core: string, after: string)
  {
    Blanks(before) && Blanks(after) && e == before + (core + after)
  }

  lemma SpacedIs(v: Value, g: Gaps)
    requires IsGaps(g, v)
    ensures IsSpaced(Spaced(v, g), g.before, Core(v, g), g.after)
  {
    assert g.before + Core(v, g) + g.after == g.before + (Core(v, g) + g.after);
  }

  lemma AroundCore(t: string, pos: nat, e: string, before: string, core: string, after: string)
    requires IsSpaced(e, before, core, after)
    requires At(t, pos, e) && Stops(Peek(t, pos + |e|))
    ensures Blanks(before) && At(t, pos, before) && At(t, pos + |before|, core)
    ensures SkipBlank(t, pos + |before| + |core|) == pos + |e|
  {
    hide Blanks;
    AtSplit(t, pos, before, core + after);
    AtSplit(t, pos + |before|, core, after);
    SkipOver(t, pos + |before| + |core|, after);
    SkipNone(t, pos + |e|);
  }

  lemma {:induction false} CoreParses(t: string, pos: nat, v: Value, g: Gaps)
    requires IsGaps(g, v) && Good(v)
    requires At(t, pos, Core(v, g)) && Stops(Peek(t, SkipBlank(t, pos + |Core(v, g)|)))
    ensures ReadsTo(t, ParseValue(t, pos), v, SkipBlank(t, pos + |Core(v, g)|))
    decreases v, 1, 1
  {
    hide ParseValue, ReadsTo, Stops, At, Peek;
    match v {
      case Num(n) => NumberRead(t, pos, n);
      case Str(s) => StringRead(t, pos, s);
      case Arr(items) => SpacedArray(t, pos, items, g);
      case Obj(_) => SpacedObject(t, pos, v, g);
    }
  }

  lemma NumberRead(t: string, pos: nat, n: int)
    requires At(t, pos, ToString(n)) && Stops(Peek(t, SkipBlank(t, pos + |ToString(n)|)))
    ensures ReadsTo(t, ParseValue(t, pos), Num(n), SkipBlank(t, pos + |ToString(n)|))
  {
    hide ParseNumber, ToString;
    NumberSpaced(t, pos, n);
    SkipNone(t, pos);
  }

  lemma StringRead(t: string, pos: nat, s: string)
    requires GoodString(s) && At(t, pos, EncodeString(s))
    ensures ReadsTo(t, ParseValue(t, pos), Str(s), SkipBlank(t, pos + |EncodeString(s)|))
  {
    hide ParseString, EncodeString;
    StringSurvives(t, pos, s);
    QuoteFirst(s);
    AtFirst(t, pos, EncodeString(s));
    SkipNone(t, pos);
  }

  /** How the text of a value can begin here. */
  predicate Opens(e: string) { e != "" && (Begins(e) || IsBlank(e[0])) }

  lemma SpacedOpens(v: Value, g: Gaps)
    requires IsGaps(g, v) && !v.Float?
    ensures Opens(Spaced(v, g))
  {
    match v {
      case Num(n) => if n >= 0 { DecimalDigits(n); }
      case Str(s) => QuoteFirst(s);
      case _ =>
    }
  }

  // ---------------------------------------------------------------------- arrays

  lemma ItemsGaps(items: seq<Value>, gs: seq<Gaps>)
    requires AllGaps(gs, items) && items != []
    ensures |gs| == |items| && AllGaps(gs[1..], items[1..]) && IsGaps(gs[0], items[0])
  {
    hide IsGaps;
  }

  lemma ItemsList(items: seq<Value>, gs: seq<Gaps>)
    requires AllGaps(gs, items) && items != []
    ensures IsList(SpacedItems(items, gs), Spaced(items[0], gs[0]), |items| == 1, SpacedItems(items[1..], gs[1..]))
  {
    hide Spaced, IsGaps;
  }

  lemma {:induction false} SpacedArray(t: string, pos: nat, items: seq<Value>, g: Gaps)
    requires IsGaps(g, Arr(items)) && forall i :: 0 <= i < |items| ==> Good(items[i])
    requires At(t, pos, Core(Arr(items), g))
    ensures ReadsTo(t, ParseValue(t, pos), Arr(items), SkipBlank(t, pos + |Core(Arr(items), g)|))
    decreases items, 1, 0
  {
    hide Core, Spaced, SpacedItems, Good, At, Peek, IsGaps, AllGaps, ParseValue, ParseItems, Begins, Opens, Stops;
    var body := SpacedArrayLayout(t, pos, items, g);
    ArrayStep(t, pos);
    if items != [] {
      ItemsOpen(items, g.parts);
      NotABracket(t, pos + 1, body);
      SpacedItemsParse(t, pos + 1, items, g.parts);
    }
  }

  lemma ItemsOpen(items: seq<Value>, gs: seq<Gaps>)
    requires AllGaps(gs, items) && items != [] && Good(items[0])
    ensures Opens(SpacedItems(items, gs))
  {
    SpacedOpens(items[0], gs[0]);
    hide Spaced;
  }

  lemma NotABracket(t: string, pos: nat, body: string)
    requires Opens(body) && At(t, pos, body)
    ensures Peek(t, pos) != ']' && Peek(t, pos) != '}'
  {
  }

  lemma SpacedArrayLayout(t: string, pos: nat, items: seq<Value>, g: Gaps) returns (body: string)
    requires IsGaps(g, Arr(items)) && At(t, pos, Core(Arr(items), g))
    ensures AllGaps(g.parts, items) && body == if items == [] then "" else SpacedItems(items, g.parts)
    ensures Peek(t, pos) == '[' && pos < |t| && At(t, pos + 1, body)
    ensures Peek(t, pos + 1 + |body|) == ']' && pos + 1 + |body| < |t|
    ensures |Core(Arr(items), g)| == |body| + 2
  {
    ArrayCore(items, g);
    EmptyBrackets();
    hide Core, SpacedItems, At, Peek;
    body := if items == [] then "" else SpacedItems(items, g.parts);
    assert Core(Arr(items), g) == ['['] + body + [']'];
    AtBrackets(t, pos, '[', body, ']');
  }

  lemma ArrayCore(items: seq<Value>, g: Gaps)
    requires IsGaps(g, Arr(items))
    ensures Core(Arr(items), g) == if items == [] then "[]" else "[" + SpacedItems(items, g.parts) + "]"
  {
  }

  lemma {:induction false} SpacedItemsParse(t: string, pos: nat, items: seq<Value>, gs: seq<Gaps>)
    requires AllGaps(gs, items) && items != [] && forall i :: 0 <= i < |items| ==> Good(items[i])
    requires At(t, pos, SpacedItems(items, gs)) && Peek(t, pos + |SpacedItems(items, gs)|) == ']'
    ensures ParseItems(t, pos) == Done(items, pos + |SpacedItems(items, gs)| + 1)
    decreases items, 0, 1
  {
    hide Spaced, SpacedItems, Good, ParseItems, ParseValue, At, Peek, IsGaps, AllGaps, ReadsTo, Stops;
    ItemsGaps(items, gs);
    SpacedItemsLayout(t, pos, items, gs);
    var q := pos + |Spaced(items[0], gs[0])|;
    SpacedParses(t, pos, items[0], gs[0]);
    if |items| > 1 { SpacedItemsParse(t, q + 1, items[1..], gs[1..]); }
    SpacedItemsStep(t, pos, items, q);
  }

  lemma SpacedItemsLayout(t: string, pos: nat, items: seq<Value>, gs: seq<Gaps>)
    requires AllGaps(gs, items) && items != []
    requires At(t, pos, SpacedItems(items, gs)) && Peek(t, pos + |SpacedItems(items, gs)|) == ']'
    ensures var e := Spaced(items[0], gs[0]);
      var q := pos + |e|;
      && q < |t| && At(t, pos, e) && Stops(Peek(t, q))
      && (|items| == 1 ==> Peek(t, q) == ']' && q == pos + |SpacedItems(items, gs)|)
      && (|items| > 1 ==> Peek(t, q) == ',' && At(t, q + 1, SpacedItems(items[1..], gs[1..]))
                          && q + 1 + |SpacedItems(items[1..], gs[1..])| == pos + |SpacedItems(items, gs)|)
  {
    hide Spaced, SpacedItems, At, Peek, IsGaps, AllGaps, Stops, IsList;
    ItemsGaps(items, gs);
    ItemsList(items, gs);
    TextLayout(t, pos, SpacedItems(items, gs), Spaced(items[0], gs[0]), |items| == 1, SpacedItems(items[1..], gs[1..]), ']');
  }

  lemma SpacedItemsStep(t: string, pos: nat, items: seq<Value>, q: nat)
    requires pos <= |t| && items != [] && ReadsTo(t, ParseValue(t, pos), items[0], q) && q < |t|
    ensures Peek(t, q) == ']' && |items| == 1 ==> ParseItems(t, pos) == Done(items, q + 1)
    ensures Peek(t, q) == ',' && ParseItems(t, q + 1).Done? && ParseItems(t, q + 1).value == items[1..] ==>
      ParseItems(t, pos) == Done(items, ParseItems(t, q + 1).pos)
  {
    hide ParseValue;
    assert items == [items[0]] + items[1..];
    if |items| == 1 { assert items == [items[0]]; }
  }

  // -------------------------------------------------------------------- mappings

  lemma FieldsGaps(m: map<string, Value>, f: Fields)
    requires AreFields(f, m) && f.keys != []
    ensures |f.parts| == |f.keys| == |f.keyGaps| && AreFields(Rest(f), m)
    ensures f.keys[0] in m && IsGaps(f.parts[0], m[f.keys[0]]) && Blanks(f.keyGaps[0].0) && Blanks(f.keyGaps[0].1)
  {
    hide IsGaps, Blanks;
  }

  lemma FieldsList(v: Value, f: Fields)
    requires v.Obj? && AreFields(f, v.fields) && f.keys != []
    ensures |f.parts| == |f.keys| == |f.keyGaps| && f.keys[0] in v.fields && IsGaps(f.parts[0], v.fields[f.keys[0]])
    ensures AreFields(Rest(f), v.fields)
    ensures IsList(SpacedFields(v, f), SpacedField(f.keyGaps[0], f.keys[0], Spaced(v.fields[f.keys[0]], f.parts[0])),
                   |f.keys| == 1, SpacedFields(v, Rest(f)))
  {
    FieldsGaps(v.fields, f);
    hide Spaced, IsGaps, SpacedField, Blanks;
  }

  lemma {:induction false} SpacedObject(t: string, pos: nat, v: Value, g: Gaps)
    requires v.Obj? && IsGaps(g, v) && Good(v) && At(t, pos, Core(v, g))
    ensures ReadsTo(t, ParseValue(t, pos), v, SkipBlank(t, pos + |Core(v, g)|))
    decreases v, 1, 0
  {
    hide Core, Spaced, SpacedFields, Good, At, Peek, IsGaps, AreFields, ParseValue, ParseFields, Opens, Added;
    var f, body := SpacedObjectLayout(t, pos, v, g);
    AllRead(v, g);
    ObjectStep(t, pos);
    if g.keys != [] {
      FieldsOpen(v, f);
      NotABracket(t, pos + 1, body);
      SpacedFieldsParse(t, pos + 1, v, f, map[]);
    }
  }

  lemma AllRead(v: Value, g: Gaps)
    requires v.Obj? && IsGaps(g, v)
    ensures (forall k :: k in g.keys ==> k in v.fields) && Added(map[], v.fields, g.keys) == v.fields
    ensures g.keys == [] ==> v == Obj(map[])
  {
    AddedIs(map[], v.fields, g.keys);
  }

  lemma FieldsOpen(v: Value, f: Fields)
    requires v.Obj? && AreFields(f, v.fields) && f.keys != []
    ensures Opens(SpacedFields(v, f))
  {
    FieldsList(v, f);
    FieldsGaps(v.fields, f);
    QuoteFirst(f.keys[0]);
    hide SpacedFields, Spaced, EncodeString;
  }

  lemma SpacedObjectLayout(t: string, pos: nat, v: Value, g: Gaps) returns (f: Fields, body: string)
    requires v.Obj? && IsGaps(g, v) && At(t, pos, Core(v, g))
    ensures f == Fields(g.keys, g.keyGaps, g.parts) && AreFields(f, v.fields)
    ensures body == if g.keys == [] then "" else SpacedFields(v, f)
    ensures Peek(t, pos) == '{' && pos < |t| && At(t, pos + 1, body)
    ensures Peek(t, pos + 1 + |body|) == '}' && pos + 1 + |body| < |t|
    ensures |Core(v, g)| == |body| + 2
  {
    f := Fields(g.keys, g.keyGaps, g.parts);
    ObjectCore(v, g);
    EmptyBrackets();
    hide Core, SpacedFields, At, Peek;
    body := if g.keys == [] then "" else SpacedFields(v, f);
    assert Core(v, g) == ['{'] + body + ['}'];
    AtBrackets(t, pos, '{', body, '}');
  }

  lemma ObjectCore(v: Value, g: Gaps)
    requires v.Obj? && IsGaps(g, v)
    ensures Core(v, g) == if g.keys == [] then "{}" else "{" + SpacedFields(v, Fields(g.keys, g.keyGaps, g.parts)) + "}"
  {
  }

  lemma {:induction false} SpacedFieldsParse(t: string, pos: nat, v: Value, f: Fields, acc: map<string, Value>)
    requires v.Obj? && AreFields(f, v.fields) && Good(v) && f.keys != []
    requires At(t, pos, SpacedFields(v, f)) && Peek(t, pos + |SpacedFields(v, f)|) == '}'
    ensures forall k :: k in f.keys ==> k in v.fields
    ensures ParseFields(t, pos, acc) == Done(Added(acc, v.fields, f.keys), pos + |SpacedFields(v, f)| + 1)
    decreases v, 0, 1 + |f.keys|
  {
    hide Spaced, SpacedFields, SpacedField, Good, ParseField, ParseFields, At, Peek, IsGaps, AreFields, Stops, Blanks, Added;
    FieldsKeys(v, f);
    var q := OneField(t, pos, v, f, acc);
    AddedOne(acc, v.fields, f.keys);
    if |f.keys| > 1 { SpacedFieldsParse(t, q + 1, v, Rest(f), acc[f.keys[0] := v.fields[f.keys[0]]]); }
  }

  lemma FieldsKeys(v: Value, f: Fields)
    requires v.Obj? && AreFields(f, v.fields)
    ensures forall k :: k in f.keys ==> k in v.fields
    ensures |f.parts| == |f.keys| == |f.keyGaps| && (f.keys != [] ==> AreFields(Rest(f), v.fields))
  {
    hide IsGaps, Blanks;
  }

  lemma AddedOne(acc: map<string, Value>, m: map<string, Value>, ks: seq<string>)
    requires ks != [] && forall k :: k in ks ==> k in m
    ensures ks[0] in m && forall k :: k in ks[1..] ==> k in m
    ensures Added(acc, m, ks) == if |ks| == 1 then acc[ks[0] := m[ks[0]]] else Added(acc[ks[0] := m[ks[0]]], m, ks[1..])
  {
  }

  /** One round over the fields: behind the first one either the mapping is closed or
      the others stand. */
  lemma {:induction false} OneField(t: string, pos: nat, v: Value, f: Fields, acc: map<string, Value>) returns (q: nat)
    requires v.Obj? && AreFields(f, v.fields) && Good(v) && f.keys != []
    requires At(t, pos, SpacedFields(v, f)) && Peek(t, pos + |SpacedFields(v, f)|) == '}'
    ensures |f.parts| == |f.keys| == |f.keyGaps| && f.keys[0] in v.fields && AreFields(Rest(f), v.fields) && q < |t|
    ensures var acc' := acc[f.keys[0] := v.fields[f.keys[0]]];
      if |f.keys| == 1 then ParseFields(t, pos, acc) == Done(acc', q + 1) && q == pos + |SpacedFields(v, f)|
      else
        && ParseFields(t, pos, acc) == ParseFields(t, q + 1, acc')
        && At(t, q + 1, SpacedFields(v, Rest(f))) && q + 1 + |SpacedFields(v, Rest(f))| == pos + |SpacedFields(v, f)|
    decreases v, 0, 1
  {
    hide Spaced, SpacedFields, SpacedField, Good, ParseField, ParseFields, At, Peek, IsGaps, AreFields, Stops, Blanks;
    SpacedFieldsLayout(t, pos, v, f);
    var x := v.fields[f.keys[0]];
    q := pos + |SpacedField(f.keyGaps[0], f.keys[0], Spaced(x, f.parts[0]))|;
    SpacedHead(t, pos, v, f);
    SpacedFieldsStep(t, pos, f.keys[0], x, q, acc);
  }

  lemma SpacedFieldsLayout(t: string, pos: nat, v: Value, f: Fields)
    requires v.Obj? && AreFields(f, v.fields) && f.keys != []
    requires At(t, pos, SpacedFields(v, f)) && Peek(t, pos + |SpacedFields(v, f)|) == '}'
    ensures |f.parts| == |f.keys| == |f.keyGaps| && f.keys[0] in v.fields && IsGaps(f.parts[0], v.fields[f.keys[0]])
    ensures AreFields(Rest(f), v.fields)
    ensures var e := SpacedField(f.keyGaps[0], f.keys[0], Spaced(v.fields[f.keys[0]], f.parts[0]));
      var q := pos + |e|;
      && q < |t| && At(t, pos, e) && Stops(Peek(t, q))
      && (|f.keys| == 1 ==> Peek(t, q) == '}' && q == pos + |SpacedFields(v, f)|)
      && (|f.keys| > 1 ==> Peek(t, q) == ',' && At(t, q + 1, SpacedFields(v, Rest(f)))
                           && q + 1 + |SpacedFields(v, Rest(f))| == pos + |SpacedFields(v, f)|)
  {
    hide Spaced, SpacedFields, SpacedField, At, Peek, IsGaps, AreFields, Stops, IsList;
    FieldsList(v, f);
    var e := SpacedField(f.keyGaps[0], f.keys[0], Spaced(v.fields[f.keys[0]], f.parts[0]));
    TextLayout(t, pos, SpacedFields(v, f), e, |f.keys| == 1, SpacedFields(v, Rest(f)), '}');
  }

  lemma {:induction false} SpacedHead(t: string, pos: nat, v: Value, f: Fields)
    requires v.Obj? && AreFields(f, v.fields) && Good(v) && f.keys != []
    requires At(t, pos, SpacedFields(v, f)) && Peek(t, pos + |SpacedFields(v, f)|) == '}'
    ensures |f.parts| == |f.keys| == |f.keyGaps| && f.keys[0] in v.fields && IsGaps(f.parts[0], v.fields[f.keys[0]])
    ensures FieldReadsTo(t, ParseField(t, pos), f.keys[0], v.fields[f.keys[0]],
                         pos + |SpacedField(f.keyGaps[0], f.keys[0], Spaced(v.fields[f.keys[0]], f.parts[0]))|)
    decreases v, 0, 0
  {
    hide Spaced, SpacedFields, SpacedField, Good, GoodString, ParseField, At, Peek, IsGaps, AreFields, Stops, FieldReadsTo, Blanks;
    SpacedFieldsLayout(t, pos, v, f);
    FieldsGaps(v.fields, f);
    GoodField(v, f.keys[0]);
    SpacedFieldParses(t, pos, f.keyGaps[0], f.keys[0], v.fields[f.keys[0]], f.parts[0]);
  }

  predicate FieldReadsTo(t: string, r: Parsed<(string, Value)>, k: string, x: Value, end: nat)
  {
    r.Done? && r.pos <= |t| && r.value == (k, x) && SkipBlank(t, r.pos) == end
  }

  lemma {:induction false} SpacedFieldParses(t: string, pos: nat, gap: (string, string), k: string, x: Value, g: Gaps)
    requires IsGaps(g, x) && GoodString(k) && Good(x) && Blanks(gap.0) && Blanks(gap.1)
    requires At(t, pos, SpacedField(gap, k, Spaced(x, g))) && Stops(Peek(t, pos + |SpacedField(gap, k, Spaced(x, g))|))
    ensures FieldReadsTo(t, ParseField(t, pos), k, x, pos + |SpacedField(gap, k, Spaced(x, g))|)
    decreases x, 3, 0
  {
    hide Spaced, IsGaps, Good, ParseValue, ParseString, EncodeString, NoSlashU, Survives, Blanks, Stops, Peek, At;
    var e := Spaced(x, g);
    var key := EncodeString(k);
    QuoteFirst(k);
    AroundKey(t, pos, gap, key, e);
    StringSurvives(t, pos + |gap.0|, k);
    SpacedParses(t, pos + |gap.0| + |key| + |gap.1| + 1, x, g);
  }

  /** Where the parts of a field stand. */
  lemma AroundKey(t: string, pos: nat, gap: (string, string), key: string, e: string)
    requires Blanks(gap.0) && Blanks(gap.1) && key != "" && key[0] == QUOTE
    requires At(t, pos, gap.0 + (key + (gap.1 + (":" + e))))
    ensures SkipBlank(t, pos) == pos + |gap.0| && At(t, pos + |gap.0|, key)
    ensures var colon := pos + |gap.0| + |key| + |gap.1|;
      SkipBlank(t, pos + |gap.0| + |key|) == colon && Peek(t, colon) == ':' && At(t, colon + 1, e)
  {
    hide Blanks, At;
    AtSplit(t, pos, gap.0, key + (gap.1 + (":" + e)));
    var p := pos + |gap.0|;
    AtSplit(t, p, key, gap.1 + (":" + e));
    AtFirst(t, p, key);
    SkipOver(t, pos, gap.0);
    SkipNone(t, p);
    AroundColon(t, p + |key|, gap.1, e);
  }

  lemma AroundColon(t: string, p: nat, gap: string, e: string)
    requires Blanks(gap) && At(t, p, gap + (":" + e))
    ensures var colon := p + |gap|;
      SkipBlank(t, p) == colon && Peek(t, colon) == ':' && At(t, colon + 1, e)
  {
    hide Blanks, At;
    AtSplit(t, p, gap, ":" + e);
    var colon := p + |gap|;
    AtSplit(t, colon, ":", e);
    AtFirst(t, colon, ":");
    SkipOver(t, p, gap);
    SkipNone(t, colon);
  }

  lemma SpacedFieldsStep(t: string, pos: nat, k: string, x: Value, q: nat, acc: map<string, Value>)
    requires pos <= |t| && FieldReadsTo(t, ParseField(t, pos), k, x, q) && q < |t|
    ensures Peek(t, q) == '}' ==> ParseFields(t, pos, acc) == Done(acc[k := x], q + 1)
    ensures Peek(t, q) == ',' ==> ParseFields(t, pos, acc) == ParseFields(t, q + 1, acc[k := x])
  {
    hide ParseField;
  }

  // ---------------------------------------------------------------- the theorem

  /** The text is one of the value, with blanks between its tokens. */
  ghost predicate SpacedPrinted(v: Value, text: string)
  {
    exists g :: IsGaps(g, v) && text == Spaced(v, g)
  }

  /**
   Every value that comes back from its printed texts comes back from these texts too:
   blanks in front of it and behind it, after commas and colons, before commas, colons
   and closing brackets, and after opening ones do not matter.
   */
  lemma SpacedRoundTrip(v: Value, text: string)
    requires SpacedPrinted(v, text) && Good(v)
    ensures Decode(text) == Some(v)
  {
    hide Spaced, IsGaps, Good, ParseValue, SkipBlank, ReadsTo, Decode, At, Stops, Peek;
    var g :| IsGaps(g, v) && text == Spaced(v, g);
    WholeText(text);
    SpacedParses(text, 0, v, g);
    DecodesTo(text, v);
  }

  lemma WholeText(text: string)
    ensures At(text, 0, text) && Stops(Peek(text, |text|))
  {
    assert text[0..|text|] == text;
  }

  lemma DecodesTo(t: string, v: Value)
    requires ReadsTo(t, ParseValue(t, 0), v, |t|)
    ensures Decode(t) == Some(v)
  {
    hide ParseValue;
  }

  // ------------------------------------------------- the printer leaves no blanks

  function Bare(o: Order): Gaps
  {
    Gaps("", "", o.keys, seq(|o.keys|, _ => ("", "")), seq(|o.parts|, i requires 0 <= i < |o.parts| => Bare(o.parts[i])))
  }

  /** A printed text is one without blanks. */
  lemma {:induction false} PrintedIsSpaced(v: Value, o: Order)
    requires IsOrder(o, v)
    ensures IsGaps(Bare(o), v) && Encode(v, o) == Spaced(v, Bare(o))
    decreases v, 1, 0
  {
    var g := Bare(o);
    match v {
      case Arr(items) =>
        forall i | 0 <= i < |items| ensures IsGaps(g.parts[i], items[i]) { PrintedIsSpaced(items[i], o.parts[i]); }
        BareItems(items, o.parts, g.parts);
      case Obj(fields) =>
        forall i | 0 <= i < |o.keys| ensures IsGaps(g.parts[i], fields[o.keys[i]]) {
          PrintedIsSpaced(fields[o.keys[i]], o.parts[i]);
        }
        BareFields(v, o.keys, o.parts, Fields(g.keys, g.keyGaps, g.parts));
      case _ =>
    }
    assert Spaced(v, g) == Core(v, g);
  }

  lemma {:induction false} BareItems(items: seq<Value>, os: seq<Order>, gs: seq<Gaps>)
    requires AreOrders(os, items) && AllGaps(gs, items) && forall i :: 0 <= i < |items| ==> gs[i] == Bare(os[i])
    ensures EncodeItems(items, os) == SpacedItems(items, gs)
    decreases items, 0, 0
  {
    hide Encode, Spaced, IsOrder, IsGaps, Bare;
    if items != [] {
      PrintedIsSpaced(items[0], os[0]);
      if |items| > 1 { BareItems(items[1..], os[1..], gs[1..]); }
    }
  }

  lemma {:induction false} BareFields(v: Value, ks: seq<string>, os: seq<Order>, f: Fields)
    requires v.Obj? && JsonSpec.AreFields(os, ks, v) && AreFields(f, v.fields) && f.keys == ks
    requires forall i :: 0 <= i < |ks| ==> f.parts[i] == Bare(os[i]) && f.keyGaps[i] == ("", "")
    ensures EncodeFields(v, ks, os) == SpacedFields(v, f)
    decreases v, 0, |ks|
  {
    hide Encode, Spaced, IsOrder, IsGaps, Bare, EncodeString, Blanks;
    if ks != [] {
      PrintedIsSpaced(v.fields[ks[0]], os[0]);
      BareField(ks[0], Encode(v.fields[ks[0]], os[0]));
      hide FieldText, SpacedField;
      FieldsKeys(v, f);
      if |ks| > 1 { BareFields(v, ks[1..], os[1..], Rest(f)); }
    }
  }

  lemma BareField(k: string, e: string)
    ensures FieldText(k, e) == SpacedField(("", ""), k, e)
  {
    hide EncodeString;
    assert "" + (EncodeString(k) + ("" + (":" + e))) == EncodeString(k) + (":" + e);
  }
}
