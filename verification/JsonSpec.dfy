/**
 JSON values, the printer, and the parser as a function from a text and a position
 to a value and the position behind it.
 */
module JsonSpec {
  import opened Wrappers
  import opened JsonStrings
  import opened JsonEscapes

  /** Numbers with a point or an exponent keep their literal. */
  datatype Value =
    | Num(n: int)
    | Float(literal: string)
    | Str(s: string)
    | Arr(items: seq<Value>)
    | Obj(fields: map<string, Value>)

  /** The order in which the mappings of one value are walked, a choice of its own for
      each of them: the keys of a mapping, and one part for each field or element. */
  datatype Order = Order(keys: seq<string>, parts: seq<Order>)

  predicate Distinct(ks: seq<string>) { forall i, j :: 0 <= i < j < |ks| ==> ks[i] != ks[j] }

  ghost predicate IsOrder(o: Order, v: Value)
    decreases v
  {
    match v
    case Arr(items) => |o.parts| == |items| && forall i :: 0 <= i < |items| ==> IsOrder(o.parts[i], items[i])
    case Obj(fields) =>
      && Distinct(o.keys) && (forall k :: k in fields ==> k in o.keys)
      && |o.parts| == |o.keys|
      && forall i :: 0 <= i < |o.keys| ==> o.keys[i] in fields && IsOrder(o.parts[i], fields[o.keys[i]])
    case _ => true
  }

  ghost predicate AreOrders(os: seq<Order>, items: seq<Value>)
  {
    |os| == |items| && forall i :: 0 <= i < |items| ==> IsOrder(os[i], items[i])
  }

  /** Keys of a mapping with an order for the value of each. */
  ghost predicate AreFields(os: seq<Order>, ks: seq<string>, v: Value)
    requires v.Obj?
  {
    |os| == |ks| && forall i :: 0 <= i < |ks| ==> ks[i] in v.fields && IsOrder(os[i], v.fields[ks[i]])
  }

  // ----------------------------------------------------------------- the printer

  function Digit(d: nat): char
    requires d < 10
  {
    '0' + d as char
  }

  function Decimal(n: nat): (s: string)
    ensures s != ""
  {
    if n < 10 then [Digit(n)] else Decimal(n / 10) + [Digit(n % 10)]
  }

  function ToString(n: int): (s: string)
    ensures s != ""
  {
    if n < 0 then "-" + Decimal(-n) else Decimal(n)
  }

  ghost function Encode(v: Value, o: Order): string
    requires IsOrder(o, v)
    decreases v, 1, 0
  {
    match v
    case Num(n) => ToString(n)
    case Float(literal) => literal
    case Str(s) => EncodeString(s)
    case Arr(items) => if items == [] then "[]" else "[" + EncodeItems(items, o.parts) + "]"
    case Obj(_) => if o.keys == [] then "{}" else "{" + EncodeFields(v, o.keys, o.parts) + "}"
  }

  ghost function EncodeItems(items: seq<Value>, os: seq<Order>): string
    requires AreOrders(os, items)
    decreases items, 0, 0
  {
    if items == [] then ""
    else
      var e := Encode(items[0], os[0]);
      if |items| == 1 then e else e + ("," + EncodeItems(items[1..], os[1..]))
  }

  function FieldText(k: string, e: string): string { EncodeString(k) + (":" + e) }

  ghost function EncodeFields(v: Value, ks: seq<string>, os: seq<Order>): string
    requires v.Obj? && AreFields(os, ks, v)
    decreases v, 0, |ks|
  {
    if ks == [] then ""
    else
      var e := FieldText(ks[0], Encode(v.fields[ks[0]], os[0]));
      if |ks| == 1 then e else e + ("," + EncodeFields(v, ks[1..], os[1..]))
  }

  /** The value may be printed as this text: which text depends on the walks. */
  ghost predicate Printed(v: Value, text: string)
  {
    exists o :: IsOrder(o, v) && text == Encode(v, o)
  }

  // ------------------------------------------------------------------ the parser

  datatype Parsed<+T> = Fail | Done(value: T, pos: nat)

  /** The character at a position; the text is followed by a zero. */
  function Peek(t: string, pos: nat): char { if pos < |t| then t[pos] else '\0' }

  predicate IsBlank(c: char) { c == ' ' || c == TAB || c == CR || c == FF || c == NL }

  function SkipBlank(t: string, pos: nat): (p: nat)
    requires pos <= |t|
    ensures pos <= p <= |t|
    decreases |t| - pos
  {
    if pos < |t| && IsBlank(t[pos]) then SkipBlank(t, pos + 1) else pos
  }

  predicate IsDigit(c: char) { '0' <= c <= '9' }

  /** The blanks after a leading zero, without the form feed. */
  function SkipAfterZero(t: string, pos: nat): (p: nat)
    requires pos <= |t|
    ensures pos <= p <= |t|
    decreases |t| - pos
  {
    if pos < |t| && (t[pos] == ' ' || t[pos] == NL || t[pos] == CR || t[pos] == TAB) then SkipAfterZero(t, pos + 1) else pos
  }

  /** The loop over the characters of a number: its end and whether it is a float. */
  function NumberEnd(t: string, pos: nat, from: nat, dot: int, exp: int): (r: Parsed<bool>)
    requires pos <= |t|
    ensures r.Done? ==> pos <= r.pos <= |t| && from < r.pos
    decreases |t| - pos
  {
    var c := Peek(t, pos);
    if c == '.' then
      if dot != -1 || exp != -1 then Fail else NumberEnd(t, pos + 1, from, pos, exp)
    else if IsDigit(c) then NumberEnd(t, pos + 1, from, dot, exp)
    else if c == 'e' || c == 'E' then
      if exp != -1 then Fail else NumberEnd(t, pos + 1, from, dot, pos)
    else if (c == '-' || c == '+') && exp == pos - 1 then NumberEnd(t, pos + 1, from, dot, exp)
    else if dot == pos - 1 || pos - 1 < from then Fail
    else Done(dot != -1 || exp != -1, pos)
  }

  function NatOf(s: string): nat
  {
    if s == "" then 0
    else NatOf(s[..|s| - 1]) * 10 + (if IsDigit(s[|s| - 1]) then s[|s| - 1] as int - '0' as int else 0)
  }

  function ToInt(s: string): int { if s != "" && s[0] == '-' then 0 - NatOf(s[1..]) else NatOf(s) as int }

  function NumberFrom(t: string, pos: nat, from: nat): (r: Parsed<Value>)
    requires from <= pos <= |t|
    ensures r.Done? ==> from < r.pos <= |t|
  {
    var end := NumberEnd(t, pos, from, -1, -1);
    if end.Fail? then Fail
    else
      var literal := t[from..end.pos];
      Done(if end.value then Float(literal) else Num(ToInt(literal)), end.pos)
  }

  function ParseNumber(t: string, from: nat): (r: Parsed<Value>)
    requires from <= |t|
    ensures r.Done? ==> from < r.pos <= |t|
  {
    if Peek(t, from) == '-' && !IsDigit(Peek(t, from + 1)) then Fail
    else
      var p := if Peek(t, from) == '-' then from + 1 else from;
      if Peek(t, p) == '0' then
        var c := Peek(t, p + 1);
        if c == '\0' then Done(Num(0), p + 1)
        else if c == '.' || c == 'e' || c == 'E' then NumberFrom(t, p + 1, from)
        else
          var q := SkipAfterZero(t, p + 1);
          if IsDigit(Peek(t, q)) || Peek(t, q) == '-' then Fail else Done(Num(0), q)
      else NumberFrom(t, p, from)
  }

  /** The search for the closing quote: where it is, and whether an escape other
      than that of a backslash was seen. */
  function Scan(t: string, pos: nat, esc: bool, active: bool): (r: Parsed<bool>)
    requires pos <= |t|
    ensures r.Done? ==> pos <= r.pos < |t|
    decreases |t| - pos
  {
    var c := Peek(t, pos);
    if c == '\0' then Fail
    else if c == SLASH then Scan(t, pos + 1, !esc, active)
    else if c == QUOTE && !esc then Done(active, pos)
    else Scan(t, pos + 1, false, active || esc)
  }

  function ParseString(t: string, pos: nat): (r: Parsed<string>)
    requires pos <= |t|
    ensures r.Done? ==> pos < r.pos <= |t|
  {
    if Peek(t, pos) != QUOTE then Fail
    else
      var end := Scan(t, pos + 1, false, false);
      if end.Fail? then Fail
      else
        var raw := t[pos + 1..end.pos];
        if !end.value then Done(raw, end.pos + 1)
        else
          var s := Unescape(raw);
          if s.None? then Fail else Done(s.value, end.pos + 1)
  }

  predicate Token(t: string, pos: nat, word: string)
    requires pos <= |t|
  {
    word <= t[pos..]
  }

  function ParseValue(t: string, pos: nat): (r: Parsed<Value>)
    requires pos <= |t|
    ensures r.Done? ==> pos < r.pos <= |t|
    decreases |t| - pos, 2
  {
    var p := SkipBlank(t, pos);
    var c := Peek(t, p);
    if c == '{' then ParseObject(t, p)
    else if c == '[' then ParseArray(t, p)
    else if c == QUOTE then
      var s := ParseString(t, p);
      if s.Fail? then Fail else Done(Str(s.value), s.pos)
    else if c == '-' || IsDigit(c) then ParseNumber(t, p)
    else if Token(t, p, "true") then Done(Num(1), p + 4)
    else if Token(t, p, "false") then Done(Num(0), p + 5)
    else if Token(t, p, "null") then Done(Num(0), p + 4)
    else Fail
  }

  function ParseArray(t: string, pos: nat): (r: Parsed<Value>)
    requires pos < |t|
    ensures r.Done? ==> pos < r.pos <= |t|
    decreases |t| - pos, 1
  {
    if Peek(t, pos + 1) == ']' then Done(Arr([]), pos + 2)
    else
      var items := ParseItems(t, pos + 1);
      if items.Fail? then Fail else Done(Arr(items.value), items.pos)
  }

  function ParseItems(t: string, pos: nat): (r: Parsed<seq<Value>>)
    requires pos <= |t|
    ensures r.Done? ==> pos < r.pos <= |t|
    decreases |t| - pos, 3
  {
    var v := ParseValue(t, pos);
    if v.Fail? then Fail
    else
      var q := SkipBlank(t, v.pos);
      if Peek(t, q) == ']' then Done([v.value], q + 1)
      else if Peek(t, q) == ',' then
        var rest := ParseItems(t, q + 1);
        if rest.Fail? then Fail else Done([v.value] + rest.value, rest.pos)
      else Fail
  }

  function ParseObject(t: string, pos: nat): (r: Parsed<Value>)
    requires pos < |t|
    ensures r.Done? ==> pos < r.pos <= |t|
    decreases |t| - pos, 1
  {
    if Peek(t, pos + 1) == '}' then Done(Obj(map[]), pos + 2)
    else
      var fields := ParseFields(t, pos + 1, map[]);
      if fields.Fail? then Fail else Done(Obj(fields.value), fields.pos)
  }

  /** One "key" : value; its end is behind the value. */
  function ParseField(t: string, pos: nat): (r: Parsed<(string, Value)>)
    requires pos <= |t|
    ensures r.Done? ==> pos < r.pos <= |t|
    decreases |t| - pos, 3
  {
    var key := ParseString(t, SkipBlank(t, pos));
    if key.Fail? then Fail
    else
      var colon := SkipBlank(t, key.pos);
      if Peek(t, colon) != ':' then Fail
      else
        var v := ParseValue(t, colon + 1);
        if v.Fail? then Fail else Done((key.value, v.value), v.pos)
  }

  function ParseFields(t: string, pos: nat, acc: map<string, Value>): (r: Parsed<map<string, Value>>)
    requires pos <= |t|
    ensures r.Done? ==> pos < r.pos <= |t|
    decreases |t| - pos, 4
  {
    var f := ParseField(t, pos);
    if f.Fail? then Fail
    else
      var acc' := acc[f.value.0 := f.value.1];
      var q := SkipBlank(t, f.pos);
      if Peek(t, q) == '}' then Done(acc', q + 1)
      else if Peek(t, q) == ',' then ParseFields(t, q + 1, acc')
      else Fail
  }

  /** The whole text: one value, and nothing but blanks after it. */
  function Decode(t: string): Option<Value>
  {
    var v := ParseValue(t, 0);
    if v.Fail? then None
    else if Peek(t, SkipBlank(t, v.pos)) == '\0' then Some(v.value)
    else None
  }

  /** The words, as the parser reads them. */
  lemma Words()
    ensures Decode("true") == Some(Num(1)) && Decode("false") == Some(Num(0)) && Decode("null") == Some(Num(0))
  {
    var t, f, n := "true", "false", "null";
    assert t[0..] == t && f[0..] == f && n[0..] == n;
    assert ParseValue(t, 0) == Done(Num(1), 4);
    assert ParseValue(f, 0) == Done(Num(0), 5);
    assert ParseValue(n, 0) == Done(Num(0), 4);
  }

  /** Literals with a point or an exponent are floats, and some that are none. */
  lemma Literals()
    ensures ParseNumber("1.5", 0) == Done(Float("1.5"), 3) && ParseNumber("0.5", 0) == Done(Float("0.5"), 3)
    ensures ParseNumber("2e-3", 0) == Done(Float("2e-3"), 4) && ParseNumber("2E+3", 0) == Done(Float("2E+3"), 4)
    ensures ParseNumber("1.", 0) == Fail && ParseNumber("-", 0) == Fail && ParseNumber("1.5.2", 0) == Fail
    ensures ParseNumber("01", 0) == Fail && ParseNumber("1e2e3", 0) == Fail
  {
    assert "1.5"[0..3] == "1.5" && "0.5"[0..3] == "0.5" && "2e-3"[0..4] == "2e-3" && "2E+3"[0..4] == "2E+3";
    assert NumberEnd("1.5", 0, 0, -1, -1) == NumberEnd("1.5", 2, 0, 1, -1) == Done(true, 3);
    assert NumberEnd("0.5", 1, 0, -1, -1) == NumberEnd("0.5", 2, 0, 1, -1) == Done(true, 3);
    assert NumberEnd("2e-3", 0, 0, -1, -1) == NumberEnd("2e-3", 2, 0, -1, 1) == NumberEnd("2e-3", 3, 0, -1, 1) == Done(true, 4);
    assert NumberEnd("2E+3", 0, 0, -1, -1) == NumberEnd("2E+3", 2, 0, -1, 1) == NumberEnd("2E+3", 3, 0, -1, 1) == Done(true, 4);
    assert NumberEnd("1.", 0, 0, -1, -1) == NumberEnd("1.", 2, 0, 1, -1) == Fail;
    assert NumberEnd("1.5.2", 0, 0, -1, -1) == NumberEnd("1.5.2", 2, 0, 1, -1) == NumberEnd("1.5.2", 3, 0, 1, -1) == Fail;
    assert NumberEnd("1e2e3", 0, 0, -1, -1) == NumberEnd("1e2e3", 2, 0, -1, 1) == NumberEnd("1e2e3", 3, 0, -1, 1) == Fail;
  }
}
