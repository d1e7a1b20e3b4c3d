/**
 The parser with its shared cursor and the printer, as they run.  None stands for
 the error() that abandons the parse.
 */
module Json {
  import opened Wrappers
  import opened JsonStrings
  import opened JsonEscapes
  import S = JsonSpec
  import opened JsonRoundTrip

  type Value = S.Value

  /** The result of a parsing step: its value with the cursor behind it, or an error. */
  predicate Agrees<T(==)>(r: Option<T>, pos: nat, p: S.Parsed<T>)
  {
    if p.Done? then r == Some(p.value) && pos == p.pos else r == None
  }

  // --------------------------------------------------- guarded replacements

  lemma AbsentChar(s: string, pat: string, c: char)
    requires c in pat && c !in s
    ensures !Contains(s, pat)
  {
    var j :| 0 <= j < |pat| && pat[j] == c;
    forall i | 0 <= i <= |s| ensures !(pat <= s[i..]) {
      if i + j < |s| { assert s[i..][j] == s[i + j] && s[i + j] in s; }
    }
  }

  /** replace_string behind a test with strsrch. */
  method ReplaceFound(s: string, pat: string, rep: string) returns (r: string)
    requires pat != ""
    ensures r == Replace(s, pat, rep)
  {
    if Contains(s, pat) {
      r := Replace(s, pat, rep);
    } else {
      ReplaceAbsent(s, pat, rep);
      r := s;
    }
  }

  /** replace_string behind a test with member_array for a character of the pattern. */
  method ReplaceMember(s: string, c: char, pat: string, rep: string) returns (r: string)
    requires c in pat
    ensures r == Replace(s, pat, rep)
  {
    if c in s {
      r := Replace(s, pat, rep);
    } else {
      AbsentChar(s, pat, c);
      ReplaceAbsent(s, pat, rep);
      r := s;
    }
  }

  /** The loop over \uXXXX. */
  method UndoUnicode(s: string) returns (r: Option<string>)
    ensures r == UnicodePass(s, 0)
  {
    var out, i := s, 0;
    while i < |out|
      invariant UnicodePass(out, i) == UnicodePass(s, 0)
      decreases |out|, if i < |out| then |out| - i else 0
    {
      if EscapeAt(out, i) {
        var e := EscapedChar(out, i);
        if e.None? {
          return None;
        }
        out := out[..i] + [e.value.c] + out[i + e.value.length..];
        i := 0;
      }
      i := i + 1;
    }
    r := Some(out);
  }

  lemma EscapeIsFound(s: string, i: nat)
    ensures EscapeAt(s, i) ==> Contains(s, "\\u")
  {
    if EscapeAt(s, i) { assert "\\u" <= s[i..]; }
  }

  lemma {:induction false} NothingToUndo(s: string, i: nat)
    requires !Contains(s, "\\u")
    ensures UnicodePass(s, i) == Some(s)
    decreases if i < |s| then |s| - i else 0
  {
    if i < |s| {
      EscapeIsFound(s, i);
      NothingToUndo(s, i + 1);
    }
  }

  method UndoEscapes(raw: string) returns (r: Option<string>)
    ensures r == Unescape(raw)
  {
    hide Replace, UnicodePass;
    var out := ReplaceMember(raw, QUOTE, "\\\"", "\"");
    out := ReplaceFound(out, "\\b", [BS]);
    out := ReplaceFound(out, "\\f", [FF]);
    out := ReplaceFound(out, "\\n", [NL]);
    out := ReplaceFound(out, "\\r", [CR]);
    out := ReplaceFound(out, "\\t", [TAB]);
    if Contains(out, "\\u") {
      var undone := UndoUnicode(out);
      if undone.None? {
        return None;
      }
      out := undone.value;
    } else {
      NothingToUndo(out, 0);
    }
    out := ReplaceMember(out, '/', "\\/", "/");
    out := ReplaceMember(out, SLASH, "\\\\", "\\");
    r := Some(out);
  }

  method PrintString(s: string) returns (value: string)
    ensures value == EncodeString(s)
  {
    hide Replace;
    value := ReplaceMember(s, QUOTE, "\"", "\\\"");
    value := "\"" + value + "\"";
    if SLASH in value {
      value := Replace(value, "\\", "\\\\");
      value := ReplaceFound(value, "\\\"", "\"");
    } else {
      AbsentChar(value, "\\", SLASH);
      ReplaceAbsent(value, "\\", "\\\\");
      AbsentChar(value, "\\\"", SLASH);
      ReplaceAbsent(value, "\\\"", "\"");
    }
    value := ReplaceMember(value, BS, [BS], "\\b");
    value := ReplaceMember(value, FF, [FF], "\\f");
    value := ReplaceMember(value, NL, [NL], "\\n");
    value := ReplaceMember(value, CR, [CR], "\\r");
    value := ReplaceMember(value, TAB, [TAB], "\\t");
    value := ReplaceMember(value, ESC, [ESC], "\\u001b");
  }

  /** json_encode, walking each mapping in whatever order; `o` records the walks. */
  method Print(v: Value) returns (out: string, ghost o: S.Order)
    ensures S.Printed(v, out) && S.IsOrder(o, v) && out == S.Encode(v, o)
    decreases v, 1
  {
    o := S.Order([], []);
    match v {
      case Num(n) => out := S.ToString(n);
      case Float(literal) => out := literal;
      case Str(s) => out := PrintString(s);
      case Obj(_) => out, o := PrintObject(v);
      case Arr(items) => out, o := PrintArray(items);
    }
    assert S.IsOrder(o, v) && out == S.Encode(v, o);
  }

  method PrintObject(v: Value) returns (out: string, ghost o: S.Order)
    requires v.Obj?
    ensures S.IsOrder(o, v) && out == S.Encode(v, o)
    decreases v, 0, 1
  {
    ghost var ks, os;
    out, ks, os := PrintFields(v);
    o := S.Order(ks, os);
    EncodedObject(v, o);
    out := if out == "" then "{}" else "{" + out + "}";
  }

  method PrintFields(v: Value) returns (out: string, ghost ks: seq<string>, ghost os: seq<S.Order>)
    requires v.Obj?
    ensures S.AreFields(os, ks, v) && S.IsOrder(S.Order(ks, os), v)
    ensures out == S.EncodeFields(v, ks, os) && (out == "" <==> ks == [])
    decreases v, 0, 0
  {
    hide S.Encode, S.EncodeFields, S.FieldText, S.IsOrder;
    out, ks, os := "", [], [];
    NoFields(v);
    var rest, ix := v.fields.Keys, 0;
    while rest != {}
      invariant Picked(v, ks, rest) && S.AreFields(os, ks, v) && ix == |ks|
      invariant out == S.EncodeFields(v, ks, os) && (out == "" <==> ks == [])
      decreases |rest|
    {
      var k :| k in rest;
      var field;
      ghost var o;
      field, o := PrintField(k, v.fields[k]);
      FieldsSnoc(v, ks, os, k, o);
      out := if ix > 0 then out + "," + field else field;
      ix, ks, os := ix + 1, ks + [k], os + [o];
      rest := rest - {k};
    }
    AllPicked(v, ks, os);
  }

  method PrintField(k: string, x: Value) returns (field: string, ghost o: S.Order)
    ensures S.IsOrder(o, x) && field == S.FieldText(k, S.Encode(x, o)) && field != ""
    decreases x, 2
  {
    hide S.Encode, EncodeString;
    var key := PrintString(k);
    var value;
    value, o := Print(x);
    FieldTextIs(k, value);
    field := key + ":" + value;
  }

  lemma FieldTextIs(k: string, value: string)
    ensures S.FieldText(k, value) == EncodeString(k) + ":" + value
  {
  }

  lemma NoFields(v: Value)
    requires v.Obj?
    ensures S.EncodeFields(v, [], []) == ""
  {
  }

  /** The keys walked so far, each once, and those to come. */
  ghost predicate Picked(v: Value, ks: seq<string>, rest: set<string>)
    requires v.Obj?
  {
    S.Distinct(ks) && rest <= v.fields.Keys && forall k :: k in ks <==> k in v.fields && k !in rest
  }

  lemma AllPicked(v: Value, ks: seq<string>, os: seq<S.Order>)
    requires v.Obj? && Picked(v, ks, {}) && S.AreFields(os, ks, v)
    ensures S.IsOrder(S.Order(ks, os), v)
  {
  }

  /** One more field at the end. */
  lemma {:induction false} FieldsSnoc(v: Value, ks: seq<string>, os: seq<S.Order>, k: string, o: S.Order)
    requires v.Obj? && S.AreFields(os, ks, v) && k in v.fields && S.IsOrder(o, v.fields[k])
    ensures S.AreFields(os + [o], ks + [k], v)
    ensures var f := S.FieldText(k, S.Encode(v.fields[k], o));
      S.EncodeFields(v, ks + [k], os + [o]) == if ks == [] then f else S.EncodeFields(v, ks, os) + "," + f
    decreases |ks|
  {
    hide S.Encode, S.EncodeFields, S.FieldText, S.IsOrder;
    FieldsCons(v, ks + [k], os + [o]);
    if ks != [] {
      FieldsCons(v, ks, os);
      FieldsSnoc(v, ks[1..], os[1..], k, o);
      assert (ks + [k])[1..] == ks[1..] + [k] && (os + [o])[1..] == os[1..] + [o];
      var f := S.FieldText(k, S.Encode(v.fields[k], o));
      var first := S.FieldText(ks[0], S.Encode(v.fields[ks[0]], os[0]));
      Joined(first, S.EncodeFields(v, ks[1..], os[1..]), f);
    }
  }

  lemma Joined(a: string, b: string, c: string)
    ensures a + ("," + (b + "," + c)) == a + ("," + b) + "," + c
  {
  }

  method PrintArray(items: seq<Value>) returns (out: string, ghost o: S.Order)
    ensures S.IsOrder(o, S.Arr(items)) && out == S.Encode(S.Arr(items), o)
    decreases items, 1
  {
    hide S.EncodeItems;
    ghost var os := [];
    if items == [] {
      out := "[]";
    } else {
      out, os := PrintItems(items);
      out := "[" + out + "]";
    }
    o := S.Order([], os);
    EncodedArray(items, o);
  }

  method PrintItems(items: seq<Value>) returns (out: string, ghost os: seq<S.Order>)
    requires items != []
    ensures S.AreOrders(os, items) && out == S.EncodeItems(items, os)
    decreases items, 0
  {
    hide S.Encode, S.EncodeItems, S.IsOrder;
    out, os := "", [];
    var i := 0;
    while i < |items|
      invariant 0 <= i <= |items| && S.AreOrders(os, items[..i])
      invariant i > 0 ==> out == S.EncodeItems(items[..i], os)
    {
      var item;
      ghost var o;
      item, o := Print(items[i]);
      ItemsSnoc(items[..i], os, items[i], o);
      out := if i > 0 then out + "," + item else item;
      os := os + [o];
      assert items[..i + 1] == items[..i] + [items[i]];
      i := i + 1;
    }
    assert items[..i] == items;
  }

  lemma {:induction false} ItemsSnoc(items: seq<Value>, os: seq<S.Order>, v: Value, o: S.Order)
    requires S.AreOrders(os, items) && S.IsOrder(o, v)
    ensures S.AreOrders(os + [o], items + [v])
    ensures S.EncodeItems(items + [v], os + [o])
      == if items == [] then S.Encode(v, o) else S.EncodeItems(items, os) + "," + S.Encode(v, o)
    decreases |items|
  {
    hide S.Encode, S.EncodeItems, S.IsOrder;
    ItemsCons(items + [v], os + [o]);
    if items != [] {
      ItemsCons(items, os);
      ItemsSnoc(items[1..], os[1..], v, o);
      assert (items + [v])[1..] == items[1..] + [v] && (os + [o])[1..] == os[1..] + [o];
      Joined(S.Encode(items[0], os[0]), S.EncodeItems(items[1..], os[1..]), S.Encode(v, o));
    }
  }

  /** json_decode. */
  method Decode(text: string) returns (v: Option<Value>)
    ensures v == S.Decode(text)
  {
    hide S.ParseValue, S.SkipBlank;
    var parse := new Parse(text);
    v := parse.ParseValue();
    if v.Some? {
      parse.SkipBlanks();
      if S.Peek(text, parse.pos) != '\0' {
        v := None;
      }
    }
  }

  class Parse {
    const text: string
    var pos: nat

    constructor (text: string)
      ensures this.text == text && pos == 0
    {
      this.text := text;
      pos := 0;
    }

    method SkipBlanks()
      requires pos <= |text|
      modifies this
      ensures pos == S.SkipBlank(text, old(pos))
    {
      while pos < |text| && S.IsBlank(text[pos])
        invariant pos <= |text| && S.SkipBlank(text, pos) == S.SkipBlank(text, old(pos))
      {
        pos := pos + 1;
      }
    }

    method AtToken(token: string) returns (at: bool)
      requires pos <= |text|
      ensures at <==> S.Token(text, pos, token)
    {
      var i := 0;
      while i < |token|
        invariant 0 <= i <= |token| && pos + i <= |text|
        invariant text[pos..pos + i] == token[..i]
      {
        assert token <= text[pos..] ==> pos + i < |text| && text[pos..][i] == token[i];
        if pos + i >= |text| || text[pos + i] != token[i] {
          return false;
        }
        assert text[pos..pos + i + 1] == text[pos..pos + i] + [text[pos + i]];
        assert token[..i + 1] == token[..i] + [token[i]];
        i := i + 1;
      }
      assert text[pos..][..|token|] == text[pos..pos + |token|];
      return true;
    }

    method SkipAfterZero()
      requires pos < |text|
      modifies this
      ensures pos == S.SkipAfterZero(text, old(pos) + 1)
    {
      pos := pos + 1;
      while pos < |text| && (text[pos] == ' ' || text[pos] == NL || text[pos] == CR || text[pos] == TAB)
        invariant pos <= |text| && S.SkipAfterZero(text, pos) == S.SkipAfterZero(text, old(pos) + 1)
      {
        pos := pos + 1;
      }
    }

    method ParseNumber() returns (r: Option<Value>)
      requires pos <= |text|
      modifies this
      ensures Agrees(r, pos, S.ParseNumber(text, old(pos)))
    {
      hide S.NumberEnd, S.SkipAfterZero, S.NatOf;
      var from := pos;
      if S.Peek(text, pos) == '-' {
        if !S.IsDigit(S.Peek(text, pos + 1)) {
          return None;
        }
        pos := pos + 1;
      }
      if S.Peek(text, pos) == '0' {
        var next := S.Peek(text, pos + 1);
        if next == '\0' {
          pos := pos + 1;
          return Some(S.Num(0));
        }
        if next == '.' || next == 'e' || next == 'E' {
          pos := pos + 1;
        } else {
          SkipAfterZero();
          next := S.Peek(text, pos);
          if S.IsDigit(next) || next == '-' {
            return None;
          }
          return Some(S.Num(0));
        }
      }
      r := NumberLoop(from);
    }

    method NumberLoop(from: nat) returns (r: Option<Value>)
      requires from <= pos <= |text|
      modifies this
      ensures Agrees(r, pos, S.NumberFrom(text, old(pos), from))
    {
      hide S.NatOf;
      var dot: int, exp: int := -1, -1;
      var going := true;
      while going
        invariant from <= pos <= |text|
        invariant S.NumberEnd(text, pos, from, dot, exp) == S.NumberEnd(text, old(pos), from, -1, -1)
        invariant !going ==> S.NumberEnd(text, pos, from, dot, exp) == S.Done(dot != -1 || exp != -1, pos)
        decreases |text| - pos, going
      {
        var ch := S.Peek(text, pos);
        if ch == '.' {
          if dot != -1 || exp != -1 {
            return None;
          }
          dot := pos;
          pos := pos + 1;
        } else if S.IsDigit(ch) {
          pos := pos + 1;
        } else if ch == 'e' || ch == 'E' {
          if exp != -1 {
            return None;
          }
          exp := pos;
          pos := pos + 1;
        } else if (ch == '-' || ch == '+') && exp == pos - 1 {
          pos := pos + 1;
        } else {
          var to := pos - 1;
          if dot == to || to < from {
            return None;
          }
          going := false;
        }
      }
      var number := text[from..pos];
      r := Some(if dot != -1 || exp != -1 then S.Float(number) else S.Num(S.ToInt(number)));
    }

    /** From the opening quote; the escapes are undone pass by pass. */
    method ParseString() returns (r: Option<string>)
      requires pos <= |text|
      modifies this
      ensures Agrees(r, pos, S.ParseString(text, old(pos)))
    {
      hide Unescape;
      if S.Peek(text, pos) != QUOTE {
        return None;
      }
      pos := pos + 1;
      var from := pos;
      var escState, escActive, closed := false, 0, false;
      while !closed
        invariant from <= pos <= |text| && (closed ==> pos > from)
        invariant if closed then S.Scan(text, from, false, false) == S.Done(escActive > 0, pos - 1)
                  else S.Scan(text, from, false, false) == S.Scan(text, pos, escState, escActive > 0)
        decreases |text| - pos, !closed
      {
        var ch := S.Peek(text, pos);
        if ch == '\0' {
          return None;
        } else if ch == SLASH {
          escState := !escState;
        } else if ch == QUOTE && !escState {
          closed := true;
        } else if escState {
          escState := false;
          escActive := escActive + 1;
        }
        pos := pos + 1;
      }
      var out := text[from..pos - 1];
      if escActive > 0 {
        r := UndoEscapes(out);
      } else {
        r := Some(out);
      }
    }

    method ParseValue() returns (r: Option<Value>)
      requires pos <= |text|
      modifies this
      ensures Agrees(r, pos, S.ParseValue(text, old(pos)))
      decreases |text| - pos, 2
    {
      hide S.ParseObject, S.ParseArray, S.ParseString, S.ParseNumber, S.SkipBlank;
      SkipBlanks();
      var ch := S.Peek(text, pos);
      if ch == '{' {
        r := ParseObject();
      } else if ch == '[' {
        r := ParseArray();
      } else if ch == QUOTE {
        var s := ParseString();
        r := if s.Some? then Some(S.Str(s.value)) else None;
      } else if ch == '-' || S.IsDigit(ch) {
        r := ParseNumber();
      } else {
        r := ParseWord();
      }
    }

    /** true, false or null. */
    method ParseWord() returns (r: Option<Value>)
      requires pos <= |text|
      modifies this
      ensures r == if S.Token(text, old(pos), "true") then Some(S.Num(1))
                   else if S.Token(text, old(pos), "false") || S.Token(text, old(pos), "null") then Some(S.Num(0))
                   else None
      ensures pos == if S.Token(text, old(pos), "true") then old(pos) + 4
                     else if S.Token(text, old(pos), "false") then old(pos) + 5
                     else if S.Token(text, old(pos), "null") then old(pos) + 4 else old(pos)
    {
      var at := AtToken("true");
      if at {
        pos := pos + 4;
        return Some(S.Num(1));
      }
      at := AtToken("false");
      if at {
        pos := pos + 5;
        return Some(S.Num(0));
      }
      at := AtToken("null");
      if at {
        pos := pos + 4;
        return Some(S.Num(0));
      }
      return None;
    }

    method ParseArray() returns (r: Option<Value>)
      requires pos < |text|
      modifies this
      ensures Agrees(r, pos, S.ParseArray(text, old(pos)))
      decreases |text| - pos, 1
    {
      hide S.ParseItems;
      pos := pos + 1;
      if S.Peek(text, pos) == ']' {
        pos := pos + 1;
        return Some(S.Arr([]));
      }
      var items := ParseItems();
      r := if items.Some? then Some(S.Arr(items.value)) else None;
    }

    /** The loop over the elements of an array. */
    method ParseItems() returns (r: Option<seq<Value>>)
      requires pos <= |text|
      modifies this
      ensures Agrees(r, pos, S.ParseItems(text, old(pos)))
      decreases |text| - pos, 4
    {
      hide S.ParseValue, S.SkipBlank;
      var out: seq<Value>, done := [], false;
      BehindNothing(S.ParseItems(text, pos));
      while !done
        invariant old(pos) <= pos <= |text|
        invariant S.ParseItems(text, old(pos)) == if done then S.Done(out, pos) else Behind(out, S.ParseItems(text, pos))
        decreases |text| - pos, !done
      {
        var value := ParseValue();
        if value.None? {
          return None;
        }
        SkipBlanks();
        var ch := S.Peek(text, pos);
        if ch == ']' {
          done := true;
        } else if ch != ',' {
          return None;
        }
        pos := pos + 1;
        BehindMore(out, value.value, S.ParseItems(text, pos));
        out := out + [value.value];
      }
      r := Some(out);
    }

    method ParseObject() returns (r: Option<Value>)
      requires pos < |text|
      modifies this
      ensures Agrees(r, pos, S.ParseObject(text, old(pos)))
      decreases |text| - pos, 1
    {
      hide S.ParseFields;
      pos := pos + 1;
      if S.Peek(text, pos) == '}' {
        pos := pos + 1;
        return Some(S.Obj(map[]));
      }
      var fields := ParseFields();
      r := if fields.Some? then Some(S.Obj(fields.value)) else None;
    }

    /** The loop over the fields of an object. */
    method ParseFields() returns (r: Option<map<string, Value>>)
      requires pos <= |text|
      modifies this
      ensures Agrees(r, pos, S.ParseFields(text, old(pos), map[]))
      decreases |text| - pos, 4
    {
      hide S.ParseField, S.SkipBlank;
      var out: map<string, Value>, done := map[], false;
      while !done
        invariant old(pos) <= pos <= |text|
        invariant S.ParseFields(text, old(pos), map[]) == if done then S.Done(out, pos) else S.ParseFields(text, pos, out)
        decreases |text| - pos, !done
      {
        var field := ParseField();
        if field.None? {
          return None;
        }
        SkipBlanks();
        var ch := S.Peek(text, pos);
        if ch == '}' {
          done := true;
        } else if ch != ',' {
          return None;
        }
        pos := pos + 1;
        out := out[field.value.0 := field.value.1];
      }
      r := Some(out);
    }

    /** A key, a colon and a value. */
    method ParseField() returns (r: Option<(string, Value)>)
      requires pos <= |text|
      modifies this
      ensures Agrees(r, pos, S.ParseField(text, old(pos)))
      decreases |text| - pos, 3
    {
      hide S.ParseValue, S.SkipBlank, S.ParseString;
      SkipBlanks();
      var key := ParseString();
      if key.None? {
        return None;
      }
      SkipBlanks();
      if S.Peek(text, pos) != ':' {
        return None;
      }
      pos := pos + 1;
      var value := ParseValue();
      r := if value.Some? then Some((key.value, value.value)) else None;
    }
  }

  /** The elements read so far in front of the rest. */
  function Behind(out: seq<Value>, rest: S.Parsed<seq<Value>>): S.Parsed<seq<Value>>
  {
    if rest.Done? then S.Done(out + rest.value, rest.pos) else S.Fail
  }

  lemma BehindNothing(rest: S.Parsed<seq<Value>>)
    ensures Behind([], rest) == rest
  {
    if rest.Done? { assert [] + rest.value == rest.value; }
  }

  lemma BehindMore(out: seq<Value>, v: Value, rest: S.Parsed<seq<Value>>)
    ensures Behind(out, Behind([v], rest)) == Behind(out + [v], rest)
  {
    if rest.Done? { assert out + ([v] + rest.value) == out + [v] + rest.value; }
  }
}
