/**
 Driver values as JSON trees and back.  A tree tags every value with its type; a
 mapping becomes an array of entries, in the order its buckets happen to be walked.
 */
module Svalues {
  import opened Wrappers

  // ------------------------------------------------------------------- the values

  /** LPC numbers have 64 bits. */
  type Int64 = n: int | -0x8000_0000_0000_0000 <= n < 0x8000_0000_0000_0000

  /** Driver strings end at the first zero. */
  type CString = s: string | '\0' !in s

  datatype Key = NumKey(n: Int64) | StrKey(s: CString)

  /** Foreign stands for objects, buffers, values of no known type, and mappings with
      keys of other types. */
  datatype Value =
    | Num(n: Int64)
    | Real(r: real)
    | Str(s: CString)
    | Arr(items: seq<Value>)
    | Class(items: seq<Value>)
    | Map(entries: map<Key, Value>)
    | Foreign

  datatype Json =
    | JNull
    | JBool(b: bool)
    | JInt(n: int)
    | JFloat(r: real)
    | JString(s: string)
    | JArray(items: seq<Json>)
    | JObject(fields: map<string, Json>)

  // ------------------------------------------------------------------ type names

  datatype Kind = TString | TNumber | TReal | TArray | TClass | TMapping | TObject | TBuffer | TInvalid

  function TypeName(kind: Kind): string
  {
    match kind
    case TString => "string"
    case TNumber => "number"
    case TReal => "float"
    case TArray => "array"
    case TClass => "class"
    case TMapping => "mapping"
    case TObject => "object"
    case TBuffer => "buffer"
    case TInvalid => "unknown"
  }

  function NamedType(name: string): Kind
  {
    if name == "string" then TString
    else if name == "number" then TNumber
    else if name == "float" then TReal
    else if name == "array" then TArray
    else if name == "class" then TClass
    else if name == "mapping" then TMapping
    else if name == "object" then TObject
    else if name == "buffer" then TBuffer
    else TInvalid
  }

  /** The names are those of exactly one type each. */
  lemma NamesReadBack(kind: Kind, name: string)
    ensures NamedType(TypeName(kind)) == kind
    ensures NamedType(name) == kind && kind != TInvalid ==> name == TypeName(kind)
  {
    // Sequences of different lengths, or different first characters.
    assert TypeName(TString)[2] == 'r' && TypeName(TNumber)[2] == 'm' && TypeName(TObject)[2] == 'j';
    assert TypeName(TBuffer)[2] == 'f' && TypeName(TReal)[0] == 'f' && TypeName(TArray)[0] == 'a';
    assert TypeName(TClass)[0] == 'c' && TypeName(TMapping)[0] == 'm' && TypeName(TInvalid)[0] == 'u';
  }

  function KindOf(v: Value): Kind
    requires !v.Foreign?
  {
    match v
    case Num(_) => TNumber
    case Real(_) => TReal
    case Str(_) => TString
    case Arr(_) => TArray
    case Class(_) => TClass
    case Map(_) => TMapping
  }

  // --------------------------------------------------------------------- writing

  function Node(kind: Kind, value: Json): Json
  {
    JObject(map["type" := JString(TypeName(kind)), "value" := value])
  }

  function KeyValue(k: Key): Value
  {
    match k case NumKey(n) => Num(n) case StrKey(s) => Str(s)
  }

  function Entry(key: Json, value: Json): Json
  {
    JObject(map["key" := key, "value" := value])
  }

  /** A mapping's keys in some order, each once. */
  ghost predicate Walks(ks: seq<Key>, m: map<Key, Value>)
  {
    && (forall k :: k in ks <==> k in m)
    && forall i, j :: 0 <= i < j < |ks| ==> ks[i] != ks[j]
  }

  ghost predicate Writable(v: Value)
  {
    match v
    case Foreign => false
    case Arr(items) => forall i :: 0 <= i < |items| ==> Writable(items[i])
    case Class(items) => forall i :: 0 <= i < |items| ==> Writable(items[i])
    case Map(entries) => forall k :: k in entries ==> Writable(entries[k])
    case _ => true
  }

  /** j is one of the trees the value may be written as: which one depends on the
      walks of the mappings in it, and two equal mappings may be walked differently. */
  ghost predicate Written(v: Value, j: Json)
    decreases v, 1
  {
    !v.Foreign? && exists value :: j == Node(KindOf(v), value) && WrittenAs(v, value)
  }

  ghost predicate WrittenAs(v: Value, value: Json)
    requires !v.Foreign?
    decreases v, 0
  {
    match v
    case Num(n) => value == JInt(n)
    case Real(r) => value == JFloat(r)
    case Str(s) => value == JString(s)
    case Arr(items) => value.JArray? && |value.items| == |items| && forall i :: 0 <= i < |items| ==> Written(items[i], value.items[i])
    case Class(items) => value.JArray? && |value.items| == |items| && forall i :: 0 <= i < |items| ==> Written(items[i], value.items[i])
    case Map(_) => value.JArray? && exists ks :: Walks(ks, v.entries) && WrittenEntries(v, ks, value.items)
  }

  ghost predicate WrittenEntries(v: Value, ks: seq<Key>, es: seq<Json>)
    requires v.Map? && forall k :: k in ks ==> k in v.entries
    decreases v, 0, 1
  {
    |es| == |ks| && forall i :: 0 <= i < |ks| ==> WrittenEntry(v, ks[i], es[i])
  }

  ghost predicate WrittenEntry(v: Value, k: Key, e: Json)
    requires v.Map? && k in v.entries
    decreases v, 0, 0
  {
    exists value :: e == Entry(KeyJson(k), value) && Written(v.entries[k], value)
  }

  function KeyJson(k: Key): Json
  {
    match k case NumKey(n) => Node(TNumber, JInt(n)) case StrKey(s) => Node(TString, JString(s))
  }

  // --------------------------------------------------------------------- reading

  /** The cast to a 64-bit number. */
  function Wrap(n: int): Int64
  {
    (n + 0x8000_0000_0000_0000) % 0x1_0000_0000_0000_0000 - 0x8000_0000_0000_0000
  }

  function CutAtZero(s: string): (c: CString)
  {
    if s == "" || s[0] == '\0' then "" else [s[0]] + CutAtZero(s[1..])
  }

  /** The value of a tree; None is an exception, which is also what a tree without a
      type, or an entry without a key or a value, ends in. */
  function FromJson(j: Json): Option<Value>
  {
    if !j.JObject? || "type" !in j.fields || !j.fields["type"].JString? then None
    else
      var value := if "value" in j.fields then j.fields["value"] else JNull;
      match NamedType(j.fields["type"].s)
      case TNumber => if value.JInt? then Some(Num(Wrap(value.n))) else None
      case TReal => if value.JFloat? then Some(Real(value.r)) else None
      case TString => if value.JString? then Some(Str(CutAtZero(value.s))) else None
      case TClass =>
        if !value.JArray? then None
        else var items := FromItems(value.items); if items.None? then None else Some(Class(items.value))
      case TArray =>
        if !value.JArray? then None
        else var items := FromItems(value.items); if items.None? then None else Some(Arr(items.value))
      case TMapping =>
        if !value.JArray? then None
        else var pairs := FromEntries(value.items); if pairs.None? then None else Some(MakeMapping(pairs.value))
      case TBuffer => if value.JString? then Some(Foreign) else None
      case TObject => Some(Foreign)
      case TInvalid => Some(Foreign)
  }

  function FromItems(items: seq<Json>): Option<seq<Value>>
  {
    if items == [] then Some([])
    else
      var first := FromJson(items[0]);
      var rest := FromItems(items[1..]);
      if first.None? || rest.None? then None else Some([first.value] + rest.value)
  }

  function FromEntries(es: seq<Json>): Option<seq<(Value, Value)>>
  {
    if es == [] then Some([])
    else
      var first := FromEntry(es[0]);
      var rest := FromEntries(es[1..]);
      if first.None? || rest.None? then None else Some([first.value] + rest.value)
  }

  function FromEntry(e: Json): Option<(Value, Value)>
  {
    if !e.JObject? || "key" !in e.fields || "value" !in e.fields then None
    else
      var key := FromJson(e.fields["key"]);
      var value := FromJson(e.fields["value"]);
      if key.None? || value.None? then None else Some((key.value, value.value))
  }

  predicate IsKey(v: Value) { v.Num? || v.Str? }

  function KeyOf(v: Value): Key
    requires IsKey(v)
  {
    match v case Num(n) => NumKey(n) case Str(s) => StrKey(s)
  }

  /** The pairs are entered one after the other. */
  function MakeMapping(pairs: seq<(Value, Value)>): Value
  {
    if forall i :: 0 <= i < |pairs| ==> IsKey(pairs[i].0) then Map(Entered(pairs)) else Foreign
  }

  function Entered(pairs: seq<(Value, Value)>): map<Key, Value>
    requires forall i :: 0 <= i < |pairs| ==> IsKey(pairs[i].0)
  {
    if pairs == [] then map[]
    else
      var last := pairs[|pairs| - 1];
      Entered(pairs[..|pairs| - 1])[KeyOf(last.0) := last.1]
  }

  // ------------------------------------------------------------------ round trip

  lemma CutWhole(s: CString)
    ensures CutAtZero(s) == s
  {
  }

  lemma KeyReads(k: Key)
    ensures FromJson(KeyJson(k)) == Some(KeyValue(k)) && IsKey(KeyValue(k)) && KeyOf(KeyValue(k)) == k
  {
    NamesReadBack(TNumber, "");
    NamesReadBack(TString, "");
    if k.StrKey? { CutWhole(k.s); }
  }

  /** Whatever order the mappings were walked in, the tree reads back as the value. */
  lemma {:induction false} RoundTrip(v: Value, j: Json)
    requires Written(v, j)
    ensures FromJson(j) == Some(v)
    decreases v, 1, 0
  {
    var value :| j == Node(KindOf(v), value) && WrittenAs(v, value);
    NamesReadBack(KindOf(v), "");
    assert j.fields["type"].s == TypeName(KindOf(v)) && j.fields["value"] == value;
    match v
    case Str(s) => CutWhole(s);
    case Arr(items) => ItemsRead(v, items, value.items);
    case Class(items) => ItemsRead(v, items, value.items);
    case Map(_) => MappingReads(v, value.items);
    case _ =>
  }

  lemma {:induction false} MappingReads(v: Value, es: seq<Json>)
    requires v.Map? && WrittenAs(v, JArray(es))
    ensures FromEntries(es).Some? && MakeMapping(FromEntries(es).value) == v
    decreases v, 0, |es| + 1
  {
    hide WrittenEntries, FromEntries, MakeMapping, PairsOf;
    var ks :| Walks(ks, v.entries) && WrittenEntries(v, ks, es);
    assert |ks| == |es| by { AsMany(v, ks, es); }
    var pairs := EntriesRead(v, ks, es);
    AllEntered(v, ks, pairs);
  }

  lemma AsMany(v: Value, ks: seq<Key>, es: seq<Json>)
    requires v.Map? && (forall k :: k in ks ==> k in v.entries) && WrittenEntries(v, ks, es)
    ensures |ks| == |es|
  {
  }

  lemma {:induction false} ItemsRead(v: Value, items: seq<Value>, js: seq<Json>)
    requires |items| == |js| && forall i :: 0 <= i < |items| ==> items[i] < v && Written(items[i], js[i])
    ensures FromItems(js) == Some(items)
    decreases v, 0, |items|
  {
    if items != [] {
      RoundTrip(items[0], js[0]);
      ItemsRead(v, items[1..], js[1..]);
      assert items == [items[0]] + items[1..];
    }
  }

  ghost predicate PairsOf(v: Value, ks: seq<Key>, pairs: seq<(Value, Value)>)
    requires v.Map?
  {
    |pairs| == |ks| && forall i :: 0 <= i < |ks| ==> ks[i] in v.entries && pairs[i] == (KeyValue(ks[i]), v.entries[ks[i]])
  }

  lemma {:induction false} EntriesRead(v: Value, ks: seq<Key>, es: seq<Json>) returns (pairs: seq<(Value, Value)>)
    requires v.Map? && (forall k :: k in ks ==> k in v.entries) && WrittenEntries(v, ks, es)
    ensures FromEntries(es) == Some(pairs) && PairsOf(v, ks, pairs)
    decreases v, 0, |ks|
  {
    hide FromEntry, WrittenEntry;
    pairs := [];
    if ks != [] {
      EntryReads(v, ks[0], es[0]);
      pairs := EntriesRead(v, ks[1..], es[1..]);
      pairs := [(KeyValue(ks[0]), v.entries[ks[0]])] + pairs;
    }
  }

  lemma {:induction false} EntryReads(v: Value, k: Key, e: Json)
    requires v.Map? && k in v.entries && WrittenEntry(v, k, e)
    ensures FromEntry(e) == Some((KeyValue(k), v.entries[k]))
    decreases v, 0, 0
  {
    var value :| e == Entry(KeyJson(k), value) && Written(v.entries[k], value);
    hide FromJson, KeyJson, Written, KeyValue;
    KeyReads(k);
    RoundTrip(v.entries[k], value);
  }

  /** Entered in any order, each key once, the pairs make the mapping again. */
  lemma AllEntered(v: Value, ks: seq<Key>, pairs: seq<(Value, Value)>)
    requires v.Map? && Walks(ks, v.entries) && PairsOf(v, ks, pairs)
    ensures MakeMapping(pairs) == v
  {
    EnteredKeys(v, ks, pairs);
    assert Entered(pairs) == v.entries;
  }

  lemma {:induction false} EnteredKeys(v: Value, ks: seq<Key>, pairs: seq<(Value, Value)>)
    requires v.Map? && PairsOf(v, ks, pairs)
    ensures forall i :: 0 <= i < |pairs| ==> IsKey(pairs[i].0)
    ensures forall k :: k in Entered(pairs) <==> k in ks
    ensures forall k :: k in ks ==> Entered(pairs)[k] == v.entries[k]
  {
    forall i | 0 <= i < |pairs| ensures IsKey(pairs[i].0) { KeyReads(ks[i]); }
    if ks != [] {
      var n := |ks| - 1;
      EnteredKeys(v, ks[..n], pairs[..n]);
      KeyReads(ks[n]);
      assert ks == ks[..n] + [ks[n]];
    }
  }

  /** A tree belongs to one value only. */
  lemma WrittenOnce(u: Value, v: Value, j: Json)
    requires Written(u, j) && Written(v, j)
    ensures u == v
  {
    RoundTrip(u, j);
    RoundTrip(v, j);
  }

  // ------------------------------------------------------------------ the walks

  /** Write a value, walking each mapping in whatever order. */
  method ToJson(sv: Value) returns (j: Json)
    requires Writable(sv)
    ensures Written(sv, j)
    decreases sv, 1
  {
    var value;
    match sv {
      case Num(n) => value := JInt(n);
      case Str(s) => value := JString(s);
      case Real(r) => value := JFloat(r);
      case Class(items) => value := ItemsToJson(sv, items);
      case Arr(items) => value := ItemsToJson(sv, items);
      case Map(_) => value := EntriesToJson(sv);
    }
    j := Node(KindOf(sv), value);
    assert WrittenAs(sv, value);
  }

  method ItemsToJson(ghost sv: Value, items: seq<Value>) returns (arr: Json)
    requires forall i :: 0 <= i < |items| ==> items[i] < sv && Writable(items[i])
    ensures arr.JArray? && |arr.items| == |items| && forall i :: 0 <= i < |items| ==> Written(items[i], arr.items[i])
    decreases sv, 0
  {
    var js: seq<Json> := [];
    var i := 0;
    while i < |items|
      invariant 0 <= i <= |items| && |js| == i
      invariant forall k :: 0 <= k < i ==> Written(items[k], js[k])
    {
      var j := ToJson(items[i]);
      js := js + [j];
      i := i + 1;
    }
    arr := JArray(js);
  }

  method EntriesToJson(sv: Value) returns (items: Json)
    requires sv.Map? && Writable(sv)
    ensures WrittenAs(sv, items)
    decreases sv, 0
  {
    var es: seq<Json> := [];
    var rest := sv.entries.Keys;
    ghost var ks: seq<Key> := [];
    while rest != {}
      invariant rest <= sv.entries.Keys && Walked(sv, ks, rest) && WrittenEntries(sv, ks, es)
      decreases |rest|
    {
      var k :| k in rest;
      var key := KeyToJson(k);
      var value := ToJson(sv.entries[k]);
      OneMore(sv, ks, rest, es, k, value);
      es := es + [Entry(key, value)];
      ks := ks + [k];
      rest := rest - {k};
    }
    items := JArray(es);
    assert Walks(ks, sv.entries);
  }

  method KeyToJson(k: Key) returns (j: Json)
    ensures j == KeyJson(k)
  {
    match k {
      case NumKey(n) => j := Node(TNumber, JInt(n));
      case StrKey(s) => j := Node(TString, JString(s));
    }
  }

  ghost predicate Walked(v: Value, ks: seq<Key>, rest: set<Key>)
    requires v.Map?
  {
    && (forall k :: k in ks <==> k in v.entries && k !in rest)
    && forall i, j :: 0 <= i < j < |ks| ==> ks[i] != ks[j]
  }

  lemma OneMore(v: Value, ks: seq<Key>, rest: set<Key>, es: seq<Json>, k: Key, value: Json)
    requires v.Map? && Walked(v, ks, rest) && WrittenEntries(v, ks, es)
    requires k in rest && k in v.entries && Written(v.entries[k], value)
    ensures Walked(v, ks + [k], rest - {k}) && WrittenEntries(v, ks + [k], es + [Entry(KeyJson(k), value)])
  {
    hide Written;
    assert WrittenEntry(v, k, Entry(KeyJson(k), value));
  }

  /** Read a tree. */
  method ReadJson(j: Json) returns (sv: Option<Value>)
    ensures sv == FromJson(j)
    decreases j, 1
  {
    if !j.JObject? || "type" !in j.fields || !j.fields["type"].JString? { return None; }
    var value := if "value" in j.fields then j.fields["value"] else JNull;
    match NamedType(j.fields["type"].s) {
      case TNumber => if !value.JInt? { return None; } sv := Some(Num(Wrap(value.n)));
      case TReal => if !value.JFloat? { return None; } sv := Some(Real(value.r));
      case TString => if !value.JString? { return None; } sv := Some(Str(CutAtZero(value.s)));
      case TClass =>
        if !value.JArray? { return None; }
        var items := ReadItems(j, value.items);
        sv := if items.None? then None else Some(Class(items.value));
      case TArray =>
        if !value.JArray? { return None; }
        var items := ReadItems(j, value.items);
        sv := if items.None? then None else Some(Arr(items.value));
      case TMapping =>
        if !value.JArray? { return None; }
        var pairs := ReadEntries(j, value.items);
        sv := if pairs.None? then None else Some(MakeMapping(pairs.value));
      case TBuffer => sv := if value.JString? then Some(Foreign) else None;
      case TObject => sv := Some(Foreign);
      case TInvalid => sv := Some(Foreign);
    }
  }

  method ReadItems(ghost j: Json, items: seq<Json>) returns (r: Option<seq<Value>>)
    requires forall i :: 0 <= i < |items| ==> items[i] < j
    ensures r == FromItems(items)
    decreases j, 0
  {
    var arr: seq<Value> := [];
    var i := 0;
    assert items[0..] == items && items[|items|..] == [];
    AfterOne(arr, FromItems(items));
    while i < |items|
      invariant 0 <= i <= |items|
      invariant FromItems(items) == After(arr, FromItems(items[i..]))
    {
      var item := ReadJson(items[i]);
      assert items[i..][1..] == items[i + 1..];
      AfterOne(arr, FromItems(items[i + 1..]));
      if item.None? { return None; }
      arr := arr + [item.value];
      i := i + 1;
    }
    AfterOne(arr, Some([]));
    r := Some(arr);
  }

  function After<T>(done: seq<T>, rest: Option<seq<T>>): Option<seq<T>>
  {
    if rest.None? then None else Some(done + rest.value)
  }

  lemma AfterOne<T>(done: seq<T>, rest: Option<seq<T>>)
    ensures rest.Some? ==> forall x :: done + ([x] + rest.value) == done + [x] + rest.value
    ensures After([], rest) == rest && After(done, Some([])) == Some(done)
  {
    if rest.Some? {
      forall x ensures done + ([x] + rest.value) == done + [x] + rest.value {}
      assert [] + rest.value == rest.value;
    }
    assert done + [] == done;
  }

  method ReadEntries(ghost j: Json, es: seq<Json>) returns (r: Option<seq<(Value, Value)>>)
    requires forall i :: 0 <= i < |es| ==> es[i] < j
    ensures r == FromEntries(es)
    decreases j, 0
  {
    var pairs: seq<(Value, Value)> := [];
    var i := 0;
    assert es[0..] == es && es[|es|..] == [];
    AfterOne(pairs, FromEntries(es));
    while i < |es|
      invariant 0 <= i <= |es|
      invariant FromEntries(es) == After(pairs, FromEntries(es[i..]))
    {
      assert es[i..][1..] == es[i + 1..];
      AfterOne(pairs, FromEntries(es[i + 1..]));
      var e := es[i];
      if !e.JObject? || "key" !in e.fields || "value" !in e.fields { return None; }
      var key := ReadJson(e.fields["key"]);
      var value := ReadJson(e.fields["value"]);
      if key.None? || value.None? { return None; }
      pairs := pairs + [(key.value, value.value)];
      i := i + 1;
    }
    AfterOne(pairs, Some([]));
    r := Some(pairs);
  }

  /** The tags, as they stand in a tree. */
  lemma Tags(v: Value, j: Json)
    requires Written(v, j)
    ensures j.JObject? && j.fields.Keys == {"type", "value"} && j.fields["type"].JString?
    ensures j.fields["type"].s ==
      if v.Num? then "number" else if v.Real? then "float" else if v.Str? then "string"
      else if v.Arr? then "array" else if v.Class? then "class" else "mapping"
    ensures v.Num? ==> j.fields["value"] == JInt(v.n)
    ensures v.Real? ==> j.fields["value"] == JFloat(v.r)
    ensures v.Str? ==> j.fields["value"] == JString(v.s)
  {
    var value :| j == Node(KindOf(v), value) && WrittenAs(v, value);
  }
}
