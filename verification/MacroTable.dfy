/**
 The definition table of the preprocessor: 128 hash chains, newest entry first,
 in which an undefined macro stays behind as a tombstone.
 */
module MacroTable {
  import opened Wrappers

  const DEFHASH: nat := 128

  /** One entry; `undefined`, `predef` and `notLocal` are the flag bits. */
  datatype Defn = Defn(name: string, exps: string, nargs: int, undefined: bool, predef: bool, notLocal: bool)

  // ----------------------------------------------------------------- the hash

  /** The value of a character read through a signed 8-bit char. */
  function SignedChar(c: char): int
  {
    var b := c as int % 0x100;
    if b < 0x80 then b else b - 0x100
  }

  /** whashstr: at most 100 characters, in 64-bit unsigned arithmetic. */
  function HashFrom(s: string, i: nat, h: int): int
    decreases |s|
  {
    if s == "" || i >= 100 then h
    else HashFrom(s[1..], i + 1, (37 * h + SignedChar(s[0])) % 0x1_0000_0000_0000_0000)
  }

  /** The chain of a name: the hash cut to 32 bits and masked. */
  function Slot(name: string): (h: nat)
    ensures h < DEFHASH
  {
    HashFrom(name, 0, 0) % 0x1_0000_0000 % DEFHASH
  }

  // ------------------------------------------------------------ macro bodies

  predicate IsSpace(c: char) { c == ' ' || '\t' <= c <= '\r' }

  function TrimLeft(s: string): (r: string)
    ensures r == "" || !IsSpace(r[0])
  {
    if s != "" && IsSpace(s[0]) then TrimLeft(s[1..]) else s
  }

  function TrimRight(s: string): (r: string)
    ensures r <= s && (r == "" || !IsSpace(r[|r| - 1]))
  {
    if s != "" && IsSpace(s[|s| - 1]) then TrimRight(s[..|s| - 1]) else s
  }

  function Trim(s: string): string { TrimRight(TrimLeft(s)) }

  /** A body may neither begin nor end with the paste operator. */
  predicate BadBody(s: string)
  {
    (|s| >= 2 && s[0] == '#' && s[1] == '#') || (|s| > 2 && s[|s| - 2] == '#' && s[|s| - 1] == '#')
  }

  // ------------------------------------------------- the table as a plain map

  datatype Macro = Macro(nargs: int, exps: string, predef: bool)

  type Macros = map<string, Macro>

  /** None means that the preprocessor stops with an error. */
  function DefineMacro(m: Macros, name: string, nargs: int, exps: string): Option<Macros>
  {
    if BadBody(Trim(exps)) || (name in m && m[name].predef) then None
    else Some(m[name := Macro(nargs, Trim(exps), false)])
  }

  /** What the entries, tombstones included, mean. */
  function Meant(entries: map<string, Defn>): Macros
  {
    map n | n in entries && !entries[n].undefined :: Macro(entries[n].nargs, entries[n].exps, entries[n].predef)
  }

  // -------------------------------------------------------------------- chains

  function FindDefn(chain: seq<Defn>, name: string): Option<Defn>
  {
    if chain == [] then None
    else if chain[0].name == name then Some(chain[0])
    else FindDefn(chain[1..], name)
  }

  /** Changing the entry found for d.name changes what is found for that name only. */
  lemma {:induction false} FindAfterUpdate(chain: seq<Defn>, i: nat, d: Defn, name: string)
    requires i < |chain| && chain[i].name == d.name
    requires forall j :: 0 <= j < i ==> chain[j].name != d.name
    ensures FindDefn(chain[i := d], name) == if name == d.name then Some(d) else FindDefn(chain, name)
    ensures FindDefn(chain, d.name) == Some(chain[i])
    decreases i
  {
    if i > 0 {
      assert chain[i := d][1..] == chain[1..][i - 1 := d];
      FindAfterUpdate(chain[1..], i - 1, d, name);
    } else {
      assert chain[0 := d][1..] == chain[1..];
    }
  }

  lemma {:induction false} NotFound(chain: seq<Defn>, name: string)
    requires forall j :: 0 <= j < |chain| ==> chain[j].name != name
    ensures FindDefn(chain, name) == None
  {
    if chain != [] { NotFound(chain[1..], name); }
  }

  class DefTable {
    const defns: array<seq<Defn>>
    ghost var entries: map<string, Defn>

    ghost predicate Valid()
      reads this, defns
    {
      && defns.Length == DEFHASH
      && (forall n :: FindDefn(defns[Slot(n)], n) == if n in entries then Some(entries[n]) else None)
      && (forall n :: n in entries ==> entries[n].name == n && Trim(entries[n].exps) == entries[n].exps)
    }

    /** What the table answers, as a plain map. */
    ghost function Macros(): Macros
      reads this
    {
      Meant(entries)
    }

    /** What the chain of a name holds for it, tombstones left out. */
    function Answer(name: string): Option<Macro>
      requires defns.Length == DEFHASH
      reads defns
    {
      var d := FindDefn(defns[Slot(name)], name);
      if d.None? || d.value.undefined then None
      else Some(Macro(d.value.nargs, d.value.exps, d.value.predef))
    }

    /** The chains answer as the plain map, name by name. */
    lemma AnswersAsMap(name: string)
      requires Valid()
      ensures Answer(name) == if name in Macros() then Some(Macros()[name]) else None
    {
      hide Slot, FindDefn;
      MeantMacro(entries, name);
    }

    constructor ()
      ensures Valid() && fresh(defns) && Macros() == map[]
    {
      defns := new seq<Defn>[DEFHASH](_ => []);
      entries := map[];
    }

    /** The position of the name in its chain. */
    method LookupDefinition(name: string) returns (p: Option<nat>)
      requires Valid()
      ensures p.None? <==> name !in entries
      ensures p.Some? ==> p.value < |defns[Slot(name)]| && defns[Slot(name)][p.value] == entries[name]
      ensures p.Some? ==> forall j :: 0 <= j < p.value ==> defns[Slot(name)][j].name != name
    {
      var chain := defns[Slot(name)];
      var i := 0;
      while i < |chain|
        invariant 0 <= i <= |chain|
        invariant forall j :: 0 <= j < i ==> chain[j].name != name
      {
        if chain[i].name == name {
          FindAfterUpdate(chain, i, chain[i], name);
          return Some(i);
        }
        i := i + 1;
      }
      NotFound(chain, name);
      return None;
    }

    method LookupDefine(name: string) returns (defined: bool)
      requires Valid()
      ensures defined <==> name in Macros()
    {
      var p := LookupDefinition(name);
      if p.Some? && defns[Slot(name)][p.value].undefined {
        return false;
      }
      return p.Some?;
    }

    /** Overwrite the entry at position i of its chain. */
    method Update(i: nat, d: Defn)
      requires Valid() && i < |defns[Slot(d.name)]| && defns[Slot(d.name)][i].name == d.name
      requires forall j :: 0 <= j < i ==> defns[Slot(d.name)][j].name != d.name
      requires Trim(d.exps) == d.exps
      modifies this`entries, defns
      ensures Valid() && entries == old(entries)[d.name := d]
    {
      ghost var chain := defns[Slot(d.name)];
      defns[Slot(d.name)] := defns[Slot(d.name)][i := d];
      entries := entries[d.name := d];
      forall n ensures FindDefn(defns[Slot(n)], n) == if n in entries then Some(entries[n]) else None {
        if Slot(n) == Slot(d.name) { FindAfterUpdate(chain, i, d, n); }
      }
    }

    /** Put a new entry at the front of its chain. */
    method Prepend(d: Defn)
      requires Valid() && d.name !in entries && Trim(d.exps) == d.exps
      modifies this`entries, defns
      ensures Valid() && entries == old(entries)[d.name := d]
    {
      ghost var chain := defns[Slot(d.name)];
      defns[Slot(d.name)] := [d] + defns[Slot(d.name)];
      entries := entries[d.name := d];
      forall n ensures FindDefn(defns[Slot(n)], n) == if n in entries then Some(entries[n]) else None {
        assert ([d] + chain)[1..] == chain;
      }
    }

    /** Enter a checked body: new, in place of a tombstone, or as a redefinition. */
    method Enter(name: string, nargs: int, left: string, body: string) returns (ok: bool)
      requires Valid() && body == TrimRight(left) && Trim(body) == body
      modifies this`entries, defns
      ensures Valid()
      ensures ok <==> !(name in old(entries) && !old(entries)[name].undefined && old(entries)[name].predef)
      ensures !ok ==> entries == old(entries)
      ensures ok ==> exists d :: entries == old(entries)[name := d] && IsLive(d, name, nargs, body)
    {
      hide Slot, FindDefn, Trim, TrimRight;
      var p := LookupDefinition(name);
      if p.None? {
        var d := Defn(name, body, nargs, false, false, false);
        Prepend(d);
        assert IsLive(d, name, nargs, body);
        return true;
      }
      var d := defns[Slot(name)][p.value];
      if d.undefined {
        d := Defn(name, body, nargs, false, false, false);
      } else {
        if d.predef {
          return false;
        }
        if nargs != d.nargs || left != d.exps {
          d := d.(exps := body, nargs := nargs);
        } else {
          TrimmedStays(left);
        }
        d := d.(notLocal := false);
      }
      Update(p.value, d);
      assert IsLive(d, name, nargs, body);
      return true;
    }

    method AddDefine(name: string, nargs: int, exps: string) returns (ok: bool)
      requires Valid()
      modifies this`entries, defns
      ensures Valid()
      ensures var m := DefineMacro(old(Macros()), name, nargs, exps);
        if m.Some? then ok && Macros() == m.value && name in entries else !ok && entries == old(entries)
    {
      hide Valid, Slot, FindDefn, TrimRight, TrimLeft, Meant;
      var left := TrimLeft(exps);
      var body := TrimRight(left);
      TrimIdempotent(exps);
      HashCheck(left);
      MeantMacro(entries, name);
      if |left| >= 2 && left[0] == '#' && left[1] == '#' {
        return false;
      }
      if |body| > 2 && body[|body| - 2] == '#' && body[|body| - 1] == '#' {
        return false;
      }
      ghost var before := entries;
      ok := Enter(name, nargs, left, body);
      if ok {
        ghost var d :| entries == before[name := d] && IsLive(d, name, nargs, body);
        MeantUpdate(before, d);
      }
    }

    /** Leave a tombstone. */
    method Undef(name: string)
      requires Valid()
      modifies this`entries, defns
      ensures Valid() && Macros() == old(Macros()) - {name}
    {
      hide Slot, FindDefn, Meant, Trim;
      var p := LookupDefinition(name);
      ghost var m := Macros();
      if p.None? {
        MeantMacro(entries, name);
        BlankBody();
        var ok := AddDefine(name, -1, " ");
        assert Macros() - {name} == m - {name};
        p := LookupDefinition(name);
      }
      var d := defns[Slot(name)][p.value].(undefined := true, notLocal := false);
      MeantUpdate(entries, d);
      Update(p.value, d);
    }
  }

  predicate IsLive(d: Defn, name: string, nargs: int, body: string)
  {
    d.name == name && d.exps == body && d.nargs == nargs && !d.undefined && !d.predef
  }

  lemma MeantUpdate(entries: map<string, Defn>, d: Defn)
    ensures Meant(entries[d.name := d]) == if d.undefined then Meant(entries) - {d.name}
                                           else Meant(entries)[d.name := Macro(d.nargs, d.exps, d.predef)]
  {
  }

  lemma MeantMacro(entries: map<string, Defn>, name: string)
    ensures name in Meant(entries) <==> name in entries && !entries[name].undefined
    ensures name in Meant(entries) ==> Meant(entries)[name].predef == entries[name].predef
  {
  }

  lemma BlankBody()
    ensures !BadBody(Trim(" "))
  {
    assert TrimLeft(" ") == TrimLeft("") == "";
    assert Trim(" ") == "";
  }

  lemma TrimmedStays(left: string)
    requires Trim(left) == left
    ensures TrimRight(left) == left
  {
    TrimLeftShorter(left);
  }

  lemma {:induction false} TrimLeftShorter(s: string)
    ensures |TrimLeft(s)| < |s| || TrimLeft(s) == s
  {
    if s != "" && IsSpace(s[0]) { TrimLeftShorter(s[1..]); }
  }

  lemma {:induction false} TrimRightKeeps(s: string)
    requires s != "" && !IsSpace(s[0])
    ensures TrimRight(s) != "" && TrimRight(s)[0] == s[0]
    ensures |s| >= 2 && !IsSpace(s[1]) ==> |TrimRight(s)| >= 2 && TrimRight(s)[1] == s[1]
  {
    if IsSpace(s[|s| - 1]) { TrimRightKeeps(s[..|s| - 1]); }
  }

  /** Blanks of any kind. */
  predicate IsBlank(s: string)
  {
    forall i :: 0 <= i < |s| ==> s[i] in [' ', '\t', '\n', '\U{000B}', '\U{000C}', '\r']
  }

  /** Empty, or without a blank at either end. */
  predicate IsBody(s: string)
  {
    s == "" || (!IsBlank([s[0]]) && !IsBlank([s[|s| - 1]]))
  }

  lemma BlankIsSpace(c: char)
    ensures IsSpace(c) <==> IsBlank([c])
  {
    assert [c][0] == c;
  }

  lemma {:induction false} TrimsFront(a: string, s: string)
    requires IsBlank(a) && (s == "" || !IsBlank([s[0]]))
    ensures TrimLeft(a + s) == s
  {
    if a == "" {
      assert a + s == s;
      if s != "" { BlankIsSpace(s[0]); }
    } else {
      assert (a + s)[0] == a[0] && (a + s)[1..] == a[1..] + s && IsSpace(a[0]);
      TrimsFront(a[1..], s);
    }
  }

  lemma {:induction false} TrimsEnd(s: string, b: string)
    requires IsBlank(b) && (s == "" || !IsBlank([s[|s| - 1]]))
    ensures TrimRight(s + b) == s
  {
    if b == "" {
      assert s + b == s;
      if s != "" { BlankIsSpace(s[|s| - 1]); }
    } else {
      var n := |b| - 1;
      assert (s + b)[|s + b| - 1] == b[n] && (s + b)[..|s + b| - 1] == s + b[..n] && IsSpace(b[n]);
      TrimsEnd(s, b[..n]);
    }
  }

  /** Exactly the blanks around a body are trimmed off, and none inside it. */
  lemma TrimIs(a: string, s: string, b: string)
    requires IsBlank(a) && IsBlank(b) && IsBody(s)
    ensures Trim(a + s + b) == s
  {
    if s == "" {
      assert a + s + b == a + b && a + b + "" == a + b;
      forall i | 0 <= i < |a + b| ensures (a + b)[i] in [' ', '\t', '\n', '\U{000B}', '\U{000C}', '\r'] {}
      TrimsFront(a + b, "");
      TrimsEnd("", "");
    } else {
      assert a + s + b == a + (s + b) && (s + b)[0] == s[0];
      TrimsFront(a, s + b);
      TrimsEnd(s, b);
    }
  }

  /** Two number signs at either end of a body are an error, at the end only behind
      something else. */
  predicate PastesAtEnd(s: string)
  {
    "##" <= s || (|s| > 2 && s[|s| - 2..] == "##")
  }

  /** What a definition does to the map, for a body with blanks around it. */
  lemma DefinesBody(m: Macros, name: string, nargs: int, a: string, s: string, b: string)
    requires IsBlank(a) && IsBlank(b) && IsBody(s)
    ensures DefineMacro(m, name, nargs, a + s + b) ==
      if PastesAtEnd(s) || (name in m && m[name].predef) then None
      else Some(m[name := Macro(nargs, s, false)])
  {
    TrimIs(a, s, b);
  }

  lemma TrimIdempotent(s: string)
    ensures Trim(Trim(s)) == Trim(s)
  {
    var l := TrimLeft(s);
    if l != "" { TrimRightKeeps(l); }
  }

  /** The check at the start of a body gives the same answer before and after the
      trailing blanks have been cut off. */
  lemma HashCheck(left: string)
    requires left == "" || !IsSpace(left[0])
    ensures (|left| >= 2 && left[0] == '#' && left[1] == '#')
       <==> (|TrimRight(left)| >= 2 && TrimRight(left)[0] == '#' && TrimRight(left)[1] == '#')
  {
    if left != "" { TrimRightKeeps(left); }
  }
}
